# TaskManagementApi: task table and HTTP actions

A Dafny model of the logic of a small ASP.NET Core CRUD service for task records
(title, description, status, due date). Two layers are modelled:

- `TaskServices.TaskService` (Services/TaskService.cs): the `Tasks` table as a
  sequence of `TaskItem` records in insertion order, with create, lookup by key,
  update in place, delete, and the filtered, paged list query. Each operation
  returns a `Result`: a value, or the kind of exception the C# code throws
  (`NullArgument`, `InvalidArgument`, `InvalidOperation`, `StoreFailure`,
  `NullReference`). A `null` return becomes `None`.
- `TasksControllers.TasksController` (Controllers/TasksController.cs): the five
  actions. Each one runs its own front-door check, calls the service, and maps
  the outcome to a `Response` whose `StatusCode` is 200, 201, 204, 400, 404 or 500.

Modelling decisions:

- `TaskItem` is a datatype (`TaskItems`). `Status` is the three-value enum, and
  `NewTaskItem` leaves it at `Pending`, as the field initialiser does. `DueDate`
  is an integer tick count, and `0` stands for `default(DateTime)`. A null title
  counts as the empty string, as `string.IsNullOrEmpty` treats it.
- The store assigns keys from a counter `nextId`, like the in-memory provider's
  key generator. Keys are therefore positive, never reused, and strictly
  increasing along the table. `TaskService.Valid()` states this, and every
  operation keeps it.
- A commit (`SaveChangesAsync`) that fails is the boolean parameter `saveFails`.
  A failed commit leaves the table unchanged. Create wraps the failure in
  `InvalidOperationException` (`InvalidOperation`). Delete and update rethrow the
  original exception (`StoreFailure`).
- The update guard is modelled as written: `task == null && id <= 0`. A null task
  with a positive id passes it. The code then reads `task.Title` and fails with a
  null dereference (`NullReference`). A non-null valid task with `id <= 0` passes
  both checks and finds nothing, so the result is `None`.
- `Skip`/`Take` follow LINQ to Objects, where a negative count is treated as zero
  (`Clamp`). No precondition on `page` or `pageSize` is needed.
- An exception that an action does not catch reaches the ASP.NET Core host, which
  answers 500. So `PostTask` turns everything except `ArgumentNullException` into
  500, and `GetTask` does the same for everything except `ArgumentException`.
- The C# service is created once per request (Program.cs:18) over one in-memory
  database shared by all requests (Program.cs:17). The model's `TaskService` object
  stands for that database together with the service logic, and it lives across
  requests. Its constructor models the database's empty start.
- `TasksController.Valid()` adds an invariant that holds for records created
  through the controller: every stored record has a non-empty title and a
  non-default due date. `PostTask` checks this in the controller. `PutTask`
  relies on the service's own check.

## Model

| member | source | states |
|---|---|---|
| `TaskServices.IndexOf` | Services/TaskService.cs:62 | the position of the first record with the key, or none; if none, no record has that key |
| `TaskServices.Find` | Services/TaskService.cs:89 | `FindAsync`: a found record is in the table and has the key; nothing is found exactly when no record has the key |
| `TaskServices.IndexOfAt` | Services/TaskService.cs:62 | with increasing keys, lookup by a record's key finds that record's own position (keys are unique) |
| `TaskServices.Filter` | Services/TaskService.cs:97-105 | every record kept is from the table and has the requested status and a due date not after the requested one; the result is never longer than the table |
| `TaskServices.FilterComplete` | Services/TaskService.cs:97-105 | every table record that matches both filters is kept |
| `TaskServices.FilterAppend` | Services/TaskService.cs:95-105 | filtering distributes over concatenation, so matching records stay in store order |
| `TaskServices.FilterComposes` | Services/TaskService.cs:97-105 | filtering on both conditions gives the same records, in the same order, as the status `Where` (line 99) followed by the due-date `Where` (line 104) |
| `TaskServices.FilterUnfiltered` | Services/TaskService.cs:95-105 | with neither a status nor a due date given, the query keeps the whole table in store order |
| `TaskServices.Page` | Services/TaskService.cs:107-110 | `Skip(skip).Take(take)` with negative counts treated as zero: length `min(take, len - min(skip, len))`, and element k is input element skip+k |
| `TaskServices.PageAdjacent` | Services/TaskService.cs:108-109 | a window of size a followed by the next window of size b reads the same records as one window of size a+b (consecutive pages neither overlap nor leave gaps) |
| `TaskServices.WithoutId` | Services/TaskService.cs:68 | the table after removal holds exactly the records whose key differs from the id |
| `TaskServices.WithoutAbsentId` | Services/TaskService.cs:62-68 | removing a key that no record has changes nothing |
| `TaskServices.WithoutIdAt` | Services/TaskService.cs:62-68 | with increasing keys, removing the record found at position k removes exactly that position and keeps the order of the rest |
| `TaskServices.RemoveAtIncreasing` | Services/TaskService.cs:68 | removing one record keeps keys strictly increasing |
| `TaskServices.Overwrite` | Services/TaskService.cs:131-134 | the updated record keeps its key and equals the client's record in every other field |
| `TaskServices.ReplaceId` | Services/TaskService.cs:125-134 | same length and keys as before; records with another key are unchanged; records with the key become the client's record under that key |
| `TaskServices.ReplaceIdAt` | Services/TaskService.cs:125-134 | with increasing keys, overwriting the found record in place is the same as `ReplaceId` |
| `TaskServices.TaskService.constructor` | Services/TaskService.cs:14-18 | the store starts valid, with an empty table and key 1 next, as the in-memory database does when the application starts |
| `TaskServices.TaskService.CreateTask` | Services/TaskService.cs:19-52 | null task: `NullArgument`, table unchanged; failed commit: `InvalidOperation`, table unchanged; otherwise the record is appended under a fresh key, earlier records are unchanged, the key counter advances by one, that record is returned, and lookup by its key returns it |
| `TaskServices.TaskService.DeleteTask` | Services/TaskService.cs:55-80 | id <= 0: `InvalidArgument`; absent key: `false`, no change; failed commit: `StoreFailure`, no change; otherwise `true`, exactly the record with that key is removed, and the key is then absent, so a second delete returns `false` |
| `TaskServices.TaskService.GetTaskById` | Services/TaskService.cs:82-90 | `InvalidArgument` exactly when id <= 0; otherwise the record with that key from the table, or none when no record has it |
| `TaskServices.TaskService.GetTasks` | Services/TaskService.cs:93-111 | at most `pageSize` records, each from the table and matching both filters; exactly the window of the filtered table that starts at `(page-1)*pageSize`, in store order |
| `TaskServices.TaskService.UpdateTask` | Services/TaskService.cs:113-146 | null task and id <= 0: `NullArgument`; null task and id > 0: `NullReference`; empty title or default due date: `InvalidArgument`, no change; absent key (including any id <= 0): `None`, no change; failed commit: `StoreFailure`, no change; otherwise the four fields are replaced, the key kept, all other records unchanged, and the updated record returned |
| `TasksControllers.GetTasksResponse` | Controllers/TasksController.cs:30-41 | 500 exactly when the query threw; 404 exactly when it returned no records; 200 with exactly those records otherwise |
| `TasksControllers.GetTaskResponse` | Controllers/TasksController.cs:54-66 | 400 exactly for an argument error (`ArgumentException` or its subclass `ArgumentNullException`); 500 for any other exception; 404 for a null result; 200 with the found record |
| `TasksControllers.PostTaskResponse` | Controllers/TasksController.cs:84-92 | 400 exactly for `ArgumentNullException`; 500 for any other exception; 201 for a created record, carrying it, with the location naming its id |
| `TasksControllers.PutTaskResponse` | Controllers/TasksController.cs:111-124 | 500 for every exception, the service's `ArgumentException` included, so this mapping never gives 400; 404 for a null result; 200 with the updated record |
| `TasksControllers.DeleteTaskResponse` | Controllers/TasksController.cs:142-156 | 500 for every exception; 404 exactly for `false`; 204 exactly for `true` |
| `TasksControllers.ReplaceIdKeepsRequiredFields` | Services/TaskService.cs:120-134 | an update whose record passed the title and due-date check leaves every stored record with a non-empty title and a non-default due date |
| `TasksControllers.TasksController.constructor` | Controllers/TasksController.cs:14-18 | the controller wraps the given service and starts valid |
| `TasksControllers.TasksController.GetTasks` | Controllers/TasksController.cs:25-42 | 404 exactly when the service's page is empty; otherwise 200 with that page, whose records match the filters |
| `TasksControllers.TasksController.GetTask` | Controllers/TasksController.cs:50-67 | id <= 0: 400 (the service's argument error); absent key: 404; otherwise 200 with the stored record with that key |
| `TasksControllers.TasksController.PostTask` | Controllers/TasksController.cs:74-93 | empty title or default due date (line 76): 400 and the service is not called; failed commit: 500 and no key is consumed; otherwise 201 carrying the stored record and, as location, its new key, and the key counter advances by one, so a later POST never reuses a deleted key |
| `TasksControllers.TasksController.PutTask` | Controllers/TasksController.cs:101-125 | route id differs from body id: 400 and the service is not called; invalid fields: 500 (the service's `ArgumentException` is not mapped to 400); absent: 404; failed commit: 500; otherwise 200 with the updated record |
| `TasksControllers.TasksController.DeleteTask` | Controllers/TasksController.cs:133-157 | id <= 0: 400 and the service is not called; absent: 404; failed commit: 500; otherwise 204 with exactly that record removed |

`TasksControllers.Lifecycle` is a client of these contracts. Starting from an
empty table, it calls create (201, key 1), read (200), update (200), list (200),
delete (204), read (404), delete (404), a create with an empty title (400, nothing
stored) and a read of id -1 (400). `TasksControllers.KeysNotReused` creates key 1,
deletes it, fails a create (500), and then gets key 2 from the next create, not
the deleted key 1. The assertions of both clients are proved from the contracts.

`HasRequiredFields` (the check at Services/TaskService.cs:120 and
Controllers/TasksController.cs:76) and `Matches` (the conditions at
Services/TaskService.cs:99 and 104) are shared predicates without contracts of
their own. What they decide is stated in the rows of `UpdateTask`, `PostTask`,
`PutTask`, `Filter`, `FilterComplete` and `FilterComposes`.

## Left out

- Hosting is not part of this model: Program.cs, dependency injection, Swagger and HTTPS redirection.
- EF Core itself is not modelled. Data/AppDbContext.cs, `DbSet` and change tracking are replaced by the sequence and the key counter.
- Interface/ITaskService.cs holds only signatures, so it is not modelled.
- Logging is left out. `ILogger` calls have no effect on behaviour.
- `async`/`await` and `Task<>` wrappers are left out. Each request runs to completion.
- Concurrency between requests is left out, including last-writer-wins updates.
- The texts of error messages and the JSON form of bodies are left out.
- Commit failures are modelled as one boolean per writing operation. Faults in lookups and queries are not modelled. Because of that, the 500 branch of `GetTasks` and the non-argument 500 branch of `GetTask` exist in the response mappings but are never taken.
- TaskServices.TaskService.CreateTask: always assigns a fresh store key. It does not model the provider keeping a non-zero `Id` that the client sent, or the key clash that can follow.
- TaskServices.TaskService.CreateTask: leaves the key counter unchanged when the commit fails. The provider may already have consumed a key at that point.
- TaskServices.TaskService.GetTasks: `(page - 1) * pageSize` is computed on unbounded integers, so 32-bit overflow is not modelled. Keys are unbounded integers for the same reason.
- `DateTime` calendar semantics are not modelled. Due dates are compared as tick counts.
- Model binding is not modelled. The controller receives a non-null body, so the service's null-task branches are reachable only by calling the service directly.
- TasksControllers.TasksController.GetTasks: the binder's defaults `page = 1` and `pageSize = 10` for missing query parameters are not modelled. The caller always passes both values.
- TaskServices.TaskService.GetTasks: the store's enumeration order is taken to be insertion order. The query has no `OrderBy`, and the in-memory provider guarantees no order. After a delete, the real store may list a newer record before older ones, so which records a given page holds can differ from the model.
- TaskServices.TaskService.CreateTask: "appended" fixes the new record's place in that assumed insertion order. The real store promises no position.
