/**
 * The task service of Services/TaskService.cs over an in-memory `Tasks` table.
 *
 * The table is a sequence of records in insertion order. The store hands out ids
 * from a counter, so ids are positive, never reused and strictly increasing along
 * the sequence. Whether a commit (`SaveChangesAsync`) fails is a parameter of each
 * writing operation; a failed commit leaves the table as it was.
 */
module TaskServices {

  import opened Wrappers
  import opened TaskItems

  /** The exceptions the service lets escape, by kind. */
  datatype ServiceError =
    | NullArgument      // ArgumentNullException
    | InvalidArgument   // ArgumentException
    | InvalidOperation  // InvalidOperationException wrapping a failed commit (create)
    | StoreFailure      // the exception of a failed commit, rethrown as it is (delete, update)
    | NullReference     // NullReferenceException: update reading the title of a null task

  /** What an operation returns, or the exception it throws. */
  datatype Result<+T> = Success(value: T) | Failure(error: ServiceError)

  function Min(a: int, b: int): int { if a <= b then a else b }

  /** LINQ's `Skip` and `Take` treat a negative count as zero. */
  function Clamp(n: int): nat { if n < 0 then 0 else n }

  // ---------------------------------------------------------------------------
  // Lookup by primary key (`FindAsync`)
  // ---------------------------------------------------------------------------

  ghost predicate IncreasingIds(s: seq<TaskItem>)
  {
    forall i, j :: 0 <= i < j < |s| ==> s[i].id < s[j].id
  }

  /** The position of the first record with key `id`, if any. */
  function IndexOf(s: seq<TaskItem>, id: int): (r: Option<nat>)
    ensures r.Some? ==> r.value < |s| && s[r.value].id == id
    ensures r.Some? ==> forall k :: 0 <= k < r.value ==> s[k].id != id
    ensures r.None? ==> forall k :: 0 <= k < |s| ==> s[k].id != id
  {
    if |s| == 0 then None
    else if s[0].id == id then Some(0)
    else match IndexOf(s[1..], id)
      case None => None
      case Some(k) => Some(k + 1)
  }

  /** `FindAsync(id)`: the record with key `id`, or null. */
  function Find(s: seq<TaskItem>, id: int): (r: Option<TaskItem>)
    ensures r.Some? ==> r.value in s && r.value.id == id
    ensures r.None? <==> forall t :: t in s ==> t.id != id
  {
    match IndexOf(s, id)
    case None => None
    case Some(k) => Some(s[k])
  }

  /** With increasing ids, every record is found at its own position. */
  lemma IndexOfAt(s: seq<TaskItem>, k: nat)
    requires IncreasingIds(s)
    requires k < |s|
    ensures IndexOf(s, s[k].id) == Some(k)
  {
  }

  // ---------------------------------------------------------------------------
  // The list query: `Where` on status, `Where` on due date, `Skip`, `Take`
  // ---------------------------------------------------------------------------

  /** The two optional filters of the list query. */
  predicate Matches(t: TaskItem, status: Option<TaskStatus>, dueDate: Option<int>)
  {
    (status.Some? ==> t.status == status.value) &&
    (dueDate.Some? ==> t.dueDate <= dueDate.value)
  }

  /** The records that pass the filters, in store order. */
  function Filter(s: seq<TaskItem>, status: Option<TaskStatus>, dueDate: Option<int>): (r: seq<TaskItem>)
    ensures |r| <= |s|
    ensures forall t :: t in r ==> t in s && Matches(t, status, dueDate)
  {
    if |s| == 0 then []
    else if Matches(s[0], status, dueDate) then [s[0]] + Filter(s[1..], status, dueDate)
    else Filter(s[1..], status, dueDate)
  }

  /** Nothing that passes the filters is dropped. */
  lemma {:induction false} FilterComplete(s: seq<TaskItem>, status: Option<TaskStatus>, dueDate: Option<int>, t: TaskItem)
    requires t in s && Matches(t, status, dueDate)
    ensures t in Filter(s, status, dueDate)
  {
    if s[0] != t {
      assert t in s[1..];
      FilterComplete(s[1..], status, dueDate, t);
    }
  }

  /** Filtering keeps store order: it distributes over concatenation. */
  lemma {:induction false} FilterAppend(a: seq<TaskItem>, b: seq<TaskItem>, status: Option<TaskStatus>, dueDate: Option<int>)
    ensures Filter(a + b, status, dueDate) == Filter(a, status, dueDate) + Filter(b, status, dueDate)
  {
    if |a| == 0 {
      assert a + b == b;
    } else {
      assert (a + b)[0] == a[0];
      assert (a + b)[1..] == a[1..] + b;
      FilterAppend(a[1..], b, status, dueDate);
    }
  }

  /** The combined filter is the status `Where` followed by the due-date `Where`. */
  lemma {:induction false} FilterComposes(s: seq<TaskItem>, status: Option<TaskStatus>, dueDate: Option<int>)
    ensures Filter(s, status, dueDate) == Filter(Filter(s, status, None), None, dueDate)
  {
    if |s| > 0 {
      FilterComposes(s[1..], status, dueDate);
    }
  }

  /** With neither filter given, the query keeps the whole table. */
  lemma {:induction false} FilterUnfiltered(s: seq<TaskItem>)
    ensures Filter(s, None, None) == s
  {
    if |s| > 0 {
      FilterUnfiltered(s[1..]);
      assert [s[0]] + s[1..] == s;
    }
  }

  /** `Skip(skip).Take(take)`. */
  function Page(s: seq<TaskItem>, skip: int, take: int): (r: seq<TaskItem>)
    ensures |r| == Min(Clamp(take), |s| - Min(Clamp(skip), |s|))
    ensures forall k :: 0 <= k < |r| ==> r[k] == s[Clamp(skip) + k]
  {
    var from := Min(Clamp(skip), |s|);
    s[from..from + Min(Clamp(take), |s| - from)]
  }

  /** Two windows side by side read the same records as one window of their joint size. */
  lemma PageAdjacent(s: seq<TaskItem>, skip: nat, a: nat, b: nat)
    ensures Page(s, skip, a) + Page(s, skip + a, b) == Page(s, skip, a + b)
  {
  }

  // ---------------------------------------------------------------------------
  // The effect of delete and update on the table
  // ---------------------------------------------------------------------------

  /** The table without the records whose key is `id`. */
  function WithoutId(s: seq<TaskItem>, id: int): (r: seq<TaskItem>)
    ensures |r| <= |s|
    ensures forall t :: t in r <==> t in s && t.id != id
  {
    if |s| == 0 then []
    else if s[0].id == id then WithoutId(s[1..], id)
    else [s[0]] + WithoutId(s[1..], id)
  }

  lemma {:induction false} WithoutAbsentId(s: seq<TaskItem>, id: int)
    requires forall k :: 0 <= k < |s| ==> s[k].id != id
    ensures WithoutId(s, id) == s
  {
    if |s| > 0 {
      WithoutAbsentId(s[1..], id);
      assert [s[0]] + s[1..] == s;
    }
  }

  /** With increasing ids, removing the record found at `k` removes exactly that position. */
  lemma {:induction false} WithoutIdAt(s: seq<TaskItem>, k: nat)
    requires IncreasingIds(s)
    requires k < |s|
    ensures WithoutId(s, s[k].id) == s[..k] + s[k + 1..]
  {
    if k == 0 {
      WithoutAbsentId(s[1..], s[0].id);
      assert s[..0] + s[1..] == s[1..];
    } else {
      assert s[0].id < s[k].id;
      assert IncreasingIds(s[1..]) by {
        forall i, j | 0 <= i < j < |s[1..]| ensures s[1..][i].id < s[1..][j].id {
          assert s[1..][i] == s[i + 1] && s[1..][j] == s[j + 1];
        }
      }
      WithoutIdAt(s[1..], k - 1);
      assert s[1..][k - 1] == s[k];
      assert [s[0]] + (s[1..][..k - 1] + s[1..][k..]) == s[..k] + s[k + 1..];
    }
  }

  /** Removing one position keeps ids strictly increasing. */
  lemma RemoveAtIncreasing(s: seq<TaskItem>, k: nat)
    requires IncreasingIds(s)
    requires k < |s|
    ensures IncreasingIds(s[..k] + s[k + 1..])
  {
  }

  /** The four client fields are copied onto the stored record; its key stays. */
  function Overwrite(existing: TaskItem, src: TaskItem): (r: TaskItem)
    ensures r.id == existing.id
    ensures r == src.(id := existing.id)
  {
    existing.(title := src.title, description := src.description, status := src.status, dueDate := src.dueDate)
  }

  /** The table with every record whose key is `id` overwritten from `src`. */
  function ReplaceId(s: seq<TaskItem>, id: int, src: TaskItem): (r: seq<TaskItem>)
    ensures |r| == |s|
    ensures forall k :: 0 <= k < |s| ==> r[k].id == s[k].id
    ensures forall k :: 0 <= k < |s| && s[k].id != id ==> r[k] == s[k]
    ensures forall k :: 0 <= k < |s| && s[k].id == id ==> r[k] == src.(id := id)
  {
    if |s| == 0 then []
    else [if s[0].id == id then Overwrite(s[0], src) else s[0]] + ReplaceId(s[1..], id, src)
  }

  /** With increasing ids, overwriting the record found at `k` in place is `ReplaceId`. */
  lemma ReplaceIdAt(s: seq<TaskItem>, k: nat, src: TaskItem)
    requires IncreasingIds(s)
    requires k < |s|
    ensures ReplaceId(s, s[k].id, src) == s[k := Overwrite(s[k], src)]
  {
  }

  // ---------------------------------------------------------------------------
  // The service
  // ---------------------------------------------------------------------------

  class TaskService {

    /** The `Tasks` table, in insertion order. */
    var tasks: seq<TaskItem>
    /** The key the store assigns to the next inserted record. */
    var nextId: int

    ghost predicate Valid()
      reads this
    {
      0 < nextId &&
      IncreasingIds(tasks) &&
      (forall k :: 0 <= k < |tasks| ==> 0 < tasks[k].id < nextId)
    }

    constructor ()
      ensures Valid() && tasks == [] && nextId == 1
    {
      tasks := [];
      nextId := 1;
    }

    /** `CreateTaskAsync`: a null task is refused; otherwise the store keys the record,
        appends it and returns it; a failed commit is reported as `InvalidOperation`. */
    method CreateTask(task: Option<TaskItem>, saveFails: bool) returns (r: Result<TaskItem>)
      requires Valid()
      modifies this
      ensures Valid()
      ensures task.None? ==> r == Failure(NullArgument) && tasks == old(tasks) && nextId == old(nextId)
      ensures task.Some? && saveFails ==> r == Failure(InvalidOperation) && tasks == old(tasks) && nextId == old(nextId)
      ensures task.Some? && !saveFails ==>
        r == Success(task.value.(id := old(nextId))) &&
        tasks == old(tasks) + [r.value] &&
        nextId == old(nextId) + 1 &&
        GetTaskById(r.value.id) == Success(Some(r.value))
    {
      if task.None? {
        return Failure(NullArgument);
      }
      if saveFails {
        return Failure(InvalidOperation);
      }
      var stored := task.value.(id := nextId);
      tasks := tasks + [stored];
      nextId := nextId + 1;
      IndexOfAt(tasks, |tasks| - 1);
      r := Success(stored);
    }

    /** `DeleteTaskAsync`: a non-positive id is refused; an absent id gives `false`;
        a present one is removed and gives `true`; a failed commit is rethrown. */
    method DeleteTask(id: int, saveFails: bool) returns (r: Result<bool>)
      requires Valid()
      modifies this
      ensures Valid() && nextId == old(nextId)
      ensures id <= 0 ==> r == Failure(InvalidArgument) && tasks == old(tasks)
      ensures id > 0 && Find(old(tasks), id).None? ==> r == Success(false) && tasks == old(tasks)
      ensures id > 0 && Find(old(tasks), id).Some? && saveFails ==> r == Failure(StoreFailure) && tasks == old(tasks)
      ensures id > 0 && Find(old(tasks), id).Some? && !saveFails ==>
        r == Success(true) && tasks == WithoutId(old(tasks), id) && |tasks| == |old(tasks)| - 1 &&
        Find(tasks, id).None?
    {
      if id <= 0 {
        return Failure(InvalidArgument);
      }
      var found := IndexOf(tasks, id);
      if found.None? {
        return Success(false);
      }
      if saveFails {
        return Failure(StoreFailure);
      }
      var k := found.value;
      WithoutIdAt(tasks, k);
      RemoveAtIncreasing(tasks, k);
      tasks := tasks[..k] + tasks[k + 1..];
      r := Success(true);
    }

    /** `GetTaskByIdAsync`: a non-positive id is refused; otherwise the record with
        that key, or nothing. */
    function GetTaskById(id: int): (r: Result<Option<TaskItem>>)
      reads this
      ensures id <= 0 <==> r == Failure(InvalidArgument)
      ensures id > 0 ==> r.Success?
      ensures r.Success? && r.value.Some? ==> r.value.value in tasks && r.value.value.id == id
      ensures r.Success? && r.value.None? ==> forall t :: t in tasks ==> t.id != id
    {
      if id <= 0 then Failure(InvalidArgument) else Success(Find(tasks, id))
    }

    /** `GetTasksAsync`: the matching records, page `page` of size `pageSize`. */
    function GetTasks(status: Option<TaskStatus>, dueDate: Option<int>, page: int, pageSize: int): (r: seq<TaskItem>)
      reads this
      ensures |r| <= Clamp(pageSize)
      ensures forall t :: t in r ==> t in tasks && Matches(t, status, dueDate)
      ensures var matching := Filter(tasks, status, dueDate);
        |r| == Min(Clamp(pageSize), |matching| - Min(Clamp((page - 1) * pageSize), |matching|)) &&
        forall k :: 0 <= k < |r| ==> r[k] == matching[Clamp((page - 1) * pageSize) + k]
    {
      Page(Filter(tasks, status, dueDate), (page - 1) * pageSize, pageSize)
    }

    /** `UpdateTaskAsync`. The null guard fires only when the task is null AND the id is
        non-positive; a null task with a positive id reaches the title check and fails
        there with a null dereference. A present record gets the four client fields
        and keeps its key; an absent one gives null. */
    method UpdateTask(id: int, task: Option<TaskItem>, saveFails: bool) returns (r: Result<Option<TaskItem>>)
      requires Valid()
      modifies this
      ensures Valid() && nextId == old(nextId)
      ensures task.None? && id <= 0 ==> r == Failure(NullArgument) && tasks == old(tasks)
      ensures task.None? && id > 0 ==> r == Failure(NullReference) && tasks == old(tasks)
      ensures task.Some? && !HasRequiredFields(task.value) ==> r == Failure(InvalidArgument) && tasks == old(tasks)
      ensures task.Some? && HasRequiredFields(task.value) && id <= 0 ==> r == Success(None) && tasks == old(tasks)
      ensures task.Some? && HasRequiredFields(task.value) && Find(old(tasks), id).None? ==>
        r == Success(None) && tasks == old(tasks)
      ensures task.Some? && HasRequiredFields(task.value) && Find(old(tasks), id).Some? && saveFails ==>
        r == Failure(StoreFailure) && tasks == old(tasks)
      ensures task.Some? && HasRequiredFields(task.value) && Find(old(tasks), id).Some? && !saveFails ==>
        r == Success(Some(task.value.(id := id))) &&
        tasks == ReplaceId(old(tasks), id, task.value) &&
        GetTaskById(id) == r
    {
      if task.None? && id <= 0 {
        return Failure(NullArgument);
      }
      if task.None? {
        return Failure(NullReference);
      }
      var src := task.value;
      if !HasRequiredFields(src) {
        return Failure(InvalidArgument);
      }
      var found := IndexOf(tasks, id);
      if found.None? {
        return Success(None);
      }
      if saveFails {
        return Failure(StoreFailure);
      }
      var k := found.value;
      var updated := Overwrite(tasks[k], src);
      ReplaceIdAt(tasks, k, src);
      tasks := tasks[k := updated];
      IndexOfAt(tasks, k);
      r := Success(Some(updated));
    }
  }
}
