/**
 * The task record of Models/TaskItem.cs.
 *
 * `DateTime` is modelled as an integer tick count; `DefaultDueDate` (0) stands for
 * `default(DateTime)`. A null `Title` is modelled as the empty string, which is how
 * `string.IsNullOrEmpty` treats it.
 */
module TaskItems {

  /** The three task states, in declaration order. */
  datatype TaskStatus = Pending | InProgress | Completed

  /** `default(DateTime)`, the value an unset due date has. */
  const DefaultDueDate: int := 0

  /** One row of the `Tasks` table; `id` is its primary key. */
  datatype TaskItem = TaskItem(id: int, title: string, description: string, status: TaskStatus, dueDate: int)

  /** A record as a client builds it: no id yet, and `Status` left at its initialiser `Pending`. */
  function NewTaskItem(title: string, description: string, dueDate: int): TaskItem
  {
    TaskItem(0, title, description, Pending, dueDate)
  }

  /** The check both the controller (on POST) and the service (on update) apply:
      a non-empty title and a due date other than the default. */
  predicate HasRequiredFields(t: TaskItem)
  {
    |t.title| > 0 && t.dueDate != DefaultDueDate
  }
}
