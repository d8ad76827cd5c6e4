/** The task record shared by the page and the dashboard panel. */
module TaskModel {
  import JsString

  datatype Option<T> = None | Some(value: T)

  /** Task ids are opaque strings (the page derives them from the clock). */
  type Id = string

  /** A point in time in milliseconds since the epoch. Date strings are
      represented by the instant they parse to. */
  type Instant = int

  /** The three workflow stages, "To Do", "In Progress" and "Done". */
  datatype Status = ToDo | InProgress | Done

  /** `dueDate` is `None` for the empty string, which the page uses for "no
      deadline" (and for any string that does not parse to a date, which
      every comparison treats the same way). */
  datatype Task = Task(
    id: Id,
    title: string,
    description: string,
    status: Status,
    dueDate: Option<Instant>,
    createdAt: Instant)

  /** The edit form's four fields; they are exactly the fields an edit may
      replace. */
  datatype FormData = FormData(
    title: string,
    description: string,
    status: Status,
    dueDate: Option<Instant>)

  /** The form contents the edit button loads from a task. */
  function FormOf(t: Task): (f: FormData)
    ensures t.(title := f.title, description := f.description,
               status := f.status, dueDate := f.dueDate) == t
  {
    FormData(t.title, t.description, t.status, t.dueDate)
  }

  /** Some task in the list carries `id`. */
  predicate HasId(ts: seq<Task>, id: Id)
  {
    exists i :: 0 <= i < |ts| && ts[i].id == id
  }

  /** No two positions of the list carry the same id. */
  predicate UniqueIds(ts: seq<Task>)
  {
    forall i, j :: 0 <= i < j < |ts| ==> ts[i].id != ts[j].id
  }

  /** Every task in the list has a title that is not blank. */
  predicate TitlesNonBlank(ts: seq<Task>)
  {
    forall i :: 0 <= i < |ts| ==> !JsString.IsBlank(ts[i].title)
  }
}
