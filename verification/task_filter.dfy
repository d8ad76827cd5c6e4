/** The page's `filteredTasks`: a status filter and a date filter combined
    with "and". Time is passed in as `now`; which calendar day an instant
    falls on is the caller-supplied function `day`, standing in for
    comparing `toDateString()` renderings. */
module TaskFilter {
  import opened TaskModel
  import Seqs
  import TaskManager

  /** "all" or one of the three statuses. */
  datatype StatusFilter = AllStatuses | Only(status: Status)

  /** "all", "overdue", "today" or "upcoming". */
  datatype DateFilter = AnyDate | Overdue | DueToday | Upcoming

  predicate PassesStatus(t: Task, sf: StatusFilter)
  {
    sf.AllStatuses? || t.status == sf.status
  }

  /** A missing due date compares false with every instant, so it passes
      only the "all" date filter. */
  predicate PassesDate(due: Option<Instant>, df: DateFilter, now: Instant, day: Instant -> int)
  {
    match df
    case AnyDate => true
    case Overdue => due.Some? && due.value < now
    case DueToday => due.Some? && day(due.value) == day(now)
    case Upcoming => due.Some? && due.value > now
  }

  /** The predicate handed to the list's `filter`. */
  function Shows(sf: StatusFilter, df: DateFilter, now: Instant, day: Instant -> int): Task -> bool
  {
    (t: Task) => PassesStatus(t, sf) && PassesDate(t.dueDate, df, now, day)
  }

  /** The tasks the list displays: an order-preserving subsequence of the
      store, holding the tasks that pass both filters and nothing else. */
  function FilteredTasks(ts: seq<Task>, sf: StatusFilter, df: DateFilter, now: Instant, day: Instant -> int): (r: seq<Task>)
    ensures Seqs.IsSubsequence(r, ts)
    ensures forall t :: t in r <==> t in ts && PassesStatus(t, sf) && PassesDate(t.dueDate, df, now, day)
    ensures sf.Only? ==> forall i :: 0 <= i < |r| ==> r[i].status == sf.status
    ensures df != AnyDate ==> forall i :: 0 <= i < |r| ==> r[i].dueDate.Some?
    ensures df == Overdue ==> forall i :: 0 <= i < |r| ==> r[i].dueDate.value < now
    ensures df == Upcoming ==> forall i :: 0 <= i < |r| ==> r[i].dueDate.value > now
    ensures df == DueToday ==> forall i :: 0 <= i < |r| ==> day(r[i].dueDate.value) == day(now)
  {
    Seqs.Filter(ts, Shows(sf, df, now, day))
  }

  /** The view shows every task that passes both filters as many times as
      it occurs in the store. */
  lemma FilteredTasksMultiplicity(ts: seq<Task>, sf: StatusFilter, df: DateFilter, now: Instant, day: Instant -> int)
    ensures forall t: Task :: PassesStatus(t, sf) && PassesDate(t.dueDate, df, now, day) ==>
      multiset(FilteredTasks(ts, sf, df, now, day))[t] == multiset(ts)[t]
  {
    Seqs.FilterMultiset(ts, Shows(sf, df, now, day));
  }

  /** With both filters at "all" the list shows the whole store, in order. */
  lemma ShowAll(ts: seq<Task>, now: Instant, day: Instant -> int)
    ensures FilteredTasks(ts, AllStatuses, AnyDate, now, day) == ts
  {
    Seqs.FilterAllPass(ts, Shows(AllStatuses, AnyDate, now, day));
  }

  /** Tasks without a due date appear only when the date filter is "all". */
  lemma NoDueDateHiddenByDateFilters(ts: seq<Task>, sf: StatusFilter, df: DateFilter, now: Instant, day: Instant -> int)
    requires df != AnyDate
    requires forall i :: 0 <= i < |ts| ==> ts[i].dueDate.None?
    ensures FilteredTasks(ts, sf, df, now, day) == []
  {
  }

  /** The "overdue" list ignores status: a quick status change (to Done,
      say) never changes how many tasks it shows. */
  lemma {:induction false} OverdueIgnoresStatus(ts: seq<Task>, id: Id, s: Status, now: Instant, day: Instant -> int)
    ensures |FilteredTasks(TaskManager.SetStatus(ts, id, s), AllStatuses, Overdue, now, day)|
         == |FilteredTasks(ts, AllStatuses, Overdue, now, day)|
    decreases |ts|
  {
    if |ts| != 0 {
      var us := TaskManager.SetStatus(ts, id, s);
      assert us[1..] == TaskManager.SetStatus(ts[1..], id, s);
      OverdueIgnoresStatus(ts[1..], id, s, now, day);
    }
  }
}
