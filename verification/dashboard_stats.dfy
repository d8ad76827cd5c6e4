/** The dashboard panel's `getStats`: per-status counts, the overdue count
    and the completion percentage, each computed as the length of a filtered
    copy of the task list. */
module DashboardStats {
  import opened TaskModel
  import Seqs
  import TaskFilter

  datatype Stats = Stats(
    total: nat,
    todo: nat,
    inProgress: nat,
    done: nat,
    overdue: nat,
    completionRate: nat)

  function HasStatus(s: Status): Task -> bool
  {
    (t: Task) => t.status == s
  }

  function NotDone(): Task -> bool
  {
    (t: Task) => t.status != Done
  }

  function AnyTask(): Task -> bool
  {
    (t: Task) => true
  }

  /** A due date is set and lies strictly before `now`. */
  predicate PastDue(t: Task, now: Instant)
  {
    t.dueDate.Some? && t.dueDate.value < now
  }

  /** The panel's notion of overdue: past due and not Done. */
  function CountsAsOverdue(now: Instant): Task -> bool
  {
    (t: Task) => PastDue(t, now) && t.status != Done
  }

  /** Completed tasks past their due date, which the panel does not count. */
  function DonePastDue(now: Instant): Task -> bool
  {
    (t: Task) => PastDue(t, now) && t.status == Done
  }

  /** `Math.round(done / total * 100)`, or 0 for an empty list: the integer
      nearest to 100 * done / total, halves rounded up. */
  function CompletionRate(done: nat, total: nat): (r: nat)
    ensures total == 0 ==> r == 0
    ensures total > 0 ==> (2 * r - 1) * total <= 200 * done < (2 * r + 1) * total
    ensures done <= total ==> r <= 100
  {
    if total > 0 then
      var q := (200 * done + total) / (2 * total);
      RoundHalfUpBounds(done, total, q);
      q
    else 0
  }

  /** The quotient `(200 * done + total) div (2 * total)` lies within half a
      unit of `100 * done / total`, and does not exceed 100 when done is at
      most total. */
  lemma RoundHalfUpBounds(done: nat, total: nat, q: int)
    requires total > 0 && q == (200 * done + total) / (2 * total)
    ensures (2 * q - 1) * total <= 200 * done < (2 * q + 1) * total
    ensures done <= total ==> q <= 100
  {
    var n, d := 200 * done + total, 2 * total;
    var m := n % d;
    assert n == d * q + m && 0 <= m < d;
    HalfUnitProducts(q, total);
    if done <= total && q > 100 {
      MulMonotone(d, 101, q);
    }
  }

  /** The products that relate `q` to the half-unit interval around it. */
  lemma HalfUnitProducts(q: int, total: int)
    ensures (2 * q - 1) * total == (2 * total) * q - total
    ensures (2 * q + 1) * total == (2 * total) * q + total
  {
  }

  /** Multiplying by a non-negative factor keeps order. */
  lemma MulMonotone(d: nat, a: int, b: int)
    requires a <= b
    ensures d * a <= d * b
  {
  }

  /** Every status count, the total, the overdue count and the rate, with
      the arithmetic relations between them. Together with `StatsAppend`,
      the empty-list case fixes every field for every list. */
  function GetStats(ts: seq<Task>, now: Instant): (st: Stats)
    ensures st.total == |ts|
    ensures st.todo + st.inProgress + st.done == st.total
    ensures st.overdue <= st.todo + st.inProgress
    ensures st.completionRate == CompletionRate(st.done, st.total)
    ensures st.completionRate <= 100
    ensures st.total == 0 ==> st == Stats(0, 0, 0, 0, 0, 0)
  {
    var todo := |Seqs.Filter(ts, HasStatus(ToDo))|;
    var inProgress := |Seqs.Filter(ts, HasStatus(InProgress))|;
    var done := |Seqs.Filter(ts, HasStatus(Done))|;
    var overdue := |Seqs.Filter(ts, CountsAsOverdue(now))|;
    StatusCountsPartition(ts);
    Seqs.FilterLengthMonotone(ts, CountsAsOverdue(now), NotDone());
    Stats(|ts|, todo, inProgress, done, overdue, CompletionRate(done, |ts|))
  }

  /** Every task has exactly one status, so the three counts add up to the
      length of the list, and the tasks not Done are the To Do and In
      Progress ones. */
  lemma StatusCountsPartition(ts: seq<Task>)
    ensures |Seqs.Filter(ts, NotDone())|
         == |Seqs.Filter(ts, HasStatus(ToDo))| + |Seqs.Filter(ts, HasStatus(InProgress))|
    ensures |Seqs.Filter(ts, HasStatus(ToDo))| + |Seqs.Filter(ts, HasStatus(InProgress))|
          + |Seqs.Filter(ts, HasStatus(Done))| == |ts|
  {
    Seqs.FilterLengthSplit(ts, NotDone(), HasStatus(ToDo), HasStatus(InProgress));
    Seqs.FilterLengthSplit(ts, AnyTask(), NotDone(), HasStatus(Done));
    Seqs.FilterAllPass(ts, AnyTask());
  }

  /** The statistics depend only on which tasks are in the list, not on
      their order. */
  lemma StatsPermutationInvariant(ts: seq<Task>, ts': seq<Task>, now: Instant)
    requires multiset(ts) == multiset(ts')
    ensures GetStats(ts, now) == GetStats(ts', now)
  {
    assert |ts| == |multiset(ts)| == |multiset(ts')| == |ts'|;
    Seqs.FilterLengthPermutation(ts, ts', HasStatus(ToDo));
    Seqs.FilterLengthPermutation(ts, ts', HasStatus(InProgress));
    Seqs.FilterLengthPermutation(ts, ts', HasStatus(Done));
    Seqs.FilterLengthPermutation(ts, ts', CountsAsOverdue(now));
  }

  /** Appending a task adds one to the total and to the count of its own
      status only, adds one to the overdue count exactly when the task is
      past due and not Done, and recomputes the rate from the new counts. */
  lemma StatsAppend(ts: seq<Task>, t: Task, now: Instant)
    ensures GetStats(ts + [t], now).total == GetStats(ts, now).total + 1
    ensures GetStats(ts + [t], now).todo
         == GetStats(ts, now).todo + (if t.status == ToDo then 1 else 0)
    ensures GetStats(ts + [t], now).inProgress
         == GetStats(ts, now).inProgress + (if t.status == InProgress then 1 else 0)
    ensures GetStats(ts + [t], now).done
         == GetStats(ts, now).done + (if t.status == Done then 1 else 0)
    ensures GetStats(ts + [t], now).overdue
         == GetStats(ts, now).overdue + (if PastDue(t, now) && t.status != Done then 1 else 0)
  {
    assert [t][1..] == [];
    Seqs.FilterConcat(ts, [t], HasStatus(ToDo));
    Seqs.FilterConcat(ts, [t], HasStatus(InProgress));
    Seqs.FilterConcat(ts, [t], HasStatus(Done));
    Seqs.FilterConcat(ts, [t], CountsAsOverdue(now));
  }

  /** Adding a task that has no due date, or that is Done, never changes
      the overdue count. */
  lemma OverdueSkipsUndatedAndDone(ts: seq<Task>, t: Task, now: Instant)
    requires t.dueDate.None? || t.status == Done
    ensures GetStats(ts + [t], now).overdue == GetStats(ts, now).overdue
  {
    Seqs.FilterConcat(ts, [t], CountsAsOverdue(now));
  }

  /** The list's "overdue" view shows as many tasks as the panel counts as
      overdue plus the Done tasks past their due date; so the panel's count
      is never larger than the view's length. */
  lemma OverdueCountVersusFilter(ts: seq<Task>, now: Instant, day: Instant -> int)
    ensures |TaskFilter.FilteredTasks(ts, TaskFilter.AllStatuses, TaskFilter.Overdue, now, day)|
         == GetStats(ts, now).overdue + |Seqs.Filter(ts, DonePastDue(now))|
    ensures GetStats(ts, now).overdue
         <= |TaskFilter.FilteredTasks(ts, TaskFilter.AllStatuses, TaskFilter.Overdue, now, day)|
  {
    Seqs.FilterLengthSplit(ts, TaskFilter.Shows(TaskFilter.AllStatuses, TaskFilter.Overdue, now, day),
      CountsAsOverdue(now), DonePastDue(now));
  }

  /** Two Done tasks and one To Do task give a completion rate of 67. */
  lemma TwoOfThreeDone(a: Task, b: Task, c: Task, now: Instant)
    requires a.status == Done && b.status == Done && c.status == ToDo
    ensures GetStats([a, b, c], now).completionRate == 67
  {
    var ts := [a, b, c];
    assert Seqs.Filter(ts, HasStatus(Done)) == [a, b] by {
      assert ts[1..] == [b, c];
      assert ts[1..][1..] == [c];
    }
  }

  /** A Done task due before `now` is left out of the panel's overdue count
      but shown by the list's "overdue" view. */
  lemma DoneTaskPastDue(t: Task, now: Instant, day: Instant -> int)
    requires t.status == Done && t.dueDate.Some? && t.dueDate.value < now
    ensures GetStats([t], now).overdue == 0
    ensures TaskFilter.FilteredTasks([t], TaskFilter.AllStatuses, TaskFilter.Overdue, now, day) == [t]
  {
    assert [t][1..] == [];
  }
}
