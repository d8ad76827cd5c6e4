/** The page's mutations of the task list: quick status change, the submit
    handler (create or update), and delete. Each is a total function from the
    current list to the next one; the page writes that next list back to
    storage, which is not part of this model. */
module TaskManager {
  import opened TaskModel
  import JsString
  import Seqs

  /** Quick status change: every task carrying `id` gets status `s`. */
  function SetStatus(ts: seq<Task>, id: Id, s: Status): (r: seq<Task>)
    ensures |r| == |ts|
    ensures forall i :: 0 <= i < |ts| ==> r[i].(status := ts[i].status) == ts[i]
    ensures forall i :: 0 <= i < |ts| && ts[i].id == id ==> r[i].status == s
    ensures forall i :: 0 <= i < |ts| && ts[i].id != id ==> r[i] == ts[i]
  {
    seq(|ts|, i requires 0 <= i < |ts| =>
      if ts[i].id == id then ts[i].(status := s) else ts[i])
  }

  /** Edit: every task carrying `id` takes the form's title, description,
      status and due date; its id and creation time stay. */
  function Update(ts: seq<Task>, id: Id, f: FormData): (r: seq<Task>)
    ensures |r| == |ts|
    ensures forall i :: 0 <= i < |ts| ==>
      r[i].id == ts[i].id && r[i].createdAt == ts[i].createdAt
    ensures forall i :: 0 <= i < |ts| && ts[i].id == id ==> FormOf(r[i]) == f
    ensures forall i :: 0 <= i < |ts| && ts[i].id != id ==> r[i] == ts[i]
  {
    seq(|ts|, i requires 0 <= i < |ts| =>
      if ts[i].id == id
      then ts[i].(title := f.title, description := f.description,
                  status := f.status, dueDate := f.dueDate)
      else ts[i])
  }

  /** Create: a task with the given id and creation time and the form's
      fields, appended after all existing tasks. */
  function Create(ts: seq<Task>, f: FormData, newId: Id, now: Instant): (r: seq<Task>)
    ensures |r| == |ts| + 1 && r[..|ts|] == ts
    ensures r[|ts|].id == newId && r[|ts|].createdAt == now && FormOf(r[|ts|]) == f
  {
    ts + [Task(newId, f.title, f.description, f.status, f.dueDate, now)]
  }

  /** The submit handler. A blank title changes nothing; otherwise the form
      updates the task being edited, or is appended as a new task with the
      caller-supplied id and clock reading. */
  function Submit(ts: seq<Task>, editing: Option<Id>, f: FormData, newId: Id, now: Instant): (r: seq<Task>)
    ensures JsString.IsBlank(f.title) ==> r == ts
    ensures |r| == if !JsString.IsBlank(f.title) && editing.None? then |ts| + 1 else |ts|
    ensures forall i :: 0 <= i < |ts| ==>
      r[i].id == ts[i].id && r[i].createdAt == ts[i].createdAt
    ensures !JsString.IsBlank(f.title) && editing.Some? ==>
      forall i :: 0 <= i < |ts| ==>
        (ts[i].id == editing.value ==> FormOf(r[i]) == f)
        && (ts[i].id != editing.value ==> r[i] == ts[i])
    ensures !JsString.IsBlank(f.title) && editing.None? ==>
      r[..|ts|] == ts && r[|ts|].id == newId && r[|ts|].createdAt == now
      && FormOf(r[|ts|]) == f
  {
    if JsString.IsBlank(f.title) then ts
    else match editing
      case Some(id) => Update(ts, id, f)
      case None => Create(ts, f, newId, now)
  }

  /** The delete handler's filter predicate: the task does not carry `id`. */
  function OtherThan(id: Id): Task -> bool
  {
    (t: Task) => t.id != id
  }

  /** Delete: the tasks not carrying `id`, in their original order. */
  function Delete(ts: seq<Task>, id: Id): (r: seq<Task>)
    ensures Seqs.IsSubsequence(r, ts)
    ensures forall i :: 0 <= i < |r| ==> r[i].id != id
    ensures forall t :: t in r <==> t in ts && t.id != id
    ensures !HasId(ts, id) ==> r == ts
  {
    if !HasId(ts, id) then
      Seqs.FilterAllPass(ts, OtherThan(id));
      Seqs.Filter(ts, OtherThan(id))
    else
      Seqs.Filter(ts, OtherThan(id))
  }

  // ---------------------------------------------------------------------
  // Quick status change

  /** Changing the status of an id that is not in the list is a no-op. */
  lemma SetStatusAbsent(ts: seq<Task>, id: Id, s: Status)
    requires !HasId(ts, id)
    ensures SetStatus(ts, id, s) == ts
  {
  }

  /** Two status changes of the same task: the later one wins, so in
      particular repeating a change is idempotent. */
  lemma SetStatusLastWins(ts: seq<Task>, id: Id, a: Status, b: Status)
    ensures SetStatus(SetStatus(ts, id, a), id, b) == SetStatus(ts, id, b)
    ensures SetStatus(SetStatus(ts, id, a), id, a) == SetStatus(ts, id, a)
  {
  }

  /** A status change keeps the ids, so it keeps them unique, and keeps
      every title. */
  lemma SetStatusKeepsInvariant(ts: seq<Task>, id: Id, s: Status)
    ensures UniqueIds(SetStatus(ts, id, s)) <==> UniqueIds(ts)
    ensures forall x :: HasId(SetStatus(ts, id, s), x) <==> HasId(ts, x)
    ensures TitlesNonBlank(SetStatus(ts, id, s)) <==> TitlesNonBlank(ts)
  {
  }

  // ---------------------------------------------------------------------
  // Update

  /** Editing an id that is not in the list is a no-op. */
  lemma UpdateAbsent(ts: seq<Task>, id: Id, f: FormData)
    requires !HasId(ts, id)
    ensures Update(ts, id, f) == ts
  {
  }

  /** Loading a task into the edit form and submitting it unchanged gives
      back the same list, provided ids are unique (otherwise other tasks
      sharing the id would be overwritten too). */
  lemma EditUnchangedRoundTrip(ts: seq<Task>, k: nat, newId: Id, now: Instant)
    requires k < |ts| && UniqueIds(ts)
    ensures Submit(ts, Some(ts[k].id), FormOf(ts[k]), newId, now) == ts
  {
    var r := Update(ts, ts[k].id, FormOf(ts[k]));
    forall i | 0 <= i < |ts|
      ensures r[i] == ts[i]
    {
      if i != k {
        assert ts[i].id != ts[k].id;
      }
    }
  }

  // ---------------------------------------------------------------------
  // Create and delete

  /** Deleting the task just created restores the previous list, provided
      the new id was fresh. */
  lemma DeleteUndoesCreate(ts: seq<Task>, f: FormData, newId: Id, now: Instant)
    requires !HasId(ts, newId)
    ensures Delete(Create(ts, f, newId, now), newId) == ts
  {
    var keep := OtherThan(newId);
    var last := Task(newId, f.title, f.description, f.status, f.dueDate, now);
    Seqs.FilterConcat(ts, [last], keep);
    Seqs.FilterAllPass(ts, keep);
  }

  /** Delete keeps every task not carrying `id` as many times as it occurs
      in the list. */
  lemma DeleteKeepsMultiplicity(ts: seq<Task>, id: Id)
    ensures forall t: Task :: t.id != id ==> multiset(Delete(ts, id))[t] == multiset(ts)[t]
  {
    Seqs.FilterMultiset(ts, OtherThan(id));
  }

  /** Deleting twice is the same as deleting once. */
  lemma DeleteIdempotent(ts: seq<Task>, id: Id)
    ensures Delete(Delete(ts, id), id) == Delete(ts, id)
  {
  }

  /** With unique ids, deleting a present id removes exactly one task. */
  lemma {:induction false} DeleteRemovesOne(ts: seq<Task>, id: Id)
    requires UniqueIds(ts) && HasId(ts, id)
    ensures |Delete(ts, id)| == |ts| - 1
  {
    var k :| 0 <= k < |ts| && ts[k].id == id;
    Seqs.FilterRejectsOne(ts, OtherThan(id), k);
  }

  /** Removing tasks never creates a duplicate id. */
  lemma DeleteKeepsUniqueIds(ts: seq<Task>, id: Id)
    requires UniqueIds(ts)
    ensures UniqueIds(Delete(ts, id))
  {
    SubsequenceUniqueIds(Delete(ts, id), ts);
  }

  /** Removing tasks never creates a blank title. */
  lemma DeleteKeepsTitles(ts: seq<Task>, id: Id)
    requires TitlesNonBlank(ts)
    ensures TitlesNonBlank(Delete(ts, id))
  {
    var r := Delete(ts, id);
    forall i | 0 <= i < |r|
      ensures !JsString.IsBlank(r[i].title)
    {
      assert r[i] in ts;
    }
  }

  /** The ids left after a delete are exactly the old ones other than
      `id`. */
  lemma DeleteIds(ts: seq<Task>, id: Id)
    ensures forall x :: HasId(Delete(ts, id), x) <==> HasId(ts, x) && x != id
  {
    var r := Delete(ts, id);
    forall x | HasId(ts, x) && x != id
      ensures HasId(r, x)
    {
      var i :| 0 <= i < |ts| && ts[i].id == x;
      assert ts[i] in r;
      var j :| 0 <= j < |r| && r[j] == ts[i];
    }
    forall x | HasId(r, x)
      ensures HasId(ts, x) && x != id
    {
      var j :| 0 <= j < |r| && r[j].id == x;
      assert r[j] in ts;
      var i :| 0 <= i < |ts| && ts[i] == r[j];
    }
  }

  /** An order-preserving subsequence of a list with unique ids has unique
      ids. */
  lemma {:induction false} SubsequenceUniqueIds(a: seq<Task>, b: seq<Task>)
    requires Seqs.IsSubsequence(a, b) && UniqueIds(b)
    ensures UniqueIds(a)
    ensures forall i :: 0 <= i < |a| ==> a[i] in b
    decreases |b|
  {
    if |a| != 0 {
      if a[0] == b[0] && Seqs.IsSubsequence(a[1..], b[1..]) {
        SubsequenceUniqueIds(a[1..], b[1..]);
        forall j | 0 < j < |a|
          ensures a[0].id != a[j].id
        {
          assert a[j] == a[1..][j - 1];
          var m :| 0 <= m < |b[1..]| && b[1..][m] == a[j];
          assert b[m + 1] == a[j];
        }
      } else {
        SubsequenceUniqueIds(a, b[1..]);
      }
    }
  }

  // ---------------------------------------------------------------------
  // Submit

  /** Appending a task with a fresh id and a non-blank title keeps the
      store invariant. */
  lemma CreateKeepsInvariant(ts: seq<Task>, f: FormData, newId: Id, now: Instant)
    requires UniqueIds(ts) && TitlesNonBlank(ts)
    requires !HasId(ts, newId) && !JsString.IsBlank(f.title)
    ensures UniqueIds(Create(ts, f, newId, now)) && TitlesNonBlank(Create(ts, f, newId, now))
  {
    var r := Create(ts, f, newId, now);
    forall i, j | 0 <= i < j < |r|
      ensures r[i].id != r[j].id
    {
      if j == |ts| {
        assert r[i] == ts[i];
      }
    }
  }

  /** Overwriting the edited task with a non-blank title keeps the store
      invariant. */
  lemma UpdateKeepsInvariant(ts: seq<Task>, id: Id, f: FormData)
    requires UniqueIds(ts) && TitlesNonBlank(ts) && !JsString.IsBlank(f.title)
    ensures UniqueIds(Update(ts, id, f)) && TitlesNonBlank(Update(ts, id, f))
  {
    var r := Update(ts, id, f);
    forall i | 0 <= i < |r|
      ensures !JsString.IsBlank(r[i].title)
    {
      if ts[i].id == id {
        assert r[i].title == FormOf(r[i]).title;
      }
    }
  }

  /** A submission keeps the store invariant: ids stay unique (for a
      creation, provided the new id is fresh) and every title stays
      non-blank. */
  lemma SubmitKeepsInvariant(ts: seq<Task>, editing: Option<Id>, f: FormData, newId: Id, now: Instant)
    requires UniqueIds(ts) && TitlesNonBlank(ts)
    requires editing.None? && !JsString.IsBlank(f.title) ==> !HasId(ts, newId)
    ensures UniqueIds(Submit(ts, editing, f, newId, now))
    ensures TitlesNonBlank(Submit(ts, editing, f, newId, now))
  {
    if !JsString.IsBlank(f.title) {
      match editing
      case None => CreateKeepsInvariant(ts, f, newId, now);
      case Some(id) => UpdateKeepsInvariant(ts, id, f);
    }
  }

  /** The user actions that change the list. */
  datatype Action =
    | SubmitForm(editing: Option<Id>, form: FormData, newId: Id, now: Instant)
    | QuickStatus(id: Id, status: Status)
    | Remove(id: Id)

  function Step(ts: seq<Task>, a: Action): seq<Task>
  {
    match a
    case SubmitForm(editing, f, newId, now) => Submit(ts, editing, f, newId, now)
    case QuickStatus(id, s) => SetStatus(ts, id, s)
    case Remove(id) => Delete(ts, id)
  }

  /** The list after performing the actions in order. */
  function Run(ts: seq<Task>, acts: seq<Action>): seq<Task>
    decreases |acts|
  {
    if |acts| == 0 then ts else Run(Step(ts, acts[0]), acts[1..])
  }

  /** A submission that creates a task: no task is being edited and the
      title is not blank. */
  predicate Creates(a: Action)
  {
    a.SubmitForm? && a.editing.None? && !JsString.IsBlank(a.form.title)
  }

  /** Every creation in the run uses an id not present at that moment. */
  predicate FreshIdsAlong(ts: seq<Task>, acts: seq<Action>)
    decreases |acts|
  {
    |acts| == 0 ||
    ((Creates(acts[0]) ==> !HasId(ts, acts[0].newId))
     && FreshIdsAlong(Step(ts, acts[0]), acts[1..]))
  }

  /** Any run of actions from a list with unique ids and non-blank titles,
      whose creations use fresh ids, ends in such a list. */
  lemma {:induction false} RunKeepsInvariant(ts: seq<Task>, acts: seq<Action>)
    requires UniqueIds(ts) && TitlesNonBlank(ts) && FreshIdsAlong(ts, acts)
    ensures UniqueIds(Run(ts, acts)) && TitlesNonBlank(Run(ts, acts))
    decreases |acts|
  {
    if |acts| != 0 {
      match acts[0] {
        case SubmitForm(editing, f, newId, now) =>
          SubmitKeepsInvariant(ts, editing, f, newId, now);
        case QuickStatus(id, s) =>
          SetStatusKeepsInvariant(ts, id, s);
        case Remove(id) =>
          DeleteKeepsUniqueIds(ts, id);
          DeleteKeepsTitles(ts, id);
      }
      RunKeepsInvariant(Step(ts, acts[0]), acts[1..]);
    }
  }
}
