/**
 The partial update of update_task: the request body is a patch in which
 each whitelisted column is either absent or carries a new value. The
 route turns the present ones into a SET list, in whitelist order, and
 applies it to the row that matches id and owner.
 */
module Patching {
  import opened Types
  import opened TaskTable

  /** The columns a patch may touch, in the order the route visits them. */
  datatype Field = TitleField | DescriptionField | DueField | ReminderField | CompletedField

  const Whitelist: seq<Field> := [TitleField, DescriptionField, DueField, ReminderField, CompletedField]

  /** A request body restricted to the whitelist: `None` is a key the body does not contain.
      An inner `None` is a JSON null, which writes NULL into a nullable column. */
  datatype Patch = Patch(
    title: Option<string>,
    description: Option<Option<string>>,
    due: Option<Option<Time>>,
    reminder: Option<Option<Time>>,
    completed: Option<bool>)

  /** One `column = value` item of the SET list. */
  datatype Assignment =
    | SetTitle(title: string)
    | SetDescription(description: Option<string>)
    | SetDue(due: Option<Time>)
    | SetReminder(reminder: Option<Time>)
    | SetCompleted(completed: bool)

  /** `field in data` */
  predicate Has(p: Patch, f: Field)
  {
    match f
    case TitleField => p.title.Some?
    case DescriptionField => p.description.Some?
    case DueField => p.due.Some?
    case ReminderField => p.reminder.Some?
    case CompletedField => p.completed.Some?
  }

  /** No whitelisted key is present: the route answers "Nothing to update". */
  predicate EmptyPatch(p: Patch)
  {
    p.title.None? && p.description.None? && p.due.None? && p.reminder.None? && p.completed.None?
  }

  function Column(a: Assignment): Field
  {
    match a
    case SetTitle(_) => TitleField
    case SetDescription(_) => DescriptionField
    case SetDue(_) => DueField
    case SetReminder(_) => ReminderField
    case SetCompleted(_) => CompletedField
  }

  /** `f"{field} = %s"` together with `data[field]`. */
  function AssignmentFor(p: Patch, f: Field): (a: Assignment)
    requires Has(p, f)
    ensures Column(a) == f
  {
    match f
    case TitleField => SetTitle(p.title.value)
    case DescriptionField => SetDescription(p.description.value)
    case DueField => SetDue(p.due.value)
    case ReminderField => SetReminder(p.reminder.value)
    case CompletedField => SetCompleted(p.completed.value)
  }

  /** What one SET item does to a row. */
  function Assign(t: Task, a: Assignment): (r: Task)
    ensures r.id == t.id && r.owner == t.owner
  {
    match a
    case SetTitle(v) => t.(title := v)
    case SetDescription(v) => t.(description := v)
    case SetDue(v) => t.(due := v)
    case SetReminder(v) => t.(reminder := v)
    case SetCompleted(v) => t.(completed := v)
  }

  /** A whole SET list applied to a row, left to right. */
  function ApplyAll(t: Task, sets: seq<Assignment>): (r: Task)
    ensures r.id == t.id && r.owner == t.owner
  {
    if sets == [] then t else Assign(ApplyAll(t, sets[..|sets| - 1]), sets[|sets| - 1])
  }

  /** The row after the update, stated column by column: present keys win, absent keys keep the old value. */
  function Patched(t: Task, p: Patch): Task
  {
    Task(
      t.id,
      t.owner,
      if p.title.Some? then p.title.value else t.title,
      if p.description.Some? then p.description.value else t.description,
      if p.due.Some? then p.due.value else t.due,
      if p.reminder.Some? then p.reminder.value else t.reminder,
      if p.completed.Some? then p.completed.value else t.completed)
  }

  /** The row after the first `n` whitelisted columns have been considered. */
  function PatchedUpTo(t: Task, p: Patch, n: nat): Task
    requires n <= |Whitelist|
  {
    if n == 0 then t
    else
      var before := PatchedUpTo(t, p, n - 1);
      var f := Whitelist[n - 1];
      if Has(p, f) then Assign(before, AssignmentFor(p, f)) else before
  }

  lemma PatchedUpToAll(t: Task, p: Patch)
    ensures PatchedUpTo(t, p, |Whitelist|) == Patched(t, p)
  {
    var t1 := t.(title := if p.title.Some? then p.title.value else t.title);
    var t2 := t1.(description := if p.description.Some? then p.description.value else t.description);
    var t3 := t2.(due := if p.due.Some? then p.due.value else t.due);
    var t4 := t3.(reminder := if p.reminder.Some? then p.reminder.value else t.reminder);
    assert Whitelist[0] == TitleField && Whitelist[1] == DescriptionField && Whitelist[2] == DueField;
    assert Whitelist[3] == ReminderField && Whitelist[4] == CompletedField;
    assert PatchedUpTo(t, p, 1) == t1;
    assert PatchedUpTo(t, p, 2) == t2;
    assert PatchedUpTo(t, p, 3) == t3;
    assert PatchedUpTo(t, p, 4) == t4;
  }

  /** Every key the route looks at is one of the five columns. */
  lemma WhitelistCovers(p: Patch)
    ensures (forall k :: 0 <= k < |Whitelist| ==> !Has(p, Whitelist[k])) <==> EmptyPatch(p)
  {
    assert Whitelist[0] == TitleField && Whitelist[1] == DescriptionField && Whitelist[2] == DueField;
    assert Whitelist[3] == ReminderField && Whitelist[4] == CompletedField;
  }

  /** The loop of update_task that builds the SET list: one item per whitelisted key present,
      in whitelist order. Applying the list is the column-by-column update. */
  method BuildAssignments(p: Patch) returns (sets: seq<Assignment>)
    ensures sets == [] <==> EmptyPatch(p)
    ensures forall a :: a in sets ==> Has(p, Column(a)) && a == AssignmentFor(p, Column(a))
    ensures forall t :: ApplyAll(t, sets) == Patched(t, p)
  {
    sets := [];
    for i := 0 to |Whitelist|
      invariant sets == [] <==> forall k :: 0 <= k < i ==> !Has(p, Whitelist[k])
      invariant forall a :: a in sets ==> Has(p, Column(a)) && a == AssignmentFor(p, Column(a))
      invariant forall t :: ApplyAll(t, sets) == PatchedUpTo(t, p, i)
    {
      var f := Whitelist[i];
      if Has(p, f) {
        sets := sets + [AssignmentFor(p, f)];
      }
    }
    WhitelistCovers(p);
    forall t ensures ApplyAll(t, sets) == Patched(t, p) {
      PatchedUpToAll(t, p);
    }
  }

  /** An update touches no column outside the patch, and an empty patch touches none. */
  lemma PatchedKeepsAbsent(t: Task, p: Patch)
    ensures Patched(t, p).id == t.id && Patched(t, p).owner == t.owner
    ensures p.title.None? ==> Patched(t, p).title == t.title
    ensures p.description.None? ==> Patched(t, p).description == t.description
    ensures p.due.None? ==> Patched(t, p).due == t.due
    ensures p.reminder.None? ==> Patched(t, p).reminder == t.reminder
    ensures p.completed.None? ==> Patched(t, p).completed == t.completed
    ensures EmptyPatch(p) ==> Patched(t, p) == t
  {
  }

  // ---------------------------------------------------------------
  // UPDATE tasks SET ... WHERE id = ? AND user_id = ?
  // ---------------------------------------------------------------

  /** The SQL statement's effect: every matching row gets the SET list, every other row is untouched. */
  function SetWhere(rows: seq<Task>, id: TaskId, owner: UserId, sets: seq<Assignment>): (r: seq<Task>)
    ensures |r| == |rows|
    ensures forall k :: 0 <= k < |r| ==> r[k].id == rows[k].id && r[k].owner == rows[k].owner
  {
    seq(|rows|, k requires 0 <= k < |rows| => if Matches(rows[k], id, owner) then ApplyAll(rows[k], sets) else rows[k])
  }

  /** The table after a successful update_task, stated on records. */
  function UpdateRows(rows: seq<Task>, id: TaskId, owner: UserId, p: Patch): (r: seq<Task>)
    ensures |r| == |rows|
  {
    seq(|rows|, k requires 0 <= k < |rows| => if Matches(rows[k], id, owner) then Patched(rows[k], p) else rows[k])
  }

  /** Running the SET list built from a patch is the record-level update. */
  lemma SetWhereIsUpdate(rows: seq<Task>, id: TaskId, owner: UserId, p: Patch, sets: seq<Assignment>)
    requires forall t :: ApplyAll(t, sets) == Patched(t, p)
    ensures SetWhere(rows, id, owner, sets) == UpdateRows(rows, id, owner, p)
  {
  }

  /** An update rewrites only the row that matches id and owner, keeps every row's key and owner,
      and so keeps the table's primary key. */
  lemma UpdateTouchesOnlyMatch(rows: seq<Task>, id: TaskId, owner: UserId, p: Patch)
    ensures forall k :: 0 <= k < |rows| && !Matches(rows[k], id, owner) ==> UpdateRows(rows, id, owner, p)[k] == rows[k]
    ensures forall k :: 0 <= k < |rows| ==>
      UpdateRows(rows, id, owner, p)[k].id == rows[k].id && UpdateRows(rows, id, owner, p)[k].owner == rows[k].owner
    ensures UniqueIds(rows) ==> UniqueIds(UpdateRows(rows, id, owner, p))
  {
  }

  /** update_task mails "Task Completed" exactly on the false-to-true transition of is_completed. */
  predicate CompletesTask(before: Task, p: Patch)
  {
    p.completed == Some(true) && !before.completed
  }

  /** Re-completing, omitting the field or reverting never counts as completing. */
  lemma CompletionTransitionOnly(before: Task, p: Patch)
    ensures CompletesTask(before, p) <==> !before.completed && Patched(before, p).completed
  {
  }
}
