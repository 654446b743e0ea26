/**
 The task routes as operations on an in-memory store: the `tasks` table,
 the `users` e-mails, the SERIAL counter that hands out task ids, and an
 outbox recording every call to the mail transport. Every operation is
 scoped to the caller's user id.
 */
module Store {
  import opened Types
  import opened Messages
  import opened TaskTable
  import opened Patching

  /** The JSON body of a create request; `None` is a missing key or a null.
      An empty datetime string is modelled as `None`. */
  datatype CreateRequest = CreateRequest(
    title: Option<string>,
    description: Option<string>,
    due: Option<Time>,
    reminder: Option<Time>)

  datatype CreateResult = Created(id: TaskId) | MissingFields

  datatype UpdateResult = Updated | NotFound | NothingToUpdate

  /** `title and due_datetime and reminder_datetime`: the description may be absent. */
  predicate Accepted(req: CreateRequest)
  {
    Truthy(req.title) && req.due.Some? && req.reminder.Some?
  }

  /** The row an accepted request inserts: not completed, with the given fields. */
  function NewTask(id: TaskId, owner: UserId, req: CreateRequest): (t: Task)
    requires Accepted(req)
    ensures t.id == id && t.owner == owner && !t.completed
  {
    Task(id, owner, req.title.value, req.description, req.due, req.reminder, false)
  }

  /** The mails that create_task sends for an accepted request: one "created" mail
      to the owner's address when the owner has a non-empty one, none otherwise. */
  function CreatedMails(users: Users, owner: UserId, req: CreateRequest): (r: seq<Mail>)
    requires Accepted(req)
    ensures |r| <= 1
    ensures r != [] <==> owner in users && users[owner] != ""
    ensures r != [] ==> r[0].to == users[owner] && r[0].subject == CreatedSubject
    ensures r != [] ==> r[0] == CreatedMail(users[owner], req.title.value, req.description, req.due.value, req.reminder.value)
  {
    var email := UserEmail(users, owner);
    if Truthy(email) then [CreatedMail(email.value, req.title.value, req.description, req.due.value, req.reminder.value)]
    else []
  }

  /** The mails that update_task sends: one "completed" mail naming the title the task had
      before the update, only on the false-to-true transition and only to a non-empty address. */
  function CompletedMails(users: Users, owner: UserId, before: Task, p: Patch): (r: seq<Mail>)
    ensures |r| <= 1
    ensures r != [] <==> CompletesTask(before, p) && owner in users && users[owner] != ""
    ensures r != [] ==> r[0].to == users[owner] && r[0] == CompletedMail(users[owner], before.title)
  {
    var email := UserEmail(users, owner);
    if CompletesTask(before, p) && Truthy(email) then [CompletedMail(email.value, before.title)] else []
  }

  class TaskStore {
    var rows: seq<Task>
    var users: Users
    var nextId: TaskId
    var outbox: seq<Attempt>

    /** The primary key is unique and every id handed out so far is below the counter. */
    ghost predicate Valid()
      reads this
    {
      && nextId >= 1
      && UniqueIds(rows)
      && forall t :: t in rows ==> 1 <= t.id < nextId
    }

    constructor (users: Users)
      ensures Valid()
      ensures rows == [] && this.users == users && outbox == []
    {
      rows := [];
      this.users := users;
      nextId := 1;
      outbox := [];
    }

    /** One call to the mail transport. The transport may fail; the failure is caught
        and only logged, so the call always returns and records the attempt either way. */
    method Send(mail: Mail)
      modifies this`outbox
      ensures Mails(outbox) == Mails(old(outbox)) + [mail]
      ensures outbox[..|old(outbox)|] == old(outbox)
    {
      var delivered: bool :| true;
      outbox := outbox + [Attempt(mail, delivered)];
    }

    /** create_task: reject a request without title, due time or reminder time;
        otherwise insert the row under a fresh id and mail the owner. */
    method CreateTask(owner: UserId, req: CreateRequest) returns (r: CreateResult)
      requires Valid()
      modifies this`rows, this`nextId, this`outbox
      ensures Valid()
      ensures r == MissingFields <==> !Accepted(req)
      ensures r == MissingFields ==> rows == old(rows) && nextId == old(nextId) && outbox == old(outbox)
      ensures r.Created? ==> r.id == old(nextId) && forall t :: t in old(rows) ==> t.id != r.id
      ensures r.Created? ==> rows == old(rows) + [NewTask(r.id, owner, req)]
      ensures r.Created? ==> Mails(outbox) == Mails(old(outbox)) + CreatedMails(users, owner, req)
      ensures outbox[..|old(outbox)|] == old(outbox)
    {
      if !Accepted(req) {
        return MissingFields;
      }
      var id := nextId;
      rows := rows + [NewTask(id, owner, req)];
      nextId := nextId + 1;
      var email := UserEmail(users, owner);
      if Truthy(email) {
        Send(CreatedMail(email.value, req.title.value, req.description, req.due.value, req.reminder.value));
      }
      r := Created(id);
    }

    /** update_task: look the task up by id and owner, build the SET list from the
        whitelisted keys, apply it, and mail on the false-to-true completion. */
    method UpdateTask(owner: UserId, id: TaskId, p: Patch) returns (r: UpdateResult)
      requires Valid()
      modifies this`rows, this`outbox
      ensures Valid()
      ensures r == NotFound <==> FindOwned(old(rows), id, owner).None?
      ensures r == NothingToUpdate <==> FindOwned(old(rows), id, owner).Some? && EmptyPatch(p)
      ensures r != Updated ==> rows == old(rows) && outbox == old(outbox)
      ensures r == Updated ==> rows == UpdateRows(old(rows), id, owner, p)
      ensures r == Updated ==>
        Mails(outbox) == Mails(old(outbox)) + CompletedMails(users, owner, FindOwned(old(rows), id, owner).value, p)
      ensures outbox[..|old(outbox)|] == old(outbox)
    {
      var found := FindOwned(rows, id, owner);
      if found.None? {
        return NotFound;
      }
      var before := found.value;
      var sets := BuildAssignments(p);
      if sets == [] {
        return NothingToUpdate;
      }
      SetWhereIsUpdate(rows, id, owner, p, sets);
      UpdateTouchesOnlyMatch(rows, id, owner, p);
      rows := SetWhere(rows, id, owner, sets);
      if p.completed.Some? && p.completed.value && !before.completed {
        var email := UserEmail(users, owner);
        if Truthy(email) {
          Send(CompletedMail(email.value, before.title));
        }
      }
      r := Updated;
    }

    /** delete_task: remove the row matching id and owner, if there is one. The route
        answers success whether or not a row matched, so there is no result. */
    method DeleteTask(owner: UserId, id: TaskId)
      requires Valid()
      modifies this`rows
      ensures Valid()
      ensures rows == Without(old(rows), id, owner)
      ensures FindOwned(old(rows), id, owner).None? ==> rows == old(rows)
    {
      WithoutUnique(rows, id, owner);
      WithoutMembers(rows, id, owner);
      if FindOwned(rows, id, owner).None? {
        WithoutNoMatch(rows, id, owner);
      }
      rows := Without(rows, id, owner);
    }
  }
}
