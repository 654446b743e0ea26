/**
 The records of the task manager: the rows of the `tasks` table, the `users`
 table reduced to the e-mail column, and the mails handed to the transport.
 Timestamps are integers; a NULL column is `None`.
 */
module Types {

  datatype Option<+T> = None | Some(value: T)

  type TaskId = int
  type UserId = int
  type Time = int

  /** One row of the `tasks` table. */
  datatype Task = Task(
    id: TaskId,
    owner: UserId,
    title: string,
    description: Option<string>,
    due: Option<Time>,
    reminder: Option<Time>,
    completed: bool)

  /** The `users` table as far as notifications need it: id to e-mail. */
  type Users = map<UserId, string>

  /** The arguments of one call to the mail transport. */
  datatype Mail = Mail(to: string, subject: string, body: string)

  /** One send attempt; `delivered` is false when the transport raised. */
  datatype Attempt = Attempt(mail: Mail, delivered: bool)

  /** Python truthiness of an optional string: neither NULL nor empty. */
  predicate Truthy(s: Option<string>)
  {
    s.Some? && s.value != ""
  }

  /** Every row id is distinct: `id` is the table's primary key. */
  ghost predicate UniqueIds(rows: seq<Task>)
  {
    forall i, j :: 0 <= i < |rows| && 0 <= j < |rows| && i != j ==> rows[i].id != rows[j].id
  }

  /** The mails of a sequence of attempts, delivered or not. */
  function Mails(attempts: seq<Attempt>): (r: seq<Mail>)
    ensures |r| == |attempts|
    ensures forall k :: 0 <= k < |r| ==> r[k] == attempts[k].mail
  {
    seq(|attempts|, k requires 0 <= k < |attempts| => attempts[k].mail)
  }
}
