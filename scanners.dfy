/**
 The two periodic jobs of the service: check_reminders and check_overdue.
 Each reads the incomplete tasks joined with their owner's e-mail, mails
 every task whose time has come, and changes no row. One call is one scan
 cycle; the wall clock is the parameter `now`.
 */
module Scanners {
  import opened Types
  import opened Messages
  import opened Store

  datatype Scan = ReminderScan | OverdueScan

  /** The test each job applies to a fetched row: its timestamp is set and reached.
      A reminder is reached once its time is `<= now`; a task is overdue only once `due < now`. */
  predicate Reached(scan: Scan, t: Task, now: Time)
  {
    match scan
    case ReminderScan => t.reminder.Some? && t.reminder.value <= now
    case OverdueScan => t.due.Some? && t.due.value < now
  }

  /** The selection of one scan: the query keeps incomplete rows, the loop keeps reached ones. */
  predicate Fires(scan: Scan, t: Task, now: Time)
  {
    !t.completed && Reached(scan, t, now)
  }

  /** The mail a firing row produces, addressed to the e-mail of the joined user row. */
  function ScanMail(scan: Scan, to: string, t: Task): (m: Mail)
    requires scan == ReminderScan ==> t.reminder.Some?
    requires scan == OverdueScan ==> t.due.Some?
    ensures m.to == to
    ensures TitleAfter(if scan == ReminderScan then ReminderPrefix else OverduePrefix, m.subject) == Some(t.title)
  {
    SubjectsCarryTitle(t.title);
    match scan
    case ReminderScan => Mail(to, ReminderSubject(t.title), ReminderBody(t.title, t.description, t.reminder.value))
    case OverdueScan => Mail(to, OverdueSubject(t.title), OverdueBody(t.title, t.description, t.due.value))
  }

  /** One send of a scan cycle, with the task id the job logs for it. */
  datatype Firing = Firing(task: TaskId, mail: Mail)

  /** What a single row contributes: a row whose owner has no users row is dropped by the join. */
  function RowFirings(scan: Scan, t: Task, users: Users, now: Time): (r: seq<Firing>)
    ensures |r| <= 1
    ensures r != [] <==> t.owner in users && Fires(scan, t, now)
    ensures r != [] ==> r[0].task == t.id && r[0].mail.to == users[t.owner]
  {
    if t.owner in users && Fires(scan, t, now) then [Firing(t.id, ScanMail(scan, users[t.owner], t))] else []
  }

  /** The sends of one scan cycle over the rows, in row order. */
  function Firings(scan: Scan, rows: seq<Task>, users: Users, now: Time): (r: seq<Firing>)
    ensures |r| <= |rows|
  {
    if rows == [] then []
    else Firings(scan, rows[..|rows| - 1], users, now) + RowFirings(scan, rows[|rows| - 1], users, now)
  }

  function TaskIds(fs: seq<Firing>): (r: seq<TaskId>)
    ensures |r| == |fs|
  {
    seq(|fs|, k requires 0 <= k < |fs| => fs[k].task)
  }

  function FiringMails(fs: seq<Firing>): (r: seq<Mail>)
    ensures |r| == |fs|
  {
    seq(|fs|, k requires 0 <= k < |fs| => fs[k].mail)
  }

  ghost predicate NoDuplicates(s: seq<TaskId>)
  {
    forall i, j :: 0 <= i < j < |s| ==> s[i] != s[j]
  }

  // ---------------------------------------------------------------
  // What a scan cycle sends
  // ---------------------------------------------------------------

  /** Every send of a cycle comes from a qualifying row of the table, and is addressed
      to that row's owner with the scan's mail for that row. */
  lemma {:induction false} FiringsFromRows(scan: Scan, rows: seq<Task>, users: Users, now: Time)
    ensures forall f :: f in Firings(scan, rows, users, now) ==>
      exists t :: t in rows && t.id == f.task && t.owner in users && Fires(scan, t, now)
        && f.mail == ScanMail(scan, users[t.owner], t)
  {
    if rows != [] {
      var init, last := rows[..|rows| - 1], rows[|rows| - 1];
      FiringsFromRows(scan, init, users, now);
      forall f | f in Firings(scan, rows, users, now)
        ensures (exists t :: t in rows && t.id == f.task && t.owner in users && Fires(scan, t, now)
                   && f.mail == ScanMail(scan, users[t.owner], t))
      {
        if f in Firings(scan, init, users, now) {
          var t :| t in init && t.id == f.task && t.owner in users && Fires(scan, t, now)
            && f.mail == ScanMail(scan, users[t.owner], t);
          assert t in rows;
        } else {
          assert f in RowFirings(scan, last, users, now);
          assert last in rows;
        }
      }
    }
  }

  /** Every qualifying row of the table produces a send in the cycle: an incomplete task whose
      timestamp is set and reached, and whose owner has a users row, is never skipped. */
  lemma {:induction false} RowsFire(scan: Scan, rows: seq<Task>, users: Users, now: Time)
    ensures forall t :: t in rows && t.owner in users && Fires(scan, t, now) ==>
      Firing(t.id, ScanMail(scan, users[t.owner], t)) in Firings(scan, rows, users, now)
  {
    if rows != [] {
      var init, last := rows[..|rows| - 1], rows[|rows| - 1];
      RowsFire(scan, init, users, now);
      forall t | t in rows && t.owner in users && Fires(scan, t, now)
        ensures Firing(t.id, ScanMail(scan, users[t.owner], t)) in Firings(scan, rows, users, now)
      {
        assert rows == init + [last];
        if t != last {
          assert t in init;
        }
      }
    }
  }

  /** A task fires in a cycle exactly when it is incomplete, its owner has a users row and
      its timestamp is set and reached; so completed tasks never fire, and a task due at
      `now` is not yet overdue. */
  lemma FiresIff(scan: Scan, rows: seq<Task>, users: Users, now: Time, id: TaskId)
    ensures id in TaskIds(Firings(scan, rows, users, now)) <==>
      exists t :: t in rows && t.id == id && t.owner in users && Fires(scan, t, now)
  {
    var fs := Firings(scan, rows, users, now);
    FiringsFromRows(scan, rows, users, now);
    RowsFire(scan, rows, users, now);
    if id in TaskIds(fs) {
      var k :| 0 <= k < |fs| && TaskIds(fs)[k] == id;
      assert fs[k] in fs;
    }
    if exists t :: t in rows && t.id == id && t.owner in users && Fires(scan, t, now) {
      var t :| t in rows && t.id == id && t.owner in users && Fires(scan, t, now);
      var f := Firing(t.id, ScanMail(scan, users[t.owner], t));
      var k :| 0 <= k < |fs| && fs[k] == f;
      assert TaskIds(fs)[k] == id;
    }
  }

  /** With a unique primary key, a cycle sends at most one mail per task. */
  lemma {:induction false} OnePerTask(scan: Scan, rows: seq<Task>, users: Users, now: Time)
    requires UniqueIds(rows)
    ensures NoDuplicates(TaskIds(Firings(scan, rows, users, now)))
  {
    if rows != [] {
      var init, last := rows[..|rows| - 1], rows[|rows| - 1];
      assert UniqueIds(init) by {
        forall i, j | 0 <= i < |init| && 0 <= j < |init| && i != j ensures init[i].id != init[j].id {
          assert init[i] == rows[i] && init[j] == rows[j];
        }
      }
      OnePerTask(scan, init, users, now);
      var before := Firings(scan, init, users, now);
      var ids := TaskIds(Firings(scan, rows, users, now));
      FiringsFromRows(scan, init, users, now);
      forall f | f in before ensures f.task != last.id {
        var t :| t in init && t.id == f.task && t.owner in users && Fires(scan, t, now)
          && f.mail == ScanMail(scan, users[t.owner], t);
        var m :| 0 <= m < |init| && init[m] == t;
        assert rows[m] == t;
      }
      forall i, j | 0 <= i < j < |ids| ensures ids[i] != ids[j] {
        if j < |before| {
          assert ids[i] == TaskIds(before)[i] && ids[j] == TaskIds(before)[j];
        } else {
          assert before[i] in before;
          assert ids[i] == before[i].task;
        }
      }
    }
  }

  /** A completed task never causes a reminder or an overdue mail, whatever its times. */
  lemma CompletedNeverFires(scan: Scan, rows: seq<Task>, users: Users, now: Time, k: nat)
    requires UniqueIds(rows)
    requires k < |rows| && rows[k].completed
    ensures rows[k].id !in TaskIds(Firings(scan, rows, users, now))
  {
    FiresIff(scan, rows, users, now, rows[k].id);
  }

  /** The boundary between the two scans: at `now` equal to both timestamps, an incomplete
      task of any table gets its reminder but is not yet overdue. */
  lemma BoundaryAtNow(rows: seq<Task>, users: Users, now: Time, k: nat)
    requires UniqueIds(rows) && k < |rows|
    requires !rows[k].completed && rows[k].owner in users
    requires rows[k].due == Some(now) && rows[k].reminder == Some(now)
    ensures rows[k].id in TaskIds(Firings(ReminderScan, rows, users, now))
    ensures rows[k].id !in TaskIds(Firings(OverdueScan, rows, users, now))
  {
    FiresIff(ReminderScan, rows, users, now, rows[k].id);
    FiresIff(OverdueScan, rows, users, now, rows[k].id);
    forall t | t in rows && t.id == rows[k].id ensures t == rows[k] {
      var m :| 0 <= m < |rows| && rows[m] == t;
    }
  }

  // ---------------------------------------------------------------
  // The jobs
  // ---------------------------------------------------------------

  lemma FiringsSnoc(scan: Scan, rows: seq<Task>, users: Users, now: Time, i: nat)
    requires i < |rows|
    ensures Firings(scan, rows[..i + 1], users, now)
      == Firings(scan, rows[..i], users, now) + RowFirings(scan, rows[i], users, now)
  {
    assert rows[..i + 1][..i] == rows[..i];
  }

  lemma ProjectionsAppend(a: seq<Firing>, b: seq<Firing>)
    ensures TaskIds(a + b) == TaskIds(a) + TaskIds(b)
    ensures FiringMails(a + b) == FiringMails(a) + FiringMails(b)
  {
  }

  lemma PrefixKept(a: seq<Attempt>, b: seq<Attempt>, c: seq<Attempt>)
    requires |a| <= |b| <= |c| && b[..|a|] == a && c[..|b|] == b
    ensures |a| <= |c| && c[..|a|] == a
  {
    assert c[..|a|] == c[..|b|][..|a|];
  }

  /** The loop body for one fetched row: mail it when the join keeps it and its time has come.
      Returns the id the job logs, if any. */
  method ScanRow(store: TaskStore, scan: Scan, t: Task, now: Time) returns (logged: seq<TaskId>)
    modifies store`outbox
    ensures logged == TaskIds(RowFirings(scan, t, store.users, now))
    ensures Mails(store.outbox) == Mails(old(store.outbox)) + FiringMails(RowFirings(scan, t, store.users, now))
    ensures |old(store.outbox)| <= |store.outbox| && store.outbox[..|old(store.outbox)|] == old(store.outbox)
  {
    logged := [];
    if t.owner in store.users && !t.completed {
      var email := store.users[t.owner];
      if Reached(scan, t, now) {
        store.Send(ScanMail(scan, email, t));
        logged := [t.id];
      }
    }
  }

  /** One cycle of a scan job. The job reads the store and only appends to the outbox;
      a failed send is swallowed, so the loop always runs over every row. Returns the
      ids of the tasks it mailed for, in row order. */
  method RunScan(store: TaskStore, scan: Scan, now: Time) returns (sent: seq<TaskId>)
    modifies store`outbox
    ensures sent == TaskIds(Firings(scan, store.rows, store.users, now))
    ensures Mails(store.outbox) == Mails(old(store.outbox)) + FiringMails(Firings(scan, store.rows, store.users, now))
    ensures store.outbox[..|old(store.outbox)|] == old(store.outbox)
  {
    var rows, users := store.rows, store.users;
    ghost var start := store.outbox;
    sent := [];
    ghost var done: seq<Firing> := [];
    for i := 0 to |rows|
      invariant store.rows == rows && store.users == users
      invariant done == Firings(scan, rows[..i], users, now)
      invariant sent == TaskIds(done)
      invariant Mails(store.outbox) == Mails(start) + FiringMails(done)
      invariant |start| <= |store.outbox| && store.outbox[..|start|] == start
    {
      ghost var step := RowFirings(scan, rows[i], users, now);
      ghost var before := store.outbox;
      FiringsSnoc(scan, rows, users, now, i);
      ProjectionsAppend(done, step);
      var logged := ScanRow(store, scan, rows[i], now);
      PrefixKept(start, before, store.outbox);
      sent := sent + logged;
      done := done + step;
    }
    assert rows[..|rows|] == rows;
  }

  /** check_reminders */
  method CheckReminders(store: TaskStore, now: Time) returns (sent: seq<TaskId>)
    modifies store`outbox
    ensures sent == TaskIds(Firings(ReminderScan, store.rows, store.users, now))
    ensures Mails(store.outbox) == Mails(old(store.outbox)) + FiringMails(Firings(ReminderScan, store.rows, store.users, now))
    ensures store.outbox[..|old(store.outbox)|] == old(store.outbox)
  {
    sent := RunScan(store, ReminderScan, now);
  }

  /** check_overdue */
  method CheckOverdue(store: TaskStore, now: Time) returns (sent: seq<TaskId>)
    modifies store`outbox
    ensures sent == TaskIds(Firings(OverdueScan, store.rows, store.users, now))
    ensures Mails(store.outbox) == Mails(old(store.outbox)) + FiringMails(Firings(OverdueScan, store.rows, store.users, now))
    ensures store.outbox[..|old(store.outbox)|] == old(store.outbox)
  {
    sent := RunScan(store, OverdueScan, now);
  }

  /** Nothing records that a mail went out, so a second cycle at the same `now` mails the same
      tasks again with the same mails. */
  method RepeatedCycles(store: TaskStore, now: Time) returns (first: seq<TaskId>, second: seq<TaskId>)
    modifies store`outbox
    ensures first == second
    ensures Mails(store.outbox) == Mails(old(store.outbox))
      + FiringMails(Firings(ReminderScan, store.rows, store.users, now))
      + FiringMails(Firings(ReminderScan, store.rows, store.users, now))
    ensures store.outbox[..|old(store.outbox)|] == old(store.outbox)
  {
    first := CheckReminders(store, now);
    second := CheckReminders(store, now);
  }

  /** One tick of the scheduler: both jobs run on the same interval, reminders first. */
  method Tick(store: TaskStore, now: Time) returns (reminded: seq<TaskId>, overdue: seq<TaskId>)
    modifies store`outbox
    ensures reminded == TaskIds(Firings(ReminderScan, store.rows, store.users, now))
    ensures overdue == TaskIds(Firings(OverdueScan, store.rows, store.users, now))
    ensures Mails(store.outbox) == Mails(old(store.outbox))
      + FiringMails(Firings(ReminderScan, store.rows, store.users, now))
      + FiringMails(Firings(OverdueScan, store.rows, store.users, now))
    ensures store.outbox[..|old(store.outbox)|] == old(store.outbox)
  {
    reminded := CheckReminders(store, now);
    overdue := CheckOverdue(store, now);
  }
}
