/**
 The read-only queries of the task routes over the `tasks` and `users`
 tables, and the row-level effect of DELETE. Each is a function of the
 table, so the store's methods and the scanners share one definition.
 */
module TaskTable {
  import opened Types

  // ---------------------------------------------------------------
  // get_user_email
  // ---------------------------------------------------------------

  /** `SELECT email FROM users WHERE id = ?`: the e-mail if the user row exists. */
  function UserEmail(users: Users, user: UserId): (r: Option<string>)
    ensures r.Some? <==> user in users
    ensures r.Some? ==> r.value == users[user]
  {
    if user in users then Some(users[user]) else None
  }

  // ---------------------------------------------------------------
  // Owner-scoped lookup: WHERE id = ? AND user_id = ?
  // ---------------------------------------------------------------

  predicate Matches(t: Task, id: TaskId, owner: UserId)
  {
    t.id == id && t.owner == owner
  }

  /** The first row with this id owned by `owner`, if any. */
  function FindOwned(rows: seq<Task>, id: TaskId, owner: UserId): (r: Option<Task>)
    ensures r.Some? ==> r.value in rows && Matches(r.value, id, owner)
    ensures r.None? <==> forall k :: 0 <= k < |rows| ==> !Matches(rows[k], id, owner)
  {
    if rows == [] then None
    else if Matches(rows[0], id, owner) then Some(rows[0])
    else FindOwned(rows[1..], id, owner)
  }

  lemma UniqueIdsTail(rows: seq<Task>)
    requires UniqueIds(rows) && rows != []
    ensures UniqueIds(rows[1..])
  {
    forall i, j | 0 <= i < |rows| - 1 && 0 <= j < |rows| - 1 && i != j
      ensures rows[1..][i].id != rows[1..][j].id
    {
      assert rows[1..][i] == rows[i + 1] && rows[1..][j] == rows[j + 1];
    }
  }

  /** With a unique key the row found is the only one that matches. */
  lemma {:induction false} FindOwnedUnique(rows: seq<Task>, id: TaskId, owner: UserId, k: nat)
    requires UniqueIds(rows)
    requires k < |rows| && Matches(rows[k], id, owner)
    ensures FindOwned(rows, id, owner) == Some(rows[k])
  {
    if k > 0 {
      assert rows[0].id != rows[k].id;
      UniqueIdsTail(rows);
      FindOwnedUnique(rows[1..], id, owner, k - 1);
    }
  }

  // ---------------------------------------------------------------
  // delete_task: DELETE FROM tasks WHERE id = ? AND user_id = ?
  // ---------------------------------------------------------------

  /** The table after deleting the rows that match id and owner. */
  function Without(rows: seq<Task>, id: TaskId, owner: UserId): (r: seq<Task>)
    ensures forall t :: multiset(r)[t] == if Matches(t, id, owner) then 0 else multiset(rows)[t]
    ensures |r| <= |rows|
  {
    if rows == [] then []
    else
      assert rows == [rows[0]] + rows[1..];
      if Matches(rows[0], id, owner) then Without(rows[1..], id, owner)
      else [rows[0]] + Without(rows[1..], id, owner)
  }

  /** Deleting a task that does not exist, or that another user owns, leaves the table as it was. */
  lemma {:induction false} WithoutNoMatch(rows: seq<Task>, id: TaskId, owner: UserId)
    requires FindOwned(rows, id, owner).None?
    ensures Without(rows, id, owner) == rows
  {
    if rows != [] {
      assert !Matches(rows[0], id, owner);
      WithoutNoMatch(rows[1..], id, owner);
      assert rows == [rows[0]] + rows[1..];
    }
  }

  lemma ConsUnique(x: Task, w: seq<Task>)
    requires UniqueIds(w)
    requires forall t :: t in w ==> t.id != x.id
    ensures UniqueIds([x] + w)
  {
    var r := [x] + w;
    forall i, j | 0 <= i < |r| && 0 <= j < |r| && i != j ensures r[i].id != r[j].id {
      if i > 0 && j > 0 {
        assert r[i] == w[i - 1] && r[j] == w[j - 1];
      } else if i == 0 {
        assert r[j] == w[j - 1];
      } else {
        assert r[i] == w[i - 1];
      }
    }
  }

  lemma HeadIdFresh(rows: seq<Task>)
    requires UniqueIds(rows) && rows != []
    ensures forall t :: t in rows[1..] ==> t.id != rows[0].id
  {
    forall t | t in rows[1..] ensures t.id != rows[0].id {
      var m :| 0 <= m < |rows[1..]| && rows[1..][m] == t;
      assert rows[m + 1] == t;
    }
  }

  lemma WithoutMembers(rows: seq<Task>, id: TaskId, owner: UserId)
    ensures forall t :: t in Without(rows, id, owner) ==> t in rows && !Matches(t, id, owner)
  {
    var w := Without(rows, id, owner);
    forall t | t in w ensures t in rows && !Matches(t, id, owner) {
      assert multiset(w)[t] > 0;
    }
  }

  /** Deleting keeps the primary key unique. */
  lemma {:induction false} WithoutUnique(rows: seq<Task>, id: TaskId, owner: UserId)
    requires UniqueIds(rows)
    ensures UniqueIds(Without(rows, id, owner))
  {
    if rows != [] {
      var tail := rows[1..];
      UniqueIdsTail(rows);
      WithoutUnique(tail, id, owner);
      if !Matches(rows[0], id, owner) {
        HeadIdFresh(rows);
        WithoutMembers(tail, id, owner);
        ConsUnique(rows[0], Without(tail, id, owner));
      }
    }
  }

  // ---------------------------------------------------------------
  // list_tasks: WHERE user_id = ? ORDER BY due_datetime
  // ---------------------------------------------------------------

  /** PostgreSQL's ascending order on a nullable column: NULL sorts after every value. */
  predicate DueLe(a: Task, b: Task)
  {
    match a.due
    case None => b.due.None?
    case Some(x) => b.due.None? || x <= b.due.value
  }

  ghost predicate SortedByDue(s: seq<Task>)
  {
    forall i, j :: 0 <= i < j < |s| ==> DueLe(s[i], s[j])
  }

  /** The caller's rows, in table order. */
  function OwnedBy(rows: seq<Task>, owner: UserId): (r: seq<Task>)
    ensures forall t :: multiset(r)[t] == if t.owner == owner then multiset(rows)[t] else 0
  {
    if rows == [] then []
    else
      assert rows == [rows[0]] + rows[1..];
      (if rows[0].owner == owner then [rows[0]] else []) + OwnedBy(rows[1..], owner)
  }

  /** Places `t` into a sorted sequence. */
  function Insert(t: Task, s: seq<Task>): (r: seq<Task>)
    requires SortedByDue(s)
    ensures SortedByDue(r)
    ensures multiset(r) == multiset(s) + multiset{t}
  {
    if s == [] then [t]
    else if DueLe(t, s[0]) then
      [t] + s
    else
      var rest := Insert(t, s[1..]);
      assert s == [s[0]] + s[1..];
      assert forall x :: x in rest ==> DueLe(s[0], x) by {
        forall x | x in rest ensures DueLe(s[0], x) {
          assert x in multiset(rest);
          if x != t {
            assert x in multiset(s[1..]);
            var k :| 0 <= k < |s[1..]| && s[1..][k] == x;
            assert s[k + 1] == x;
          }
        }
      }
      [s[0]] + rest
  }

  /** Insertion sort by due time; ties keep no particular order. */
  function SortByDue(s: seq<Task>): (r: seq<Task>)
    ensures SortedByDue(r)
    ensures multiset(r) == multiset(s)
  {
    if s == [] then []
    else
      assert s == [s[0]] + s[1..];
      Insert(s[0], SortByDue(s[1..]))
  }

  /** The rows returned by list_tasks. */
  function ListTasks(rows: seq<Task>, owner: UserId): (r: seq<Task>)
    ensures SortedByDue(r)
    ensures forall t :: multiset(r)[t] == if t.owner == owner then multiset(rows)[t] else 0
  {
    SortByDue(OwnedBy(rows, owner))
  }

  lemma DueLeAntisymmetric(a: Task, b: Task)
    requires DueLe(a, b) && DueLe(b, a)
    ensures a.due == b.due
  {
  }

  /** Removing one element keeps a sequence sorted. */
  lemma SortedRemove(s: seq<Task>, i: nat)
    requires SortedByDue(s) && i < |s|
    ensures SortedByDue(s[..i] + s[i + 1..])
  {
    var r := s[..i] + s[i + 1..];
    forall p, q | 0 <= p < q < |r| ensures DueLe(r[p], r[q]) {
      var p', q' := if p < i then p else p + 1, if q < i then q else q + 1;
      assert r[p] == s[p'] && r[q] == s[q'];
    }
  }

  /** The first rows of two sorted sequences holding the same rows share their due time. */
  lemma HeadsShareDue(a: seq<Task>, b: seq<Task>)
    requires SortedByDue(a) && SortedByDue(b)
    requires multiset(a) == multiset(b) && a != []
    ensures |a| == |b| && a[0].due == b[0].due
  {
    assert |a| == |multiset(a)| == |multiset(b)| == |b|;
    assert a[0] in multiset(b) && b[0] in multiset(a);
    var i :| 0 <= i < |b| && b[i] == a[0];
    var j :| 0 <= j < |a| && a[j] == b[0];
    assert DueLe(a[0], a[j]) && DueLe(b[0], b[i]);
    DueLeAntisymmetric(a[0], b[0]);
  }

  lemma MultisetRemove(a: seq<Task>, b: seq<Task>, i: nat)
    requires multiset(a) == multiset(b) && a != []
    requires i < |b| && b[i] == a[0]
    ensures multiset(b[..i] + b[i + 1..]) == multiset(a[1..])
  {
    assert b == b[..i] + [b[i]] + b[i + 1..];
    assert a == [a[0]] + a[1..];
    var x, y := multiset(b[..i] + b[i + 1..]), multiset(a[1..]);
    assert x + multiset{a[0]} == multiset(b);
    assert y + multiset{a[0]} == multiset(a);
    forall t ensures x[t] == y[t] {
      assert (x + multiset{a[0]})[t] == (y + multiset{a[0]})[t];
    }
  }

  /** Two sorted sequences holding the same rows list the same due times in the same order. */
  lemma {:induction false} SortedSameDues(a: seq<Task>, b: seq<Task>)
    requires SortedByDue(a) && SortedByDue(b)
    requires multiset(a) == multiset(b)
    ensures |a| == |b|
    ensures forall k :: 0 <= k < |a| ==> a[k].due == b[k].due
    decreases |a|
  {
    if a == [] {
      assert |multiset(b)| == 0;
    } else {
      HeadsShareDue(a, b);
      assert a[0] in multiset(b);
      var i :| 0 <= i < |b| && b[i] == a[0];
      var rest := b[..i] + b[i + 1..];
      MultisetRemove(a, b, i);
      SortedRemove(b, i);
      SortedSameDues(a[1..], rest);
      SameDuesStep(a, b, i, rest);
    }
  }

  /** The inductive step of SortedSameDues: b's first i rows share a[0]'s due time. */
  lemma SameDuesStep(a: seq<Task>, b: seq<Task>, i: nat, rest: seq<Task>)
    requires SortedByDue(b) && |a| == |b| && i < |b| && a != []
    requires b[i] == a[0] && a[0].due == b[0].due
    requires rest == b[..i] + b[i + 1..]
    requires |rest| == |a| - 1
    requires forall k :: 0 <= k < |rest| ==> a[1..][k].due == rest[k].due
    ensures forall k :: 0 <= k < |a| ==> a[k].due == b[k].due
  {
    forall k | 0 <= k < |a| ensures a[k].due == b[k].due {
      if k > 0 {
        assert a[k] == a[1..][k - 1];
        if k - 1 < i {
          assert rest[k - 1] == b[k - 1];
          assert DueLe(b[0], b[k - 1]) && DueLe(b[k - 1], b[k]) && DueLe(b[k], b[i]);
          DueLeAntisymmetric(b[k - 1], b[k]);
        } else {
          assert rest[k - 1] == b[k];
        }
      }
    }
  }

  /** Listing does not depend on the order in which rows were inserted: any two tables
      holding the same rows list the caller's tasks with the same due times, position by position. */
  lemma ListingIgnoresInsertionOrder(rows1: seq<Task>, rows2: seq<Task>, owner: UserId)
    requires multiset(rows1) == multiset(rows2)
    ensures |ListTasks(rows1, owner)| == |ListTasks(rows2, owner)|
    ensures forall k :: 0 <= k < |ListTasks(rows1, owner)| ==>
      ListTasks(rows1, owner)[k].due == ListTasks(rows2, owner)[k].due
  {
    var l1, l2 := ListTasks(rows1, owner), ListTasks(rows2, owner);
    assert multiset(l1) == multiset(l2) by {
      forall t ensures multiset(l1)[t] == multiset(l2)[t] {}
    }
    SortedSameDues(l1, l2);
  }
}
