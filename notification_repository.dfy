/**
 * The notification table and its queries. A query that looks at `isRead` reads the
 * notification objects; one that only looks at fixed columns does not.
 */
module NotificationStore {
  import opened Wrappers
  import opened Seqs
  import opened Domain

  /** Sort key for `ORDER BY createdAt DESC`. */
  function NewestFirst(n: Notification): Key
  {
    [-n.createdAt]
  }

  function OwnedBy(userId: int): Notification -> bool
  {
    (n: Notification) => n.user.id == userId
  }

  function NotOwnedBy(userId: int): Notification -> bool
  {
    (n: Notification) => n.user.id != userId
  }

  /** `user.id = :userId AND isRead = false`, in store order. */
  function UnreadOf(rows: seq<Notification>, userId: int): (r: seq<Notification>)
    reads rows
    ensures forall i :: 0 <= i < |r| ==> r[i] in rows && r[i].user.id == userId && !r[i].isRead
  {
    if rows == [] then []
    else (if rows[0].user.id == userId && !rows[0].isRead then [rows[0]] else [])
         + UnreadOf(rows[1..], userId)
  }

  /** `user.id = :userId AND isRead = true`, in store order. */
  function ReadOf(rows: seq<Notification>, userId: int): (r: seq<Notification>)
    reads rows
    ensures forall i :: 0 <= i < |r| ==> r[i] in rows && r[i].user.id == userId && r[i].isRead
  {
    if rows == [] then []
    else (if rows[0].user.id == userId && rows[0].isRead then [rows[0]] else [])
         + ReadOf(rows[1..], userId)
  }

  /** `ORDER BY isRead ASC, createdAt DESC`: unread ones first, each group newest first. */
  function FindByUserIdOrderByIsReadAscCreatedAtDesc(rows: seq<Notification>, userId: int): seq<Notification>
    reads rows
  {
    FindUnreadByUserId(rows, userId) + SortBy(NewestFirst, ReadOf(rows, userId))
  }

  function FindUnreadByUserId(rows: seq<Notification>, userId: int): seq<Notification>
    reads rows
  {
    SortBy(NewestFirst, UnreadOf(rows, userId))
  }

  /** `SELECT COUNT(n) ... WHERE user.id = :userId AND isRead = false`. */
  function CountUnreadByUserId(rows: seq<Notification>, userId: int): nat
    reads rows
  {
    if rows == [] then 0
    else (if rows[0].user.id == userId && !rows[0].isRead then 1 else 0)
         + CountUnreadByUserId(rows[1..], userId)
  }

  /** What `DELETE FROM Notification n WHERE n.user.id = :userId` leaves behind. */
  function WithoutUser(rows: seq<Notification>, userId: int): seq<Notification>
  {
    Filter(NotOwnedBy(userId), rows)
  }

  /** `findById`: the row with that primary key, if any. */
  function FindById(rows: seq<Notification>, id: int): (r: Option<Notification>)
    ensures r.Some? ==> r.value in rows && r.value.id == id
    ensures r.None? ==> forall i :: 0 <= i < |rows| ==> rows[i].id != id
  {
    if rows == [] then None
    else if rows[0].id == id then Some(rows[0])
    else FindById(rows[1..], id)
  }

  /** The table's invariant: keys are unique and below the next generated key; lengths fit. */
  ghost predicate WellFormed(rows: seq<Notification>, nextId: int)
  {
    && DistinctNotificationIds(rows)
    && (forall i :: 0 <= i < |rows| ==> rows[i].id < nextId && rows[i].Fits())
  }

  class NotificationRepository {
    var rows: seq<Notification>
    /** The next key the identity column hands out. */
    var nextId: int

    ghost predicate Valid()
      reads this
    {
      WellFormed(rows, nextId)
    }

    constructor ()
      ensures Valid() && rows == [] && nextId == 1
    {
      rows := [];
      nextId := 1;
    }

    /**
     * The insert: the database refuses a row whose columns are over their declared lengths,
     * and `storeFails` stands for any other failure of the write.
     */
    method Save(n: Notification, storeFails: bool) returns (saved: bool)
      requires Valid() && n.id == nextId
      modifies this
      ensures Valid()
      ensures saved <==> !storeFails && n.Fits()
      ensures rows == if saved then old(rows) + [n] else old(rows)
      ensures nextId == if saved then old(nextId) + 1 else old(nextId)
    {
      saved := !storeFails && n.Fits();
      if saved {
        rows := rows + [n];
        nextId := nextId + 1;
      }
    }

    method DeleteAllByUserId(userId: int)
      requires Valid()
      modifies this`rows
      ensures Valid()
      ensures rows == WithoutUser(old(rows), userId)
    {
      rows := WithoutUser(rows, userId);
      WithoutUserKeepsWellFormed(old(rows), nextId, userId);
    }
  }

  lemma WithoutUserKeepsWellFormed(rows: seq<Notification>, nextId: int, userId: int)
    requires WellFormed(rows, nextId)
    ensures WellFormed(WithoutUser(rows, userId), nextId)
  {
    var r := WithoutUser(rows, userId);
    FilterKeepsDistinctIds(NotOwnedBy(userId), rows);
    FilterElementsIn(NotOwnedBy(userId), rows);
  }

  /** A filter of rows with distinct keys has distinct keys. */
  lemma {:induction false} FilterKeepsDistinctIds(p: Notification -> bool, s: seq<Notification>)
    requires DistinctNotificationIds(s)
    ensures DistinctNotificationIds(Filter(p, s))
  {
    if s != [] {
      FilterKeepsDistinctIds(p, s[1..]);
      FilterElementsIn(p, s[1..]);
      var t := Filter(p, s[1..]);
      if p(s[0]) {
        forall j | 0 <= j < |t| ensures t[j].id != s[0].id {
          assert t[j] in s[1..];
          var k :| 0 <= k < |s[1..]| && s[1..][k] == t[j];
          assert s[k + 1] == t[j];
        }
        assert Filter(p, s) == [s[0]] + t;
      }
    }
  }

  lemma {:induction false} UnreadOfMembers(rows: seq<Notification>, userId: int)
    ensures forall n :: n in UnreadOf(rows, userId) <==> n in rows && n.user.id == userId && !n.isRead
  {
    if rows != [] {
      UnreadOfMembers(rows[1..], userId);
      assert rows == [rows[0]] + rows[1..];
    }
  }

  /** A user's rows split into the unread and the read ones. */
  lemma {:induction false} UnreadReadPartition(rows: seq<Notification>, userId: int)
    ensures multiset(UnreadOf(rows, userId)) + multiset(ReadOf(rows, userId))
            == multiset(Filter(OwnedBy(userId), rows))
  {
    if rows != [] {
      UnreadReadPartition(rows[1..], userId);
      assert OwnedBy(userId)(rows[0]) == (rows[0].user.id == userId);
    }
  }

  lemma {:induction false} CountUnreadIsLength(rows: seq<Notification>, userId: int)
    ensures CountUnreadByUserId(rows, userId) == |UnreadOf(rows, userId)|
  {
    if rows != [] {
      CountUnreadIsLength(rows[1..], userId);
    }
  }

  /** `countUnreadByUserId` agrees with the length of `findUnreadByUserId`. */
  lemma CountUnreadMatchesFindUnread(rows: seq<Notification>, userId: int)
    ensures CountUnreadByUserId(rows, userId) == |FindUnreadByUserId(rows, userId)|
  {
    CountUnreadIsLength(rows, userId);
  }

  /** `createdAt` never increases along `s`. */
  predicate NewestFirstOrdered(s: seq<Notification>)
  {
    forall i, j :: 0 <= i < j < |s| ==> s[i].createdAt >= s[j].createdAt
  }

  /** Every row of `s` belongs to `userId` and has read flag `isRead`. */
  predicate AllOf(s: seq<Notification>, userId: int, isRead: bool)
    reads s
  {
    forall i :: 0 <= i < |s| ==> s[i].user.id == userId && s[i].isRead == isRead
  }

  /** `ORDER BY isRead ASC`: no unread row comes after a read one. */
  predicate UnreadBeforeRead(s: seq<Notification>)
    reads s
  {
    forall i, j :: 0 <= i < j < |s| && s[i].isRead ==> s[j].isRead
  }

  /** `createdAt DESC` as the second key: newest first among rows with the same flag. */
  predicate NewestFirstWithinFlag(s: seq<Notification>)
    reads s
  {
    forall i, j :: 0 <= i < j < |s| && s[i].isRead == s[j].isRead ==> s[i].createdAt >= s[j].createdAt
  }

  /** Sorting rows that all share an owner and a read flag keeps that, and orders them newest first. */
  lemma SortedNewestFirst(u: seq<Notification>, userId: int, isRead: bool)
    requires AllOf(u, userId, isRead)
    ensures AllOf(SortBy(NewestFirst, u), userId, isRead)
    ensures NewestFirstOrdered(SortBy(NewestFirst, u))
  {
    var r := SortBy(NewestFirst, u);
    forall i | 0 <= i < |r| ensures r[i].user.id == userId && r[i].isRead == isRead {
      assert r[i] in multiset(u);
      var k :| 0 <= k < |u| && u[k] == r[i];
    }
    SortBySorted(NewestFirst, u);
    forall i, j | 0 <= i < j < |r|
      ensures r[i].createdAt >= r[j].createdAt
    {
      KeyLeSingle(-r[i].createdAt, -r[j].createdAt);
    }
  }

  /** `findUnreadByUserId`: exactly the user's unread rows, each once, newest first. */
  lemma FindUnreadByUserIdSpec(rows: seq<Notification>, userId: int)
    ensures multiset(FindUnreadByUserId(rows, userId)) == multiset(UnreadOf(rows, userId))
    ensures forall n :: n in FindUnreadByUserId(rows, userId) <==> n in rows && n.user.id == userId && !n.isRead
    ensures AllOf(FindUnreadByUserId(rows, userId), userId, false)
    ensures NewestFirstOrdered(FindUnreadByUserId(rows, userId))
  {
    var u := UnreadOf(rows, userId);
    UnreadOfMembers(rows, userId);
    SortByMembers(NewestFirst, u);
    SortedNewestFirst(u, userId, false);
  }

  /** Unread rows newest first, then read rows newest first, keep both orderings. */
  lemma GroupsOrdered(a: seq<Notification>, b: seq<Notification>, userId: int)
    requires AllOf(a, userId, false) && AllOf(b, userId, true)
    requires NewestFirstOrdered(a) && NewestFirstOrdered(b)
    ensures UnreadBeforeRead(a + b) && NewestFirstWithinFlag(a + b)
  {
    var r := a + b;
    forall i, j | 0 <= i < j < |r| && r[i].isRead
      ensures r[j].isRead
    {
      assert r[j] == b[j - |a|];
    }
    forall i, j | 0 <= i < j < |r| && r[i].isRead == r[j].isRead
      ensures r[i].createdAt >= r[j].createdAt
    {
      if j < |a| {
        assert r[i] == a[i] && r[j] == a[j];
      } else if i >= |a| {
        assert r[i] == b[i - |a|] && r[j] == b[j - |a|];
      }
    }
  }

  /**
   * The ordered listing holds each of the user's rows once, puts every unread row before
   * every read one, and is newest first among rows with the same read flag.
   */
  lemma ListingSpec(rows: seq<Notification>, userId: int)
    ensures multiset(FindByUserIdOrderByIsReadAscCreatedAtDesc(rows, userId)) ==
            multiset(Filter(OwnedBy(userId), rows))
    ensures UnreadBeforeRead(FindByUserIdOrderByIsReadAscCreatedAtDesc(rows, userId))
    ensures NewestFirstWithinFlag(FindByUserIdOrderByIsReadAscCreatedAtDesc(rows, userId))
  {
    var u := UnreadOf(rows, userId);
    var v := ReadOf(rows, userId);
    var a := SortBy(NewestFirst, u);
    var b := SortBy(NewestFirst, v);
    assert FindByUserIdOrderByIsReadAscCreatedAtDesc(rows, userId) == a + b;
    UnreadReadPartition(rows, userId);
    assert multiset(a + b) == multiset(a) + multiset(b);
    SortedNewestFirst(u, userId, false);
    SortedNewestFirst(v, userId, true);
    GroupsOrdered(a, b, userId);
  }

  /** A user with no rows has no unread rows. */
  lemma {:induction false} UnreadOfAbsentUser(rows: seq<Notification>, userId: int)
    requires forall i :: 0 <= i < |rows| ==> rows[i].user.id != userId
    ensures UnreadOf(rows, userId) == []
  {
    if rows != [] {
      UnreadOfAbsentUser(rows[1..], userId);
    }
  }

  /**
   * After `deleteAllByUserId(u)` no row of `u` is left, every other row is kept, and the
   * unread count of `u` is 0.
   */
  lemma DeleteAllByUserIdSpec(rows: seq<Notification>, userId: int)
    ensures forall n :: n in WithoutUser(rows, userId) <==> n in rows && n.user.id != userId
    ensures CountUnreadByUserId(WithoutUser(rows, userId), userId) == 0
  {
    var r := WithoutUser(rows, userId);
    FilterMembers(NotOwnedBy(userId), rows);
    CountUnreadIsLength(r, userId);
    UnreadOfAbsentUser(r, userId);
  }
}
