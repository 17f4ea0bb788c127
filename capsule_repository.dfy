/**
 * The capsule table and its queries. Queries are functions of the rows in store order
 * (paging is not modelled); the one write is the conditional "claim" update.
 */
module CapsuleStore {
  import opened Wrappers
  import opened Seqs
  import opened Domain

  /** Sort key for `ORDER BY createdAt DESC`. */
  function NewestFirst(c: TimeCapsule): Key
  {
    [-c.createdAt]
  }

  function SentBy(senderId: int): TimeCapsule -> bool
  {
    (c: TimeCapsule) => c.sender.id == senderId
  }

  function ReceivedBy(receiverId: int): TimeCapsule -> bool
  {
    (c: TimeCapsule) => c.receiver.id == receiverId
  }

  /** `sender.id = :userId OR receiver.id = :userId` */
  function Involves(userId: int): TimeCapsule -> bool
  {
    (c: TimeCapsule) => c.sender.id == userId || c.receiver.id == userId
  }

  /** `openAt <= now` */
  function OpenBy(now: int): TimeCapsule -> bool
  {
    (c: TimeCapsule) => c.openAt <= now
  }

  /** `openAt <= now AND (sender.id = :userId OR receiver.id = :userId)` */
  function OpenAndInvolves(userId: int, now: int): TimeCapsule -> bool
  {
    (c: TimeCapsule) => c.openAt <= now && (c.sender.id == userId || c.receiver.id == userId)
  }

  function FindBySenderId(capsules: seq<TimeCapsule>, senderId: int): seq<TimeCapsule>
  {
    Filter(SentBy(senderId), capsules)
  }

  function FindByReceiverId(capsules: seq<TimeCapsule>, receiverId: int): seq<TimeCapsule>
  {
    Filter(ReceivedBy(receiverId), capsules)
  }

  function FindAllCapsules(capsules: seq<TimeCapsule>, userId: int): seq<TimeCapsule>
  {
    SortBy(NewestFirst, Filter(Involves(userId), capsules))
  }

  /** `CURRENT_TIMESTAMP` is the parameter `now`. */
  function FindOpenedCapsules(capsules: seq<TimeCapsule>, userId: int, now: int): seq<TimeCapsule>
  {
    SortBy(NewestFirst, Filter(OpenAndInvolves(userId, now), capsules))
  }

  /** The scheduler's query: due (`openAt <= now`, boundary included) and not yet notified. */
  function FindCapsulesReadyToOpen(capsules: seq<TimeCapsule>, now: int): (r: seq<TimeCapsule>)
    reads capsules
    ensures forall i :: 0 <= i < |r| ==> r[i] in capsules && r[i].openAt <= now && !r[i].isNotified
    ensures forall i :: 0 <= i < |capsules| && capsules[i].openAt <= now && !capsules[i].isNotified ==>
                          capsules[i] in r
  {
    if capsules == [] then []
    else
      assert forall i :: 0 < i < |capsules| ==> capsules[i] == capsules[1..][i - 1];
      (if capsules[0].openAt <= now && !capsules[0].isNotified then [capsules[0]] else [])
      + FindCapsulesReadyToOpen(capsules[1..], now)
  }

  /** Over a table with distinct keys the due list has distinct keys: no capsule is listed twice. */
  lemma {:induction false} DueListedOnce(capsules: seq<TimeCapsule>, now: int)
    requires DistinctCapsuleIds(capsules)
    ensures DistinctCapsuleIds(FindCapsulesReadyToOpen(capsules, now))
    decreases |capsules|
  {
    if capsules != [] {
      var rest := capsules[1..];
      DistinctTail(capsules);
      DueListedOnce(rest, now);
      var tail := FindCapsulesReadyToOpen(rest, now);
      forall i | 0 <= i < |tail|
        ensures tail[i].id != capsules[0].id
      {
        var j :| 0 <= j < |rest| && rest[j] == tail[i];
        assert capsules[j + 1] == tail[i];
      }
      if capsules[0].openAt <= now && !capsules[0].isNotified {
        DistinctCons(capsules[0], tail);
      } else {
        assert FindCapsulesReadyToOpen(capsules, now) == tail;
      }
    }
  }

  lemma DistinctTail(s: seq<TimeCapsule>)
    requires s != [] && DistinctCapsuleIds(s)
    ensures DistinctCapsuleIds(s[1..])
  {
    forall i, j | 0 <= i < j < |s[1..]|
      ensures s[1..][i].id != s[1..][j].id
    {
      assert s[1..][i] == s[i + 1] && s[1..][j] == s[j + 1];
    }
  }

  lemma DistinctCons(x: TimeCapsule, t: seq<TimeCapsule>)
    requires DistinctCapsuleIds(t) && forall i :: 0 <= i < |t| ==> t[i].id != x.id
    ensures DistinctCapsuleIds([x] + t)
  {
    var r := [x] + t;
    forall i, j | 0 <= i < j < |r|
      ensures r[i].id != r[j].id
    {
      assert r[j] == t[j - 1];
      if i > 0 {
        assert r[i] == t[i - 1];
      }
    }
  }

  /** Position of the row with primary key `id`. */
  function IndexOfId(capsules: seq<TimeCapsule>, id: int): (r: Option<nat>)
    ensures r.Some? ==> r.value < |capsules| && capsules[r.value].id == id
    ensures r.None? ==> forall i :: 0 <= i < |capsules| ==> capsules[i].id != id
  {
    if capsules == [] then None
    else if capsules[0].id == id then Some(0)
    else match IndexOfId(capsules[1..], id)
      case None => None
      case Some(k) => Some(k + 1)
  }

  /** With distinct keys, the capsule at `k` is the only one carrying its id. */
  lemma OnlyCapsuleWithId(capsules: seq<TimeCapsule>, k: nat)
    requires DistinctCapsuleIds(capsules) && k < |capsules|
    ensures forall d :: d in capsules && d.id == capsules[k].id ==> d == capsules[k]
  {
    forall d | d in capsules && d.id == capsules[k].id
      ensures d == capsules[k]
    {
      var j :| 0 <= j < |capsules| && capsules[j] == d;
      assert j == k;
    }
  }

  class TimeCapsuleRepository {
    var capsules: seq<TimeCapsule>

    ghost predicate Valid()
      reads this
    {
      DistinctCapsuleIds(capsules)
    }

    constructor (initial: seq<TimeCapsule>)
      requires DistinctCapsuleIds(initial)
      ensures Valid() && capsules == initial
    {
      capsules := initial;
    }

    /**
     * `UPDATE ... SET isNotified = true WHERE id = :id AND isNotified = false`; the result is
     * the number of rows the statement changed.
     */
    method UpdateIsNotifiedToTrue(id: int) returns (count: int)
      requires Valid()
      modifies capsules
      ensures count == 0 || count == 1
      ensures count == 1 <==> exists c :: c in capsules && c.id == id && !old(c.isNotified)
      ensures forall c :: c in capsules ==> c.isNotified == (old(c.isNotified) || c.id == id)
      ensures forall c :: c in capsules ==> c.isOpened == old(c.isOpened)
    {
      var k := IndexOfId(capsules, id);
      if k.Some? && !capsules[k.value].isNotified {
        var c := capsules[k.value];
        OnlyCapsuleWithId(capsules, k.value);
        c.isNotified := true;
        count := 1;
      } else {
        count := 0;
        if k.Some? {
          OnlyCapsuleWithId(capsules, k.value);
        }
      }
    }
  }

  /**
   * The claim issued `n` times in a row for one id: the first call wins exactly when there
   * is an unnotified capsule with that id, and every later call returns 0, so at most one
   * call ever returns 1.
   */
  method ClaimSequence(repo: TimeCapsuleRepository, id: int, n: nat) returns (counts: seq<int>)
    requires repo.Valid()
    modifies repo.capsules
    ensures |counts| == n
    ensures n > 0 ==>
              (counts[0] == 1 <==> exists c :: c in repo.capsules && c.id == id && !old(c.isNotified))
    ensures forall i :: 0 <= i < n ==> counts[i] == 0 || counts[i] == 1
    ensures forall i :: 0 < i < n ==> counts[i] == 0
    ensures forall i, j :: 0 <= i < n && 0 <= j < n && counts[i] == 1 && counts[j] == 1 ==> i == j
    ensures forall c :: c in repo.capsules ==> c.isNotified == (old(c.isNotified) || (n > 0 && c.id == id))
    ensures forall c :: c in repo.capsules ==> c.isOpened == old(c.isOpened)
  {
    counts := [];
    while |counts| < n
      invariant |counts| <= n
      invariant repo.Valid()
      invariant |counts| > 0 ==>
                  (counts[0] == 1 <==> exists c :: c in repo.capsules && c.id == id && !old(c.isNotified))
      invariant forall i :: 0 <= i < |counts| ==> counts[i] == 0 || counts[i] == 1
      invariant forall i :: 0 < i < |counts| ==> counts[i] == 0
      invariant forall c :: c in repo.capsules ==>
                  c.isNotified == (old(c.isNotified) || (|counts| > 0 && c.id == id))
      invariant forall c :: c in repo.capsules ==> c.isOpened == old(c.isOpened)
    {
      var k := repo.UpdateIsNotifiedToTrue(id);
      counts := counts + [k];
    }
  }

  /** `findBySenderId` returns exactly the capsules with that sender. */
  lemma FindBySenderIdExact(capsules: seq<TimeCapsule>, senderId: int)
    ensures forall c :: c in FindBySenderId(capsules, senderId) <==> c in capsules && c.sender.id == senderId
  {
    FilterMembers(SentBy(senderId), capsules);
  }

  /** `findByReceiverId` returns exactly the capsules with that receiver. */
  lemma FindByReceiverIdExact(capsules: seq<TimeCapsule>, receiverId: int)
    ensures forall c :: c in FindByReceiverId(capsules, receiverId) <==> c in capsules && c.receiver.id == receiverId
  {
    FilterMembers(ReceivedBy(receiverId), capsules);
  }

  /** `findAllCapsules`: every capsule the user sent or received, each once, newest first. */
  lemma FindAllCapsulesSpec(capsules: seq<TimeCapsule>, userId: int)
    ensures multiset(FindAllCapsules(capsules, userId)) == multiset(Filter(Involves(userId), capsules))
    ensures forall c :: c in FindAllCapsules(capsules, userId) <==>
              c in capsules && (c.sender.id == userId || c.receiver.id == userId)
    ensures forall i, j :: 0 <= i < j < |FindAllCapsules(capsules, userId)| ==>
              FindAllCapsules(capsules, userId)[i].createdAt >= FindAllCapsules(capsules, userId)[j].createdAt
  {
    FindAllCapsulesMembers(capsules, userId);
    FindAllCapsulesNewestFirst(capsules, userId);
  }

  lemma FindAllCapsulesMembers(capsules: seq<TimeCapsule>, userId: int)
    ensures forall c :: c in FindAllCapsules(capsules, userId) <==>
              c in capsules && (c.sender.id == userId || c.receiver.id == userId)
  {
    FilterMembers(Involves(userId), capsules);
    SortByMembers(NewestFirst, Filter(Involves(userId), capsules));
  }

  lemma FindAllCapsulesNewestFirst(capsules: seq<TimeCapsule>, userId: int)
    ensures forall i, j :: 0 <= i < j < |FindAllCapsules(capsules, userId)| ==>
              FindAllCapsules(capsules, userId)[i].createdAt >= FindAllCapsules(capsules, userId)[j].createdAt
  {
    var r := FindAllCapsules(capsules, userId);
    SortBySorted(NewestFirst, Filter(Involves(userId), capsules));
    forall i, j | 0 <= i < j < |r|
      ensures r[i].createdAt >= r[j].createdAt
    {
      KeyLeSingle(-r[i].createdAt, -r[j].createdAt);
    }
  }

  /**
   * `findOpenedCapsules` is `findAllCapsules` restricted to the capsules open at `now`,
   * in the same order.
   */
  lemma FindOpenedIsOrderedSubsetOfAll(capsules: seq<TimeCapsule>, userId: int, now: int)
    ensures FindOpenedCapsules(capsules, userId, now) == Filter(OpenBy(now), FindAllCapsules(capsules, userId))
  {
    FilterFilter(OpenBy(now), Involves(userId), OpenAndInvolves(userId, now), capsules);
    SortFilterCommute(NewestFirst, OpenBy(now), Filter(Involves(userId), capsules));
  }
}
