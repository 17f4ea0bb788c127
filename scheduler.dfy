/**
 * The per-minute tick: load the capsules that are due and not yet notified, and for each
 * one, in list order, send the "capsule opened" notification to its receiver and then mark
 * it notified. A notification that fails is caught: that capsule stays unnotified and the
 * loop goes on. `now` is the tick's clock reading, `failing` the ids of capsules whose
 * notification call fails before its record is saved, `online` the receivers whose push the
 * broker accepts.
 */
module Scheduler {
  import opened Wrappers
  import opened Seqs
  import opened NotificationTypes
  import opened Domain
  import opened CapsuleStore
  import opened NotificationStore
  import opened Notifier

  /**
   * The notification call for `c` returns normally: it is not among the failing ones and its
   * record fits the notification columns, which (`Admissible`) is the sender's nickname and
   * the capsule title fitting theirs.
   */
  function Delivers(failing: set<int>): TimeCapsule -> bool
  {
    (c: TimeCapsule) =>
      c.id !in failing && |c.sender.nickname| <= SenderNicknameLength && |c.title| <= ContentTitleLength
  }

  function Fails(failing: set<int>): TimeCapsule -> bool
  {
    (c: TimeCapsule) => !Delivers(failing)(c)
  }

  /**
   * `added` are the "capsule opened" records for `delivered`, one each and in order: to the
   * receiver, titled with the capsule title, pointing at the capsule, unread, stamped `now`,
   * with consecutive keys from `firstId`.
   */
  ghost predicate Announces(added: seq<Notification>, delivered: seq<TimeCapsule>, now: int, firstId: int)
    reads added
    decreases |added|
  {
    && |added| == |delivered|
    && (added != [] ==>
          && Announced(added[0], delivered[0], now, firstId)
          && Announces(added[1..], delivered[1..], now, firstId + 1))
  }

  /** `n` is the unread "capsule opened" record for `c` with key `id`, stamped `now`. */
  predicate Announced(n: Notification, c: TimeCapsule, now: int, id: int)
    reads n
  {
    && Carries(n, c.receiver, CapsuleOpened, c.sender.nickname, Some(c.title), c.id)
    && !n.isRead
    && n.createdAt == now
    && n.id == id
  }

  /** The `k`-th record announces the `k`-th capsule, with key `firstId + k`. */
  lemma {:induction false} AnnouncesAt(added: seq<Notification>, delivered: seq<TimeCapsule>, now: int, firstId: int,
                                       k: nat)
    requires Announces(added, delivered, now, firstId) && k < |added|
    ensures k < |delivered| && Announced(added[k], delivered[k], now, firstId + k)
    decreases k
  {
    if k > 0 {
      AnnouncesAt(added[1..], delivered[1..], now, firstId + 1, k - 1);
    }
  }

  /** The pushes the broker accepts for `added`, in order. */
  function PushesFor(added: seq<Notification>, online: set<int>): seq<Push>
  {
    if added == [] then []
    else (if added[0].user.id in online then [Push(added[0].user.id, added[0].id)] else [])
         + PushesFor(added[1..], online)
  }

  /**
   * A table `rows`, key counter `nextId` and push log `pushes` are `rows0`, `id0`, `pushes0`
   * followed by the "capsule opened" records for `delivered` and their accepted pushes.
   */
  ghost predicate Extends(rows: seq<Notification>, nextId: int, pushes: seq<Push>,
                          rows0: seq<Notification>, id0: int, pushes0: seq<Push>,
                          delivered: seq<TimeCapsule>, now: int, online: set<int>)
    reads rows
  {
    && |rows0| <= |rows| && rows[..|rows0|] == rows0
    && Announces(rows[|rows0|..], delivered, now, id0)
    && nextId == id0 + |rows| - |rows0|
    && pushes == pushes0 + PushesFor(rows[|rows0|..], online)
  }

  /**
   * Read at position `k`: the store gained one record per delivered capsule, and the `k`-th
   * one gained is the announcement of the `k`-th delivered capsule, with key `id0 + k`.
   */
  lemma ExtendsAt(rows: seq<Notification>, nextId: int, pushes: seq<Push>,
                  rows0: seq<Notification>, id0: int, pushes0: seq<Push>,
                  delivered: seq<TimeCapsule>, now: int, online: set<int>, k: nat)
    requires Extends(rows, nextId, pushes, rows0, id0, pushes0, delivered, now, online)
    requires k < |delivered|
    ensures |rows| == |rows0| + |delivered| && nextId == id0 + |delivered|
    ensures Announced(rows[|rows0| + k], delivered[k], now, id0 + k)
  {
    AnnouncesAt(rows[|rows0|..], delivered, now, id0, k);
  }

  /** One more announced batch extends the progress. */
  lemma ExtendsStep(rows: seq<Notification>, nextId: int, pushes: seq<Push>,
                    rows0: seq<Notification>, id0: int, pushes0: seq<Push>,
                    delivered: seq<TimeCapsule>, now: int, online: set<int>,
                    added: seq<Notification>, more: seq<TimeCapsule>)
    requires Extends(rows, nextId, pushes, rows0, id0, pushes0, delivered, now, online)
    requires Announces(added, more, now, nextId)
    ensures |rows0| <= |rows + added| && (rows + added)[..|rows0|] == rows0
    ensures Announces((rows + added)[|rows0|..], delivered + more, now, id0)
    ensures nextId + |added| == id0 + |rows + added| - |rows0|
    ensures pushes + PushesFor(added, online) == pushes0 + PushesFor((rows + added)[|rows0|..], online)
  {
    var tail := rows[|rows0|..];
    AppendSlices(rows, added, |rows0|);
    assert Announces(tail + added, delivered + more, now, id0) by {
      AnnouncesConcat(tail, delivered, added, more, now, id0);
    }
    assert PushesFor(tail + added, online) == PushesFor(tail, online) + PushesFor(added, online) by {
      PushesForConcat(tail, added, online);
    }
  }

  lemma {:induction false} AnnouncesConcat(a: seq<Notification>, da: seq<TimeCapsule>, b: seq<Notification>,
                                           db: seq<TimeCapsule>, now: int, firstId: int)
    requires Announces(a, da, now, firstId) && Announces(b, db, now, firstId + |a|)
    ensures Announces(a + b, da + db, now, firstId)
    decreases |a|
  {
    if a == [] {
      assert a + b == b && da + db == db;
    } else {
      AnnouncesConcat(a[1..], da[1..], b, db, now, firstId + 1);
      ConsAppend(a, b);
      ConsAppend(da, db);
    }
  }

  lemma {:induction false} PushesForConcat(a: seq<Notification>, b: seq<Notification>, online: set<int>)
    ensures PushesFor(a + b, online) == PushesFor(a, online) + PushesFor(b, online)
  {
    if a == [] {
      assert a + b == b;
    } else {
      var h := if a[0].user.id in online then [Push(a[0].user.id, a[0].id)] else [];
      assert (a + b)[0] == a[0] && (a + b)[1..] == a[1..] + b;
      assert PushesFor(a + b, online) == h + PushesFor(a[1..] + b, online);
      PushesForConcat(a[1..], b, online);
      assert h + (PushesFor(a[1..], online) + PushesFor(b, online)) ==
             (h + PushesFor(a[1..], online)) + PushesFor(b, online);
    }
  }

  /** Slicing an extended sequence at a point inside its old part. */
  lemma AppendSlices<T>(r: seq<T>, a: seq<T>, n: nat)
    requires n <= |r|
    ensures (r + a)[..n] == r[..n]
    ensures (r + a)[n..] == r[n..] + a
  {
  }

  lemma PrefixSnoc<T>(s: seq<T>, i: nat)
    requires i < |s|
    ensures s[..i + 1] == s[..i] + [s[i]]
    ensures forall x :: x in s[..i + 1] <==> x in s[..i] || x == s[i]
  {
    assert s[..i + 1] == s[..i] + [s[i]];
  }

  /** A sequence drawn from `pool` that holds no element of `pool` is empty. */
  lemma DrawnFromNone<T>(s: seq<T>, pool: seq<T>)
    requires forall i :: 0 <= i < |s| ==> s[i] in pool
    requires forall x :: x in pool ==> x !in s
    ensures s == []
  {
    if s != [] {
      HeadIn(s);
      assert false;
    }
  }

  /** With nothing due, every capsule is either not yet due or already notified. */
  lemma NoneDue(capsules: seq<TimeCapsule>, now: int)
    requires FindCapsulesReadyToOpen(capsules, now) == []
    ensures forall c :: c in capsules ==> now < c.openAt || c.isNotified
  {
    forall c | c in capsules
      ensures now < c.openAt || c.isNotified
    {
      var k :| 0 <= k < |capsules| && capsules[k] == c;
    }
  }

  lemma HeadIn<T>(s: seq<T>)
    ensures s != [] ==> s[0] in s
  {
  }

  /** Filtering a prefix one element longer. */
  lemma FilterSnoc<T>(p: T -> bool, s: seq<T>, i: nat)
    requires i < |s|
    ensures Filter(p, s[..i + 1]) == Filter(p, s[..i]) + (if p(s[i]) then [s[i]] else [])
  {
    assert s[..i + 1] == s[..i] + [s[i]];
    FilterConcat(p, s[..i], [s[i]]);
    assert [s[i]][1..] == [];
  }

  /**
   * Each capsule's flag is its flag `base` at the start of the loop, or set because the
   * loop has reached it (`seen`) and its notification call returned normally.
   */
  ghost predicate Flags(capsules: seq<TimeCapsule>, base: seq<bool>, seen: seq<TimeCapsule>, failing: set<int>)
    reads capsules
  {
    && |base| == |capsules|
    && forall k :: 0 <= k < |capsules| ==>
         capsules[k].isNotified == (base[k] || (capsules[k] in seen && Delivers(failing)(capsules[k])))
  }

  /**
   * Flagging `capsule` when its call returned normally extends the loop's flags by one step;
   * `before` are the flags before the call.
   */
  lemma FlagsStep(capsules: seq<TimeCapsule>, base: seq<bool>, seen: seq<TimeCapsule>,
                  capsule: TimeCapsule, failing: set<int>, before: seq<bool>)
    requires |base| == |capsules| && |before| == |capsules|
    requires forall k :: 0 <= k < |capsules| ==>
               before[k] == (base[k] || (capsules[k] in seen && Delivers(failing)(capsules[k])))
    requires forall k :: 0 <= k < |capsules| ==>
               capsules[k].isNotified == (before[k] || (capsules[k] == capsule && Delivers(failing)(capsule)))
    ensures Flags(capsules, base, seen + [capsule], failing)
  {
    forall k | 0 <= k < |capsules|
      ensures capsules[k].isNotified == (base[k] || (capsules[k] in seen + [capsule] && Delivers(failing)(capsules[k])))
    {
      assert capsules[k] in seen + [capsule] <==> capsules[k] in seen || capsules[k] == capsule;
    }
  }

  /** With `base` the current flags, a capsule is due exactly when its time came and it is unflagged. */
  lemma DueIsUnflaggedAndDue(capsules: seq<TimeCapsule>, base: seq<bool>, now: int)
    requires |base| == |capsules| && forall k :: 0 <= k < |capsules| ==> base[k] == capsules[k].isNotified
    ensures forall k :: 0 <= k < |capsules| ==>
              (capsules[k] in FindCapsulesReadyToOpen(capsules, now) <==> capsules[k].openAt <= now && !base[k])
  {
    var due := FindCapsulesReadyToOpen(capsules, now);
    forall k | 0 <= k < |capsules| && capsules[k] in due
      ensures capsules[k].openAt <= now && !base[k]
    {
      var j :| 0 <= j < |due| && due[j] == capsules[k];
    }
  }

  /**
   * After the loop over `due`, taken when `base` were the flags: a capsule is flagged when it
   * was, or was due and delivered; it is still due when it was due and not delivered.
   */
  lemma FlagsOutcome(capsules: seq<TimeCapsule>, base: seq<bool>, due: seq<TimeCapsule>, now: int, failing: set<int>)
    requires Flags(capsules, base, due, failing)
    requires forall k :: 0 <= k < |capsules| ==> (capsules[k] in due <==> capsules[k].openAt <= now && !base[k])
    ensures forall k :: 0 <= k < |capsules| ==>
              capsules[k].isNotified == (base[k] || (capsules[k].openAt <= now && Delivers(failing)(capsules[k])))
    ensures forall k :: 0 <= k < |capsules| ==>
              (capsules[k] in FindCapsulesReadyToOpen(capsules, now) <==>
               capsules[k] in due && !Delivers(failing)(capsules[k]))
  {
    var after := FindCapsulesReadyToOpen(capsules, now);
    forall k | 0 <= k < |capsules| && capsules[k] in after
      ensures capsules[k] in due && !Delivers(failing)(capsules[k])
    {
      var j :| 0 <= j < |after| && after[j] == capsules[k];
    }
  }

  class TimeCapsuleOpenScheduler {
    const capsuleRepo: TimeCapsuleRepository
    const notificationService: NotificationService

    ghost predicate Valid()
      reads this, capsuleRepo, notificationService, notificationService.repo
    {
      capsuleRepo.Valid() && notificationService.Valid()
    }

    constructor (capsuleRepo: TimeCapsuleRepository, notificationService: NotificationService)
      requires capsuleRepo.Valid() && notificationService.Valid()
      ensures this.capsuleRepo == capsuleRepo && this.notificationService == notificationService
      ensures Valid()
    {
      this.capsuleRepo := capsuleRepo;
      this.notificationService := notificationService;
    }

    /**
     * Since the state (`rows0`, `id0`, `pushes0`) the store only grew, and what it gained is
     * the "capsule opened" records for `delivered` and their accepted pushes.
     */
    ghost predicate Progress(rows0: seq<Notification>, id0: int, pushes0: seq<Push>,
                             delivered: seq<TimeCapsule>, now: int, online: set<int>)
      reads this, notificationService, notificationService.repo, notificationService.repo.rows
    {
      Extends(notificationService.repo.rows, notificationService.repo.nextId, notificationService.pushes,
              rows0, id0, pushes0, delivered, now, online)
    }

    /**
     * The body of the tick's loop for `capsule`: the notification call, then the flag when
     * the call returned normally. `added` is the record the call appended, if any.
     */
    method NotifyOne(capsule: TimeCapsule, now: int, failing: set<int>, online: set<int>)
      returns (added: seq<Notification>)
      requires Valid()
      modifies capsule`isNotified, notificationService, notificationService.repo
      ensures Valid()
      ensures capsule.isNotified == (old(capsule.isNotified) || Delivers(failing)(capsule))
      ensures notificationService.repo.rows == old(notificationService.repo.rows) + added
      ensures Announces(added, if Delivers(failing)(capsule) then [capsule] else [], now,
                        old(notificationService.repo.nextId))
      ensures notificationService.repo.nextId == old(notificationService.repo.nextId) + |added|
      ensures notificationService.pushes == old(notificationService.pushes) + PushesFor(added, online)
    {
      Admissible(CapsuleOpened, capsule.sender.nickname, Some(capsule.title));
      var r := notificationService.NotifyCapsuleOpened(capsule.receiver, capsule.id, capsule.sender.nickname,
                                                        capsule.title, now, capsule.id in failing,
                                                        capsule.receiver.id in online);
      if r.Success? {
        capsule.MarkAsNotified();
        added := [r.value];
        assert [r.value][1..] == [];
      } else {
        added := [];
      }
    }

    /**
     * `NotifyOne` for `due[i]`, seen as one more step of the loop: the progress and the flags
     * that held for `due[..i]` hold for `due[..i + 1]`.
     */
    method NotifyNext(capsule: TimeCapsule, now: int, failing: set<int>, online: set<int>,
                      ghost due: seq<TimeCapsule>, ghost i: nat,
                      ghost rows0: seq<Notification>, ghost id0: int, ghost pushes0: seq<Push>,
                      ghost base: seq<bool>)
      requires i < |due| && capsule == due[i] && capsule in capsuleRepo.capsules
      requires Valid() && Progress(rows0, id0, pushes0, Filter(Delivers(failing), due[..i]), now, online)
      requires Flags(capsuleRepo.capsules, base, due[..i], failing)
      modifies capsule`isNotified, notificationService, notificationService.repo
      ensures Valid()
      ensures Progress(rows0, id0, pushes0, Filter(Delivers(failing), due[..i + 1]), now, online)
      ensures Flags(capsuleRepo.capsules, base, due[..i + 1], failing)
    {
      ghost var delivered := Filter(Delivers(failing), due[..i]);
      ghost var rowsBefore := notificationService.repo.rows;
      ghost var idBefore, pushesBefore := notificationService.repo.nextId, notificationService.pushes;
      ghost var capsules := capsuleRepo.capsules;
      ghost var before := seq(|capsules|, k requires 0 <= k < |capsules| reads capsules => capsules[k].isNotified);
      var added := NotifyOne(capsule, now, failing, online);
      FlagsStep(capsules, base, due[..i], capsule, failing, before);
      assert Extends(rowsBefore, idBefore, pushesBefore, rows0, id0, pushes0, delivered, now, online);
      ExtendsStep(rowsBefore, idBefore, pushesBefore, rows0, id0, pushes0, delivered, now, online,
                  added, if Delivers(failing)(capsule) then [capsule] else []);
      FilterSnoc(Delivers(failing), due, i);
      PrefixSnoc(due, i);
    }

    /**
     * The tick's `for` loop over `due`: every entry is attempted, in order, whatever
     * happened to the ones before it.
     */
    method NotifyEach(due: seq<TimeCapsule>, now: int, failing: set<int>, online: set<int>, ghost base: seq<bool>)
      requires Valid()
      requires forall k :: 0 <= k < |due| ==> due[k] in capsuleRepo.capsules
      requires Flags(capsuleRepo.capsules, base, [], failing)
      modifies capsuleRepo.capsules`isNotified, notificationService, notificationService.repo
      ensures Valid()
      ensures Progress(old(notificationService.repo.rows), old(notificationService.repo.nextId),
                       old(notificationService.pushes), Filter(Delivers(failing), due), now, online)
      ensures Flags(capsuleRepo.capsules, base, due, failing)
    {
      ghost var rows0 := notificationService.repo.rows;
      ghost var id0 := notificationService.repo.nextId;
      ghost var pushes0 := notificationService.pushes;
      assert rows0[..|rows0|] == rows0 && rows0[|rows0|..] == [];
      var i := 0;
      while i < |due|
        invariant 0 <= i <= |due|
        invariant Valid()
        invariant Progress(rows0, id0, pushes0, Filter(Delivers(failing), due[..i]), now, online)
        invariant Flags(capsuleRepo.capsules, base, due[..i], failing)
      {
        NotifyNext(due[i], now, failing, online, due, i, rows0, id0, pushes0, base);
        i := i + 1;
      }
      assert due[..i] == due;
    }

    /**
     * `checkAndNotifyOpenedCapsules`. `due` is the due list the tick loads and hands to its loop
     * (`NotifyEach`), which calls the notifier for each entry in order, failures included. The
     * records appended are those of the capsules whose call returned normally; exactly those capsules
     * become notified; nothing else about any capsule changes; and the capsules still due
     * afterwards are exactly the ones whose call failed.
     */
    method CheckAndNotifyOpenedCapsules(now: int, failing: set<int>, online: set<int>)
      returns (ghost due: seq<TimeCapsule>)
      requires Valid()
      modifies capsuleRepo.capsules`isNotified, notificationService, notificationService.repo
      ensures Valid()
      ensures due == old(FindCapsulesReadyToOpen(capsuleRepo.capsules, now))
      ensures Progress(old(notificationService.repo.rows), old(notificationService.repo.nextId),
                       old(notificationService.pushes), Filter(Delivers(failing), due), now, online)
      ensures forall k :: 0 <= k < |capsuleRepo.capsules| ==>
                capsuleRepo.capsules[k].isNotified ==
                (old(capsuleRepo.capsules[k].isNotified) ||
                 (capsuleRepo.capsules[k].openAt <= now && Delivers(failing)(capsuleRepo.capsules[k])))
      ensures forall c :: c in capsuleRepo.capsules ==> c.isOpened == old(c.isOpened)
      ensures forall n :: n in old(notificationService.repo.rows) ==> n.isRead == old(n.isRead)
      ensures forall k :: 0 <= k < |capsuleRepo.capsules| ==>
                (capsuleRepo.capsules[k] in FindCapsulesReadyToOpen(capsuleRepo.capsules, now) <==>
                 capsuleRepo.capsules[k] in due && !Delivers(failing)(capsuleRepo.capsules[k]))
    {
      var capsules := capsuleRepo.capsules;
      var ready := FindCapsulesReadyToOpen(capsules, now);
      ghost var base := seq(|capsules|, k requires 0 <= k < |capsules| reads capsules => capsules[k].isNotified);
      DueIsUnflaggedAndDue(capsules, base, now);
      if ready == [] {
        assert notificationService.repo.rows[..|notificationService.repo.rows|] == notificationService.repo.rows;
        assert notificationService.repo.rows[|notificationService.repo.rows|..] == [];
      } else {
        NotifyEach(ready, now, failing, online, base);
      }
      due := ready;
      FlagsOutcome(capsules, base, due, now, failing);
    }

    /** A tick that finds nothing due creates no record, pushes nothing and changes no capsule. */
    method IdleTick(now: int, failing: set<int>, online: set<int>)
      requires Valid() && FindCapsulesReadyToOpen(capsuleRepo.capsules, now) == []
      modifies capsuleRepo.capsules`isNotified, notificationService, notificationService.repo
      ensures Valid()
      ensures notificationService.repo.rows == old(notificationService.repo.rows)
      ensures notificationService.repo.nextId == old(notificationService.repo.nextId)
      ensures notificationService.pushes == old(notificationService.pushes)
      ensures forall c :: c in capsuleRepo.capsules ==> c.isNotified == old(c.isNotified) && c.isOpened == old(c.isOpened)
    {
      ghost var rows0 := notificationService.repo.rows;
      ghost var id0, pushes0 := notificationService.repo.nextId, notificationService.pushes;
      NoneDue(capsuleRepo.capsules, now);
      var due := CheckAndNotifyOpenedCapsules(now, failing, online);
      assert Filter(Delivers(failing), due) == [];
      NothingDelivered(rows0, id0, pushes0, now, online);
    }

    /**
     * Two ticks at the same `now`: when no call of the first tick failed, the second one
     * finds nothing due, so the two ticks together leave the table, the key counter and the
     * push log exactly as the first tick alone does.
     */
    method TickTwice(now: int, failing: set<int>, failingAgain: set<int>, online: set<int>)
      requires Valid()
      modifies capsuleRepo.capsules`isNotified, notificationService, notificationService.repo
      ensures Valid()
      ensures (forall c :: c in old(FindCapsulesReadyToOpen(capsuleRepo.capsules, now)) ==> Delivers(failing)(c)) ==>
                Progress(old(notificationService.repo.rows), old(notificationService.repo.nextId),
                         old(notificationService.pushes),
                         Filter(Delivers(failing), old(FindCapsulesReadyToOpen(capsuleRepo.capsules, now))), now, online)
    {
      ghost var rows0 := notificationService.repo.rows;
      ghost var id0, pushes0 := notificationService.repo.nextId, notificationService.pushes;
      var due := TickClearsDue(now, failing, online);
      TickAgain(now, failingAgain, online, rows0, id0, pushes0, Filter(Delivers(failing), due));
    }

    /** A tick in which no call fails leaves nothing due. */
    method TickClearsDue(now: int, failing: set<int>, online: set<int>) returns (ghost due: seq<TimeCapsule>)
      requires Valid()
      modifies capsuleRepo.capsules`isNotified, notificationService, notificationService.repo
      ensures Valid()
      ensures due == old(FindCapsulesReadyToOpen(capsuleRepo.capsules, now))
      ensures Progress(old(notificationService.repo.rows), old(notificationService.repo.nextId),
                       old(notificationService.pushes), Filter(Delivers(failing), due), now, online)
      ensures (forall c :: c in due ==> Delivers(failing)(c)) ==> FindCapsulesReadyToOpen(capsuleRepo.capsules, now) == []
    {
      due := CheckAndNotifyOpenedCapsules(now, failing, online);
      if forall c :: c in due ==> Delivers(failing)(c) {
        DrawnFromNone(FindCapsulesReadyToOpen(capsuleRepo.capsules, now), capsuleRepo.capsules);
      }
    }

    /**
     * A further tick: when it finds nothing due, whatever the store had gained since
     * (`rows0`, `id0`, `pushes0`) is all it has gained.
     */
    method TickAgain(now: int, failing: set<int>, online: set<int>,
                     ghost rows0: seq<Notification>, ghost id0: int, ghost pushes0: seq<Push>,
                     ghost delivered: seq<TimeCapsule>)
      requires Valid() && Progress(rows0, id0, pushes0, delivered, now, online)
      modifies capsuleRepo.capsules`isNotified, notificationService, notificationService.repo
      ensures Valid()
      ensures old(FindCapsulesReadyToOpen(capsuleRepo.capsules, now)) == [] ==>
                Progress(rows0, id0, pushes0, delivered, now, online)
    {
      ghost var rows1 := notificationService.repo.rows;
      ghost var id1, pushes1 := notificationService.repo.nextId, notificationService.pushes;
      ghost var idle := FindCapsulesReadyToOpen(capsuleRepo.capsules, now) == [];
      assert Extends(rows1, id1, pushes1, rows0, id0, pushes0, delivered, now, online);
      var again := CheckAndNotifyOpenedCapsules(now, failing, online);
      if idle {
        assert Filter(Delivers(failing), again) == [];
        NothingDelivered(rows1, id1, pushes1, now, online);
      }
    }

    /** Progress over no delivered capsule means the table, key counter and push log are as they were. */
    lemma NothingDelivered(rows0: seq<Notification>, id0: int, pushes0: seq<Push>, now: int, online: set<int>)
      requires Progress(rows0, id0, pushes0, [], now, online)
      ensures notificationService.repo.rows == rows0
      ensures notificationService.repo.nextId == id0
      ensures notificationService.pushes == pushes0
    {
      var rows := notificationService.repo.rows;
      assert rows == rows[..|rows0|] + rows[|rows0|..];
    }
  }
}
