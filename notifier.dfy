/**
 * The notification service: the message template, record creation followed by a
 * best-effort push, the five trigger wrappers, owner-checked mark-as-read, the unread
 * count and delete-all. The WebSocket push is an entry in a push log; whether the broker
 * accepts it is the input `pushOk`. A failed save is an error result instead of an
 * exception; the database clock is the input `now`.
 */
module Notifier {
  import opened Wrappers
  import opened Seqs
  import opened NotificationTypes
  import opened Domain
  import opened NotificationStore

  /** The text between the sender's nickname and the type's message. */
  const Honorific := "님이 "

  /**
   * `senderNickname + "님이 " + type.getDefaultMessage()`: the nickname, then the tail that
   * marks the type.
   */
  function BuildNotificationContent(t: NotificationType, senderNickname: string): (r: string)
    ensures |r| == |senderNickname| + |Tail(t)|
    ensures r[..|senderNickname|] == senderNickname
    ensures EndsWith(r, Tail(t))
  {
    senderNickname + Honorific + t.DefaultMessage()
  }

  /** The tail that a content of type `t` carries after the nickname. */
  function Tail(t: NotificationType): string
  {
    Honorific + t.DefaultMessage()
  }

  /** The nickname part of `content`, if it ends with the tail of `t`. */
  function StripTail(content: string, t: NotificationType): Option<string>
  {
    if EndsWith(content, Tail(t)) then Some(content[..|content| - |Tail(t)|]) else None
  }

  /** Reads a content string back into its type and the sender's nickname. */
  function ParseContent(content: string): Option<(NotificationType, string)>
  {
    if StripTail(content, LetterReceived).Some? then Some((LetterReceived, StripTail(content, LetterReceived).value))
    else if StripTail(content, CapsuleReceived).Some? then Some((CapsuleReceived, StripTail(content, CapsuleReceived).value))
    else if StripTail(content, CapsuleOpened).Some? then Some((CapsuleOpened, StripTail(content, CapsuleOpened).value))
    else if StripTail(content, FriendRequest).Some? then Some((FriendRequest, StripTail(content, FriendRequest).value))
    else if StripTail(content, FriendAccept).Some? then Some((FriendAccept, StripTail(content, FriendAccept).value))
    else None
  }

  /** Of two suffixes of one string, the shorter is a suffix of the longer. */
  lemma SuffixOfSuffix(x: string, a: string, b: string)
    requires EndsWith(x, a) && EndsWith(x, b) && |a| <= |b|
    ensures EndsWith(b, a)
  {
    assert b[|b| - |a|..] == x[|x| - |b|..][|b| - |a|..];
  }

  /** A content whose tail is that of `t` cannot carry the tail of another type. */
  lemma TailsExclusive(x: string, t: NotificationType, u: NotificationType)
    requires t != u && EndsWith(x, Tail(t))
    ensures !EndsWith(x, Tail(u))
  {
    if EndsWith(x, Tail(u)) {
      var mt, mu := t.DefaultMessage(), u.DefaultMessage();
      assert EndsWith(x, mt) by {
        assert x[|x| - |mt|..] == x[|x| - |Tail(t)|..][|Honorific|..];
      }
      assert EndsWith(x, mu) by {
        assert x[|x| - |mu|..] == x[|x| - |Tail(u)|..][|Honorific|..];
      }
      if |mt| <= |mu| {
        SuffixOfSuffix(x, mt, mu);
        MessagesSuffixFree(u, t);
      } else {
        SuffixOfSuffix(x, mu, mt);
        MessagesSuffixFree(t, u);
      }
    }
  }

  /** Stripping the builder's own tail gives the nickname back. */
  lemma StripBuilt(t: NotificationType, senderNickname: string)
    ensures StripTail(BuildNotificationContent(t, senderNickname), t) == Some(senderNickname)
  {
    assert BuildNotificationContent(t, senderNickname) == senderNickname + Tail(t);
    SplitConcat(senderNickname, Tail(t));
  }

  /** A concatenation ends with its second part, and dropping that part leaves the first. */
  lemma SplitConcat(x: string, y: string)
    ensures EndsWith(x + y, y)
    ensures (x + y)[..|x + y| - |y|] == x
  {
    assert (x + y)[|x + y| - |y|..] == y;
  }

  /** Another type's tail does not match. */
  lemma StripOther(t: NotificationType, u: NotificationType, senderNickname: string)
    requires t != u
    ensures StripTail(BuildNotificationContent(t, senderNickname), u).None?
  {
    StripBuilt(t, senderNickname);
    TailsExclusive(BuildNotificationContent(t, senderNickname), t, u);
  }

  /** Every content the template builds reads back as the type and nickname it was built from. */
  lemma ParseBuiltContent(t: NotificationType, senderNickname: string)
    ensures ParseContent(BuildNotificationContent(t, senderNickname)) == Some((t, senderNickname))
  {
    StripBuilt(t, senderNickname);
    if t != LetterReceived { StripOther(t, LetterReceived, senderNickname); }
    if t != CapsuleReceived { StripOther(t, CapsuleReceived, senderNickname); }
    if t != CapsuleOpened { StripOther(t, CapsuleOpened, senderNickname); }
    if t != FriendRequest { StripOther(t, FriendRequest, senderNickname); }
  }

  /** Every content that reads back is the template applied to what it reads back as. */
  lemma BuildParsedContent(content: string)
    requires ParseContent(content).Some?
    ensures BuildNotificationContent(ParseContent(content).value.0, ParseContent(content).value.1) == content
  {
    var t := ParseContent(content).value.0;
    ParseContentStrips(content);
    StripTailJoins(content, t);
  }

  /** What the parser returns is a tail it stripped. */
  lemma ParseContentStrips(content: string)
    requires ParseContent(content).Some?
    ensures StripTail(content, ParseContent(content).value.0) == Some(ParseContent(content).value.1)
  {
  }

  /** A stripped nickname joined with the tail gives the content back. */
  lemma StripTailJoins(content: string, t: NotificationType)
    requires StripTail(content, t).Some?
    ensures BuildNotificationContent(t, StripTail(content, t).value) == content
  {
    assert content == content[..|content| - |Tail(t)|] + content[|content| - |Tail(t)|..];
  }

  /** Different (type, nickname) pairs give different contents. */
  lemma ContentInjective(t: NotificationType, n: string, u: NotificationType, m: string)
    ensures BuildNotificationContent(t, n) == BuildNotificationContent(u, m) <==> t == u && n == m
  {
    ParseBuiltContent(t, n);
    ParseBuiltContent(u, m);
  }

  /**
   * A nickname that fits its 20-character column always yields a content that fits its
   * 255-character column, so the content column never makes a save fail.
   */
  lemma ContentFitsColumn(t: NotificationType, senderNickname: string)
    requires |senderNickname| <= SenderNicknameLength
    ensures |BuildNotificationContent(t, senderNickname)| <= ContentLength
  {
  }

  /** The record the service builds fits its columns exactly when the nickname and title fit. */
  lemma Admissible(t: NotificationType, senderNickname: string, contentTitle: Option<string>)
    ensures WithinColumnBounds(BuildNotificationContent(t, senderNickname), contentTitle, senderNickname) <==>
            |senderNickname| <= SenderNicknameLength &&
            (contentTitle.Some? ==> |contentTitle.value| <= ContentTitleLength)
  {
    if |senderNickname| <= SenderNicknameLength {
      ContentFitsColumn(t, senderNickname);
    }
  }

  datatype ServiceError = ResourceNotFound | AccessDenied | SaveFailed

  /** A message handed to the broker for `/sub/notifications/{userId}`. */
  datatype Push = Push(userId: int, notificationId: int)

  /** `n` holds what `createAndSendNotification` was given, and the built content. */
  predicate Carries(n: Notification, receiver: User, t: NotificationType, senderNickname: string,
                    contentTitle: Option<string>, targetId: int)
  {
    && n.user == receiver
    && n.notificationType == t
    && n.content == BuildNotificationContent(t, senderNickname)
    && n.senderNickname == senderNickname
    && n.contentTitle == contentTitle
    && n.targetId == targetId
  }

  class NotificationService {
    const repo: NotificationRepository
    /** The messages handed to the broker, oldest first. */
    var pushes: seq<Push>

    ghost predicate Valid()
      reads this, repo
    {
      repo.Valid()
    }

    constructor (repo: NotificationRepository)
      requires repo.Valid()
      ensures this.repo == repo && pushes == [] && Valid()
    {
      this.repo := repo;
      pushes := [];
    }

    /**
     * The outcome of one `createAndSendNotification` call: the record is saved exactly when
     * the store accepts it, it then holds the inputs and is unread, it is appended and gets
     * the next key, and it is pushed when saved and the broker is up. A refused push leaves
     * the saved record in place.
     */
    twostate predicate Dispatched(new r: Result<Notification, ServiceError>, receiver: User, t: NotificationType,
                                  senderNickname: string, contentTitle: Option<string>, targetId: int,
                                  now: int, storeFails: bool, pushOk: bool)
      reads this, repo, if r.Success? then {r.value} else {}
    {
      && (r.Success? <==>
            !storeFails && WithinColumnBounds(BuildNotificationContent(t, senderNickname), contentTitle, senderNickname))
      && (r.Failure? ==> r.error == SaveFailed)
      && (r.Success? ==>
            && fresh(r.value)
            && Carries(r.value, receiver, t, senderNickname, contentTitle, targetId)
            && !r.value.isRead
            && r.value.id == old(repo.nextId)
            && r.value.createdAt == now)
      && repo.rows == (if r.Success? then old(repo.rows) + [r.value] else old(repo.rows))
      && repo.nextId == (if r.Success? then old(repo.nextId) + 1 else old(repo.nextId))
      && pushes == (if r.Success? && pushOk then old(pushes) + [Push(receiver.id, r.value.id)] else old(pushes))
    }

    /** The push: a refusal by the broker is swallowed, so the call always returns normally. */
    method SendWebSocketNotification(userId: int, n: Notification, pushOk: bool)
      modifies this`pushes
      ensures pushes == if pushOk then old(pushes) + [Push(userId, n.id)] else old(pushes)
    {
      if pushOk {
        pushes := pushes + [Push(userId, n.id)];
      }
    }

    method CreateAndSendNotification(receiver: User, t: NotificationType, senderNickname: string,
                                     contentTitle: Option<string>, targetId: int,
                                     now: int, storeFails: bool, pushOk: bool)
      returns (r: Result<Notification, ServiceError>)
      requires Valid()
      modifies this, repo
      ensures Valid()
      ensures Dispatched(r, receiver, t, senderNickname, contentTitle, targetId, now, storeFails, pushOk)
    {
      var content := BuildNotificationContent(t, senderNickname);
      var n := new Notification.Build(repo.nextId, receiver, t, content, targetId, contentTitle,
                                      senderNickname, now);
      var saved := repo.Save(n, storeFails);
      if !saved {
        return Failure(SaveFailed);
      }
      SendWebSocketNotification(receiver.id, n, pushOk);
      r := Success(n);
    }

    method NotifyLetterReceived(receiver: User, letterId: int, senderNickname: string, letterTitle: string,
                                now: int, storeFails: bool, pushOk: bool)
      returns (r: Result<Notification, ServiceError>)
      requires Valid()
      modifies this, repo
      ensures Valid()
      ensures Dispatched(r, receiver, LetterReceived, senderNickname, Some(letterTitle), letterId, now, storeFails, pushOk)
    {
      r := CreateAndSendNotification(receiver, LetterReceived, senderNickname, Some(letterTitle), letterId,
                                     now, storeFails, pushOk);
    }

    /** The capsule title stays private until the capsule opens: no title is stored. */
    method NotifyCapsuleReceived(receiver: User, capsuleId: int, senderNickname: string,
                                 now: int, storeFails: bool, pushOk: bool)
      returns (r: Result<Notification, ServiceError>)
      requires Valid()
      modifies this, repo
      ensures Valid()
      ensures Dispatched(r, receiver, CapsuleReceived, senderNickname, None, capsuleId, now, storeFails, pushOk)
    {
      r := CreateAndSendNotification(receiver, CapsuleReceived, senderNickname, None, capsuleId,
                                     now, storeFails, pushOk);
    }

    method NotifyCapsuleOpened(receiver: User, capsuleId: int, senderNickname: string, capsuleTitle: string,
                               now: int, storeFails: bool, pushOk: bool)
      returns (r: Result<Notification, ServiceError>)
      requires Valid()
      modifies this, repo
      ensures Valid()
      ensures Dispatched(r, receiver, CapsuleOpened, senderNickname, Some(capsuleTitle), capsuleId, now, storeFails, pushOk)
    {
      r := CreateAndSendNotification(receiver, CapsuleOpened, senderNickname, Some(capsuleTitle), capsuleId,
                                     now, storeFails, pushOk);
    }

    method NotifyFriendRequest(receiver: User, requesterId: int, requesterNickname: string,
                               now: int, storeFails: bool, pushOk: bool)
      returns (r: Result<Notification, ServiceError>)
      requires Valid()
      modifies this, repo
      ensures Valid()
      ensures Dispatched(r, receiver, FriendRequest, requesterNickname, None, requesterId, now, storeFails, pushOk)
    {
      r := CreateAndSendNotification(receiver, FriendRequest, requesterNickname, None, requesterId,
                                     now, storeFails, pushOk);
    }

    method NotifyFriendAccept(receiver: User, accepterId: int, accepterNickname: string,
                              now: int, storeFails: bool, pushOk: bool)
      returns (r: Result<Notification, ServiceError>)
      requires Valid()
      modifies this, repo
      ensures Valid()
      ensures Dispatched(r, receiver, FriendAccept, accepterNickname, None, accepterId, now, storeFails, pushOk)
    {
      r := CreateAndSendNotification(receiver, FriendAccept, accepterNickname, None, accepterId,
                                     now, storeFails, pushOk);
    }

    /** `getNotifications` without paging: the ordered listing of the user's records. */
    function GetNotifications(userId: int): (r: seq<Notification>)
      reads this, repo, repo.rows
      ensures multiset(r) == multiset(Filter(OwnedBy(userId), repo.rows))
      ensures UnreadBeforeRead(r) && NewestFirstWithinFlag(r)
    {
      ListingSpec(repo.rows, userId);
      FindByUserIdOrderByIsReadAscCreatedAtDesc(repo.rows, userId)
    }

    function GetUnreadCount(userId: int): (r: nat)
      reads this, repo, repo.rows
      ensures r == |FindUnreadByUserId(repo.rows, userId)|
    {
      CountUnreadMatchesFindUnread(repo.rows, userId);
      CountUnreadByUserId(repo.rows, userId)
    }

    /**
     * Marks one record read for its owner: an unknown id is not found, another user's record
     * is access denied, and in both cases nothing changes; otherwise only that record's flag
     * is set.
     */
    method MarkAsRead(notificationId: int, userId: int) returns (r: Result<Notification, ServiceError>)
      requires Valid()
      modifies repo.rows
      ensures FindById(repo.rows, notificationId).None? ==> r == Failure(ResourceNotFound)
      ensures FindById(repo.rows, notificationId).Some? && FindById(repo.rows, notificationId).value.user.id != userId ==>
                r == Failure(AccessDenied)
      ensures r.Success? <==> exists n :: n in repo.rows && n.id == notificationId && n.user.id == userId
      ensures r.Success? ==> r.value in repo.rows && r.value.id == notificationId && r.value.isRead
      ensures forall n :: n in repo.rows ==> n.isRead == (old(n.isRead) || (r.Success? && n == r.value))
    {
      var found := FindById(repo.rows, notificationId);
      if found.None? {
        return Failure(ResourceNotFound);
      }
      var n := found.value;
      if n.user.id != userId {
        forall m | m in repo.rows && m.id == notificationId
          ensures m == n
        {
          UniqueById(repo.rows, m, n);
        }
        return Failure(AccessDenied);
      }
      n.MarkAsRead();
      r := Success(n);
    }

    method DeleteAllNotifications(userId: int)
      requires Valid()
      modifies repo`rows
      ensures Valid()
      ensures repo.rows == WithoutUser(old(repo.rows), userId)
    {
      repo.DeleteAllByUserId(userId);
    }
  }

  /** In a table with distinct keys, a key names one record. */
  lemma UniqueById(rows: seq<Notification>, m: Notification, n: Notification)
    requires DistinctNotificationIds(rows) && m in rows && n in rows && m.id == n.id
    ensures m == n
  {
    var i :| 0 <= i < |rows| && rows[i] == m;
    var j :| 0 <= j < |rows| && rows[j] == n;
    assert rows[i].id == rows[j].id;
    assert i == j;
  }

  /** A new unread record for `userId` adds one to that user's unread count and to nobody else's. */
  lemma {:induction false} CountUnreadAppend(rows: seq<Notification>, n: Notification, userId: int)
    ensures CountUnreadByUserId(rows + [n], userId) ==
            CountUnreadByUserId(rows, userId) + (if n.user.id == userId && !n.isRead then 1 else 0)
  {
    if rows == [] {
      assert [n][1..] == [];
    } else {
      assert (rows + [n])[1..] == rows[1..] + [n];
      CountUnreadAppend(rows[1..], n, userId);
    }
  }
}
