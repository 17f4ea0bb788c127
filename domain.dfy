/**
 * The persistent entities. A capsule and a notification are objects whose boolean flags
 * change in place; every other column is fixed once the row exists. Users, friendships and
 * albums are read-only here and are values. Timestamps are integers on one clock.
 */
module Domain {
  import opened Wrappers
  import opened NotificationTypes

  datatype User = User(id: int, nickname: string, profileImageUrl: Option<string>, bio: Option<string>)

  /** A friendship row: `user` sent the request to `friend`. */
  datatype Friend = Friend(user: User, friend: User, status: string, requestedAt: int)

  /** An album row; `coverPhoto` is the id of the cover photo, if any. */
  datatype Album = Album(id: int, userId: int, title: string, coverPhoto: Option<int>,
                         createdAt: int, updatedAt: int)

  class TimeCapsule {
    const id: int
    const title: string
    const content: string
    const theme: Option<string>
    const imageUrl: Option<string>
    const openAt: int
    const sender: User
    const receiver: User
    const createdAt: int
    var isNotified: bool
    var isOpened: bool

    /** The builder: both flags start false. */
    constructor Build(id: int, title: string, content: string, theme: Option<string>,
                      imageUrl: Option<string>, openAt: int, sender: User, receiver: User,
                      createdAt: int)
      ensures this.id == id && this.title == title && this.content == content
      ensures this.theme == theme && this.imageUrl == imageUrl && this.openAt == openAt
      ensures this.sender == sender && this.receiver == receiver && this.createdAt == createdAt
      ensures !isNotified && !isOpened
    {
      this.id := id;
      this.title := title;
      this.content := content;
      this.theme := theme;
      this.imageUrl := imageUrl;
      this.openAt := openAt;
      this.sender := sender;
      this.receiver := receiver;
      this.createdAt := createdAt;
      isNotified := false;
      isOpened := false;
    }

    /** Sets the notified flag, whatever it was; `isOpened` is outside the frame. */
    method MarkAsNotified()
      modifies this`isNotified
      ensures isNotified
      ensures isOpened == old(isOpened)
    {
      isNotified := true;
    }

    /** Sets the opened flag, whatever it was; `isNotified` is outside the frame. */
    method OpenCapsule()
      modifies this`isOpened
      ensures isOpened
      ensures isNotified == old(isNotified)
    {
      isOpened := true;
    }
  }

  /** Declared column lengths of a notification row. */
  const TypeLength := 30
  const ContentLength := 255
  const ContentTitleLength := 100
  const SenderNicknameLength := 20

  /** The lengths the notification table accepts. */
  predicate WithinColumnBounds(content: string, contentTitle: Option<string>, senderNickname: string)
  {
    |content| <= ContentLength
    && (contentTitle.Some? ==> |contentTitle.value| <= ContentTitleLength)
    && |senderNickname| <= SenderNicknameLength
  }

  /** Every type's stored name fits the `type` column, so that column never makes a save fail. */
  lemma TypeFitsColumn(t: NotificationType)
    ensures |t.Name()| <= TypeLength
  {
  }

  class Notification {
    const id: int
    const user: User
    const notificationType: NotificationType
    const content: string
    const targetId: int
    const contentTitle: Option<string>
    const senderNickname: string
    const createdAt: int
    var isRead: bool

    /** The builder: a new notification is unread. */
    constructor Build(id: int, user: User, notificationType: NotificationType, content: string,
                      targetId: int, contentTitle: Option<string>, senderNickname: string,
                      createdAt: int)
      ensures this.id == id && this.user == user && this.notificationType == notificationType
      ensures this.content == content && this.targetId == targetId
      ensures this.contentTitle == contentTitle && this.senderNickname == senderNickname
      ensures this.createdAt == createdAt
      ensures !isRead
    {
      this.id := id;
      this.user := user;
      this.notificationType := notificationType;
      this.content := content;
      this.targetId := targetId;
      this.contentTitle := contentTitle;
      this.senderNickname := senderNickname;
      this.createdAt := createdAt;
      isRead := false;
    }

    predicate Fits()
    {
      WithinColumnBounds(content, contentTitle, senderNickname)
    }

    /** Sets the read flag, whatever it was; nothing else is in the frame. */
    method MarkAsRead()
      modifies this`isRead
      ensures isRead
    {
      isRead := true;
    }
  }

  /** No two entities in `s` share an id (the primary key). */
  ghost predicate DistinctCapsuleIds(s: seq<TimeCapsule>)
  {
    forall i, j :: 0 <= i < j < |s| ==> s[i].id != s[j].id
  }

  ghost predicate DistinctNotificationIds(s: seq<Notification>)
  {
    forall i, j :: 0 <= i < j < |s| ==> s[i].id != s[j].id
  }
}
