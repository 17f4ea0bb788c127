/**
 * The capsule as the API shows it. The response decides "opened" from its own clock
 * reading and hides the content until then, unless the caller may see it anyway.
 */
module CapsuleView {
  import opened Wrappers
  import opened Domain
  import opened CapsuleStore

  /** `content` is `None` where the response carries `null`. */
  datatype CapsuleResponse = CapsuleResponse(
    id: int,
    title: string,
    content: Option<string>,
    theme: Option<string>,
    imageUrl: Option<string>,
    openAt: int,
    isNotified: bool,
    senderId: int,
    senderNickname: string,
    senderProfileImageUrl: Option<string>,
    receiverId: int,
    receiverNickname: string,
    receiverProfileImageUrl: Option<string>,
    createdAt: int,
    isOpened: bool,
    canAccess: bool)

  /** `CapsuleResponse.from(capsule, canAccess)` with the clock reading `now`. */
  function From(capsule: TimeCapsule, canAccess: bool, now: int): (r: CapsuleResponse)
    reads capsule
    ensures r.isOpened <==> capsule.openAt < now
    ensures r.content.Some? <==> capsule.openAt < now || canAccess
    ensures r.content.Some? ==> r.content.value == capsule.content
    ensures r.id == capsule.id && r.title == capsule.title && r.theme == capsule.theme
    ensures r.imageUrl == capsule.imageUrl && r.openAt == capsule.openAt
    ensures r.isNotified == capsule.isNotified && r.createdAt == capsule.createdAt
    ensures r.senderId == capsule.sender.id && r.senderNickname == capsule.sender.nickname
    ensures r.senderProfileImageUrl == capsule.sender.profileImageUrl
    ensures r.receiverId == capsule.receiver.id && r.receiverNickname == capsule.receiver.nickname
    ensures r.receiverProfileImageUrl == capsule.receiver.profileImageUrl
    ensures r.canAccess == canAccess
  {
    var isOpened := capsule.openAt < now;
    CapsuleResponse(
      capsule.id, capsule.title,
      if isOpened || canAccess then Some(capsule.content) else None,
      capsule.theme, capsule.imageUrl, capsule.openAt, capsule.isNotified,
      capsule.sender.id, capsule.sender.nickname, capsule.sender.profileImageUrl,
      capsule.receiver.id, capsule.receiver.nickname, capsule.receiver.profileImageUrl,
      capsule.createdAt, isOpened, canAccess)
  }

  /** Access decides only the content: two responses for different callers differ in nothing else. */
  lemma AccessOnlyHidesContent(capsule: TimeCapsule, now: int)
    ensures From(capsule, true, now).(content := None, canAccess := false) ==
            From(capsule, false, now).(content := None)
  {
  }

  /**
   * At `openAt == now` the scheduler already counts an unnotified capsule as due, while the
   * response still calls it unopened and, for a caller without access, hides its content.
   */
  lemma DueButNotYetOpened(capsules: seq<TimeCapsule>, k: nat, now: int)
    requires k < |capsules| && capsules[k].openAt == now && !capsules[k].isNotified
    ensures capsules[k] in FindCapsulesReadyToOpen(capsules, now)
    ensures !From(capsules[k], false, now).isOpened
    ensures From(capsules[k], false, now).content.None?
  {
  }

  /** From one clock tick past `openAt` on, the response is opened and the content shown to all. */
  lemma OpenedAfterOpenAt(capsule: TimeCapsule, canAccess: bool, now: int)
    requires capsule.openAt < now
    ensures From(capsule, canAccess, now).isOpened
    ensures From(capsule, canAccess, now).content == Some(capsule.content)
  {
  }
}
