/** The five kinds of notification and the fixed message each one carries. */
module NotificationTypes {

  datatype NotificationType =
    | LetterReceived
    | CapsuleReceived
    | CapsuleOpened
    | FriendRequest
    | FriendAccept
  {
    /** The message given to the enum constant's constructor; none is longer than 17 characters. */
    function DefaultMessage(): (r: string)
      ensures 0 < |r| <= 17
    {
      match this
      case LetterReceived => "편지를 보냈습니다."
      case CapsuleReceived => "타임캡슐을 보냈습니다."
      case CapsuleOpened => "타임캡슐을 열어볼 수 있습니다."
      case FriendRequest => "친구 요청을 보냈습니다."
      case FriendAccept => "친구 요청을 수락했습니다."
    }

    /**
     * The constant's name, which is what a `type` column declared `@Enumerated(EnumType.STRING)`
     * stores; the longest, `CAPSULE_RECEIVED`, has 16 characters.
     */
    function Name(): (r: string)
      ensures 0 < |r| <= 16
    {
      match this
      case LetterReceived => "LETTER_RECEIVED"
      case CapsuleReceived => "CAPSULE_RECEIVED"
      case CapsuleOpened => "CAPSULE_OPENED"
      case FriendRequest => "FRIEND_REQUEST"
      case FriendAccept => "FRIEND_ACCEPT"
    }
  }

  /** `s` ends with `suffix`. */
  predicate EndsWith(s: string, suffix: string)
  {
    |suffix| <= |s| && s[|s| - |suffix|..] == suffix
  }

  /**
   * No type's message ends with another type's message, so a message (and even the tail of
   * a longer text) determines the type.
   */
  lemma MessagesSuffixFree(t: NotificationType, u: NotificationType)
    requires t != u
    ensures !EndsWith(t.DefaultMessage(), u.DefaultMessage())
  {
    var s, v := t.DefaultMessage(), u.DefaultMessage();
    if |v| <= |s| {
      assert s[|s| - |v|] != v[0];
      assert s[|s| - |v|..][0] == s[|s| - |v|];
    }
  }

  /** Two types have the same message exactly when they are the same type. */
  lemma DefaultMessageInjective(t: NotificationType, u: NotificationType)
    ensures t.DefaultMessage() == u.DefaultMessage() <==> t == u
  {
    if t != u {
      MessagesSuffixFree(t, u);
    }
  }

  /** Two types store the same name exactly when they are the same type, so the column reads back. */
  lemma NameInjective(t: NotificationType, u: NotificationType)
    ensures t.Name() == u.Name() <==> t == u
  {
  }
}
