/** A friendship as one of its parties sees it: the other party's profile. */
module FriendView {
  import opened Wrappers
  import opened Domain

  datatype FriendResponse = FriendResponse(
    userId: int,
    friendId: int,
    friendNickname: string,
    friendProfileImageUrl: Option<string>,
    friendBio: Option<string>,
    status: string,
    requestedAt: int)

  /** All four profile fields of `r` are those of `u`. */
  predicate Describes(r: FriendResponse, u: User)
  {
    r.friendId == u.id && r.friendNickname == u.nickname &&
    r.friendProfileImageUrl == u.profileImageUrl && r.friendBio == u.bio
  }

  /**
   * `FriendResponseDto.of(friend, currentUserId)`: when the caller sent the request the
   * counterpart is the addressee, and in every other case (including a caller who is neither
   * party) it is the requester.
   */
  function Of(f: Friend, currentUserId: int): (r: FriendResponse)
    ensures r.userId == currentUserId
    ensures f.user.id == currentUserId ==> Describes(r, f.friend)
    ensures f.user.id != currentUserId ==> Describes(r, f.user)
    ensures r.status == f.status && r.requestedAt == f.requestedAt
  {
    var counterpart := if f.user.id == currentUserId then f.friend else f.user;
    FriendResponse(currentUserId, counterpart.id, counterpart.nickname, counterpart.profileImageUrl,
                   counterpart.bio, f.status, f.requestedAt)
  }

  /** `FriendResponseDto.from(friend)`: the requester's view. */
  function From(f: Friend): (r: FriendResponse)
    ensures r == Of(f, f.user.id)
    ensures r.userId == f.user.id && Describes(r, f.friend)
  {
    Of(f, f.user.id)
  }

  /**
   * For either party of a friendship between two different users, the counterpart is the
   * other party, never the caller.
   */
  lemma CounterpartIsOtherParty(f: Friend, currentUserId: int)
    requires f.user.id != f.friend.id
    requires currentUserId == f.user.id || currentUserId == f.friend.id
    ensures Of(f, currentUserId).friendId != currentUserId
    ensures Of(f, currentUserId).friendId == f.user.id || Of(f, currentUserId).friendId == f.friend.id
  {
  }

  /** A caller who is not the requester, party or not, is shown the requester. */
  lemma OutsiderSeesRequester(f: Friend, currentUserId: int)
    requires currentUserId != f.user.id && currentUserId != f.friend.id
    ensures Describes(Of(f, currentUserId), f.user)
  {
  }

  /** The two parties' views of one friendship describe each other. */
  lemma ViewsAreMirrored(f: Friend)
    requires f.user.id != f.friend.id
    ensures Describes(Of(f, f.user.id), f.friend) && Describes(Of(f, f.friend.id), f.user)
  {
  }
}
