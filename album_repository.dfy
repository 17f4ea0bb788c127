/**
 * The album table: its derived queries and ordered listing as functions of the rows in
 * store order, and the bulk update that detaches a deleted photo from every album cover.
 */
module AlbumStore {
  import opened Wrappers
  import opened Seqs
  import opened Domain

  /** The title that marks a user's favourites album. */
  const FavouritesTitle := "즐겨찾기"

  function OwnedBy(userId: int): Album -> bool
  {
    (a: Album) => a.userId == userId
  }

  function TitledAndOwnedBy(title: string, userId: int): Album -> bool
  {
    (a: Album) => a.title == title && a.userId == userId
  }

  /** Sort key for `ORDER BY createdAt DESC`. */
  function NewestFirst(a: Album): Key
  {
    [-a.createdAt]
  }

  /** Sort key for `ORDER BY createdAt ASC`. */
  function OldestFirst(a: Album): Key
  {
    [a.createdAt]
  }

  /**
   * Sort key for `ORDER BY CASE WHEN title = '즐겨찾기' THEN 0 ELSE 1 END ASC, updatedAt DESC,
   * id DESC`.
   */
  function FavouritesFirst(a: Album): Key
  {
    [if a.title == FavouritesTitle then 0 else 1, -a.updatedAt, -a.id]
  }

  function FindAllByUserId(albums: seq<Album>, userId: int): seq<Album>
  {
    Filter(OwnedBy(userId), albums)
  }

  function FindByUserIdOrderByCreatedAtDesc(albums: seq<Album>, userId: int): seq<Album>
  {
    SortBy(NewestFirst, Filter(OwnedBy(userId), albums))
  }

  function FindAllByUserIdWithOrdering(albums: seq<Album>, userId: int): seq<Album>
  {
    SortBy(FavouritesFirst, Filter(OwnedBy(userId), albums))
  }

  function FindFirstByTitleAndUserIdOrderByCreatedAtAsc(albums: seq<Album>, title: string, userId: int): Option<Album>
  {
    var s := SortBy(OldestFirst, Filter(TitledAndOwnedBy(title, userId), albums));
    if s == [] then None else Some(s[0])
  }

  /** `update Album a set a.coverPhoto = null where a.coverPhoto.id = :photoId` on the rows. */
  function ClearCover(albums: seq<Album>, photoId: int): (r: seq<Album>)
    ensures |r| == |albums|
    ensures forall i :: 0 <= i < |r| ==> r[i].coverPhoto != Some(photoId)
    ensures forall i :: 0 <= i < |r| && albums[i].coverPhoto == Some(photoId) ==> r[i].coverPhoto == None
    ensures forall i :: 0 <= i < |r| ==> r[i].(coverPhoto := albums[i].coverPhoto) == albums[i]
    ensures forall i :: 0 <= i < |r| && albums[i].coverPhoto != Some(photoId) ==> r[i] == albums[i]
  {
    if albums == [] then []
    else
      var a := albums[0];
      [if a.coverPhoto == Some(photoId) then a.(coverPhoto := None) else a] + ClearCover(albums[1..], photoId)
  }

  class AlbumRepository {
    var albums: seq<Album>

    constructor (initial: seq<Album>)
      ensures albums == initial
    {
      albums := initial;
    }

    method ClearCoverPhoto(photoId: int)
      modifies this
      ensures albums == ClearCover(old(albums), photoId)
    {
      albums := ClearCover(albums, photoId);
    }
  }

  /** Clearing a cover twice is clearing it once. */
  lemma ClearCoverIdempotent(albums: seq<Album>, photoId: int)
    ensures ClearCover(ClearCover(albums, photoId), photoId) == ClearCover(albums, photoId)
  {
    var once := ClearCover(albums, photoId);
    var twice := ClearCover(once, photoId);
    forall i | 0 <= i < |albums| ensures twice[i] == once[i] {
    }
  }

  /** Clearing one photo leaves the covers that show another photo alone. */
  lemma ClearCoverKeepsOtherCovers(albums: seq<Album>, photoId: int, other: int)
    requires other != photoId
    ensures forall i :: 0 <= i < |albums| && albums[i].coverPhoto == Some(other) ==>
              ClearCover(albums, photoId)[i].coverPhoto == Some(other)
  {
  }

  /** The unordered and the ordered listing return the same albums: exactly the user's. */
  lemma OrderingIsPermutation(albums: seq<Album>, userId: int)
    ensures multiset(FindAllByUserIdWithOrdering(albums, userId)) == multiset(FindAllByUserId(albums, userId))
    ensures forall a :: a in FindAllByUserIdWithOrdering(albums, userId) <==> a in albums && a.userId == userId
  {
    FilterMembers(OwnedBy(userId), albums);
    SortByMembers(FavouritesFirst, Filter(OwnedBy(userId), albums));
  }

  /** `a` may come before `b` in the favourites-first order. */
  predicate ListedBefore(a: Album, b: Album)
  {
    var fa, fb := a.title == FavouritesTitle, b.title == FavouritesTitle;
    (fa && !fb) ||
    (fa == fb && (a.updatedAt > b.updatedAt || (a.updatedAt == b.updatedAt && a.id >= b.id)))
  }

  /**
   * The favourites album comes first, then the others; within each group the most recently
   * updated first, and among equal update times the larger id first.
   */
  lemma OrderingIsFavouritesFirst(albums: seq<Album>, userId: int)
    ensures var r := FindAllByUserIdWithOrdering(albums, userId);
            forall i, j :: 0 <= i < j < |r| ==> ListedBefore(r[i], r[j])
  {
    var r := FindAllByUserIdWithOrdering(albums, userId);
    SortBySorted(FavouritesFirst, Filter(OwnedBy(userId), albums));
    forall i, j | 0 <= i < j < |r|
      ensures ListedBefore(r[i], r[j])
    {
      var a, b := r[i], r[j];
      KeyLeTriple(if a.title == FavouritesTitle then 0 else 1, -a.updatedAt, -a.id,
                  if b.title == FavouritesTitle then 0 else 1, -b.updatedAt, -b.id);
    }
  }

  /** `findByUserIdOrderByCreatedAtDesc`: exactly the user's albums, each once, newest first. */
  lemma NewestFirstListing(albums: seq<Album>, userId: int)
    ensures multiset(FindByUserIdOrderByCreatedAtDesc(albums, userId)) == multiset(FindAllByUserId(albums, userId))
    ensures forall a :: a in FindByUserIdOrderByCreatedAtDesc(albums, userId) <==> a in albums && a.userId == userId
    ensures forall i, j :: 0 <= i < j < |FindByUserIdOrderByCreatedAtDesc(albums, userId)| ==>
              FindByUserIdOrderByCreatedAtDesc(albums, userId)[i].createdAt >=
              FindByUserIdOrderByCreatedAtDesc(albums, userId)[j].createdAt
  {
    NewestFirstMembers(albums, userId);
    NewestFirstOrdered(albums, userId);
  }

  lemma NewestFirstMembers(albums: seq<Album>, userId: int)
    ensures forall a :: a in FindByUserIdOrderByCreatedAtDesc(albums, userId) <==> a in albums && a.userId == userId
  {
    FilterMembers(OwnedBy(userId), albums);
    SortByMembers(NewestFirst, Filter(OwnedBy(userId), albums));
  }

  lemma NewestFirstOrdered(albums: seq<Album>, userId: int)
    ensures forall i, j :: 0 <= i < j < |FindByUserIdOrderByCreatedAtDesc(albums, userId)| ==>
              FindByUserIdOrderByCreatedAtDesc(albums, userId)[i].createdAt >=
              FindByUserIdOrderByCreatedAtDesc(albums, userId)[j].createdAt
  {
    var r := FindByUserIdOrderByCreatedAtDesc(albums, userId);
    SortBySorted(NewestFirst, Filter(OwnedBy(userId), albums));
    forall i, j | 0 <= i < j < |r|
      ensures r[i].createdAt >= r[j].createdAt
    {
      KeyLeSingle(-r[i].createdAt, -r[j].createdAt);
    }
  }

  /**
   * `findFirstByTitleAndUserIdOrderByCreatedAtAsc`: none exactly when the user has no album
   * with that title; otherwise such an album, created no later than any other one.
   */
  lemma FindFirstIsEarliest(albums: seq<Album>, title: string, userId: int)
    ensures FindFirstByTitleAndUserIdOrderByCreatedAtAsc(albums, title, userId).None? <==>
            forall a :: a in albums ==> !(a.title == title && a.userId == userId)
    ensures FindFirstByTitleAndUserIdOrderByCreatedAtAsc(albums, title, userId).Some? ==>
            var first := FindFirstByTitleAndUserIdOrderByCreatedAtAsc(albums, title, userId).value;
            && first in albums && first.title == title && first.userId == userId
            && forall a :: a in albums && a.title == title && a.userId == userId ==> first.createdAt <= a.createdAt
  {
    var p := TitledAndOwnedBy(title, userId);
    var f := Filter(p, albums);
    var s := SortBy(OldestFirst, f);
    FilterMembers(p, albums);
    SortByMembers(OldestFirst, f);
    if s != [] {
      SortBySorted(OldestFirst, f);
      assert s[0] in s;
      forall a | a in albums && a.title == title && a.userId == userId
        ensures s[0].createdAt <= a.createdAt
      {
        SortedHeadLeast(OldestFirst, s, a);
        KeyLeSingle(s[0].createdAt, a.createdAt);
      }
    } else {
      forall a | a in albums
        ensures !(a.title == title && a.userId == userId)
      {
        assert a !in s;
      }
    }
  }
}
