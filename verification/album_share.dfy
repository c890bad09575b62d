/** react-example/AlbumShare.js: the owner's sharing page. It loads the
    album, stops unless the caller owns it, then lists friends without
    access and the current grants, and keeps that list up to date after
    each share, update and removal the server accepts. The load is given
    both as written, where an owner's load fails, and as intended. */
module AlbumShare {
  import opened Wrappers
  import Js
  import Php
  import AlbumPermissions

  datatype Friend = Friend(id: int, username: string, profilePicture: string)
  datatype Permission = Permission(id: int, userId: int, username: string, profilePicture: string,
                                   canAddPhotos: bool, canDeletePhotos: bool)

  /** The server calls the page makes while loading. */
  datatype Call = GetAlbum | GetFriends | GetPermissions

  /** A server answer: the payload on success, or the failure's `message`
      field, which may be missing. */
  datatype Answer<T> = Ok(value: T) | Failed(message: Option<string>)

  /** What the `friends` state holds: an array, or the `{records: [...]}`
      object the friend endpoint answers with, which has no `filter`. */
  datatype FriendsState = FriendArray(items: seq<Friend>) | RecordsObject(records: seq<Friend>)

  /** The page once the load effect has finished. */
  datatype Loaded = Loaded(calls: seq<Call>, error: Option<string>, friends: FriendsState, shared: seq<Permission>)

  /** The error shown when the album fetch fails. */
  function AlbumError(message: Option<string>): string {
    if Js.Truthy(message) then message.value else "Failed to fetch album"
  }

  const NotOwner := "Only the album owner can share this album"
  const FetchFailed := "An error occurred while fetching data"

  /** `album` is the album fetch, carrying `permissions.is_owner` on
      success. The load as written: for an owner it stores the friend
      answer whole, then calls `api.albumPermissions.getAlbumPermissions`,
      which the client's permission API does not define. The call throws
      before any request goes out, and the catch replaces any earlier
      error with its own. */
  function LoadAsWritten(album: Answer<bool>, friends: Answer<seq<Friend>>): (p: Loaded)
  {
    match album
    case Failed(m) => Loaded([GetAlbum], Some(AlbumError(m)), FriendArray([]), [])
    case Ok(isOwner) =>
      if !isOwner then Loaded([GetAlbum], Some(NotOwner), FriendArray([]), [])
      else Loaded([GetAlbum, GetFriends], Some(FetchFailed),
                  if friends.Ok? then RecordsObject(friends.value) else FriendArray([]), [])
  }

  /** The load as intended: the grants come from `getPermissions`, and
      both lists are the `records` of their answers. A failed fetch shows
      its message; the grants' failure, coming later, wins. */
  function LoadCorrected(album: Answer<bool>, friends: Answer<seq<Friend>>,
                         grants: Answer<seq<Permission>>): (p: Loaded)
  {
    match album
    case Failed(m) => Loaded([GetAlbum], Some(AlbumError(m)), FriendArray([]), [])
    case Ok(isOwner) =>
      if !isOwner then Loaded([GetAlbum], Some(NotOwner), FriendArray([]), [])
      else
        var error := if grants.Failed? then grants.message
                     else if friends.Failed? then friends.message
                     else None;
        Loaded([GetAlbum, GetFriends, GetPermissions], error,
               FriendArray(if friends.Ok? then friends.value else []),
               if grants.Ok? then grants.value else [])
  }

  /** `availableFriends` is computed on every render, before the loading
      and error tests, so it throws whenever `friends` is not an array. */
  predicate RenderThrows(p: Loaded) {
    p.friends.RecordsObject?
  }

  /** As written, an owner's load never asks for the grants and always ends
      in the catch's error; when the friends arrive, the next render
      throws. */
  lemma OwnerLoadFailsAsWritten(friends: Answer<seq<Friend>>)
    ensures var p := LoadAsWritten(Ok(true), friends);
            && GetPermissions !in p.calls
            && p.error == Some(FetchFailed)
            && (friends.Ok? <==> RenderThrows(p))
  {
  }

  /** The corrected load: a failed album fetch or a non-owner stops with an
      error before friends or grants are requested; an owner requests both,
      never throws while rendering, and sees no error when both answers
      succeed, with the lists they carry. */
  lemma CorrectedLoadShowsLists(album: Answer<bool>, friends: Answer<seq<Friend>>, grants: Answer<seq<Permission>>)
    ensures var p := LoadCorrected(album, friends, grants);
            && (GetFriends in p.calls <==> album == Ok(true))
            && (GetPermissions in p.calls <==> album == Ok(true))
            && (album != Ok(true) ==> p.error.Some?)
            && !RenderThrows(p)
            && (album == Ok(true) && friends.Ok? && grants.Ok? ==>
                  p.error.None? && p.friends == FriendArray(friends.value) && p.shared == grants.value)
  {
  }

  /** The two loads differ only for the owner. */
  lemma LoadsAgreeForNonOwners(album: Answer<bool>, friends: Answer<seq<Friend>>, grants: Answer<seq<Permission>>)
    requires album != Ok(true)
    ensures LoadAsWritten(album, friends) == LoadCorrected(album, friends, grants)
  {
  }

  /** `availableFriends`: friends with no grant naming them. */
  function Available(friends: seq<Friend>, shared: seq<Permission>): (r: seq<Friend>)
  {
    Js.Filter(friends, (f: Friend) => !exists p | p in shared :: p.userId == f.id)
  }

  lemma AvailableIff(friends: seq<Friend>, shared: seq<Permission>, f: Friend)
    ensures f in Available(friends, shared) <==> f in friends && forall p | p in shared :: p.userId != f.id
  {
  }

  /** The body `handleShareWithFriend` posts: add allowed, delete not. */
  datatype ShareBody = ShareBody(albumId: int, userId: int, canAddPhotos: bool, canDeletePhotos: bool)

  function ShareRequest(albumId: int, friendId: int): (b: ShareBody)
    ensures b.canAddPhotos && !b.canDeletePhotos
    ensures b.albumId == albumId && b.userId == friendId
  {
    ShareBody(albumId, friendId, true, false)
  }

  /** The grant the server stores for a share body, when the friend had
      none for the album, lets the friend add photos and not delete them. */
  lemma ShareStoresAddOnlyGrant(t: AlbumPermissions.GrantTable, albumId: int, friendId: int)
    requires AlbumPermissions.FindPair(t.rows, albumId, friendId).None?
    ensures var b := ShareRequest(albumId, friendId);
            var t' := AlbumPermissions.Create(t, b.albumId, b.userId,
                                              Php.Bool(b.canAddPhotos), Php.Bool(b.canDeletePhotos)).1;
            && AlbumPermissions.CanAddPhotos(t', albumId, friendId)
            && !AlbumPermissions.CanDeletePhotos(t', albumId, friendId)
  {
    var b := ShareRequest(albumId, friendId);
    var t' := AlbumPermissions.Create(t, b.albumId, b.userId, Php.Bool(b.canAddPhotos), Php.Bool(b.canDeletePhotos)).1;
    var g := t'.rows[|t.rows|];
    assert AlbumPermissions.ForPair(g, albumId, friendId);
    assert forall i | 0 <= i < |t.rows| :: t'.rows[i] == t.rows[i];
    var r := AlbumPermissions.FindPair(t'.rows, albumId, friendId);
    assert r.Some? by {
      assert t'.rows[|t.rows|] == g;
    }
    var i :| 0 <= i < |t'.rows| && t'.rows[i] == r.value &&
             forall j | 0 <= j < i :: !AlbumPermissions.ForPair(t'.rows[j], albumId, friendId);
    assert i == |t.rows|;
  }

  /** The grant list after a share: a listed friend gains an entry with
      add allowed and delete not, its id the server's or `now`. */
  function AfterShare(friends: seq<Friend>, shared: seq<Permission>, friendId: int, success: bool,
                      returnedId: Option<int>, now: int): (r: seq<Permission>)
  {
    if !success then shared
    else match Js.Find(friends, (f: Friend) => f.id == friendId)
      case None => shared
      case Some(f) =>
        var id := if returnedId.Some? && returnedId.value != 0 then returnedId.value else now;
        shared + [Permission(id, friendId, f.username, f.profilePicture, true, false)]
  }

  /** After a successful share the friend is no longer offered. */
  lemma ShareRemovesFromAvailable(friends: seq<Friend>, shared: seq<Permission>, f: Friend,
                                  returnedId: Option<int>, now: int)
    requires f in friends
    ensures var after := AfterShare(friends, shared, f.id, true, returnedId, now);
            && |after| == |shared| + 1
            && after[|shared|].userId == f.id
            && after[|shared|].canAddPhotos && !after[|shared|].canDeletePhotos
            && forall g | g in Available(friends, after) :: g.id != f.id
  {
    var after := AfterShare(friends, shared, f.id, true, returnedId, now);
    forall g | g in Available(friends, after)
      ensures g.id != f.id
    {
      AvailableIff(friends, after, g);
      assert after[|shared|] in after;
    }
  }

  /** `handleUpdatePermission`: both flags of the entry with that id. */
  function AfterUpdate(shared: seq<Permission>, id: int, canAdd: bool, canDelete: bool, success: bool)
    : (r: seq<Permission>)
  {
    if !success then shared
    else Js.Map(shared, (p: Permission) =>
      if p.id == id then p.(canAddPhotos := canAdd, canDeletePhotos := canDelete) else p)
  }

  /** An update sets both flags on the entries with that id and changes
      nothing else. */
  lemma UpdateOnlyThatEntry(shared: seq<Permission>, id: int, canAdd: bool, canDelete: bool)
    ensures var r := AfterUpdate(shared, id, canAdd, canDelete, true);
            && |r| == |shared|
            && (forall i | 0 <= i < |shared| && shared[i].id != id :: r[i] == shared[i])
            && (forall i | 0 <= i < |shared| && shared[i].id == id ::
                  r[i] == shared[i].(canAddPhotos := canAdd, canDeletePhotos := canDelete))
  {
  }

  /** `handleRemoveSharing`: the entry with that id goes. */
  function AfterRemove(shared: seq<Permission>, id: int, success: bool): (r: seq<Permission>)
  {
    if success then Js.Filter(shared, (p: Permission) => p.id != id) else shared
  }

  lemma RemoveOnlyThatEntry(shared: seq<Permission>, id: int, success: bool)
    ensures forall p :: p in AfterRemove(shared, id, success) <==> p in shared && (success ==> p.id != id)
  {
  }
}
