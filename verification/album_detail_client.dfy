/** react-example/AlbumDetail.js: which photo buttons the album page shows,
    and how it updates its photo list. The album is the response of
    GET /api/albums/{id}; `None` until it has loaded. */
module AlbumDetailClient {
  import opened Wrappers
  import Js
  import AlbumPermissions
  import Database
  import AlbumsApi

  /** What the page reads from the album response. `userId` is the
      response's `user_id`, a field the albums endpoint never sends. */
  datatype AlbumView = AlbumView(permissions: AlbumsApi.Capabilities, userId: Option<int>)

  /** The album as the endpoint sends it: no `user_id`. */
  function FromReply(permissions: AlbumsApi.Capabilities): (a: AlbumView)
    ensures a.userId.None?
  {
    AlbumView(permissions, None)
  }

  /** `canAddPhotos`. */
  predicate CanAddPhotos(album: Option<AlbumView>) {
    album.Some? && (album.value.permissions.isOwner || album.value.permissions.canAddPhotos)
  }

  /** `canDeletePhoto`: the last test compares the uploader with
      `album.user_id`; `===` against an absent field is false. */
  predicate CanDeletePhoto(album: Option<AlbumView>, uploadedBy: int) {
    album.Some? &&
    (album.value.permissions.isOwner || album.value.permissions.canDeletePhotos ||
     (album.value.userId.Some? && uploadedBy == album.value.userId.value))
  }

  /** With an album from the endpoint the uploader test never holds: the
      delete button shows iff the caller owns the album or may delete, so
      an uploader without those does not see it although the server would
      let them delete. */
  lemma UploaderTestIsDead(permissions: AlbumsApi.Capabilities, uploadedBy: int)
    ensures CanDeletePhoto(Some(FromReply(permissions)), uploadedBy) <==>
            permissions.isOwner || permissions.canDeletePhotos
    ensures !CanDeletePhoto(None, uploadedBy) && !CanAddPhotos(None)
  {
  }

  /** The add button, fed by the endpoint's answer for an album, shows
      exactly when the photos endpoint would accept an upload from the
      caller: ownership or a grant that allows adding. */
  lemma AddButtonMatchesServer(db: Database.Db, caller: int, albumId: int)
    requires albumId in db.albums.albums
    ensures var reply := AlbumsApi.Route(db, caller, AlbumsApi.Get(Database.Id(albumId))).0;
            && reply.Found?
            && (CanAddPhotos(Some(FromReply(reply.permissions))) <==>
                  db.albums.albums[albumId].createdBy == caller ||
                  AlbumPermissions.CanAddPhotos(db.grants, albumId, caller))
  {
    AlbumsApi.GetOneNeverForbidden(db, caller, albumId);
  }

  /** A photo in the page's list. */
  datatype PhotoEntry = PhotoEntry(id: int, url: string, uploadedBy: int)

  /** `handleDeletePhoto` after the server agreed: the photo leaves the
      list, and the selection is cleared iff it was that photo. */
  function AfterDelete(photos: seq<PhotoEntry>, selected: Option<int>, photoId: int, success: bool)
    : (r: (seq<PhotoEntry>, Option<int>))
  {
    if !success then (photos, selected)
    else (Js.Filter(photos, (p: PhotoEntry) => p.id != photoId),
          if selected.Some? && selected.value == photoId then None else selected)
  }

  lemma DeleteRemovesOnlyThatPhoto(photos: seq<PhotoEntry>, selected: Option<int>, photoId: int)
    ensures var (list, sel) := AfterDelete(photos, selected, photoId, true);
            && (forall p :: p in list <==> p in photos && p.id != photoId)
            && (sel.None? <==> selected.None? || selected.value == photoId)
            && (sel.Some? ==> sel == selected)
  {
  }

  /** What `handleAddPhoto` does with the URL field. */
  datatype AddOutcome = NeedsUrl | Upload(albumId: int, photoUrl: string)

  function AddPhoto(albumId: int, photoUrl: string): (r: AddOutcome)
  {
    if Js.Blank(photoUrl) then NeedsUrl else Upload(albumId, photoUrl)
  }

  /** A blank URL (empty or only whitespace) sets the error and sends
      nothing; any other URL is uploaded untrimmed. */
  lemma AddNeedsNonBlankUrl(albumId: int, photoUrl: string)
    ensures AddPhoto(albumId, photoUrl).NeedsUrl? <==> forall i | 0 <= i < |photoUrl| :: Js.IsSpace(photoUrl[i])
    ensures AddPhoto(albumId, photoUrl).Upload? ==> AddPhoto(albumId, photoUrl) == Upload(albumId, photoUrl)
    ensures AddPhoto(albumId, "").NeedsUrl?
  {
  }
}
