/** api/photos.php: viewing, adding and deleting photos. Every route needs
    a valid token. Viewing needs ownership or any grant; adding and
    deleting need ownership or the matching grant flag. */
module PhotosApi {
  import opened Wrappers
  import Php
  import Jwt
  import Albums
  import Photos
  import AlbumPermissions
  import Database

  datatype Request =
    | GetAlbumPhotos(albumSeg: Database.Seg)
    | GetPhoto(photoSeg: Database.Seg)
    | Post(albumId: Php.Loose, photoUrl: Option<string>)
    | Delete(deleteSeg: Database.Seg)
    | OtherMethod

  datatype Reply =
    | Message(code: int, message: string)
    | PhotoList(photoIds: seq<int>)
    | PhotoFound(photoId: int, photo: Photos.Photo)
    | Added(photoId: int)

  function Code(r: Reply): int {
    match r
    case Message(code, _) => code
    case PhotoList(_) => 200
    case PhotoFound(_, _) => 200
    case Added(_) => 201
  }

  const NoAlbumAccess := "Access denied. You don't have permission for this album."
  const NoAddAccess := "Access denied. You don't have permission to add photos to this album."
  const NoDeleteAccess := "Access denied. You don't have permission to delete photos from this album."

  /** The caller owns the album. A missing album has no owner. */
  predicate IsOwner(db: Database.Db, albumId: int, caller: int) {
    albumId in db.albums.albums && db.albums.albums[albumId].createdBy == caller
  }

  /** Viewing rule: owner, or any grant row for (album, caller), whatever
      its flags. */
  predicate MayView(db: Database.Db, albumId: int, caller: int) {
    IsOwner(db, albumId, caller) || AlbumPermissions.Read(db.grants, Some(albumId), Some(caller)).Some?
  }

  /** The thumbnail rule after an upload: an album whose thumbnail is empty
      takes the new photo's URL. */
  function WithThumbnail(albums: Albums.AlbumTable, albumId: int, url: string): (r: Albums.AlbumTable)
    requires albumId in albums.albums
    ensures r.albums.Keys == albums.albums.Keys && r.nextId == albums.nextId
    ensures forall k | k in albums.albums && k != albumId :: r.albums[k] == albums.albums[k]
    ensures r.albums[albumId].thumbnail ==
            (if Php.Truthy(albums.albums[albumId].thumbnail) then albums.albums[albumId].thumbnail else url)
    ensures r.albums[albumId].name == albums.albums[albumId].name
    ensures r.albums[albumId].createdBy == albums.albums[albumId].createdBy
  {
    var a := albums.albums[albumId];
    if Php.Truthy(a.thumbnail) then albums
    else Albums.Update(albums, albumId, a.createdBy, a.name, url).1
  }

  function Route(db: Database.Db, caller: int, req: Request, now: int): (r: (Reply, Database.Db))
  {
    match req
    case GetAlbumPhotos(seg) =>
      if !Database.IsNumeric(seg) then (Message(400, "Invalid photo or album ID."), db)
      else if Albums.ReadOne(db.albums, Database.Key(seg)).None? then (Message(404, "Album not found."), db)
      else if !MayView(db, seg.n, caller) then (Message(403, NoAlbumAccess), db)
      else (PhotoList(Photos.ReadByAlbum(db.photos, seg.n)), db)
    case GetPhoto(seg) =>
      if !Database.IsNumeric(seg) then (Message(400, "Invalid photo or album ID."), db)
      else if seg.NumericNonInteger? || Photos.ReadOne(db.photos, seg.n).None? then (Message(404, "Photo not found."), db)
      else
        var photo := db.photos.photos[seg.n];
        if !MayView(db, photo.albumId, caller) then (Message(403, NoAlbumAccess), db)
        else (PhotoFound(seg.n, photo), db)
    case Post(albumField, url) =>
      if Php.Empty(albumField) || !Database.Present(url) then
        (Message(400, "Album ID and photo URL are required."), db)
      else
        var key := Database.BodyKey(albumField);
        if Albums.ReadOne(db.albums, key).None? then (Message(404, "Album not found."), db)
        else
          var albumId := key.value;
          var a := db.albums.albums[albumId];
          if a.createdBy != caller && !Photos.CanAddPhoto(db.albums, db.grants, caller, albumId) then
            (Message(403, NoAddAccess), db)
          else
            var (photoId, photos') := Photos.Create(db.photos, albumId, url.value, caller, now);
            (Added(photoId), db.(photos := photos', albums := WithThumbnail(db.albums, albumId, url.value)))
    case Delete(seg) =>
      if !Database.IsNumeric(seg) then (Message(400, "Invalid photo ID."), db)
      else if seg.NumericNonInteger? || Photos.ReadOne(db.photos, seg.n).None? then (Message(404, "Photo not found."), db)
      else
        var photo := db.photos.photos[seg.n];
        var isOwner := IsOwner(db, photo.albumId, caller);
        var isUploader := photo.uploadedBy == caller;
        if !isOwner && !isUploader && !AlbumPermissions.CanDeletePhotos(db.grants, photo.albumId, caller) then
          (Message(403, NoDeleteAccess), db)
        else
          var (ok, photos') := Photos.Delete(db.photos, db.albums, db.grants, seg.n, caller);
          if ok then (Message(200, "Photo deleted successfully."), db.(photos := photos'))
          else (Message(503, "Unable to delete photo."), db)
    case OtherMethod => (Message(405, "Method not allowed."), db)
  }

  function Handle(p: Jwt.Primitives, db: Database.Db, token: Option<string>, now: int, req: Request)
    : (r: (Reply, Database.Db))
    ensures Database.Identify(p, db, token, now).Anonymous? ==> r == (Message(401, "Authentication required."), db)
    ensures Database.Identify(p, db, token, now).Rejected? ==> r == (Message(401, "Invalid or expired token."), db)
  {
    match Database.Identify(p, db, token, now)
    case Anonymous => (Message(401, "Authentication required."), db)
    case Rejected => (Message(401, "Invalid or expired token."), db)
    case Known(u) => Route(db, u.id, req, now)
  }

  // ---------------------------------------------------------------------
  // Properties

  /** Listing an existing album's photos succeeds iff the caller owns it or
      holds any grant for it; the flags play no part. The list holds each of
      the album's photos once, newest first. */
  lemma ViewNeedsOwnershipOrGrant(db: Database.Db, caller: int, albumId: int, now: int)
    requires albumId in db.albums.albums
    ensures var (r, db') := Route(db, caller, GetAlbumPhotos(Database.Id(albumId)), now);
            && db' == db
            && (r.PhotoList? <==>
                  db.albums.albums[albumId].createdBy == caller ||
                  exists g | g in db.grants.rows :: AlbumPermissions.ForPair(g, albumId, caller))
            && (!r.PhotoList? ==> r == Message(403, NoAlbumAccess))
            && (r.PhotoList? ==> forall id :: id in r.photoIds <==>
                  id in db.photos.photos && db.photos.photos[id].albumId == albumId)
            && (r.PhotoList? ==> Photos.NewestFirst(db.photos.photos, r.photoIds) && Photos.Distinct(r.photoIds))
  {
  }

  /** Reading one existing photo follows the same rule, applied to the
      photo's album: the owner or any grant holder gets the photo, everyone
      else 403; a missing photo is 404. */
  lemma ViewPhotoRule(db: Database.Db, caller: int, photoId: int, now: int)
    ensures var (r, db') := Route(db, caller, GetPhoto(Database.Id(photoId)), now);
            && db' == db
            && (photoId !in db.photos.photos ==> r == Message(404, "Photo not found."))
            && (photoId in db.photos.photos ==>
                  var albumId := db.photos.photos[photoId].albumId;
                  && (r.PhotoFound? <==>
                        IsOwner(db, albumId, caller) ||
                        exists g | g in db.grants.rows :: AlbumPermissions.ForPair(g, albumId, caller))
                  && (r.PhotoFound? ==> r.photo == db.photos.photos[photoId])
                  && (!r.PhotoFound? ==> r == Message(403, NoAlbumAccess)))
  {
  }

  /** A grant with both flags off still lets its holder view the album. */
  lemma FlaglessGrantViews(db: Database.Db, caller: int, g: AlbumPermissions.Grant, now: int)
    requires g in db.grants.rows && g.userId == caller && g.albumId in db.albums.albums
    requires g.canAdd == 0 && g.canDelete == 0
    ensures Route(db, caller, GetAlbumPhotos(Database.Id(g.albumId)), now).0.PhotoList?
  {
  }

  /** Adding to an existing album: 403 with no change unless the caller
      owns it or `canAddPhoto` holds; otherwise a photo uploaded by the
      caller is added and the thumbnail rule applies. */
  lemma AddRule(db: Database.Db, caller: int, albumId: int, url: string, now: int)
    requires Database.Valid(db)
    requires albumId in db.albums.albums && Php.Truthy(url) && albumId != 0
    ensures var (r, db') := Route(db, caller, Post(Php.Int(albumId), Some(url)), now);
            var allowed := db.albums.albums[albumId].createdBy == caller ||
                           AlbumPermissions.CanAddPhotos(db.grants, albumId, caller);
            && (!allowed ==> r == Message(403, NoAddAccess) && db' == db)
            && (allowed ==>
                  && r.Added?
                  && r.photoId !in db.photos.photos
                  && db'.photos.photos == db.photos.photos[r.photoId := Photos.Photo(albumId, url, caller, now)]
                  && db'.albums.albums[albumId].thumbnail ==
                     (if Php.Truthy(db.albums.albums[albumId].thumbnail)
                      then db.albums.albums[albumId].thumbnail else url)
                  && db'.grants == db.grants && db'.users == db.users && db'.friends == db.friends)
  {
  }

  /** POST without an album id or a photo URL is 400; with an album id that
      names no album it is 404. Neither changes anything. */
  lemma AddInputErrors(db: Database.Db, caller: int, albumField: Php.Loose, url: Option<string>, now: int)
    ensures var (r, db') := Route(db, caller, Post(albumField, url), now);
            && (Php.Empty(albumField) || !Database.Present(url) ==>
                  r == Message(400, "Album ID and photo URL are required.") && db' == db)
            && (!Php.Empty(albumField) && Database.Present(url) &&
                Php.IntVal(albumField) !in db.albums.albums ==>
                  r == Message(404, "Album not found.") && db' == db)
  {
  }

  /** Every photo the endpoint creates is attributed to the caller. */
  lemma UploaderIsCaller(db: Database.Db, caller: int, albumField: Php.Loose, url: Option<string>, now: int)
    requires Photos.Valid(db.photos)
    ensures var (r, db') := Route(db, caller, Post(albumField, url), now);
            r.Added? ==> r.photoId in db'.photos.photos && db'.photos.photos[r.photoId].uploadedBy == caller
  {
  }

  /** Deleting an existing photo: 403 with no change iff the caller is not
      the album's owner, not the uploader and has no delete grant. */
  lemma DeleteRule(db: Database.Db, caller: int, photoId: int, now: int)
    requires photoId in db.photos.photos
    ensures var (r, db') := Route(db, caller, Delete(Database.Id(photoId)), now);
            var photo := db.photos.photos[photoId];
            var allowed := IsOwner(db, photo.albumId, caller) || photo.uploadedBy == caller ||
                           AlbumPermissions.CanDeletePhotos(db.grants, photo.albumId, caller);
            && (!allowed <==> r == Message(403, NoDeleteAccess))
            && (!allowed ==> db' == db)
            && (allowed && photo.albumId in db.albums.albums ==>
                  r == Message(200, "Photo deleted successfully.") &&
                  db'.photos.photos == db.photos.photos - {photoId})
            && (allowed && photo.albumId !in db.albums.albums ==>
                  r == Message(503, "Unable to delete photo.") && db' == db)
  {
  }

  lemma RoutePreservesValid(db: Database.Db, caller: int, req: Request, now: int)
    requires Database.Valid(db)
    ensures Database.Valid(Route(db, caller, req, now).1)
  {
  }
}
