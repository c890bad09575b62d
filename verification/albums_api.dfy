/** api/albums.php: reading, listing, creating, renaming and deleting
    albums. Every route needs a valid token; ownership decides who may
    change an album. */
module AlbumsApi {
  import opened Wrappers
  import Php
  import Jwt
  import Albums
  import AlbumPermissions
  import Database

  /** One request: the method with its path segment and decoded body. */
  datatype Request =
    | Get(id: Database.Seg)
    | Post(albumName: Option<string>, thumbnail: Option<string>)
    | Put(putId: Database.Seg, newName: Option<string>, newThumbnail: Option<string>)
    | Delete(deleteId: Database.Seg)
    | OtherMethod

  /** The `permissions` block of a single-album response. */
  datatype Capabilities = Capabilities(isOwner: bool, canAddPhotos: bool, canDeletePhotos: bool)

  datatype Reply =
    | Message(code: int, message: string)
    | Found(albumId: int, album: Albums.Album, permissions: Capabilities)
    | Listing(owned: set<int>, shared: set<int>)
    | Created(newId: int)

  function Code(r: Reply): int {
    match r
    case Message(code, _) => code
    case Found(_, _, _) => 200
    case Listing(_, _) => 200
    case Created(_) => 201
  }

  /** The capabilities a caller holds on an album: the owner holds all of
      them; anyone else holds what their grant says, or nothing. */
  function Resolve(grants: AlbumPermissions.GrantTable, album: Albums.Album, albumId: int, caller: int)
    : (c: Capabilities)
    ensures c.isOwner <==> album.createdBy == caller
    ensures c.isOwner ==> c.canAddPhotos && c.canDeletePhotos
    ensures !c.isOwner ==>
      && (c.canAddPhotos <==> AlbumPermissions.CanAddPhotos(grants, albumId, caller))
      && (c.canDeletePhotos <==> AlbumPermissions.CanDeletePhotos(grants, albumId, caller))
  {
    var isOwner := album.createdBy == caller;
    Capabilities(isOwner,
                 isOwner || AlbumPermissions.CanAddPhotos(grants, albumId, caller),
                 isOwner || AlbumPermissions.CanDeletePhotos(grants, albumId, caller))
  }

  /** The routes once the caller is known. */
  function Route(db: Database.Db, caller: int, req: Request): (r: (Reply, Database.Db))
  {
    match req
    case Get(seg) =>
      if Database.IsNumeric(seg) then
        match Albums.ReadOne(db.albums, Database.Key(seg))
        case None => (Message(404, "Album not found."), db)
        case Some(a) => (Found(seg.n, a, Resolve(db.grants, a, seg.n, caller)), db)
      else
        var owned := Albums.ReadByUser(db.albums, caller);
        var accessible := Albums.ReadUserAccessible(db.albums, db.grants, caller);
        var shared := set id | id in accessible && db.albums.albums[id].createdBy != caller;
        (Listing(owned, shared), db)
    case Post(name, thumbnail) =>
      if Database.Present(name) then
        var stored := if Database.Present(thumbnail) then thumbnail.value else "";
        var (id, albums') := Albums.Create(db.albums, name.value, caller, stored);
        (Created(id), db.(albums := albums'))
      else (Message(400, "Album name is required."), db)
    case Put(seg, newName, newThumbnail) =>
      if Database.IsNumeric(seg) then
        match Albums.ReadOne(db.albums, Database.Key(seg))
        case None => (Message(404, "Album not found."), db)
        case Some(a) =>
          if a.createdBy != caller then (Message(403, "Access denied. You can only update your own albums."), db)
          else
            var (_, albums') := Albums.Update(db.albums, seg.n, a.createdBy,
                                              newName.GetOr(a.name), newThumbnail.GetOr(a.thumbnail));
            (Message(200, "Album updated successfully."), db.(albums := albums'))
      else (Message(400, "Invalid album ID."), db)
    case Delete(seg) =>
      if Database.IsNumeric(seg) then
        match Albums.ReadOne(db.albums, Database.Key(seg))
        case None => (Message(404, "Album not found."), db)
        case Some(a) =>
          if a.createdBy != caller then (Message(403, "Access denied. You can only delete your own albums."), db)
          else
            var (_, albums') := Albums.Delete(db.albums, seg.n, caller);
            (Message(200, "Album deleted successfully."), db.(albums := albums'))
      else (Message(400, "Invalid album ID."), db)
    case OtherMethod => (Message(405, "Method not allowed."), db)
  }

  /** The whole endpoint: the token gate, then the route. */
  function Handle(p: Jwt.Primitives, db: Database.Db, token: Option<string>, now: int, req: Request)
    : (r: (Reply, Database.Db))
    ensures Database.Identify(p, db, token, now).Anonymous? ==> r == (Message(401, "Authentication required."), db)
    ensures Database.Identify(p, db, token, now).Rejected? ==> r == (Message(401, "Invalid or expired token."), db)
  {
    match Database.Identify(p, db, token, now)
    case Anonymous => (Message(401, "Authentication required."), db)
    case Rejected => (Message(401, "Invalid or expired token."), db)
    case Known(u) => Route(db, u.id, req)
  }

  // ---------------------------------------------------------------------
  // Properties

  /** GET of one album: 404 when it is missing; otherwise 200 for every
      caller, owner or not, grant or not. The owner always gets every
      capability; anyone else gets exactly their grant's flags. */
  lemma GetOneNeverForbidden(db: Database.Db, caller: int, albumId: int)
    ensures var (r, db') := Route(db, caller, Get(Database.Id(albumId)));
            && db' == db
            && (albumId !in db.albums.albums ==> r == Message(404, "Album not found."))
            && (albumId in db.albums.albums ==> r.Found? && r.album == db.albums.albums[albumId])
            && (albumId in db.albums.albums && db.albums.albums[albumId].createdBy == caller ==>
                  r.permissions == Capabilities(true, true, true))
            && (albumId in db.albums.albums && db.albums.albums[albumId].createdBy != caller ==>
                  r.permissions == Capabilities(false,
                                                AlbumPermissions.CanAddPhotos(db.grants, albumId, caller),
                                                AlbumPermissions.CanDeletePhotos(db.grants, albumId, caller)))
  {
  }

  /** A non-owner without a grant still reads the album, with no
      capabilities. */
  lemma UngrantedReaderSeesAlbum(db: Database.Db, caller: int, albumId: int)
    requires albumId in db.albums.albums && db.albums.albums[albumId].createdBy != caller
    requires AlbumPermissions.FindPair(db.grants.rows, albumId, caller).None?
    ensures Route(db, caller, Get(Database.Id(albumId))).0 ==
            Found(albumId, db.albums.albums[albumId], Capabilities(false, false, false))
  {
  }

  /** The list holds the caller's albums as owned and the albums shared
      with them, owned by someone else, as shared; no album is in both. */
  lemma ListingPartitions(db: Database.Db, caller: int, seg: Database.Seg)
    requires !Database.IsNumeric(seg)
    ensures var r := Route(db, caller, Get(seg)).0;
            && r.Listing?
            && r.owned * r.shared == {}
            && (forall id :: id in r.owned <==> id in db.albums.albums && db.albums.albums[id].createdBy == caller)
            && (forall id :: id in r.shared <==>
                  id in db.albums.albums && db.albums.albums[id].createdBy != caller &&
                  exists g | g in db.grants.rows :: AlbumPermissions.ForPair(g, id, caller))
  {
  }

  /** Only the owner changes an album: PUT and DELETE by anyone else give
      403 and leave the database untouched. */
  lemma OnlyOwnerChangesAlbum(db: Database.Db, caller: int, albumId: int,
                              newName: Option<string>, newThumbnail: Option<string>)
    requires albumId in db.albums.albums && db.albums.albums[albumId].createdBy != caller
    ensures Route(db, caller, Put(Database.Id(albumId), newName, newThumbnail)) ==
            (Message(403, "Access denied. You can only update your own albums."), db)
    ensures Route(db, caller, Delete(Database.Id(albumId))) ==
            (Message(403, "Access denied. You can only delete your own albums."), db)
  {
  }

  /** PUT and DELETE refuse a non-numeric id with 400 and an id that names
      no album with 404, before ownership is looked at; neither changes
      anything. */
  lemma ChangeInputErrors(db: Database.Db, caller: int, seg: Database.Seg,
                          newName: Option<string>, newThumbnail: Option<string>)
    ensures !Database.IsNumeric(seg) ==>
      && Route(db, caller, Put(seg, newName, newThumbnail)) == (Message(400, "Invalid album ID."), db)
      && Route(db, caller, Delete(seg)) == (Message(400, "Invalid album ID."), db)
    ensures Database.IsNumeric(seg) && (seg.NumericNonInteger? || seg.n !in db.albums.albums) ==>
      && Route(db, caller, Put(seg, newName, newThumbnail)) == (Message(404, "Album not found."), db)
      && Route(db, caller, Delete(seg)) == (Message(404, "Album not found."), db)
  {
  }

  /** PUT by the owner overwrites only the fields present in the body and
      keeps the owner. */
  lemma PutKeepsAbsentFields(db: Database.Db, caller: int, albumId: int,
                             newName: Option<string>, newThumbnail: Option<string>)
    requires albumId in db.albums.albums && db.albums.albums[albumId].createdBy == caller
    ensures var (r, db') := Route(db, caller, Put(Database.Id(albumId), newName, newThumbnail));
            var before := db.albums.albums[albumId];
            && r == Message(200, "Album updated successfully.")
            && albumId in db'.albums.albums
            && db'.albums.albums[albumId].createdBy == caller
            && db'.albums.albums[albumId].name == (if newName.Some? then newName.value else before.name)
            && db'.albums.albums[albumId].thumbnail == (if newThumbnail.Some? then newThumbnail.value else before.thumbnail)
            && db' == db.(albums := db'.albums)
  {
  }

  /** POST stores the caller as the creator, whatever the body says, and an
      empty thumbnail as "". */
  lemma PostBindsCreator(db: Database.Db, caller: int, name: Option<string>, thumbnail: Option<string>)
    requires Albums.Valid(db.albums)
    ensures var (r, db') := Route(db, caller, Post(name, thumbnail));
            && (!Database.Present(name) ==> r == Message(400, "Album name is required.") && db' == db)
            && (Database.Present(name) ==>
                  && r.Created?
                  && r.newId !in db.albums.albums
                  && db'.albums.albums == db.albums.albums[r.newId := Albums.Album(
                       name.value, caller, if Database.Present(thumbnail) then thumbnail.value else "")])
  {
  }

  /** No album route breaks an invariant of the database. */
  lemma RoutePreservesValid(db: Database.Db, caller: int, req: Request)
    requires Database.Valid(db)
    ensures Database.Valid(Route(db, caller, req).1)
  {
  }

  /** Without a valid token nothing is read or written. */
  lemma GateBlocksStrangers(p: Jwt.Primitives, db: Database.Db, token: Option<string>, now: int, req: Request)
    requires !Database.Identify(p, db, token, now).Known?
    ensures Code(Handle(p, db, token, now, req).0) == 401 && Handle(p, db, token, now, req).1 == db
  {
  }
}
