/** api/album_permissions.php: the owner of an album lists, creates,
    changes and removes the grants on it. Every route needs a valid token. */
module PermissionsApi {
  import opened Wrappers
  import Php
  import Jwt
  import Users
  import Friendship
  import Albums
  import AlbumPermissions
  import Database

  datatype Request =
    | Get(albumSeg: Database.Seg)
    | Post(albumId: Php.Loose, userId: Php.Loose, canAdd: Php.Loose, canDelete: Php.Loose)
    | Put(grantSeg: Database.Seg, newCanAdd: Php.Loose, newCanDelete: Php.Loose)
    | Delete(deleteSeg: Database.Seg)
    | OtherMethod

  datatype Reply =
    | Message(code: int, message: string)
    | GrantList(grants: seq<AlbumPermissions.Listed>)

  function Code(r: Reply): int {
    match r
    case Message(code, _) => code
    case GrantList(_) => 200
  }

  const ListDenied := "Access denied. Only the album owner can view permissions."
  const AddDenied := "Access denied. Only the album owner can add permissions."
  const UpdateDenied := "Access denied. Only the album owner can update permissions."
  const DeleteDenied := "Access denied. Only the album owner can delete permissions."
  const NotFriends := "You can only share albums with friends."

  /** `isset($data->flag) ? $data->flag : false`. */
  function FlagOrFalse(v: Php.Loose): (r: Php.Loose)
    ensures v.Null? ==> r == Php.Bool(false)
    ensures !v.Null? ==> r == v
  {
    if v.Null? then Php.Bool(false) else v
  }

  /** The album the owner check of PUT and DELETE looks at: that of the
      grant `read()` found, or PHP `null` when it found none. */
  function AlbumOfGrant(found: Option<AlbumPermissions.Grant>): (r: Option<int>)
    ensures r.Some? <==> found.Some?
    ensures r.Some? ==> r.value == found.value.albumId
  {
    if found.Some? then Some(found.value.albumId) else None
  }

  /** PUT after `read()`: `found` is what `read()` returned for the object. */
  function PutResolved(db: Database.Db, caller: int, found: Option<AlbumPermissions.Grant>,
                       newCanAdd: Php.Loose, newCanDelete: Php.Loose): (r: (Reply, Database.Db))
    ensures found.None? ==> r == (Message(403, UpdateDenied), db)
  {
    match Albums.ReadOne(db.albums, AlbumOfGrant(found))
    case None => (Message(403, UpdateDenied), db)
    case Some(a) =>
      if a.createdBy != caller then (Message(403, UpdateDenied), db)
      else
        // `read()` loaded the row's id and flags into the object; an absent
        // field keeps the loaded flag.
        var add := if newCanAdd.Null? then Php.Int(found.value.canAdd) else newCanAdd;
        var del := if newCanDelete.Null? then Php.Int(found.value.canDelete) else newCanDelete;
        (Message(200, "Permission updated successfully."),
         db.(grants := AlbumPermissions.Update(db.grants, found.value.id, add, del)))
  }

  /** DELETE after `read()`. */
  function DeleteResolved(db: Database.Db, caller: int, found: Option<AlbumPermissions.Grant>)
    : (r: (Reply, Database.Db))
    ensures found.None? ==> r == (Message(403, DeleteDenied), db)
  {
    match Albums.ReadOne(db.albums, AlbumOfGrant(found))
    case None => (Message(403, DeleteDenied), db)
    case Some(a) =>
      if a.createdBy != caller then (Message(403, DeleteDenied), db)
      else (Message(200, "Permission deleted successfully."), db.(grants := AlbumPermissions.Delete(db.grants, found.value.id)))
  }

  function Route(db: Database.Db, caller: int, req: Request): (r: (Reply, Database.Db))
  {
    match req
    case Get(seg) =>
      if !Database.IsNumeric(seg) then (Message(400, "Invalid album ID."), db)
      else if Albums.ReadOne(db.albums, Database.Key(seg)).None? then (Message(404, "Album not found."), db)
      else if db.albums.albums[seg.n].createdBy != caller then (Message(403, ListDenied), db)
      else (GrantList(AlbumPermissions.ReadByAlbum(db.grants, db.users, seg.n)), db)
    case Post(albumField, userField, canAdd, canDelete) =>
      if Php.Empty(albumField) || Php.Empty(userField) then
        (Message(400, "Album ID and user ID are required."), db)
      else
        var albumKey := Database.BodyKey(albumField);
        var userKey := Database.BodyKey(userField);
        if Albums.ReadOne(db.albums, albumKey).None? || db.albums.albums[albumKey.value].createdBy != caller then
          (Message(403, AddDenied), db)
        else if userKey.None? || !Users.Exists(db.users, userKey.value) then (Message(404, "Target user not found."), db)
        else if !Friendship.AreFriends(db.friends, caller, userKey.value) then (Message(403, NotFriends), db)
        else
          var (_, _, grants') := AlbumPermissions.CreateOrUpdate(db.grants, albumKey.value, userKey.value,
                                                                FlagOrFalse(canAdd), FlagOrFalse(canDelete));
          (Message(201, "Permission added successfully."), db.(grants := grants'))
    case Put(seg, newCanAdd, newCanDelete) =>
      if !Database.IsNumeric(seg) then (Message(400, "Invalid permission ID."), db)
      else
        // `read()` filters on the object's album_id and user_id, which this
        // route never sets: both are PHP null.
        PutResolved(db, caller, AlbumPermissions.Read(db.grants, None, None), newCanAdd, newCanDelete)
    case Delete(seg) =>
      if !Database.IsNumeric(seg) then (Message(400, "Invalid permission ID."), db)
      else DeleteResolved(db, caller, AlbumPermissions.Read(db.grants, None, None))
    case OtherMethod => (Message(405, "Method not allowed."), db)
  }

  function Handle(p: Jwt.Primitives, db: Database.Db, token: Option<string>, now: int, req: Request)
    : (r: (Reply, Database.Db))
    ensures Database.Identify(p, db, token, now).Anonymous? ==> r == (Message(401, "Authentication required."), db)
    ensures Database.Identify(p, db, token, now).Rejected? ==> r == (Message(401, "Invalid or expired token."), db)
  {
    match Database.Identify(p, db, token, now)
    case Anonymous => (Message(401, "Authentication required."), db)
    case Rejected => (Message(401, "Invalid or expired token."), db)
    case Known(u) => Route(db, u.id, req)
  }

  // ---------------------------------------------------------------------
  // Properties

  /** Only the owner of an existing album sees its grants, and sees exactly
      those whose user still exists. */
  lemma ListOwnerOnly(db: Database.Db, caller: int, albumId: int)
    requires albumId in db.albums.albums
    ensures var (r, db') := Route(db, caller, Get(Database.Id(albumId)));
            && db' == db
            && (db.albums.albums[albumId].createdBy != caller <==> r == Message(403, ListDenied))
            && (r.GrantList? ==>
                  && (forall l | l in r.grants :: l.grant in db.grants.rows && l.grant.albumId == albumId)
                  && (forall g | g in db.grants.rows && g.albumId == albumId && Users.Exists(db.users, g.userId) ::
                        exists l | l in r.grants :: l.grant == g))
  {
  }

  /** POST checks ownership first, then that the target exists, then
      friendship (`areFriends(caller, target)`, one direction); only then is
      the grant upserted, with absent flags stored as 0. */
  lemma CreateGates(db: Database.Db, caller: int, albumId: int, target: int, canAdd: Php.Loose, canDelete: Php.Loose)
    requires albumId != 0 && target != 0
    ensures var (r, db') := Route(db, caller, Post(Php.Int(albumId), Php.Int(target), canAdd, canDelete));
            && (!(albumId in db.albums.albums && db.albums.albums[albumId].createdBy == caller) ==>
                  r == Message(403, AddDenied) && db' == db)
            && (albumId in db.albums.albums && db.albums.albums[albumId].createdBy == caller &&
                !Users.Exists(db.users, target) ==>
                  r == Message(404, "Target user not found.") && db' == db)
            && (albumId in db.albums.albums && db.albums.albums[albumId].createdBy == caller &&
                Users.Exists(db.users, target) && (caller, target) !in db.friends.edges ==>
                  r == Message(403, NotFriends) && db' == db)
            && (albumId in db.albums.albums && db.albums.albums[albumId].createdBy == caller &&
                Users.Exists(db.users, target) && (caller, target) in db.friends.edges ==>
                  && r == Message(201, "Permission added successfully.")
                  && db' == db.(grants := AlbumPermissions.CreateOrUpdate(db.grants, albumId, target,
                                            FlagOrFalse(canAdd), FlagOrFalse(canDelete)).2))
  {
  }

  /** A successful POST leaves the pair with one grant holding the
      requested flags; absent flags become 0. */
  lemma CreateStoresFlags(db: Database.Db, caller: int, albumId: int, target: int, canAdd: Php.Loose, canDelete: Php.Loose)
    requires Database.Valid(db) && albumId != 0 && target != 0
    ensures var (r, db') := Route(db, caller, Post(Php.Int(albumId), Php.Int(target), canAdd, canDelete));
            r.code == 201 ==>
              && AlbumPermissions.FindPair(db'.grants.rows, albumId, target).Some?
              && AlbumPermissions.FindPair(db'.grants.rows, albumId, target).value.canAdd == Php.IntVal(canAdd)
              && AlbumPermissions.FindPair(db'.grants.rows, albumId, target).value.canDelete == Php.IntVal(canDelete)
  {
    var (r, db') := Route(db, caller, Post(Php.Int(albumId), Php.Int(target), canAdd, canDelete));
    if r.code == 201 {
      AlbumPermissions.UpsertSetsFlags(db.grants, albumId, target, FlagOrFalse(canAdd), FlagOrFalse(canDelete));
    }
  }

  /** Sharing the same album with the same friend twice leaves the same
      grants as sharing once. */
  lemma RepeatedShareIdempotent(db: Database.Db, caller: int, albumField: Php.Loose, userField: Php.Loose,
                                canAdd: Php.Loose, canDelete: Php.Loose)
    requires Database.Valid(db)
    ensures var once := Route(db, caller, Post(albumField, userField, canAdd, canDelete)).1;
            Route(once, caller, Post(albumField, userField, canAdd, canDelete)).1 == once
  {
    var req := Post(albumField, userField, canAdd, canDelete);
    var (r, once) := Route(db, caller, req);
    if once != db {
      var albumKey := Database.BodyKey(albumField).value;
      var userKey := Database.BodyKey(userField).value;
      AlbumPermissions.UpsertIdempotent(db.grants, albumKey, userKey, FlagOrFalse(canAdd), FlagOrFalse(canDelete));
    }
  }

  /** PUT and DELETE with a numeric id always answer 403 and change
      nothing: `read()` looks for a grant with a NULL album and user, finds
      none, and the owner check then has no album. */
  lemma PutAndDeleteAlwaysForbidden(db: Database.Db, caller: int, seg: Database.Seg, newCanAdd: Php.Loose, newCanDelete: Php.Loose)
    requires Database.IsNumeric(seg)
    ensures Route(db, caller, Put(seg, newCanAdd, newCanDelete)) == (Message(403, UpdateDenied), db)
    ensures Route(db, caller, Delete(seg)) == (Message(403, DeleteDenied), db)
  {
  }

  /** Were `read()` to find the grant, PUT would still check ownership of
      the grant's album (403 with no change for anyone else), and the owner
      would change the flags present in the body and keep the others. */
  lemma ResolvedPutKeepsAbsentFlags(db: Database.Db, caller: int, g: AlbumPermissions.Grant,
                                    newCanAdd: Php.Loose, newCanDelete: Php.Loose)
    requires g in db.grants.rows && g.albumId in db.albums.albums
    ensures var (r, db') := PutResolved(db, caller, Some(g), newCanAdd, newCanDelete);
            && (db.albums.albums[g.albumId].createdBy != caller ==> r == Message(403, UpdateDenied) && db' == db)
            && (db.albums.albums[g.albumId].createdBy == caller ==>
                  && r == Message(200, "Permission updated successfully.")
                  && |db'.grants.rows| == |db.grants.rows|
                  && forall h | h in db'.grants.rows && h.id == g.id ::
                       && h.canAdd == (if newCanAdd.Null? then g.canAdd else Php.IntVal(newCanAdd))
                       && h.canDelete == (if newCanDelete.Null? then g.canDelete else Php.IntVal(newCanDelete)))
  {
  }

  /** Only an album's owner changes its grants: whenever a route changes
      the grant table, it was a POST for an album the caller owns. */
  lemma OnlyOwnerChangesGrants(db: Database.Db, caller: int, req: Request)
    ensures var db' := Route(db, caller, req).1;
            db'.grants != db.grants ==>
              && req.Post?
              && Database.BodyKey(req.albumId).Some?
              && Database.BodyKey(req.albumId).value in db.albums.albums
              && db.albums.albums[Database.BodyKey(req.albumId).value].createdBy == caller
    ensures var db' := Route(db, caller, req).1;
            db' == db.(grants := db'.grants)
  {
  }

  lemma RoutePreservesValid(db: Database.Db, caller: int, req: Request)
    requires Database.Valid(db)
    ensures Database.Valid(Route(db, caller, req).1)
  {
    match req {
      case Post(albumField, userField, canAdd, canDelete) =>
        var albumKey := Database.BodyKey(albumField);
        var userKey := Database.BodyKey(userField);
        if albumKey.Some? && userKey.Some? {
          AlbumPermissions.CreateOrUpdatePreservesValid(db.grants, albumKey.value, userKey.value,
                                                       FlagOrFalse(canAdd), FlagOrFalse(canDelete));
        }
      case _ =>
    }
  }
}
