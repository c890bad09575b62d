/** End-to-end runs across the endpoints: sharing an album is refused until
    the two users are friends, and a second request for a pair that already
    has one is refused. */
module Scenarios {
  import opened Wrappers
  import Php
  import Users
  import UserSettings
  import Friendship
  import Albums
  import AlbumPermissions
  import Database
  import AlbumsApi
  import PhotosApi
  import PermissionsApi
  import FriendsApi
  import AlbumShare

  /** A client share body as the endpoint receives it: JSON booleans
      decode to PHP booleans. */
  function Posted(body: AlbumShare.ShareBody): PermissionsApi.Request {
    PermissionsApi.Post(Php.Int(body.albumId), Php.Int(body.userId),
                        Php.Bool(body.canAddPhotos), Php.Bool(body.canDeletePhotos))
  }

  /** The share request of the run: the sharing page's request for album
      `albumId` and user `b`. */
  function Share(albumId: int, b: int): PermissionsApi.Request {
    Posted(AlbumShare.ShareRequest(albumId, b))
  }

  /** The id of the request a POST created, 0 for any other reply. */
  function SentId(r: FriendsApi.Reply): int {
    if r.RequestSent? then r.requestId else 0
  }

  /** The two users have never been connected. */
  predicate Strangers(db: Database.Db, a: int, b: int) {
    !Friendship.HasRequestBetween(db.friends, a, b) && !Friendship.HasEdgeBetween(db.friends, a, b)
  }

  /** A owns the album and B is a stranger willing to take requests. A's
      share is refused with 403 "only friends"; after A's request and B's
      acceptance the same share succeeds, B then reads the album with add
      but not delete capability, and may list its photos. */
  lemma ShareNeedsFriendship(db: Database.Db, a: int, b: int, albumId: int, now: int)
    requires Database.Valid(db)
    requires a != b && a != 0 && b != 0 && albumId != 0
    requires Users.Exists(db.users, a) && Users.Exists(db.users, b)
    requires albumId in db.albums.albums && db.albums.albums[albumId].createdBy == a
    requires Strangers(db, a, b)
    requires b !in db.settings || db.settings[b].receiveFriendRequests != 0
    ensures var (r1, db1) := PermissionsApi.Route(db, a, Share(albumId, b));
            var (r2, db2) := FriendsApi.Route(db1, a, FriendsApi.Post(Php.Int(b)));
            var (r3, db3) := FriendsApi.Route(db2, b, FriendsApi.Put(true, Database.Id(SentId(r2)), Some("accept")));
            var (r4, db4) := PermissionsApi.Route(db3, a, Share(albumId, b));
            && r1 == PermissionsApi.Message(403, PermissionsApi.NotFriends) && db1 == db
            && r2.RequestSent?
            && r3 == FriendsApi.Message(200, "Friend request accepted successfully.")
            && Friendship.AreFriends(db3.friends, a, b) && Friendship.AreFriends(db3.friends, b, a)
            && r4 == PermissionsApi.Message(201, "Permission added successfully.")
            && AlbumsApi.Route(db4, b, AlbumsApi.Get(Database.Id(albumId))).0 ==
               AlbumsApi.Found(albumId, db.albums.albums[albumId], AlbumsApi.Capabilities(false, true, false))
            && PhotosApi.Route(db4, b, PhotosApi.GetAlbumPhotos(Database.Id(albumId)), now).0.PhotoList?
  {
    var (r1, db1) := PermissionsApi.Route(db, a, Share(albumId, b));
    RefusedWhileStrangers(db, a, b, albumId);
    var (r2, db2) := FriendsApi.Route(db1, a, FriendsApi.Post(Php.Int(b)));
    RequestReachesStranger(db1, a, b);
    var (r3, db3) := FriendsApi.Route(db2, b, FriendsApi.Put(true, Database.Id(SentId(r2)), Some("accept")));
    AcceptKeepsAlbums(db2, a, b, r2.requestId);
    var (r4, db4) := PermissionsApi.Route(db3, a, Share(albumId, b));
    ShareBetweenFriends(db3, a, b, albumId, now);
  }

  /** Step one: the share is refused and nothing changes. */
  lemma RefusedWhileStrangers(db: Database.Db, a: int, b: int, albumId: int)
    requires b != 0 && albumId != 0
    requires Users.Exists(db.users, b)
    requires albumId in db.albums.albums && db.albums.albums[albumId].createdBy == a
    requires Strangers(db, a, b)
    ensures PermissionsApi.Route(db, a, Share(albumId, b)) ==
            (PermissionsApi.Message(403, PermissionsApi.NotFriends), db)
  {
    PermissionsApi.CreateGates(db, a, albumId, b, Php.Bool(true), Php.Bool(false));
    assert (a, b) !in db.friends.edges;
  }

  /** Step two: A's request to a willing stranger is stored as pending;
      users, albums and grants are untouched. */
  lemma RequestReachesStranger(db: Database.Db, a: int, b: int)
    requires Database.Valid(db)
    requires a != b && b != 0 && Users.Exists(db.users, b)
    requires Strangers(db, a, b)
    requires b !in db.settings || db.settings[b].receiveFriendRequests != 0
    ensures var (r, db') := FriendsApi.Route(db, a, FriendsApi.Post(Php.Int(b)));
            && r.RequestSent?
            && r.requestId in db'.friends.requests
            && db'.friends.requests[r.requestId] == Friendship.Request(a, b, Friendship.Pending)
            && Database.Valid(db')
            && db'.users == db.users && db'.albums == db.albums && db'.grants == db.grants
  {
    FriendsApi.SendGateOrder(db, a, b);
    FriendsApi.RoutePreservesValid(db, a, FriendsApi.Post(Php.Int(b)));
  }

  /** Step three: B accepts; the two are friends and users, albums and
      grants are untouched. */
  lemma AcceptKeepsAlbums(db: Database.Db, a: int, b: int, id: int)
    requires Database.Valid(db)
    requires id in db.friends.requests && db.friends.requests[id] == Friendship.Request(a, b, Friendship.Pending)
    ensures var (r, db') := FriendsApi.Route(db, b, FriendsApi.Put(true, Database.Id(id), Some("accept")));
            && r == FriendsApi.Message(200, "Friend request accepted successfully.")
            && Friendship.AreFriends(db'.friends, a, b) && Friendship.AreFriends(db'.friends, b, a)
            && Database.Valid(db')
            && db'.users == db.users && db'.albums == db.albums && db'.grants == db.grants
  {
    FriendsApi.ReceiverAccepts(db, b, id);
    FriendsApi.RoutePreservesValid(db, b, FriendsApi.Put(true, Database.Id(id), Some("accept")));
  }

  /** Step four: between friends the share succeeds, and B then holds
      exactly the shared capabilities and may view the album. */
  lemma ShareBetweenFriends(db: Database.Db, a: int, b: int, albumId: int, now: int)
    requires Database.Valid(db)
    requires a != b && b != 0 && albumId != 0
    requires Users.Exists(db.users, b)
    requires albumId in db.albums.albums && db.albums.albums[albumId].createdBy == a
    requires Friendship.AreFriends(db.friends, a, b)
    ensures var (r, db') := PermissionsApi.Route(db, a, Share(albumId, b));
            && r == PermissionsApi.Message(201, "Permission added successfully.")
            && AlbumsApi.Route(db', b, AlbumsApi.Get(Database.Id(albumId))).0 ==
               AlbumsApi.Found(albumId, db.albums.albums[albumId], AlbumsApi.Capabilities(false, true, false))
            && PhotosApi.Route(db', b, PhotosApi.GetAlbumPhotos(Database.Id(albumId)), now).0.PhotoList?
  {
    var (r, db') := PermissionsApi.Route(db, a, Share(albumId, b));
    PermissionsApi.CreateGates(db, a, albumId, b, Php.Bool(true), Php.Bool(false));
    PermissionsApi.CreateStoresFlags(db, a, albumId, b, Php.Bool(true), Php.Bool(false));
    var g := AlbumPermissions.FindPair(db'.grants.rows, albumId, b).value;
    assert g.canAdd == 1 && g.canDelete == 0;
    assert db'.albums == db.albums;
    AlbumsApi.GetOneNeverForbidden(db', b, albumId);
    PhotosApi.ViewNeedsOwnershipOrGrant(db', b, albumId, now);
  }

  /** What the sharing page posts leaves a friend able to add photos to
      the album and unable to delete them. */
  lemma ClientShareIsAddOnly(db: Database.Db, a: int, b: int, albumId: int)
    requires Database.Valid(db)
    requires a != b && b != 0 && albumId != 0
    requires Users.Exists(db.users, b)
    requires albumId in db.albums.albums && db.albums.albums[albumId].createdBy == a
    requires Friendship.AreFriends(db.friends, a, b)
    ensures var db' := PermissionsApi.Route(db, a, Posted(AlbumShare.ShareRequest(albumId, b))).1;
            && AlbumPermissions.CanAddPhotos(db'.grants, albumId, b)
            && !AlbumPermissions.CanDeletePhotos(db'.grants, albumId, b)
  {
    var db' := PermissionsApi.Route(db, a, Share(albumId, b)).1;
    PermissionsApi.CreateGates(db, a, albumId, b, Php.Bool(true), Php.Bool(false));
    PermissionsApi.CreateStoresFlags(db, a, albumId, b, Php.Bool(true), Php.Bool(false));
  }

  /** A second request from A to B, sent while the first is still pending,
      is refused with 503 and stores nothing. */
  lemma DoubleSendRefused(db: Database.Db, a: int, b: int)
    requires Database.Valid(db)
    requires a != b && b != 0 && Users.Exists(db.users, b)
    ensures var (r1, db1) := FriendsApi.Route(db, a, FriendsApi.Post(Php.Int(b)));
            var (r2, db2) := FriendsApi.Route(db1, a, FriendsApi.Post(Php.Int(b)));
            r1.RequestSent? ==> r2 == FriendsApi.Message(503, FriendsApi.CouldNotSend) && db2 == db1
  {
    var (r1, db1) := FriendsApi.Route(db, a, FriendsApi.Post(Php.Int(b)));
    FriendsApi.SendGateOrder(db, a, b);
    if r1.RequestSent? {
      FriendsApi.SendGateOrder(db1, a, b);
      assert Friendship.HasRequestBetween(db1.friends, a, b) by {
        assert db1.friends.requests[r1.requestId] == Friendship.Request(a, b, Friendship.Pending);
      }
      assert db1.settings == UserSettings.WantsFriendRequests(db1.settings, b).1;
    }
  }
}
