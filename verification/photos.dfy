/** models/Photo.php: the `album_photos` table and the two capability
    queries that join it with albums and grants. */
module Photos {
  import opened Wrappers
  import Php
  import Albums
  import AlbumPermissions

  /** A photo row; `uploadedAt` is the insertion timestamp. */
  datatype Photo = Photo(albumId: int, url: string, uploadedBy: int, uploadedAt: int)

  datatype PhotoTable = PhotoTable(photos: map<int, Photo>, nextId: int)

  const Empty: PhotoTable := PhotoTable(map[], 1)

  ghost predicate Valid(t: PhotoTable) {
    forall id | id in t.photos :: id < t.nextId
  }

  /** `create`: inserts the photo under the next id with the album, URL and
      uploader as supplied, stamped with `now`; returns the id. */
  function Create(t: PhotoTable, albumId: int, url: string, uploadedBy: int, now: int): (r: (int, PhotoTable))
    ensures Valid(t) ==> r.0 !in t.photos && Valid(r.1)
    ensures r.1.photos == t.photos[r.0 := Photo(albumId, url, uploadedBy, now)]
    ensures r.1.nextId > r.0
  {
    (t.nextId, PhotoTable(t.photos[t.nextId := Photo(albumId, url, uploadedBy, now)], t.nextId + 1))
  }

  /** `readOne`: the photo with this id. */
  function ReadOne(t: PhotoTable, id: int): (r: Option<Photo>)
    ensures r.Some? <==> id in t.photos
    ensures r.Some? ==> r.value == t.photos[id]
  {
    if id in t.photos then Some(t.photos[id]) else None
  }

  /** The ids of an album's photos, the content `readByAlbum` lists. */
  function InAlbum(t: PhotoTable, albumId: int): set<int> {
    set id | id in t.photos && t.photos[id].albumId == albumId
  }

  /** All listed ids are photos, and each is no older than those after it. */
  predicate NewestFirst(photos: map<int, Photo>, ids: seq<int>) {
    && (forall i | 0 <= i < |ids| :: ids[i] in photos)
    && (forall i, j | 0 <= i < j < |ids| :: photos[ids[i]].uploadedAt >= photos[ids[j]].uploadedAt)
  }

  predicate Distinct(ids: seq<int>) {
    forall i, j | 0 <= i < j < |ids| :: ids[i] != ids[j]
  }

  /** Where `id` goes in a newest-first list: before the first photo that
      is not newer than it. */
  function InsertPos(photos: map<int, Photo>, ids: seq<int>, id: int): (k: nat)
    requires id in photos && NewestFirst(photos, ids)
    ensures k <= |ids|
    ensures forall i | 0 <= i < k :: photos[ids[i]].uploadedAt > photos[id].uploadedAt
    ensures forall i | k <= i < |ids| :: photos[ids[i]].uploadedAt <= photos[id].uploadedAt
    decreases |ids|
  {
    if |ids| == 0 || photos[ids[0]].uploadedAt <= photos[id].uploadedAt then 0
    else 1 + InsertPos(photos, ids[1..], id)
  }

  /** The list with `id` put at position `k`, element by element. */
  lemma InsertIndex(ids: seq<int>, k: nat, id: int)
    requires k <= |ids|
    ensures |ids[..k] + [id] + ids[k..]| == |ids| + 1
    ensures forall i | 0 <= i <= |ids| ::
              (ids[..k] + [id] + ids[k..])[i] == (if i < k then ids[i] else if i == k then id else ids[i - 1])
  {
  }

  /** Putting a photo between the newer ones and the rest keeps the list
      newest-first. */
  lemma InsertBetween(photos: map<int, Photo>, ids: seq<int>, id: int, k: nat)
    requires id in photos && NewestFirst(photos, ids) && k <= |ids|
    requires forall i | 0 <= i < k :: photos[ids[i]].uploadedAt >= photos[id].uploadedAt
    requires forall i | k <= i < |ids| :: photos[ids[i]].uploadedAt <= photos[id].uploadedAt
    ensures NewestFirst(photos, ids[..k] + [id] + ids[k..])
  {
    var r := ids[..k] + [id] + ids[k..];
    InsertIndex(ids, k, id);
    forall i, j | 0 <= i < j < |r|
      ensures photos[r[i]].uploadedAt >= photos[r[j]].uploadedAt
    {
      if j == k {
        assert r[i] == ids[i];
      } else if i == k {
        assert r[j] == ids[j - 1];
      }
    }
  }

  /** Putting an id not yet listed into a duplicate-free list keeps it
      duplicate-free. */
  lemma InsertFresh(ids: seq<int>, id: int, k: nat)
    requires k <= |ids| && Distinct(ids) && id !in ids
    ensures Distinct(ids[..k] + [id] + ids[k..])
  {
    InsertIndex(ids, k, id);
  }

  /** Inserting at `InsertPos` keeps the list newest-first, and a new id
      keeps it free of duplicates. */
  lemma InsertKeepsOrder(photos: map<int, Photo>, ids: seq<int>, id: int)
    requires id in photos && NewestFirst(photos, ids)
    ensures var k := InsertPos(photos, ids, id);
            NewestFirst(photos, ids[..k] + [id] + ids[k..])
    ensures var k := InsertPos(photos, ids, id);
            Distinct(ids) && id !in ids ==> Distinct(ids[..k] + [id] + ids[k..])
  {
    var k := InsertPos(photos, ids, id);
    InsertBetween(photos, ids, id, k);
    if Distinct(ids) && id !in ids {
      InsertFresh(ids, id, k);
    }
  }

  /** A set with no element is empty. */
  lemma NoElementMeansEmpty(ids: set<int>)
    ensures (forall x :: x !in ids) ==> ids == {}
  {
    if forall x :: x !in ids {
      assert ids == {};
    }
  }

  predicate IsLeast(ids: set<int>, m: int) {
    m in ids && forall y | y in ids :: m <= y
  }

  /** A finite non-empty set of ids has a least element. */
  lemma {:induction false} SetHasMin(ids: set<int>)
    requires ids != {}
    ensures exists m :: IsLeast(ids, m)
    decreases |ids|
  {
    NoElementMeansEmpty(ids);
    var x :| x in ids;
    var rest := ids - {x};
    NoElementMeansEmpty(rest);
    if forall y :: y !in rest {
      forall y | y in ids ensures x <= y {
        assert y !in rest;
      }
      assert IsLeast(ids, x);
    } else {
      SetHasMin(rest);
      var m :| IsLeast(rest, m);
      var least := if x < m then x else m;
      forall y | y in ids ensures least <= y {
        if y != x { assert y in rest; }
      }
      assert IsLeast(ids, least);
    }
  }

  function SetMin(ids: set<int>): (m: int)
    requires ids != {}
    ensures IsLeast(ids, m)
  {
    SetHasMin(ids);
    var m :| IsLeast(ids, m); m
  }

  /** The ids in `ids` listed newest first, built by inserting them one at
      a time at `InsertPos`. Photos with the same timestamp come in an
      order the model fixes; the database leaves it open. */
  function SortNewestFirst(photos: map<int, Photo>, ids: set<int>): (r: seq<int>)
    requires ids <= photos.Keys
    ensures NewestFirst(photos, r) && Distinct(r)
    ensures forall id :: id in r <==> id in ids
    decreases |ids|
  {
    if ids == {} then []
    else
      var m := SetMin(ids);
      var rest := SortNewestFirst(photos, ids - {m});
      var k := InsertPos(photos, rest, m);
      InsertKeepsOrder(photos, rest, m);
      InsertMembers(rest, k, m);
      rest[..k] + [m] + rest[k..]
  }

  /** Inserting adds exactly the one id. */
  lemma InsertMembers(ids: seq<int>, k: nat, id: int)
    requires k <= |ids|
    ensures forall x :: x in ids[..k] + [id] + ids[k..] <==> x in ids || x == id
  {
    assert ids == ids[..k] + ids[k..];
  }

  /** `readByAlbum`: the album's photos, newest first. */
  function ReadByAlbum(t: PhotoTable, albumId: int): (ids: seq<int>)
    ensures NewestFirst(t.photos, ids) && Distinct(ids)
    ensures forall id :: id in ids <==> id in InAlbum(t, albumId)
  {
    SortNewestFirst(t.photos, InAlbum(t, albumId))
  }

  /** The single row the capability queries read: the album's owner,
      joined with the caller's grant on that album when there is one. */
  datatype Joined = Joined(createdBy: int, grant: Option<AlbumPermissions.Grant>)

  function JoinAlbumGrant(albums: Albums.AlbumTable, grants: AlbumPermissions.GrantTable, userId: int, albumId: int)
    : (r: Option<Joined>)
    ensures r.Some? <==> albumId in albums.albums
    ensures r.Some? ==> r.value.createdBy == albums.albums[albumId].createdBy
    ensures r.Some? ==> r.value.grant == AlbumPermissions.FindPair(grants.rows, albumId, userId)
  {
    if albumId in albums.albums
    then Some(Joined(albums.albums[albumId].createdBy, AlbumPermissions.FindPair(grants.rows, albumId, userId)))
    else None
  }

  /** `canAddPhoto`: the album exists and the user created it or holds a
      grant whose `can_add_photos` is truthy. A NULL flag from the outer
      join counts as false. */
  function CanAddPhoto(albums: Albums.AlbumTable, grants: AlbumPermissions.GrantTable, userId: int, albumId: int)
    : (r: bool)
    ensures r <==> albumId in albums.albums &&
                   (albums.albums[albumId].createdBy == userId || AlbumPermissions.CanAddPhotos(grants, albumId, userId))
  {
    match JoinAlbumGrant(albums, grants, userId, albumId)
    case None => false
    case Some(row) =>
      row.createdBy == userId || (row.grant.Some? && Php.IntTruthy(row.grant.value.canAdd))
  }

  /** `delete`, with `uploaded_by` set to the caller by the endpoint. The
      guard's middle disjunct compares the caller with itself, so the photo
      is removed whenever the photo/album join row exists; the result is
      false only when the photo or its album is missing. */
  function Delete(t: PhotoTable, albums: Albums.AlbumTable, grants: AlbumPermissions.GrantTable, id: int, caller: int)
    : (r: (bool, PhotoTable))
    ensures r.0 <==> id in t.photos && t.photos[id].albumId in albums.albums
    ensures r.0 ==> r.1 == t.(photos := t.photos - {id})
    ensures !r.0 ==> r.1 == t
  {
    if id in t.photos then
      match JoinAlbumGrant(albums, grants, caller, t.photos[id].albumId)
      case None => (false, t)
      case Some(row) =>
        var canDelete := row.grant.Some? && Php.IntTruthy(row.grant.value.canDelete);
        if row.createdBy == caller || caller == caller || canDelete
        then (true, t.(photos := t.photos - {id}))
        else (false, t)
    else (false, t)
  }

  // ---------------------------------------------------------------------
  // Properties

  /** An owner may add photos even without a grant row. */
  lemma OwnerMayAdd(albums: Albums.AlbumTable, grants: AlbumPermissions.GrantTable, albumId: int)
    requires albumId in albums.albums
    ensures CanAddPhoto(albums, grants, albums.albums[albumId].createdBy, albumId)
  {
  }

  /** The delete guard does not depend on who asks. */
  lemma DeleteIgnoresCaller(t: PhotoTable, albums: Albums.AlbumTable, grants: AlbumPermissions.GrantTable,
                            id: int, caller: int, other: int)
    ensures Delete(t, albums, grants, id, caller) == Delete(t, albums, grants, id, other)
  {
  }

  /** A newly created photo is readable with what was supplied. */
  lemma CreateThenRead(t: PhotoTable, albumId: int, url: string, uploadedBy: int, now: int)
    requires Valid(t)
    ensures var (id, t') := Create(t, albumId, url, uploadedBy, now);
            ReadOne(t', id) == Some(Photo(albumId, url, uploadedBy, now)) && ReadOne(t, id).None?
  {
  }
}
