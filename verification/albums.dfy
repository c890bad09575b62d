/** models/Album.php: the `albums` table. Every album has exactly one
    owner, `created_by`, fixed when it is created. */
module Albums {
  import opened Wrappers
  import AlbumPermissions

  /** An album row. A PHP `null` thumbnail is stored as "". */
  datatype Album = Album(name: string, createdBy: int, thumbnail: string)

  datatype AlbumTable = AlbumTable(albums: map<int, Album>, nextId: int)

  const Empty: AlbumTable := AlbumTable(map[], 1)

  ghost predicate Valid(t: AlbumTable) {
    forall id | id in t.albums :: id < t.nextId
  }

  /** `create`: inserts the album under the next id, with `created_by` as
      supplied, and returns that id. */
  function Create(t: AlbumTable, name: string, createdBy: int, thumbnail: string): (r: (int, AlbumTable))
    ensures Valid(t) ==> r.0 !in t.albums && Valid(r.1)
    ensures r.1.albums == t.albums[r.0 := Album(name, createdBy, thumbnail)]
    ensures r.1.nextId > r.0
  {
    (t.nextId, AlbumTable(t.albums[t.nextId := Album(name, createdBy, thumbnail)], t.nextId + 1))
  }

  /** `readOne`: the album with this id. The id is PHP `null` (`None`)
      when the caller never set it, and then no row matches. */
  function ReadOne(t: AlbumTable, id: Option<int>): (r: Option<Album>)
    ensures r.Some? <==> id.Some? && id.value in t.albums
    ensures r.Some? ==> r.value == t.albums[id.value]
  {
    if id.Some? && id.value in t.albums then Some(t.albums[id.value]) else None
  }

  /** `readByUser`: the ids of the albums the user created. */
  function ReadByUser(t: AlbumTable, userId: int): (r: set<int>)
    ensures forall id :: id in r <==> id in t.albums && t.albums[id].createdBy == userId
  {
    set id | id in t.albums && t.albums[id].createdBy == userId
  }

  /** `readUserAccessible`: the ids (DISTINCT) of the albums the user
      created or holds a grant row for, whatever the grant's flags. */
  function ReadUserAccessible(t: AlbumTable, grants: AlbumPermissions.GrantTable, userId: int): (r: set<int>)
    ensures forall id :: id in r <==>
      id in t.albums &&
      (t.albums[id].createdBy == userId ||
       exists g | g in grants.rows :: g.albumId == id && g.userId == userId)
  {
    set id | id in t.albums &&
      (t.albums[id].createdBy == userId ||
       exists g | g in grants.rows :: g.albumId == id && g.userId == userId)
  }

  /** `update`: sets the name and thumbnail of the album only when both the
      id and `created_by` match; otherwise no row changes. The statement
      succeeds either way. */
  function Update(t: AlbumTable, id: int, owner: int, name: string, thumbnail: string): (r: (bool, AlbumTable))
    ensures r.0
    ensures r.1.nextId == t.nextId && r.1.albums.Keys == t.albums.Keys
    ensures forall k | k in t.albums :: r.1.albums[k].createdBy == t.albums[k].createdBy
    ensures id in t.albums && t.albums[id].createdBy == owner ==>
      r.1.albums == t.albums[id := Album(name, owner, thumbnail)]
    ensures !(id in t.albums && t.albums[id].createdBy == owner) ==> r.1 == t
  {
    if id in t.albums && t.albums[id].createdBy == owner
    then (true, t.(albums := t.albums[id := Album(name, owner, thumbnail)]))
    else (true, t)
  }

  /** `delete`: removes the album only when both the id and `created_by`
      match. The statement succeeds either way. */
  function Delete(t: AlbumTable, id: int, owner: int): (r: (bool, AlbumTable))
    ensures r.0
    ensures r.1.nextId == t.nextId
    ensures id in t.albums && t.albums[id].createdBy == owner ==> r.1.albums == t.albums - {id}
    ensures !(id in t.albums && t.albums[id].createdBy == owner) ==> r.1 == t
  {
    if id in t.albums && t.albums[id].createdBy == owner
    then (true, t.(albums := t.albums - {id}))
    else (true, t)
  }

  // ---------------------------------------------------------------------
  // Properties

  /** Only the owner can change or remove an album: any other caller leaves
      the table as it was. */
  lemma OnlyOwnerMutates(t: AlbumTable, id: int, caller: int, name: string, thumbnail: string)
    requires id in t.albums && t.albums[id].createdBy != caller
    ensures Update(t, id, caller, name, thumbnail).1 == t
    ensures Delete(t, id, caller).1 == t
  {
  }

  /** Ownership is never reassigned: an album that survives any update or
      delete keeps its creator. */
  lemma OwnershipStable(t: AlbumTable, id: int, other: int, caller: int, name: string, thumbnail: string)
    requires id in t.albums
    ensures var t' := Update(t, other, caller, name, thumbnail).1;
            id in t'.albums && t'.albums[id].createdBy == t.albums[id].createdBy
    ensures var t' := Delete(t, other, caller).1;
            id in t'.albums ==> t'.albums[id].createdBy == t.albums[id].createdBy
  {
  }

  /** Owned albums are accessible, and every album a user can access is one
      they own or hold a grant for. */
  lemma OwnedAreAccessible(t: AlbumTable, grants: AlbumPermissions.GrantTable, userId: int)
    ensures ReadByUser(t, userId) <= ReadUserAccessible(t, grants, userId)
    ensures forall id | id in ReadUserAccessible(t, grants, userId) && id !in ReadByUser(t, userId) ::
      exists g | g in grants.rows :: AlbumPermissions.ForPair(g, id, userId)
  {
  }

  /** A freshly created album is owned by its creator and readable. */
  lemma CreateThenRead(t: AlbumTable, name: string, createdBy: int, thumbnail: string)
    requires Valid(t)
    ensures var (id, t') := Create(t, name, createdBy, thumbnail);
            && ReadOne(t', Some(id)) == Some(Album(name, createdBy, thumbnail))
            && ReadByUser(t', createdBy) == ReadByUser(t, createdBy) + {id}
  {
  }
}
