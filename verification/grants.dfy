/** models/AlbumPermission.php: the `album_permissions` table. A grant lets
    one user act on someone else's album through two capability flags. */
module AlbumPermissions {
  import opened Wrappers
  import Php
  import Users

  /** A grant row; the flags are stored as `intval` of what was supplied. */
  datatype Grant = Grant(id: int, albumId: int, userId: int, canAdd: int, canDelete: int)

  datatype GrantTable = GrantTable(rows: seq<Grant>, nextId: int)

  const Empty: GrantTable := GrantTable([], 1)

  predicate ForPair(g: Grant, albumId: int, userId: int) {
    g.albumId == albumId && g.userId == userId
  }

  /** Ids are distinct and below the next auto-increment value, and no two
      rows grant the same (album, user) pair. */
  ghost predicate Valid(t: GrantTable) {
    && (forall i, j | 0 <= i < j < |t.rows| :: t.rows[i].id != t.rows[j].id)
    && (forall i | 0 <= i < |t.rows| :: t.rows[i].id < t.nextId)
    && (forall i, j | 0 <= i < j < |t.rows| :: !ForPair(t.rows[j], t.rows[i].albumId, t.rows[i].userId))
  }

  /** The first row for the pair: the lookup asks the database for one row. */
  function FindPair(rows: seq<Grant>, albumId: int, userId: int): (r: Option<Grant>)
    ensures r.Some? ==> r.value in rows && ForPair(r.value, albumId, userId)
    ensures r.None? <==> forall i | 0 <= i < |rows| :: !ForPair(rows[i], albumId, userId)
    ensures r.Some? ==> exists i | 0 <= i < |rows| ::
              rows[i] == r.value && forall j | 0 <= j < i :: !ForPair(rows[j], albumId, userId)
  {
    if |rows| == 0 then None
    else if ForPair(rows[0], albumId, userId) then Some(rows[0])
    else
      var r := FindPair(rows[1..], albumId, userId);
      assert forall i | 0 < i < |rows| :: rows[i] == rows[1..][i - 1];
      r
  }

  /** `read`: the grant for (album, user). Either id may be PHP `null`
      (`None`), and `= NULL` in SQL matches no row. */
  function Read(t: GrantTable, albumId: Option<int>, userId: Option<int>): (r: Option<Grant>)
    ensures albumId.None? || userId.None? ==> r.None?
    ensures r.Some? ==> r.value in t.rows && ForPair(r.value, albumId.value, userId.value)
    ensures albumId.Some? && userId.Some? ==>
      (r.None? <==> forall i | 0 <= i < |t.rows| :: !ForPair(t.rows[i], albumId.value, userId.value))
  {
    if albumId.None? || userId.None? then None
    else FindPair(t.rows, albumId.value, userId.value)
  }

  /** `create`: inserts a row under the next id with `intval` flags. */
  function Create(t: GrantTable, albumId: int, userId: int, canAdd: Php.Loose, canDelete: Php.Loose)
    : (r: (int, GrantTable))
    ensures r.0 == t.nextId && r.1.nextId > r.0
    ensures r.1.rows == t.rows + [Grant(r.0, albumId, userId, Php.IntVal(canAdd), Php.IntVal(canDelete))]
  {
    (t.nextId, GrantTable(t.rows + [Grant(t.nextId, albumId, userId, Php.IntVal(canAdd), Php.IntVal(canDelete))],
                          t.nextId + 1))
  }

  /** `update`: overwrites both flags, as `intval`, of the rows with this
      id. The album, the user and the id are never altered. */
  function Update(t: GrantTable, id: int, canAdd: Php.Loose, canDelete: Php.Loose): (r: GrantTable)
    ensures |r.rows| == |t.rows| && r.nextId == t.nextId
    ensures forall i | 0 <= i < |t.rows| ::
      && r.rows[i].id == t.rows[i].id
      && r.rows[i].albumId == t.rows[i].albumId
      && r.rows[i].userId == t.rows[i].userId
      && (t.rows[i].id != id ==> r.rows[i] == t.rows[i])
      && (t.rows[i].id == id ==> r.rows[i].canAdd == Php.IntVal(canAdd) && r.rows[i].canDelete == Php.IntVal(canDelete))
  {
    var rows := seq(|t.rows|, i requires 0 <= i < |t.rows| =>
      if t.rows[i].id == id
      then t.rows[i].(canAdd := Php.IntVal(canAdd), canDelete := Php.IntVal(canDelete))
      else t.rows[i]);
    GrantTable(rows, t.nextId)
  }

  /** `createOrUpdate`: if a row exists for the pair, its flags are
      overwritten and its id kept; otherwise a row is inserted. Returns the
      success flag, the grant's id and the new table. */
  function CreateOrUpdate(t: GrantTable, albumId: int, userId: int, canAdd: Php.Loose, canDelete: Php.Loose)
    : (r: (bool, int, GrantTable))
    ensures r.0
    ensures FindPair(t.rows, albumId, userId).Some? ==>
      && r.1 == FindPair(t.rows, albumId, userId).value.id
      && r.2 == Update(t, r.1, canAdd, canDelete)
    ensures FindPair(t.rows, albumId, userId).None? ==>
      && r.1 == t.nextId
      && r.2.rows == t.rows + [Grant(r.1, albumId, userId, Php.IntVal(canAdd), Php.IntVal(canDelete))]
  {
    match FindPair(t.rows, albumId, userId)
    case Some(g) => (true, g.id, Update(t, g.id, canAdd, canDelete))
    case None =>
      var (id, t') := Create(t, albumId, userId, canAdd, canDelete);
      (true, id, t')
  }

  /** `delete`: removes the rows with this id and nothing else. */
  function Delete(t: GrantTable, id: int): (r: GrantTable)
    ensures r.nextId == t.nextId
    ensures forall g :: g in r.rows <==> g in t.rows && g.id != id
  {
    GrantTable(Keep(t.rows, (g: Grant) => g.id != id), t.nextId)
  }

  /** `deleteByUserAlbum`: removes the rows for this pair and nothing else. */
  function DeleteByUserAlbum(t: GrantTable, albumId: int, userId: int): (r: GrantTable)
    ensures r.nextId == t.nextId
    ensures forall g :: g in r.rows <==> g in t.rows && !ForPair(g, albumId, userId)
  {
    GrantTable(Keep(t.rows, (g: Grant) => !ForPair(g, albumId, userId)), t.nextId)
  }

  /** The rows satisfying `keep`, in their original order. */
  function Keep(rows: seq<Grant>, keep: Grant -> bool): (r: seq<Grant>)
    ensures forall g :: g in r <==> g in rows && keep(g)
    ensures |r| <= |rows|
    decreases |rows|
  {
    if |rows| == 0 then []
    else if keep(rows[0]) then [rows[0]] + Keep(rows[1..], keep)
    else Keep(rows[1..], keep)
  }

  /** The rows after the first of a valid table form a valid table. */
  lemma TailValid(rows: seq<Grant>, nextId: int)
    requires |rows| > 0 && Valid(GrantTable(rows, nextId))
    ensures Valid(GrantTable(rows[1..], nextId))
  {
    var tail := rows[1..];
    assert forall i | 0 <= i < |tail| :: tail[i] == rows[i + 1];
  }

  /** A row put in front of a valid table keeps it valid when its id is
      below the counter and it shares neither id nor pair with the rest. */
  lemma ConsValid(g: Grant, rest: seq<Grant>, nextId: int)
    requires Valid(GrantTable(rest, nextId)) && g.id < nextId
    requires forall j | 0 <= j < |rest| :: rest[j].id != g.id && !ForPair(rest[j], g.albumId, g.userId)
    ensures Valid(GrantTable([g] + rest, nextId))
  {
    var rows := [g] + rest;
    assert forall i | 0 < i < |rows| :: rows[i] == rest[i - 1];
  }

  /** Removing rows never breaks distinct ids or distinct pairs. */
  lemma {:induction false} KeepSubsequence(rows: seq<Grant>, keep: Grant -> bool, nextId: int)
    requires Valid(GrantTable(rows, nextId))
    ensures Valid(GrantTable(Keep(rows, keep), nextId))
    decreases |rows|
  {
    if |rows| > 0 {
      TailValid(rows, nextId);
      KeepSubsequence(rows[1..], keep, nextId);
      var rest := Keep(rows[1..], keep);
      if keep(rows[0]) {
        forall j | 0 <= j < |rest|
          ensures rest[j].id != rows[0].id && !ForPair(rest[j], rows[0].albumId, rows[0].userId)
        {
          assert rest[j] in rows[1..];
        }
        ConsValid(rows[0], rest, nextId);
      }
    }
  }

  /** A row of `readByAlbum`: the grant joined with its user's name and
      picture. */
  datatype Listed = Listed(grant: Grant, username: string, profilePicture: string)

  /** `readByAlbum`: the album's grants whose user still exists (the inner
      `JOIN users`), in table order. */
  function ReadByAlbum(t: GrantTable, users: Users.UserTable, albumId: int): (r: seq<Listed>)
    ensures forall l | l in r :: l.grant in t.rows && l.grant.albumId == albumId
    ensures forall g | g in t.rows && g.albumId == albumId && Users.Exists(users, g.userId) ::
      exists l | l in r :: l.grant == g
    ensures forall l | l in r ::
      && Users.FindById(users, l.grant.userId).Some?
      && l.username == Users.FindById(users, l.grant.userId).value.username
      && l.profilePicture == Users.FindById(users, l.grant.userId).value.profilePicture
  {
    JoinRows(t.rows, users, albumId)
  }

  function JoinRows(rows: seq<Grant>, users: Users.UserTable, albumId: int): (r: seq<Listed>)
    ensures forall l | l in r :: l.grant in rows && l.grant.albumId == albumId
    ensures forall g | g in rows && g.albumId == albumId && Users.Exists(users, g.userId) ::
      exists l | l in r :: l.grant == g
    ensures forall l | l in r ::
      && Users.FindById(users, l.grant.userId).Some?
      && l.username == Users.FindById(users, l.grant.userId).value.username
      && l.profilePicture == Users.FindById(users, l.grant.userId).value.profilePicture
    decreases |rows|
  {
    if |rows| == 0 then []
    else
      var rest := JoinRows(rows[1..], users, albumId);
      var g := rows[0];
      if g.albumId == albumId then
        match Users.FindById(users, g.userId)
        case Some(u) => [Listed(g, u.username, u.profilePicture)] + rest
        case None => rest
      else rest
  }

  /** `canAddPhotos`: false without a grant, else the stored flag's truthiness. */
  function CanAddPhotos(t: GrantTable, albumId: int, userId: int): (r: bool)
    ensures r <==> exists g | g in t.rows :: ForPair(g, albumId, userId) && g.canAdd != 0 &&
                     FindPair(t.rows, albumId, userId) == Some(g)
    ensures FindPair(t.rows, albumId, userId).None? ==> !r
  {
    match FindPair(t.rows, albumId, userId)
    case None => false
    case Some(g) => Php.IntTruthy(g.canAdd)
  }

  /** `canDeletePhotos`: false without a grant, else the stored flag's truthiness. */
  function CanDeletePhotos(t: GrantTable, albumId: int, userId: int): (r: bool)
    ensures r <==> exists g | g in t.rows :: ForPair(g, albumId, userId) && g.canDelete != 0 &&
                     FindPair(t.rows, albumId, userId) == Some(g)
    ensures FindPair(t.rows, albumId, userId).None? ==> !r
  {
    match FindPair(t.rows, albumId, userId)
    case None => false
    case Some(g) => Php.IntTruthy(g.canDelete)
  }

  // ---------------------------------------------------------------------
  // Properties

  /** In a valid table the grant for a pair is unique, so "the first row"
      and "any row" for the pair coincide. */
  lemma {:induction false} PairUnique(t: GrantTable, g: Grant)
    requires Valid(t) && g in t.rows
    ensures FindPair(t.rows, g.albumId, g.userId) == Some(g)
    decreases |t.rows|
  {
    if t.rows[0] != g {
      assert !ForPair(t.rows[0], g.albumId, g.userId) by {
        var j :| 0 <= j < |t.rows| && t.rows[j] == g;
        assert j > 0;
      }
      var tail := GrantTable(t.rows[1..], t.nextId);
      assert g in tail.rows by {
        var j :| 0 <= j < |t.rows| && t.rows[j] == g;
        assert tail.rows[j - 1] == g;
      }
      PairUnique(tail, g);
    }
  }

  lemma UpdatePreservesValid(t: GrantTable, id: int, canAdd: Php.Loose, canDelete: Php.Loose)
    requires Valid(t)
    ensures Valid(Update(t, id, canAdd, canDelete))
  {
  }

  lemma CreateOrUpdatePreservesValid(t: GrantTable, albumId: int, userId: int, canAdd: Php.Loose, canDelete: Php.Loose)
    requires Valid(t)
    ensures Valid(CreateOrUpdate(t, albumId, userId, canAdd, canDelete).2)
  {
    match FindPair(t.rows, albumId, userId)
    case Some(g) =>
      UpdatePreservesValid(t, g.id, canAdd, canDelete);
    case None =>
      var (_, t') := Create(t, albumId, userId, canAdd, canDelete);
      var n := |t.rows|;
      assert forall i | 0 <= i < n :: t'.rows[i] == t.rows[i];
      assert forall i | 0 <= i < n :: t'.rows[i].id != t'.rows[n].id;
      assert forall i | 0 <= i < n :: !ForPair(t'.rows[n], t'.rows[i].albumId, t'.rows[i].userId);
  }

  lemma DeletePreservesValid(t: GrantTable, id: int)
    requires Valid(t)
    ensures Valid(Delete(t, id))
  {
    KeepSubsequence(t.rows, (g: Grant) => g.id != id, t.nextId);
  }

  lemma DeleteByUserAlbumPreservesValid(t: GrantTable, albumId: int, userId: int)
    requires Valid(t)
    ensures Valid(DeleteByUserAlbum(t, albumId, userId))
  {
    KeepSubsequence(t.rows, (g: Grant) => !ForPair(g, albumId, userId), t.nextId);
  }

  /** After an upsert the pair has exactly the requested flags, whatever it
      had before. */
  lemma UpsertSetsFlags(t: GrantTable, albumId: int, userId: int, canAdd: Php.Loose, canDelete: Php.Loose)
    requires Valid(t)
    ensures var t' := CreateOrUpdate(t, albumId, userId, canAdd, canDelete).2;
            && FindPair(t'.rows, albumId, userId).Some?
            && FindPair(t'.rows, albumId, userId).value.canAdd == Php.IntVal(canAdd)
            && FindPair(t'.rows, albumId, userId).value.canDelete == Php.IntVal(canDelete)
            && (CanAddPhotos(t', albumId, userId) <==> Php.IntVal(canAdd) != 0)
            && (CanDeletePhotos(t', albumId, userId) <==> Php.IntVal(canDelete) != 0)
  {
    var (_, id, t') := CreateOrUpdate(t, albumId, userId, canAdd, canDelete);
    CreateOrUpdatePreservesValid(t, albumId, userId, canAdd, canDelete);
    match FindPair(t.rows, albumId, userId)
    case Some(g) =>
      var i :| 0 <= i < |t.rows| && t.rows[i] == g;
      PairUnique(t', t'.rows[i]);
    case None =>
      PairUnique(t', t'.rows[|t.rows|]);
  }

  /** Updating a row of a valid table to the flags it already holds
      changes nothing. */
  lemma UpdateToSameFlags(t: GrantTable, g: Grant, canAdd: Php.Loose, canDelete: Php.Loose)
    requires Valid(t) && g in t.rows
    requires g.canAdd == Php.IntVal(canAdd) && g.canDelete == Php.IntVal(canDelete)
    ensures Update(t, g.id, canAdd, canDelete) == t
  {
    var u := Update(t, g.id, canAdd, canDelete);
    var k :| 0 <= k < |t.rows| && t.rows[k] == g;
    forall i | 0 <= i < |t.rows|
      ensures u.rows[i] == t.rows[i]
    {
      if t.rows[i].id == g.id {
        assert i == k;
      }
    }
  }

  /** Upserting the same grant twice leaves the same table as once. */
  lemma UpsertIdempotent(t: GrantTable, albumId: int, userId: int, canAdd: Php.Loose, canDelete: Php.Loose)
    requires Valid(t)
    ensures var once := CreateOrUpdate(t, albumId, userId, canAdd, canDelete).2;
            CreateOrUpdate(once, albumId, userId, canAdd, canDelete).2 == once
  {
    var once := CreateOrUpdate(t, albumId, userId, canAdd, canDelete).2;
    UpsertSetsFlags(t, albumId, userId, canAdd, canDelete);
    CreateOrUpdatePreservesValid(t, albumId, userId, canAdd, canDelete);
    UpdateToSameFlags(once, FindPair(once.rows, albumId, userId).value, canAdd, canDelete);
  }
}
