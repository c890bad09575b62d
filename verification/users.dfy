/** The `users` table as the core sees it: rows in insertion order, each
    with an auto-increment id. Single-row lookups return the first
    matching row. */
module Users {
  import opened Wrappers

  /** A user row. A PHP `null` phone or picture is stored as "". */
  datatype User = User(
    id: int,
    username: string,
    email: string,
    passwordHash: string,
    phone: string,
    profilePicture: string)

  datatype UserTable = UserTable(rows: seq<User>, nextId: int)

  /** Ids are distinct and below the next auto-increment value. */
  ghost predicate Valid(t: UserTable) {
    && (forall i, j | 0 <= i < j < |t.rows| :: t.rows[i].id != t.rows[j].id)
    && (forall i | 0 <= i < |t.rows| :: t.rows[i].id < t.nextId)
  }

  /** The first row satisfying `matches`: the lookups ask for one row. */
  function FindFirst(rows: seq<User>, matches: User -> bool): (r: Option<User>)
    ensures r.Some? ==> r.value in rows && matches(r.value)
    ensures r.None? <==> forall i | 0 <= i < |rows| :: !matches(rows[i])
    ensures r.Some? ==> exists i | 0 <= i < |rows| :: rows[i] == r.value && forall j | 0 <= j < i :: !matches(rows[j])
  {
    if |rows| == 0 then None
    else if matches(rows[0]) then Some(rows[0])
    else
      var r := FindFirst(rows[1..], matches);
      assert forall i | 0 < i < |rows| :: rows[i] == rows[1..][i - 1];
      r
  }

  /** `readOne`: the row with this id. */
  function FindById(t: UserTable, id: int): (r: Option<User>)
    ensures r.Some? ==> r.value in t.rows && r.value.id == id
    ensures r.None? <==> forall i | 0 <= i < |t.rows| :: t.rows[i].id != id
  {
    FindFirst(t.rows, (u: User) => u.id == id)
  }

  /** `getUserByEmail` and the login lookup: the first row with this email. */
  function FindByEmail(t: UserTable, email: string): (r: Option<User>)
    ensures r.Some? ==> r.value in t.rows && r.value.email == email
    ensures r.None? <==> forall i | 0 <= i < |t.rows| :: t.rows[i].email != email
    ensures r.Some? ==> exists i | 0 <= i < |t.rows| :: t.rows[i] == r.value && forall j | 0 <= j < i :: t.rows[j].email != email
  {
    FindFirst(t.rows, (u: User) => u.email == email)
  }

  /** The uniqueness probe on usernames made during registration. */
  function FindByUsername(t: UserTable, username: string): (r: Option<User>)
    ensures r.Some? ==> r.value in t.rows && r.value.username == username
    ensures r.None? <==> forall i | 0 <= i < |t.rows| :: t.rows[i].username != username
  {
    FindFirst(t.rows, (u: User) => u.username == username)
  }

  predicate Exists(t: UserTable, id: int) {
    FindById(t, id).Some?
  }

  /** The set of existing user ids, the right-hand side of every `JOIN users`. */
  function Ids(t: UserTable): (ids: set<int>)
    ensures forall id :: id in ids <==> Exists(t, id)
  {
    set i | 0 <= i < |t.rows| :: t.rows[i].id
  }

  /** `INSERT INTO users`: appends a row under the next auto-increment id. */
  function Insert(t: UserTable, username: string, email: string, passwordHash: string, phone: string, picture: string)
    : (r: (int, UserTable))
    ensures r.0 == t.nextId
    ensures r.1.rows == t.rows + [User(r.0, username, email, passwordHash, phone, picture)]
    ensures r.1.nextId > r.0
    ensures Valid(t) ==> Valid(r.1) && !Exists(t, r.0)
  {
    (t.nextId, UserTable(t.rows + [User(t.nextId, username, email, passwordHash, phone, picture)], t.nextId + 1))
  }

  /** `User::update`: overwrites the four profile columns of the row with
      this id; the id and the password hash are left alone. */
  function UpdateProfile(t: UserTable, id: int, username: string, email: string, phone: string, picture: string)
    : (r: UserTable)
    ensures |r.rows| == |t.rows| && r.nextId == t.nextId
    ensures forall i | 0 <= i < |t.rows| ::
      && r.rows[i].id == t.rows[i].id
      && r.rows[i].passwordHash == t.rows[i].passwordHash
      && (t.rows[i].id != id ==> r.rows[i] == t.rows[i])
      && (t.rows[i].id == id ==> r.rows[i] == User(id, username, email, t.rows[i].passwordHash, phone, picture))
    ensures Valid(t) ==> Valid(r)
  {
    var rows := seq(|t.rows|, i requires 0 <= i < |t.rows| =>
      if t.rows[i].id == id then User(id, username, email, t.rows[i].passwordHash, phone, picture) else t.rows[i]);
    UserTable(rows, t.nextId)
  }

  /** `User::delete`: removes the rows with this id and nothing else. */
  function Delete(t: UserTable, id: int): (r: UserTable)
    ensures r.nextId == t.nextId
    ensures forall u :: u in r.rows <==> u in t.rows && u.id != id
    ensures !Exists(r, id)
  {
    UserTable(Without(t.rows, id), t.nextId)
  }

  function Without(rows: seq<User>, id: int): (r: seq<User>)
    ensures forall u :: u in r <==> u in rows && u.id != id
    decreases |rows|
  {
    if |rows| == 0 then []
    else if rows[0].id == id then Without(rows[1..], id)
    else [rows[0]] + Without(rows[1..], id)
  }

  /** Deleting keeps ids distinct and below the next id. */
  lemma {:induction false} DeletePreservesValid(t: UserTable, id: int)
    requires Valid(t)
    ensures Valid(Delete(t, id))
    decreases |t.rows|
  {
    if |t.rows| > 0 {
      var tail := UserTable(t.rows[1..], t.nextId);
      DeletePreservesValid(tail, id);
      if t.rows[0].id != id {
        var rest := Without(t.rows[1..], id);
        assert Without(t.rows, id) == [t.rows[0]] + rest;
        forall j | 0 <= j < |rest| ensures rest[j].id != t.rows[0].id && rest[j].id < t.nextId {
          assert rest[j] in t.rows[1..];
        }
      }
    }
  }
}
