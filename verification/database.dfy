/** The state every endpoint reads and writes, and the request plumbing the
    endpoints share: the bearer-token gate and the numeric path segment. */
module Database {
  import opened Wrappers
  import Php
  import Jwt
  import Auth
  import Users
  import UserSettings
  import Friendship
  import Albums
  import Photos
  import AlbumPermissions

  /** All tables of the database. */
  datatype Db = Db(
    users: Users.UserTable,
    settings: UserSettings.Table,
    friends: Friendship.Store,
    albums: Albums.AlbumTable,
    photos: Photos.PhotoTable,
    grants: AlbumPermissions.GrantTable)

  const Empty: Db := Db(Users.UserTable([], 1), map[], Friendship.Empty, Albums.Empty, Photos.Empty, AlbumPermissions.Empty)

  /** The per-table invariants. */
  ghost predicate Valid(db: Db) {
    && Users.Valid(db.users)
    && Friendship.Valid(db.friends)
    && Albums.Valid(db.albums)
    && Photos.Valid(db.photos)
    && AlbumPermissions.Valid(db.grants)
  }

  lemma EmptyValid()
    ensures Valid(Empty)
  {
    Friendship.EmptyValid();
  }

  /** Who is calling. `token` is the `Authorization` header with the
      `Bearer ` prefix removed, `None` when the header is absent. */
  datatype Caller =
    | Anonymous
    | Rejected
    | Known(user: Users.User)

  /** The token gate at the top of every endpoint: a missing token, or one
      PHP finds falsy ("" or "0"), is anonymous; otherwise the token must
      name an existing user. */
  function Identify(p: Jwt.Primitives, db: Db, token: Option<string>, now: int): (c: Caller)
    ensures c.Anonymous? <==> token.None? || !Php.Truthy(token.value)
    ensures c.Rejected? <==> token.Some? && Php.Truthy(token.value) &&
                             Auth.GetUserFromToken(p, db.users, token.value, now).None?
    ensures c.Known? ==> token.Some? && Auth.GetUserFromToken(p, db.users, token.value, now) == Some(c.user)
    ensures c.Known? ==> c.user in db.users.rows
  {
    if token.None? || !Php.Truthy(token.value) then Anonymous
    else
      match Auth.GetUserFromToken(p, db.users, token.value, now)
      case None => Rejected
      case Some(u) => Known(u)
  }

  /** A path segment such as `{id}` in `/api/albums/{id}`, as the
      endpoints see it. PHP's `is_numeric` accepts any decimal number;
      MySQL compares the integer id column with it numerically, so a
      segment whose value is a whole number ("5", "5.0", "1e3") selects the
      row with that id, and one with a fraction ("1.5") selects none. */
  datatype Seg =
    | Missing
    | Id(n: int)
    | NumericNonInteger
    | NonNumeric

  /** `isset($uri_segments[k]) && is_numeric($uri_segments[k])`. */
  predicate IsNumeric(s: Seg) {
    s.Id? || s.NumericNonInteger?
  }

  /** The row id a numeric segment selects, if it can select any. */
  function Key(s: Seg): (r: Option<int>)
    ensures r.Some? <==> s.Id?
    ensures r.Some? ==> r.value == s.n
  {
    if s.Id? then Some(s.n) else None
  }

  /** The row a JSON body field selects when an endpoint binds it as the
      id of a lookup. MySQL compares the integer id column with a string
      numerically, by the string's leading number, so only a whole number
      selects a row; `true` binds as "1". */
  function BodyKey(v: Php.Loose): (r: Option<int>)
    ensures v.Null? ==> r.None?
    ensures v.Int? ==> r == Some(v.i)
    ensures v.Str? ==> (r.Some? <==> Php.Integral(Php.NumericPrefix(v.s)))
    ensures r.Some? ==> r.value == Php.IntVal(v)
  {
    match v
    case Null => None
    case Str(s) => if Php.Integral(Php.NumericPrefix(s)) then Some(Php.IntVal(v)) else None
    case _ => Some(Php.IntVal(v))
  }

  /** An integer sent as a JSON string selects the same row as the
      integer itself. */
  lemma BodyKeyOfDecimalString(n: int)
    ensures BodyKey(Php.Str(Php.DecimalString(n))) == Some(n)
  {
    Php.IntValOfDecimalString(n);
  }

  /** A fraction selects no row; an exponent selects the whole number it
      spells. */
  lemma BodyKeyExamples()
    ensures BodyKey(Php.Str("1.5")).None?
    ensures BodyKey(Php.Str("1e3")) == Some(1000)
  {
    Php.FractionExample();
    Php.ExponentExample();
    Php.LeadingIntExamples();
    assert Php.Pow10(1) == 10;
  }

  /** `!empty($s)` for an optional string field of a JSON body. */
  predicate Present(s: Option<string>) {
    s.Some? && Php.Truthy(s.value)
  }
}
