/** api/users.php: profiles. A token is optional here, but a token that is
    present must be valid. Private fields are shown only to their owner,
    and only the owner may change or delete an account. */
module UsersApi {
  import opened Wrappers
  import Php
  import Jwt
  import Users
  import UserSettings
  import Database

  /** The `settings` object of a PUT body. An absent flag is `Php.Null`, an
      absent string `None`; this is exactly what the settings object holds
      before `update()` when nothing else set it. */
  type SettingsBody = UserSettings.SettingsInput

  /** A PUT body: each profile field may be absent, and so may `settings`. */
  datatype ProfileBody = ProfileBody(
    username: Option<string>,
    email: Option<string>,
    phone: Option<string>,
    profilePicture: Option<string>,
    settings: Option<SettingsBody>)

  datatype Request =
    | Get(userSeg: Database.Seg)
    | Put(putSeg: Database.Seg, body: ProfileBody)
    | Delete(deleteSeg: Database.Seg)
    | OtherMethod

  /** The private part of a profile, shown to its owner only. */
  datatype Details = Details(email: string, phone: string, settings: UserSettings.Settings)

  datatype Reply =
    | Message(code: int, message: string)
    | Profile(id: int, username: string, profilePicture: string, details: Option<Details>)
    | UserList(ids: seq<int>)

  function Code(r: Reply): int {
    match r
    case Message(code, _) => code
    case Profile(_, _, _, _) => 200
    case UserList(_) => 200
  }

  // ---------------------------------------------------------------------
  // The profile and settings values a PUT writes

  /** The four profile columns as api/users.php writes them: the `User`
      object is never loaded, so a field missing from the body is PHP null
      and is stored as "". */
  function ProfileAsWritten(body: ProfileBody): (r: (string, string, string, string))
    ensures body.email.None? ==> r.1 == ""
    ensures body.username.Some? ==> r.0 == body.username.value
  {
    (body.username.GetOr(""), body.email.GetOr(""), body.phone.GetOr(""), body.profilePicture.GetOr(""))
  }

  /** The four profile columns as evidently intended: a field missing from
      the body keeps its stored value. */
  function ProfileIntended(current: Users.User, body: ProfileBody): (r: (string, string, string, string))
    ensures r.0 == (if body.username.Some? then body.username.value else current.username)
    ensures r.1 == (if body.email.Some? then body.email.value else current.email)
    ensures r.2 == (if body.phone.Some? then body.phone.value else current.phone)
    ensures r.3 == (if body.profilePicture.Some? then body.profilePicture.value else current.profilePicture)
  {
    (body.username.GetOr(current.username), body.email.GetOr(current.email),
     body.phone.GetOr(current.phone), body.profilePicture.GetOr(current.profilePicture))
  }

  /** The settings as evidently intended: a field missing from the body
      keeps the stored value. */
  function SettingsIntended(stored: UserSettings.Settings, body: SettingsBody): (r: SettingsBody)
    ensures UserSettings.Coerce(r).receiveFriendRequests ==
            (if body.receiveFriendRequests.Null? then stored.receiveFriendRequests
             else Php.IntVal(body.receiveFriendRequests))
    ensures UserSettings.Coerce(r).theme == (if body.theme.Some? then body.theme.value else stored.theme)
  {
    UserSettings.SettingsInput(
      if body.receiveNotifications.Null? then Php.Int(stored.receiveNotifications) else body.receiveNotifications,
      if body.receiveFriendRequests.Null? then Php.Int(stored.receiveFriendRequests) else body.receiveFriendRequests,
      if body.receiveEmailNotifications.Null? then Php.Int(stored.receiveEmailNotifications)
      else body.receiveEmailNotifications,
      Some(body.profileVisibility.GetOr(stored.profileVisibility)),
      Some(body.theme.GetOr(stored.theme)))
  }

  /** The settings write of a PUT, as written: the body's settings object
      goes to `update()` as it is. */
  function SettingsAsWritten(t: UserSettings.Table, id: int, body: SettingsBody): (r: UserSettings.Table)
    ensures id in r
    ensures id in t && body.receiveFriendRequests.Null? ==> r[id].receiveFriendRequests == 0
  {
    UserSettings.Update(t, id, body).1
  }

  /** The settings write of a PUT, corrected: absent fields keep their
      stored values. A user without a row still gets the defaults. */
  function SettingsMerged(t: UserSettings.Table, id: int, body: SettingsBody): (r: UserSettings.Table)
    ensures id !in t ==> r == t[id := UserSettings.Defaults]
    ensures id in t ==> r == t[id := UserSettings.Coerce(SettingsIntended(t[id], body))]
  {
    if id in t then UserSettings.Update(t, id, SettingsIntended(t[id], body)).1
    else UserSettings.Update(t, id, body).1
  }

  /** PUT after its gates: write the profile, then the settings if the body
      has a `settings` object. */
  function Write(db: Database.Db, id: int, profile: (string, string, string, string),
                 settings: UserSettings.Table): (r: Database.Db)
  {
    db.(users := Users.UpdateProfile(db.users, id, profile.0, profile.1, profile.2, profile.3),
        settings := settings)
  }

  /** The PUT route as written. */
  function PutAsWritten(db: Database.Db, caller: Option<int>, seg: Database.Seg, body: ProfileBody)
    : (r: (Reply, Database.Db))
  {
    if caller.None? then (Message(401, "Authentication required."), db)
    else if !Database.IsNumeric(seg) then (Message(400, "Invalid user ID."), db)
    else if !seg.Id? || seg.n != caller.value then (Message(403, "Access denied. You can only update your own profile."), db)
    else
      var settings := if body.settings.Some? then SettingsAsWritten(db.settings, seg.n, body.settings.value)
                      else db.settings;
      (Message(200, "User updated successfully."), Write(db, seg.n, ProfileAsWritten(body), settings))
  }

  /** The PUT route as corrected: absent fields are kept. The caller's row
      exists, since the token named it. */
  function PutCorrected(db: Database.Db, caller: Option<Users.User>, seg: Database.Seg, body: ProfileBody)
    : (r: (Reply, Database.Db))
  {
    if caller.None? then (Message(401, "Authentication required."), db)
    else if !Database.IsNumeric(seg) then (Message(400, "Invalid user ID."), db)
    else if !seg.Id? || seg.n != caller.value.id then
      (Message(403, "Access denied. You can only update your own profile."), db)
    else
      var settings := if body.settings.Some? then SettingsMerged(db.settings, seg.n, body.settings.value)
                      else db.settings;
      (Message(200, "User updated successfully."), Write(db, seg.n, ProfileIntended(caller.value, body), settings))
  }

  /** The routes, as the code is written. `caller` is `None` for a request
      without a token. */
  function Route(db: Database.Db, caller: Option<Users.User>, req: Request): (r: (Reply, Database.Db))
  {
    match req
    case Get(seg) =>
      if Database.IsNumeric(seg) then
        match (if seg.Id? then Users.FindById(db.users, seg.n) else None)
        case None => (Message(404, "User not found."), db)
        case Some(u) =>
          if caller.Some? && caller.value.id == u.id then
            // Reading the settings inserts the defaults if there is no row.
            var loaded := UserSettings.Read(db.settings, u.id);
            (Profile(u.id, u.username, u.profilePicture, Some(Details(u.email, u.phone, loaded.settings))),
             db.(settings := loaded.table))
          else (Profile(u.id, u.username, u.profilePicture, None), db)
      else if caller.None? then (Message(401, "Authentication required."), db)
      else if |db.users.rows| == 0 then (Message(200, "No users found."), db)
      else (UserList(seq(|db.users.rows|, i requires 0 <= i < |db.users.rows| => db.users.rows[i].id)), db)
    case Put(seg, body) => PutAsWritten(db, if caller.Some? then Some(caller.value.id) else None, seg, body)
    case Delete(seg) =>
      if caller.None? then (Message(401, "Authentication required."), db)
      else if !Database.IsNumeric(seg) then (Message(400, "Invalid user ID."), db)
      else if !seg.Id? || seg.n != caller.value.id then
        (Message(403, "Access denied. You can only delete your own account."), db)
      else (Message(200, "User deleted successfully."), db.(users := Users.Delete(db.users, seg.n)))
    case OtherMethod => (Message(405, "Method not allowed."), db)
  }

  /** The whole endpoint: only a present but invalid token is refused up
      front. */
  function Handle(p: Jwt.Primitives, db: Database.Db, token: Option<string>, now: int, req: Request)
    : (r: (Reply, Database.Db))
    ensures Database.Identify(p, db, token, now).Rejected? ==> r == (Message(401, "Invalid or expired token."), db)
    ensures Database.Identify(p, db, token, now).Anonymous? ==> r == Route(db, None, req)
  {
    match Database.Identify(p, db, token, now)
    case Anonymous => Route(db, None, req)
    case Rejected => (Message(401, "Invalid or expired token."), db)
    case Known(u) => Route(db, Some(u), req)
  }

  // ---------------------------------------------------------------------
  // Properties

  /** GET of one user shows email, phone and settings only to that user;
      everyone else, including anonymous callers, sees id, name and
      picture. */
  lemma PrivateFieldsOnlyForSelf(db: Database.Db, caller: Option<Users.User>, id: int)
    requires Users.Exists(db.users, id)
    ensures var r := Route(db, caller, Get(Database.Id(id))).0;
            && r.Profile?
            && r.id == id
            && (r.details.Some? <==> caller.Some? && caller.value.id == id)
            && (r.details.Some? ==> r.details.value.email == Users.FindById(db.users, id).value.email)
  {
  }

  /** Listing users needs a caller; an anonymous list request is 401. */
  lemma ListNeedsCaller(db: Database.Db, seg: Database.Seg)
    requires !Database.IsNumeric(seg)
    ensures Route(db, None, Get(seg)) == (Message(401, "Authentication required."), db)
  {
  }

  /** PUT and DELETE need a caller (401) whose id is the target's (403);
      otherwise nothing changes. */
  lemma OnlySelfChanges(db: Database.Db, caller: Option<Users.User>, target: int, body: ProfileBody)
    requires caller.None? || caller.value.id != target
    ensures var (r, db') := Route(db, caller, Put(Database.Id(target), body));
            db' == db && r.code == (if caller.None? then 401 else 403)
    ensures var (r, db') := Route(db, caller, Delete(Database.Id(target)));
            db' == db && r.code == (if caller.None? then 401 else 403)
  {
  }

  /** As written, a PUT that omits a profile field erases it: changing only
      the username of a user whose email is set leaves the email "". */
  lemma PutAsWrittenErasesEmail(db: Database.Db, u: Users.User, name: string)
    requires u in db.users.rows && u.email != ""
    ensures var body := ProfileBody(Some(name), None, None, None, None);
            var db' := PutAsWritten(db, Some(u.id), Database.Id(u.id), body).1;
            && u.id in Users.Ids(db'.users)
            && (forall v | v in db'.users.rows && v.id == u.id :: v.email == "" && v.email != u.email)
  {
    var body := ProfileBody(Some(name), None, None, None, None);
    var db' := PutAsWritten(db, Some(u.id), Database.Id(u.id), body).1;
    var i :| 0 <= i < |db.users.rows| && db.users.rows[i] == u;
    assert db'.users.rows[i].id == u.id;
  }

  /** The endpoint's PUT by the user themself writes what the code writes:
      each profile field from the body, "" where the body has none, and
      keeps the password hash; every other row is untouched. */
  lemma RoutePutAsWritten(db: Database.Db, u: Users.User, body: ProfileBody)
    requires Users.Valid(db.users) && u in db.users.rows
    ensures Route(db, Some(u), Put(Database.Id(u.id), body)) ==
            PutAsWritten(db, Some(u.id), Database.Id(u.id), body)
    ensures var (r, db') := Route(db, Some(u), Put(Database.Id(u.id), body));
            && r == Message(200, "User updated successfully.")
            && |db'.users.rows| == |db.users.rows|
            && (forall i | 0 <= i < |db.users.rows| && db.users.rows[i].id != u.id ::
                  db'.users.rows[i] == db.users.rows[i])
            && (forall v | v in db'.users.rows && v.id == u.id ::
                  && v.username == (if body.username.Some? then body.username.value else "")
                  && v.email == (if body.email.Some? then body.email.value else "")
                  && v.phone == (if body.phone.Some? then body.phone.value else "")
                  && v.profilePicture == (if body.profilePicture.Some? then body.profilePicture.value else "")
                  && v.passwordHash == u.passwordHash)
  {
    var db' := Route(db, Some(u), Put(Database.Id(u.id), body)).1;
    forall v | v in db'.users.rows && v.id == u.id
      ensures v.passwordHash == u.passwordHash
    {
      var i :| 0 <= i < |db'.users.rows| && db'.users.rows[i] == v;
      var j :| 0 <= j < |db.users.rows| && db.users.rows[j] == u;
      assert db.users.rows[i].id == u.id;
      assert i == j;
    }
  }

  /** Corrected, a PUT changes exactly the profile fields present in the
      body; the others, and the password hash, keep their values. */
  lemma PutKeepsAbsentFields(db: Database.Db, u: Users.User, body: ProfileBody)
    requires Users.Valid(db.users) && u in db.users.rows
    ensures var db' := PutCorrected(db, Some(u), Database.Id(u.id), body).1;
            forall v | v in db'.users.rows && v.id == u.id ::
              && v.username == (if body.username.Some? then body.username.value else u.username)
              && v.email == (if body.email.Some? then body.email.value else u.email)
              && v.phone == (if body.phone.Some? then body.phone.value else u.phone)
              && v.profilePicture == (if body.profilePicture.Some? then body.profilePicture.value else u.profilePicture)
              && v.passwordHash == u.passwordHash
  {
    var db' := PutCorrected(db, Some(u), Database.Id(u.id), body).1;
    forall v | v in db'.users.rows && v.id == u.id
      ensures v.passwordHash == u.passwordHash
    {
      var i :| 0 <= i < |db'.users.rows| && db'.users.rows[i] == v;
      var j :| 0 <= j < |db.users.rows| && db.users.rows[j] == u;
      assert db.users.rows[i].id == u.id;
      assert i == j;
    }
  }

  /** As written, a settings update that names only the theme turns the
      friend-request flag off, so the user stops accepting requests. */
  lemma SettingsAsWrittenStopsRequests(t: UserSettings.Table, id: int, theme: string)
    requires id in t
    ensures var body := UserSettings.SettingsInput(Php.Null, Php.Null, Php.Null, None, Some(theme));
            !UserSettings.WantsFriendRequests(SettingsAsWritten(t, id, body), id).0
  {
  }

  /** Corrected, a settings update that names only the theme keeps the
      user's friend-request preference. */
  lemma SettingsMergedKeepsPreference(t: UserSettings.Table, id: int, theme: string)
    requires id in t
    ensures var body := UserSettings.SettingsInput(Php.Null, Php.Null, Php.Null, None, Some(theme));
            var t' := SettingsMerged(t, id, body);
            && (UserSettings.WantsFriendRequests(t', id).0 <==> UserSettings.WantsFriendRequests(t, id).0)
            && t'[id].theme == theme
  {
  }

  lemma RoutePreservesValid(db: Database.Db, caller: Option<Users.User>, req: Request)
    requires Database.Valid(db)
    ensures Database.Valid(Route(db, caller, req).1)
  {
    match req {
      case Delete(seg) =>
        if seg.Id? {
          Users.DeletePreservesValid(db.users, seg.n);
        }
      case _ =>
    }
  }
}
