/** models/UserSetting.php: one settings row per user, created with default
    values the first time it is read or updated, or when the user registers. */
module UserSettings {
  import opened Wrappers
  import Php

  /** A settings row. The three receive flags are stored as integers. */
  datatype Settings = Settings(
    receiveNotifications: int,
    receiveFriendRequests: int,
    receiveEmailNotifications: int,
    profileVisibility: string,
    theme: string)

  /** The values `createDefault` inserts. */
  const Defaults: Settings := Settings(1, 1, 1, "public", "light")

  /** The `user_settings` table keyed by `user_id`: every path that inserts
      first checks that no row exists, so a user has at most one row. */
  type Table = map<int, Settings>

  /** The five fields of a `UserSetting` object just before `update()`
      writes them. A field nobody assigned is PHP `null`: `Php.Null` for a
      flag, `None` for a string. */
  datatype SettingsInput = SettingsInput(
    receiveNotifications: Php.Loose,
    receiveFriendRequests: Php.Loose,
    receiveEmailNotifications: Php.Loose,
    profileVisibility: Option<string>,
    theme: Option<string>)

  /** What `update()` stores for an input: `intval` of each flag; the
      strings with `null` turned into "" by `strip_tags`. */
  function Coerce(input: SettingsInput): (s: Settings)
    ensures s.receiveFriendRequests == Php.IntVal(input.receiveFriendRequests)
    ensures input.profileVisibility.None? ==> s.profileVisibility == ""
    ensures input.theme.None? ==> s.theme == ""
  {
    Settings(
      Php.IntVal(input.receiveNotifications),
      Php.IntVal(input.receiveFriendRequests),
      Php.IntVal(input.receiveEmailNotifications),
      input.profileVisibility.GetOr(""),
      input.theme.GetOr(""))
  }

  /** `createDefault`: stores the defaults for the user and reports success. */
  function CreateDefault(t: Table, userId: int): (r: (bool, Table))
    ensures r.0
    ensures userId in r.1 && r.1[userId].receiveFriendRequests == 1
    ensures r.1[userId].receiveNotifications == 1 && r.1[userId].receiveEmailNotifications == 1
    ensures r.1[userId].profileVisibility == "public" && r.1[userId].theme == "light"
    ensures forall u | u in t && u != userId :: u in r.1 && r.1[u] == t[u]
    ensures r.1.Keys == t.Keys + {userId}
  {
    (true, t[userId := Defaults])
  }

  /** The outcome of `read()`: its boolean, the object's fields afterwards,
      and the table (which gained a default row if there was none). */
  datatype Loaded = Loaded(ok: bool, settings: Settings, table: Table)

  /** `read()`: the stored row, or, when there is none, the result of
      inserting the defaults. */
  function Read(t: Table, userId: int): (r: Loaded)
    ensures r.ok
    ensures userId in t ==> r.settings == t[userId] && r.table == t
    ensures userId !in t ==> r.settings == Defaults && r.table == CreateDefault(t, userId).1
    ensures userId in r.table && r.table[userId] == r.settings
  {
    if userId in t then Loaded(true, t[userId], t)
    else
      var (ok, t') := CreateDefault(t, userId);
      Loaded(ok, Defaults, t')
  }

  /** `update()`: on a user with no row it inserts the defaults and the
      requested values are discarded; otherwise the row becomes the
      coerced input. */
  function Update(t: Table, userId: int, input: SettingsInput): (r: (bool, Table))
    ensures r.0
    ensures userId in r.1
    ensures userId !in t ==> r.1[userId] == Defaults
    ensures userId in t ==> r.1[userId] == Coerce(input)
    ensures forall u | u != userId :: (u in r.1 <==> u in t) && (u in t ==> r.1[u] == t[u])
  {
    if userId !in t then CreateDefault(t, userId)
    else (true, t[userId := Coerce(input)])
  }

  /** `wantsFriendRequests`: reads (possibly inserting the defaults) and
      casts the flag to boolean. */
  function WantsFriendRequests(t: Table, userId: int): (r: (bool, Table))
    ensures r.0 <==> userId !in t || t[userId].receiveFriendRequests != 0
    ensures userId in t ==> r.1 == t
  {
    var loaded := Read(t, userId);
    (loaded.settings.receiveFriendRequests != 0, loaded.table)
  }

  /** Reading twice is reading once: the second read finds the row the
      first one may have inserted and changes nothing. */
  lemma ReadIdempotent(t: Table, userId: int)
    ensures Read(Read(t, userId).table, userId) == Read(t, userId)
  {
  }

  /** After an update of an existing row, a read returns the coerced input
      and inserts nothing. */
  lemma UpdateThenRead(t: Table, userId: int, input: SettingsInput)
    requires userId in t
    ensures Read(Update(t, userId, input).1, userId).settings == Coerce(input)
    ensures Read(Update(t, userId, input).1, userId).table == Update(t, userId, input).1
  {
  }
}
