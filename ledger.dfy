/**
 * The user ledger (`users` table: user_id, username, verified,
 * last_key_time), the settings table, and the cooldown rule of
 * `can_claim_key`. Timestamps are whole seconds.
 */
module Ledger {
  import opened Wrappers
  import opened Numbers

  const Hour: int := 3600
  const Day: int := 24 * Hour

  /** `DEFAULT_COOLDOWN_HOURS`. */
  const DefaultCooldownHours: int := 48
  const CooldownKey: string := "cooldown_hours"
  const KeyMessageKey: string := "key_message"

  /** A `users` row; `lastKeyTime` is NULL until the first claim. */
  datatype User = User(username: Option<string>, verified: bool, lastKeyTime: Option<int>)

  type Users = map<int, User>

  /**
   * `ensure_user_record`: `INSERT OR IGNORE` a row with defaults, then
   * `UPDATE` its username. Exactly one row for the user afterwards, holding
   * the current username; every other column, and every other row, as before.
   */
  function EnsureUser(users: Users, id: int, username: Option<string>): (r: Users)
    ensures r.Keys == users.Keys + {id}
    ensures r[id].username == username
    ensures id in users ==> r[id].verified == users[id].verified && r[id].lastKeyTime == users[id].lastKeyTime
    ensures id !in users ==> !r[id].verified && r[id].lastKeyTime == None
    ensures forall u :: u in users && u != id ==> r[u] == users[u]
  {
    var row := if id in users then users[id] else User(None, false, None);
    users[id := row.(username := username)]
  }

  /** Enrolling the same user twice with the same name is the same as enrolling once. */
  lemma EnsureUserIdempotent(users: Users, id: int, username: Option<string>)
    ensures EnsureUser(EnsureUser(users, id, username), id, username) == EnsureUser(users, id, username)
  {
  }

  /** `mark_verified`: `UPDATE users SET verified=1`, a no-op when the user has no row. */
  function SetVerified(users: Users, id: int): (r: Users)
    ensures r.Keys == users.Keys
    ensures id in users ==> r[id] == users[id].(verified := true)
    ensures forall u :: u in users && u != id ==> r[u] == users[u]
  {
    if id in users then users[id := users[id].(verified := true)] else users
  }

  lemma SetVerifiedIdempotent(users: Users, id: int)
    ensures SetVerified(SetVerified(users, id), id) == SetVerified(users, id)
  {
  }

  /** The `UPDATE users SET last_key_time=?` of `assign_key_to_user`; no row, no change. */
  function SetLastKeyTime(users: Users, id: int, t: int): (r: Users)
    ensures r.Keys == users.Keys
    ensures id in users ==> r[id] == users[id].(lastKeyTime := Some(t))
    ensures forall u :: u in users && u != id ==> r[u] == users[u]
  {
    if id in users then users[id := users[id].(lastKeyTime := Some(t))] else users
  }

  // ---------------------------------------------------------------------------
  // Settings
  // ---------------------------------------------------------------------------

  type Settings = map<string, string>

  /** `get_setting(key, default)`: the stored value, or the default when there is no row. */
  function GetSetting(settings: Settings, key: string, default: Option<string>): (r: Option<string>)
    ensures key in settings ==> r == Some(settings[key])
    ensures key !in settings ==> r == default
  {
    if key in settings then Some(settings[key]) else default
  }

  /**
   * `set_setting` then `get_setting`: the key reads back the value written,
   * whatever the default, and every other key reads as before.
   */
  lemma SettingWriteRead(settings: Settings, key: string, value: string, other: string, default: Option<string>)
    ensures GetSetting(settings[key := value], key, default) == Some(value)
    ensures other != key ==> GetSetting(settings[key := value], other, default) == GetSetting(settings, other, default)
  {
  }

  /**
   * What the cooldown row may hold without `int(...)` raising inside
   * `can_claim_key`: it is absent, empty, or integer text. The only writer,
   * the set-cooldown handler, stores `str(hours)`.
   */
  predicate CooldownSettingValid(settings: Settings) {
    CooldownKey in settings && settings[CooldownKey] != "" ==> ParseInt(settings[CooldownKey]).Some?
  }

  /**
   * `int(cooldown_setting) if cooldown_setting else DEFAULT_COOLDOWN_HOURS`
   * where `cooldown_setting = get_setting("cooldown_hours", "48")`.
   */
  function CooldownHours(settings: Settings): (h: int)
    requires CooldownSettingValid(settings)
    ensures CooldownKey !in settings || settings[CooldownKey] == "" ==> h == DefaultCooldownHours
    ensures CooldownKey in settings && settings[CooldownKey] != "" ==> ParseInt(settings[CooldownKey]) == Some(h)
  {
    var text := GetSetting(settings, CooldownKey, Some(IntToString(DefaultCooldownHours))).value;
    if text == "" then DefaultCooldownHours
    else
      ParseIntToString(DefaultCooldownHours);
      ParseInt(text).value
  }

  /** Storing `str(hours)` under the cooldown key makes the cooldown exactly `hours`. */
  lemma CooldownStored(settings: Settings, hours: int)
    ensures CooldownSettingValid(settings[CooldownKey := IntToString(hours)])
    ensures CooldownHours(settings[CooldownKey := IntToString(hours)]) == hours
  {
    ParseIntToString(hours);
  }

  /**
   * `can_claim_key`: allowed when the user has no row, has never claimed, or
   * at least `cooldown_hours` hours have passed since the last claim.
   */
  function CanClaim(users: Users, settings: Settings, id: int, now: int): (b: bool)
    requires CooldownSettingValid(settings)
    ensures id !in users || users[id].lastKeyTime.None? ==> b
    ensures id in users && users[id].lastKeyTime == Some(now) && CooldownHours(settings) > 0 ==> !b
    ensures id in users && users[id].lastKeyTime.Some? && users[id].lastKeyTime.value <= now && CooldownHours(settings) <= 0
            ==> b
  {
    id !in users || users[id].lastKeyTime.None?
    || now - users[id].lastKeyTime.value >= CooldownHours(settings) * Hour
  }

  /** Waiting longer never turns an allowed claim into a refused one. */
  lemma CanClaimMonotone(users: Users, settings: Settings, id: int, now: int, later: int)
    requires CooldownSettingValid(settings)
    requires now <= later && CanClaim(users, settings, id, now)
    ensures CanClaim(users, settings, id, later)
  {
  }

  /**
   * Right after a claim at time `t`, the next claim is refused strictly inside
   * the cooldown window and allowed from its boundary on.
   */
  lemma ClaimWindow(users: Users, settings: Settings, id: int, t: int, now: int)
    requires CooldownSettingValid(settings) && id in users
    ensures CanClaim(SetLastKeyTime(users, id, t), settings, id, now)
        <==> now - t >= CooldownHours(settings) * Hour
  {
  }

  /** Recording one user's claim does not change whether anyone else may claim. */
  lemma ClaimTimeIsPerUser(users: Users, settings: Settings, id: int, other: int, t: int, now: int)
    requires CooldownSettingValid(settings) && other != id
    ensures CanClaim(SetLastKeyTime(users, id, t), settings, other, now) == CanClaim(users, settings, other, now)
  {
  }

  /** Refreshing a username does not change whether its owner may claim. */
  lemma EnrollmentKeepsEligibility(users: Users, settings: Settings, id: int, username: Option<string>, now: int)
    requires CooldownSettingValid(settings)
    ensures CanClaim(EnsureUser(users, id, username), settings, id, now) == CanClaim(users, settings, id, now)
  {
  }
}
