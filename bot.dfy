/**
 * The handlers of the bot over the database: the operator check, the
 * operator's one-shot input modes (`awaiting_keys`), the bulk key upload,
 * membership verification, the statistics screen and the claim flow.
 * Telegram is reduced to what the handlers read from it: the sender, the
 * text of a message, a membership oracle, and the chat and message ids of
 * the message that delivers a key.
 */
module Bot {
  import opened Wrappers
  import opened Strings
  import opened Numbers
  import opened Markdown
  import opened Channels
  import opened Ledger
  import opened KeyPool
  import opened Verifier
  import opened Store

  /** `ADMIN_USERNAME`. */
  const AdminUsername: string := "tgshaitaan"

  /** The sender of an update: `from_user.id`, `.username` (may be unset) and `.first_name`. */
  datatype TgUser = TgUser(id: int, username: Option<string>, firstName: string)

  /** The name `is_admin` compares against: `ADMIN_USERNAME.lower().lstrip('@')`. */
  function AdminName(): (n: string)
    ensures n == AdminUsername
  {
    LowerFixes(AdminUsername);
    LStripAbsent(AdminUsername, '@');
    LStripChar(Lower(AdminUsername), '@')
  }

  /**
   * `is_admin`: the configured `ADMIN_ID`, or a non-empty username that is
   * the administrator's once lower-cased and stripped of leading `@`.
   */
  function IsAdmin(userId: int, username: Option<string>, adminId: int): (b: bool)
    ensures userId == adminId ==> b
    ensures userId != adminId && (username.None? || username.value == "") ==> !b
  {
    || userId == adminId
    || (username.Some? && username.value != "" && LStripChar(Lower(username.value), '@') == AdminName())
  }

  /** Any mix of case, behind any number of `@`, names the administrator. */
  lemma AdminByName(userId: int, adminId: int, n: nat, w: string)
    requires Lower(w) == AdminUsername
    ensures IsAdmin(userId, Some(Repeat('@', n) + w), adminId)
  {
    var u := Repeat('@', n) + w;
    assert Lower(u) == Repeat('@', n) + Lower(w);
    LStripRepeat('@', n, Lower(w));
  }

  /** And nothing else does: a name that passes is `@`s followed by the administrator's name in some case. */
  lemma AdminNameOnly(userId: int, adminId: int, u: string)
    requires userId != adminId && IsAdmin(userId, Some(u), adminId)
    ensures exists n: nat, w: string :: u == Repeat('@', n) + w && Lower(w) == AdminUsername
  {
    LStripLowerSplit(u, '@', AdminName());
  }

  // ---------------------------------------------------------------------------
  // Operator sessions: `awaiting_keys`
  // ---------------------------------------------------------------------------

  /** The menu entries that wait for the operator's next message. */
  datatype AdminAction = AddKeys | AddChannel | RemoveChannel | SetCooldown | SetKeyMessage

  /** The mode code each entry stores. */
  function ModeOf(a: AdminAction): (m: int)
    ensures m == 30 || -4 <= m <= -1
  {
    match a
    case AddKeys => 30
    case AddChannel => -1
    case RemoveChannel => -2
    case SetCooldown => -3
    case SetKeyMessage => -4
  }

  /** Distinct entries store distinct codes, so the code says which entry was chosen. */
  lemma ModeOfInjective(a: AdminAction, b: AdminAction)
    requires ModeOf(a) == ModeOf(b)
    ensures a == b
  {
  }

  class AdminSessions {
    /** Operator id to pending mode code. */
    var awaiting: map<int, int>

    constructor ()
      ensures awaiting == map[]
    {
      awaiting := map[];
    }

    /**
     * `cb_admin_add_keys`, `cb_admin_add_channel`, `cb_admin_remove_channel`,
     * `cb_admin_set_cooldown`, `cb_admin_set_key_msg`: the mode is stored
     * only for the administrator; anyone else is silently ignored.
     */
    method Select(user: TgUser, adminId: int, action: AdminAction)
      modifies this
      ensures old(Valid()) ==> Valid()
      ensures awaiting == if IsAdmin(user.id, user.username, adminId)
                          then old(awaiting)[user.id := ModeOf(action)]
                          else old(awaiting)
    {
      if IsAdmin(user.id, user.username, adminId) {
        awaiting := awaiting[user.id := ModeOf(action)];
      }
    }

    /** Every mode held is one the menu stores. */
    ghost predicate Valid()
      reads this
    {
      forall u :: u in awaiting ==> awaiting[u] == 30 || -4 <= awaiting[u] <= -1
    }
  }

  /** Only the administrator ever holds a mode: when only administrators hold one, a selection keeps it so. */
  lemma SelectionsAreAdmins(awaiting: map<int, int>, user: TgUser, adminId: int, action: AdminAction, ok: set<int>)
    requires forall u :: u in awaiting ==> u in ok
    requires IsAdmin(user.id, user.username, adminId) ==> user.id in ok
    ensures var r := if IsAdmin(user.id, user.username, adminId) then awaiting[user.id := ModeOf(action)] else awaiting;
            forall u :: u in r ==> u in ok
  {
  }

  // ---------------------------------------------------------------------------
  // Operator input: `handle_admin_input`
  // ---------------------------------------------------------------------------

  /** What the handler answers. */
  datatype AdminReply =
    | ChannelAdded(ok: bool)
    | ChannelRemoved
    | CooldownSet(hours: int)
    | InvalidNumber
    | MessageSaved
    | KeysAdded(count: nat)

  /** The `keys` rows one batch of operator text inserts, stamped `now`, after `existing` rows. */
  function BatchRows(text: string, existing: nat, now: int): seq<Key> {
    NewKeyRows(ParseKeyLines(BatchLines(text)), existing + 1, now)
  }

  /**
   * The bulk-add loop: go through the lines, keep the accepted ones and
   * count them. Rejected lines are skipped and the loop goes on; what one
   * line yields is `ParseKeyLine`.
   */
  method ParseBatch(lines: seq<string>) returns (kls: seq<KeyLine>, added: nat)
    ensures kls == ParseKeyLines(lines)
    ensures added == |kls|
  {
    kls := [];
    added := 0;
    var i := 0;
    while i < |lines|
      invariant 0 <= i <= |lines|
      invariant kls == ParseKeyLines(lines[..i])
      invariant added == |kls|
    {
      BatchStep(lines, i);
      match ParseKeyLine(lines[i]) {
        case Some(kl) =>
          kls := kls + [kl];
          added := added + 1;
        case None =>
      }
      i := i + 1;
    }
    assert lines[..|lines|] == lines;
  }

  /** The bulk upload of `handle_admin_input`: split the text into lines, parse them, insert the keys. */
  method AddKeyBatch(db: Database, text: string, now: int) returns (added: nat)
    requires db.Valid() && db.Consistent()
    modifies db
    ensures db.Valid() && db.Consistent()
    ensures db.keys == old(db.keys) + BatchRows(text, |old(db.keys)|, now)
    ensures added == |ParseKeyLines(BatchLines(text))|
    ensures db.channels == old(db.channels) && db.nextChannelId == old(db.nextChannelId)
    ensures db.users == old(db.users) && db.sales == old(db.sales) && db.settings == old(db.settings)
  {
    var kls;
    kls, added := ParseBatch(BatchLines(text));
    db.InsertKeys(kls, now);
  }

  /**
   * `handle_admin_input`: act on the sender's pending mode, then forget the
   * mode, whatever the outcome. Codes -1 to -4 are the channel, cooldown and
   * message entries; every other code is a bulk key upload.
   */
  method HandleAdminInput(sessions: AdminSessions, db: Database, userId: int, text: string, now: int)
    returns (reply: AdminReply)
    requires userId in sessions.awaiting
    requires db.Valid() && db.Consistent()
    modifies sessions, db
    ensures sessions.awaiting == old(sessions.awaiting) - {userId}
    ensures old(sessions.Valid()) ==> sessions.Valid()
    ensures db.Valid() && db.Consistent()
    ensures CooldownSettingValid(old(db.settings)) ==> CooldownSettingValid(db.settings)
    ensures db.users == old(db.users) && db.sales == old(db.sales)
    ensures old(sessions.awaiting[userId]) != -1 ==> db.nextChannelId == old(db.nextChannelId)
    ensures var mode := old(sessions.awaiting[userId]);
            && (mode == -1 ==>
                  var h := NormalizeHandle(text);
                  && reply == ChannelAdded(h !in old(Handles(db.channels)))
                  && db.channels == (if reply.ok then old(db.channels) + [Channel(old(db.nextChannelId), h)] else old(db.channels))
                  && db.nextChannelId == (if reply.ok then old(db.nextChannelId) + 1 else old(db.nextChannelId))
                  && db.keys == old(db.keys) && db.settings == old(db.settings))
            && (mode == -2 ==>
                  && reply == ChannelRemoved
                  && db.channels == RemoveHandle(old(db.channels), NormalizeHandle(text))
                  && db.keys == old(db.keys) && db.settings == old(db.settings))
            && (mode == -3 ==>
                  && db.channels == old(db.channels) && db.keys == old(db.keys)
                  && (ParseInt(text).Some? ==>
                        reply == CooldownSet(ParseInt(text).value)
                        && db.settings == old(db.settings)[CooldownKey := IntToString(ParseInt(text).value)])
                  && (ParseInt(text).None? ==> reply == InvalidNumber && db.settings == old(db.settings)))
            && (mode == -4 ==>
                  && reply == MessageSaved
                  && db.settings == old(db.settings)[KeyMessageKey := text]
                  && db.channels == old(db.channels) && db.keys == old(db.keys))
            && (mode !in {-1, -2, -3, -4} ==>
                  && reply == KeysAdded(|ParseKeyLines(BatchLines(text))|)
                  && db.keys == old(db.keys) + BatchRows(text, |old(db.keys)|, now)
                  && db.channels == old(db.channels) && db.settings == old(db.settings))
  {
    var mode := sessions.awaiting[userId];
    if mode == -1 {
      var ok := db.AddChannel(text);
      reply := ChannelAdded(ok);
    } else if mode == -2 {
      var _ := db.RemoveChannel(text);
      reply := ChannelRemoved;
    } else if mode == -3 {
      match ParseInt(text) {
        case Some(hours) =>
          ParseIntToString(hours);
          db.SetSetting(CooldownKey, IntToString(hours));
          reply := CooldownSet(hours);
        case None =>
          reply := InvalidNumber;
      }
    } else if mode == -4 {
      db.SetSetting(KeyMessageKey, text);
      reply := MessageSaved;
    } else {
      var added := AddKeyBatch(db, text, now);
      reply := KeysAdded(added);
    }
    sessions.awaiting := sessions.awaiting - {userId};
  }

  /** A stored cooldown is what the operator typed, read back as a number. */
  lemma CooldownInputTakesEffect(settings: Settings, text: string)
    requires ParseInt(text).Some?
    ensures CooldownSettingValid(settings[CooldownKey := IntToString(ParseInt(text).value)])
    ensures CooldownHours(settings[CooldownKey := IntToString(ParseInt(text).value)]) == ParseInt(text).value
  {
    CooldownStored(settings, ParseInt(text).value);
  }

  // ---------------------------------------------------------------------------
  // Statistics: `cb_admin_stats`
  // ---------------------------------------------------------------------------

  datatype Stats = Stats(unused: nat, used: nat, users: nat, total: nat)

  /** The four numbers of the statistics screen. */
  function StatsOf(users: Users, keys: seq<Key>): (s: Stats)
    ensures s.total == |keys|
    ensures s.users == |users|
  {
    CountsAddUp(keys);
    var unused, used := CountUnused(keys), CountUsed(keys);
    Stats(unused, used, |users|, unused + used)
  }

  /** With consistent tables the used keys are exactly the sales. */
  lemma StatsUsedAreSales(users: Users, keys: seq<Key>, sales: seq<Sale>)
    requires ClaimsConsistent(users, keys, sales)
    ensures StatsOf(users, keys).used == |sales|
    ensures StatsOf(users, keys).unused == |keys| - |sales|
  {
    CountsAddUp(keys);
  }

  // ---------------------------------------------------------------------------
  // Verification: `cb_verify`
  // ---------------------------------------------------------------------------

  /**
   * `cb_verify`: enrol the user, check the registered channels in order,
   * and set the verified flag only when the check passed.
   */
  method Verify(db: Database, user: TgUser, lookup: (string, int) -> Lookup)
    returns (verdict: Verdict, reply: (bool, string))
    requires db.Valid() && db.Consistent()
    modifies db
    ensures db.Valid() && db.Consistent()
    ensures verdict == Check(Handles(old(db.channels)), user.id, lookup)
    ensures reply == Reply(verdict)
    ensures var enrolled := EnsureUser(old(db.users), user.id, user.username);
            db.users == if verdict.Passed() then SetVerified(enrolled, user.id) else enrolled
    ensures db.channels == old(db.channels) && db.nextChannelId == old(db.nextChannelId)
    ensures db.keys == old(db.keys) && db.sales == old(db.sales) && db.settings == old(db.settings)
  {
    db.EnsureUserRecord(user.id, user.username);
    var channels := db.ListChannels();
    var consulted;
    verdict, consulted := IsUserVerified(channels, user.id, lookup);
    if verdict.Passed() {
      db.MarkVerified(user.id);
    }
    reply := Reply(verdict);
  }

  /** A user is marked verified by the handler exactly when every registered channel passes. */
  lemma VerifiedIffAllPass(users: Users, channels: seq<Channel>, user: TgUser, lookup: (string, int) -> Lookup)
    ensures var v := Check(Handles(channels), user.id, lookup);
            var after := if v.Passed() then SetVerified(EnsureUser(users, user.id, user.username), user.id)
                         else EnsureUser(users, user.id, user.username);
            after[user.id].verified
            <==> (forall i :: 0 <= i < |channels| ==> Passes(lookup(channels[i].handle, user.id)))
                 || (user.id in users && users[user.id].verified)
  {
    PassedIffAllPass(Handles(channels), user.id, lookup);
  }

  // ---------------------------------------------------------------------------
  // Claiming: `cb_start_claim`
  // ---------------------------------------------------------------------------

  /** The text of the default key message. */
  function DefaultKeyMessage(k: Key, firstName: string): string {
    "🎉 **Congratulations " + EscapeMarkdown(firstName) + "\\!** 🎉\n\n"
    + "🔑 **Your Key:** `" + EscapeMarkdown(k.text) + "`\n"
    + "⏰ **Valid for:** " + IntToString(k.durationDays) + " days\n\n"
    + "✅ Key activated successfully\\!"
  }

  /**
   * The message that delivers key `k`: the operator's template when one is
   * set and non-empty, else the default. A set template without placeholders
   * is sent as written.
   */
  function KeyMessage(settings: Settings, k: Key, firstName: string): (m: string)
    ensures KeyMessageKey !in settings || settings[KeyMessageKey] == "" ==> m == DefaultKeyMessage(k, firstName)
    ensures KeyMessageKey in settings && settings[KeyMessageKey] != "" && '{' !in settings[KeyMessageKey]
            ==> m == settings[KeyMessageKey]
  {
    var custom := GetSetting(settings, KeyMessageKey, None);
    if custom.Some? && custom.value != "" then RenderKeyMessage(custom.value, k.text, k.durationDays, firstName)
    else DefaultKeyMessage(k, firstName)
  }

  /** A template written as literal text and placeholders is delivered with the values in place. */
  lemma CustomMessageFilled(settings: Settings, ps: seq<Piece>, k: Key, firstName: string)
    requires BraceFreeLiterals(ps) && TemplateText(ps) != ""
    requires KeyMessageKey in settings && settings[KeyMessageKey] == TemplateText(ps)
    ensures KeyMessage(settings, k, firstName)
         == Concat(Layout(ps, EscapeMarkdown(k.text), EscapeMarkdown(IntToString(k.durationDays)), EscapeMarkdown(firstName)))
  {
    RenderFillsPlaceholders(ps, k.text, k.durationDays, firstName);
  }

  /** How a claim ends. */
  datatype ClaimOutcome =
    | CooldownActive(hours: int)        // "Please wait {cooldown_hours} hours between claims."
    | NoKeysAvailable
    | Claimed(key: Key, message: string)

  /**
   * The decision of `cb_start_claim` on the state it finds: enrol the user,
   * then the cooldown, then the pool. It is refused for the cooldown exactly
   * when the user is inside it, whether or not keys remain; out of keys
   * exactly when allowed and `NextKey` finds no unused key; otherwise it hands
   * out the key `NextKey` chooses, with the configured message.
   */
  function Decide(users: Users, keys: seq<Key>, settings: Settings, user: TgUser, now: int): (d: ClaimOutcome)
    requires CooldownSettingValid(settings) && KeyIdsAscending(keys)
    ensures var allowed := CanClaim(users, settings, user.id, now);
            && (d.CooldownActive? <==> !allowed)
            && (d.CooldownActive? ==> d.hours == CooldownHours(settings))
            && (d.NoKeysAvailable? <==> allowed && NextKey(keys).None?)
            && (d.Claimed? ==>
                  && allowed && NextKey(keys) == Some(d.key)
                  && d.message == KeyMessage(settings, d.key, user.firstName))
  {
    EnrollmentKeepsEligibility(users, settings, user.id, user.username, now);
    var enrolled := EnsureUser(users, user.id, user.username);
    if !CanClaim(enrolled, settings, user.id, now) then CooldownActive(CooldownHours(settings))
    else match NextKey(keys)
      case None => NoKeysAvailable
      case Some(k) => Claimed(k, KeyMessage(settings, k, user.firstName))
  }

  /**
   * The claim never looks at the verified flag, nor at anything else about
   * the user but whether they have a row and its claim time.
   */
  lemma DecideIgnoresVerified(users: Users, other: Users, keys: seq<Key>, settings: Settings, user: TgUser, now: int)
    requires CooldownSettingValid(settings) && KeyIdsAscending(keys)
    requires user.id in users <==> user.id in other
    requires user.id in users ==> users[user.id].lastKeyTime == other[user.id].lastKeyTime
    ensures Decide(users, keys, settings, user, now) == Decide(other, keys, settings, user, now)
  {
  }

  /**
   * What a claim does to the tables, from the enrolled state: a delivered key
   * is marked used, the user's claim time becomes `now` and the sale is
   * appended; a refusal leaves all three tables as they were.
   */
  ghost predicate ClaimEffect(outcome: ClaimOutcome, userId: int, now: int, chatId: int, messageId: int,
                              keys0: seq<Key>, users0: Users, sales0: seq<Sale>,
                              keys: seq<Key>, users: Users, sales: seq<Sale>) {
    if outcome.Claimed? then
      && keys == MarkUsed(keys0, outcome.key.id)
      && users == SetLastKeyTime(users0, userId, now)
      && sales == sales0 + [SaleRow(|sales0| + 1, userId, outcome.key.id, outcome.key.text,
                                    outcome.key.durationDays, now, chatId, messageId)]
    else
      keys == keys0 && users == users0 && sales == sales0
  }

  /**
   * `cb_start_claim`: enrol, check the cooldown, pick the next key, and on
   * success deliver it (in the message whose chat and message ids are
   * given) and record the claim; a refusal changes nothing but the enrolment.
   */
  method StartClaim(db: Database, user: TgUser, now: int, chatId: int, messageId: int)
    returns (outcome: ClaimOutcome)
    requires db.Valid() && db.Consistent() && CooldownSettingValid(db.settings)
    modifies db
    ensures db.Valid() && db.Consistent()
    ensures KeyIdsAscending(old(db.keys)) && outcome == Decide(old(db.users), old(db.keys), old(db.settings), user, now)
    ensures ClaimEffect(outcome, user.id, now, chatId, messageId,
                        old(db.keys), EnsureUser(old(db.users), user.id, user.username), old(db.sales),
                        db.keys, db.users, db.sales)
    ensures db.channels == old(db.channels) && db.nextChannelId == old(db.nextChannelId)
    ensures db.settings == old(db.settings)
  {
    DenseIdsDistinct(db.keys);
    DecideAfterEnrol(db.users, db.keys, db.settings, user, now);
    db.EnsureUserRecord(user.id, user.username);
    outcome := ClaimEnrolled(db, user, now, chatId, messageId);
  }

  /** Enrolment is idempotent, so deciding after it is deciding on the state before it. */
  lemma DecideAfterEnrol(users: Users, keys: seq<Key>, settings: Settings, user: TgUser, now: int)
    requires CooldownSettingValid(settings) && KeyIdsAscending(keys)
    ensures Decide(EnsureUser(users, user.id, user.username), keys, settings, user, now)
         == Decide(users, keys, settings, user, now)
  {
    EnsureUserIdempotent(users, user.id, user.username);
  }

  /** `cb_start_claim` once the user has a row: the cooldown, then the pool, then the record of the claim. */
  method ClaimEnrolled(db: Database, user: TgUser, now: int, chatId: int, messageId: int)
    returns (outcome: ClaimOutcome)
    requires db.Valid() && db.Consistent() && CooldownSettingValid(db.settings) && user.id in db.users
    modifies db
    ensures db.Valid() && db.Consistent()
    ensures KeyIdsAscending(old(db.keys)) && outcome == Decide(old(db.users), old(db.keys), old(db.settings), user, now)
    ensures ClaimEffect(outcome, user.id, now, chatId, messageId,
                        old(db.keys), old(db.users), old(db.sales), db.keys, db.users, db.sales)
    ensures db.channels == old(db.channels) && db.nextChannelId == old(db.nextChannelId)
    ensures db.settings == old(db.settings)
  {
    DenseIdsDistinct(db.keys);
    EnrollmentKeepsEligibility(db.users, db.settings, user.id, user.username, now);
    if !CanClaim(db.users, db.settings, user.id, now) {
      return CooldownActive(CooldownHours(db.settings));
    }
    var next := NextKey(db.keys);
    if next.None? {
      return NoKeysAvailable;
    }
    var k := next.value;
    var message := KeyMessage(db.settings, k, user.firstName);
    RecordClaim(db, user.id, k, chatId, messageId, now);
    return Claimed(k, message);
  }

  /** The success branch of `cb_start_claim`: `assign_key_to_user` with the chosen pool key. */
  method RecordClaim(db: Database, userId: int, k: Key, chatId: int, messageId: int, now: int)
    requires db.Valid() && db.Consistent()
    requires userId in db.users && k in db.keys && !k.used
    modifies db
    ensures db.Valid() && db.Consistent()
    ensures db.keys == MarkUsed(old(db.keys), k.id)
    ensures db.users == SetLastKeyTime(old(db.users), userId, now)
    ensures db.sales == old(db.sales) + [SaleRow(|old(db.sales)| + 1, userId, k.id, k.text, k.durationDays, now, chatId, messageId)]
    ensures db.channels == old(db.channels) && db.nextChannelId == old(db.nextChannelId)
    ensures db.settings == old(db.settings)
  {
    assert 1 <= k.id <= |db.keys| && db.keys[k.id - 1] == k;
    db.AssignKeyToUser(userId, k.id, k.text, k.durationDays, chatId, messageId, now);
  }

  /**
   * After a claim at `now`, the same user is refused until the cooldown has
   * passed and allowed from then on.
   */
  lemma ClaimStartsCooldown(users: Users, keys: seq<Key>, settings: Settings, user: TgUser, now: int, later: int)
    requires CooldownSettingValid(settings) && KeyIdsDense(keys)
    requires Decide(users, keys, settings, user, now).Claimed?
    ensures var k := Decide(users, keys, settings, user, now).key;
            var users' := SetLastKeyTime(EnsureUser(users, user.id, user.username), user.id, now);
            var keys' := MarkUsed(keys, k.id);
            KeyIdsAscending(keys')
            && (Decide(users', keys', settings, user, later).CooldownActive?
                <==> later - now < CooldownHours(settings) * Hour)
  {
    var k := Decide(users, keys, settings, user, now).key;
    var enrolled := EnsureUser(users, user.id, user.username);
    var users' := SetLastKeyTime(enrolled, user.id, now);
    var keys' := MarkUsed(keys, k.id);
    assert KeyIdsAscending(keys');
    ClaimWindow(enrolled, settings, user.id, now, later);
    EnrollmentKeepsEligibility(users', settings, user.id, user.username, later);
  }
}
