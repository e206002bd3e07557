/**
 * The bot's SQLite database as one object: the `channels`, `users`, `keys`,
 * `sales` and `settings` tables, updated in place by the helpers of the
 * bot. Ids of `keys` and `sales` rows are never deleted, so each is one
 * more than the row's position; channel rows are deleted, so the next
 * AUTOINCREMENT value is kept explicitly.
 */
module Store {
  import opened Wrappers
  import opened Channels
  import opened Ledger
  import opened KeyPool

  /** The `sales` row `assign_key_to_user` inserts: it expires `durationDays` days after it is assigned. */
  function SaleRow(id: nat, userId: int, keyId: nat, keyText: string, durationDays: int,
                   now: int, chatId: int, messageId: int): (s: Sale)
    ensures s.expiresAt - s.assignedAt == durationDays * Day
    ensures s.assignedAt == now && s.active
  {
    Sale(id, userId, keyId, keyText, now, now + durationDays * Day, true, chatId, messageId)
  }

  /** When `u` last claimed: the assignment time of their latest sale, if any. */
  function LastClaim(sales: seq<Sale>, u: int): (t: Option<int>)
    ensures t.Some? <==> exists i :: 0 <= i < |sales| && sales[i].userId == u
    decreases |sales|
  {
    if sales == [] then None
    else
      var last := sales[|sales| - 1];
      var before := sales[..|sales| - 1];
      if last.userId == u then Some(last.assignedAt)
      else
        assert forall i :: 0 <= i < |before| ==> before[i] == sales[i];
        LastClaim(before, u)
  }

  /** A sale refers to a used key and repeats its text and duration. */
  ghost predicate SaleMatchesKey(s: Sale, keys: seq<Key>) {
    && 1 <= s.keyId <= |keys|
    && keys[s.keyId - 1].used
    && keys[s.keyId - 1].text == s.keyText
    && s.expiresAt == s.assignedAt + keys[s.keyId - 1].durationDays * Day
  }

  /**
   * What the claim path keeps true of the tables: every sale records a used
   * key of the pool for a known user, no key is sold twice, there are as many
   * sales as used keys, and each user's `last_key_time` is the time of their
   * latest sale.
   */
  ghost predicate ClaimsConsistent(users: Users, keys: seq<Key>, sales: seq<Sale>) {
    && (forall i :: 0 <= i < |sales| ==> SaleMatchesKey(sales[i], keys) && sales[i].userId in users)
    && (forall i, j :: 0 <= i < j < |sales| ==> sales[i].keyId != sales[j].keyId)
    && CountUsed(keys) == |sales|
    && (forall u :: u in users ==> users[u].lastKeyTime == LastClaim(sales, u))
  }

  /** Empty tables are consistent. */
  lemma EmptyConsistent()
    ensures ClaimsConsistent(map[], [], [])
  {
  }

  /** `ensure_user_record` keeps consistency: a new row has no sales and no claim time yet. */
  lemma EnsureKeepsConsistent(users: Users, keys: seq<Key>, sales: seq<Sale>, id: int, username: Option<string>)
    requires ClaimsConsistent(users, keys, sales)
    ensures ClaimsConsistent(EnsureUser(users, id, username), keys, sales)
  {
    var r := EnsureUser(users, id, username);
    if id !in users {
      assert LastClaim(sales, id) == None;
    }
    forall u | u in r ensures r[u].lastKeyTime == LastClaim(sales, u) {
      if u != id { assert u in users; }
    }
  }

  /** `mark_verified` keeps consistency. */
  lemma SetVerifiedKeepsConsistent(users: Users, keys: seq<Key>, sales: seq<Sale>, id: int)
    requires ClaimsConsistent(users, keys, sales)
    ensures ClaimsConsistent(SetVerified(users, id), keys, sales)
  {
    var r := SetVerified(users, id);
    forall u | u in r ensures r[u].lastKeyTime == LastClaim(sales, u) {
      assert u in users;
    }
  }

  /** Adding unused keys keeps consistency. */
  lemma InsertKeepsConsistent(users: Users, keys: seq<Key>, sales: seq<Sale>, rows: seq<Key>)
    requires ClaimsConsistent(users, keys, sales) && CountUsed(rows) == 0
    ensures ClaimsConsistent(users, keys + rows, sales)
  {
    CountUsedAppend(keys, rows);
    var r := keys + rows;
    forall i | 0 <= i < |sales| ensures SaleMatchesKey(sales[i], r) {
      assert r[sales[i].keyId - 1] == keys[sales[i].keyId - 1];
    }
  }

  /**
   * A claim of an unused key by a known user keeps consistency: the key
   * becomes used, the sale is appended, and the user's claim time becomes
   * the sale's assignment time.
   */
  lemma AssignKeepsConsistent(users: Users, keys: seq<Key>, sales: seq<Sale>,
                              userId: int, keyId: nat, chatId: int, messageId: int, now: int)
    requires KeyIdsDense(keys) && ClaimsConsistent(users, keys, sales)
    requires userId in users && 1 <= keyId <= |keys| && !keys[keyId - 1].used
    ensures var k := keys[keyId - 1];
            ClaimsConsistent(SetLastKeyTime(users, userId, now), MarkUsed(keys, keyId),
                             sales + [SaleRow(|sales| + 1, userId, keyId, k.text, k.durationDays, now, chatId, messageId)])
  {
    var k := keys[keyId - 1];
    var s := SaleRow(|sales| + 1, userId, keyId, k.text, k.durationDays, now, chatId, messageId);
    var users' := SetLastKeyTime(users, userId, now);
    var keys' := MarkUsed(keys, keyId);
    var sales' := sales + [s];
    MarkUsedCounts(keys, keyId - 1);
    forall i | 0 <= i < |sales'| ensures SaleMatchesKey(sales'[i], keys') && sales'[i].userId in users' {
      if i < |sales| {
        assert sales'[i] == sales[i];
      }
    }
    forall i, j | 0 <= i < j < |sales'| ensures sales'[i].keyId != sales'[j].keyId {
      if j == |sales| {
        assert sales'[i] == sales[i];
        assert SaleMatchesKey(sales[i], keys);
      } else {
        assert sales'[i] == sales[i] && sales'[j] == sales[j];
      }
    }
    forall u | u in users' ensures users'[u].lastKeyTime == LastClaim(sales', u) {
      assert sales'[..|sales'| - 1] == sales;
    }
  }

  /** Dense ids ascend along the pool, so no two keys share an id. */
  lemma DenseIdsDistinct(keys: seq<Key>)
    requires KeyIdsDense(keys)
    ensures KeyIdsAscending(keys)
  {
  }

  /** Every user that has claimed was sold a key: the sold key of the latest sale is used. */
  lemma LastClaimHasSale(users: Users, keys: seq<Key>, sales: seq<Sale>, u: int)
    requires ClaimsConsistent(users, keys, sales) && u in users && users[u].lastKeyTime.Some?
    ensures exists i :: 0 <= i < |sales| && sales[i].userId == u && keys[sales[i].keyId - 1].used
  {
    var i :| 0 <= i < |sales| && sales[i].userId == u;
    assert SaleMatchesKey(sales[i], keys);
  }

  class Database {
    var channels: seq<Channel>
    var nextChannelId: nat
    var users: Users
    var keys: seq<Key>
    var sales: seq<Sale>
    var settings: Settings

    /** The tables' own constraints: the channel registry, and dense key and sale ids. */
    ghost predicate Valid()
      reads this
    {
      RegistryValid(channels, nextChannelId) && KeyIdsDense(keys) && SaleIdsDense(sales)
    }

    /** The claim bookkeeping across `users`, `keys` and `sales`. */
    ghost predicate Consistent()
      reads this
    {
      ClaimsConsistent(users, keys, sales)
    }

    /** `init_db` on a fresh file: every table empty. */
    constructor ()
      ensures Valid() && Consistent()
      ensures channels == [] && nextChannelId == 1 && users == map[] && keys == [] && sales == [] && settings == map[]
    {
      channels := [];
      nextChannelId := 1;
      users := map[];
      keys := [];
      sales := [];
      settings := map[];
    }

    /**
     * `add_channel`: normalise, then INSERT. The UNIQUE constraint makes the
     * insert fail, and the call return false with nothing changed, exactly
     * when the normalised handle is already registered.
     */
    method AddChannel(name: string) returns (added: bool)
      requires Valid()
      modifies this
      ensures Valid()
      ensures added <==> NormalizeHandle(name) !in old(Handles(channels))
      ensures added ==> channels == old(channels) + [Channel(old(nextChannelId), NormalizeHandle(name))]
                        && nextChannelId == old(nextChannelId) + 1
      ensures !added ==> channels == old(channels) && nextChannelId == old(nextChannelId)
      ensures users == old(users) && keys == old(keys) && sales == old(sales) && settings == old(settings)
    {
      var h := NormalizeHandle(name);
      if h in Handles(channels) {
        return false;
      }
      InsertChannel(h);
      return true;
    }

    /** The INSERT itself, for a canonical handle not yet in the table: the row gets the next id. */
    method InsertChannel(h: string)
      requires Valid() && IsCanonical(h) && h !in Handles(channels)
      modifies this
      ensures Valid()
      ensures channels == old(channels) + [Channel(old(nextChannelId), h)] && nextChannelId == old(nextChannelId) + 1
      ensures users == old(users) && keys == old(keys) && sales == old(sales) && settings == old(settings)
    {
      AppendKeepsValid(channels, nextChannelId, h);
      channels := channels + [Channel(nextChannelId, h)];
      nextChannelId := nextChannelId + 1;
    }

    /** `remove_channel`: normalise, DELETE that handle's row, and report success whatever happened. */
    method RemoveChannel(name: string) returns (removed: bool)
      requires Valid()
      modifies this
      ensures Valid() && removed
      ensures channels == RemoveHandle(old(channels), NormalizeHandle(name))
      ensures NormalizeHandle(name) !in Handles(channels)
      ensures nextChannelId == old(nextChannelId)
      ensures users == old(users) && keys == old(keys) && sales == old(sales) && settings == old(settings)
    {
      var h := NormalizeHandle(name);
      var r := RemoveHandle(channels, h);
      RemoveKeepsValid(channels, nextChannelId, h);
      RemoveDropsHandle(channels, h);
      assert RegistryValid(r, nextChannelId) && h !in Handles(r);
      channels := r;
      return true;
    }

    /** `list_channels`: the handles in id order, which is the order they were added in. */
    method ListChannels() returns (hs: seq<string>)
      requires Valid()
      ensures hs == Handles(channels)
      ensures forall i, j :: 0 <= i < j < |hs| ==> hs[i] != hs[j]
      ensures forall i :: 0 <= i < |hs| ==> IsCanonical(hs[i])
    {
      hs := Handles(channels);
      assert forall i :: 0 <= i < |channels| ==> channels[i] in channels;
    }

    method EnsureUserRecord(id: int, username: Option<string>)
      requires Valid() && Consistent()
      modifies this
      ensures Valid() && Consistent()
      ensures users == EnsureUser(old(users), id, username)
      ensures channels == old(channels) && nextChannelId == old(nextChannelId)
      ensures keys == old(keys) && sales == old(sales) && settings == old(settings)
    {
      EnsureKeepsConsistent(users, keys, sales, id, username);
      users := EnsureUser(users, id, username);
    }

    method MarkVerified(id: int)
      requires Valid() && Consistent()
      modifies this
      ensures Valid() && Consistent()
      ensures users == SetVerified(old(users), id)
      ensures channels == old(channels) && nextChannelId == old(nextChannelId)
      ensures keys == old(keys) && sales == old(sales) && settings == old(settings)
    {
      SetVerifiedKeepsConsistent(users, keys, sales, id);
      users := SetVerified(users, id);
    }

    /** `set_setting`: INSERT OR REPLACE one row of the settings table. */
    method SetSetting(key: string, value: string)
      requires Valid()
      modifies this
      ensures Valid()
      ensures settings == old(settings)[key := value]
      ensures channels == old(channels) && nextChannelId == old(nextChannelId)
      ensures users == old(users) && keys == old(keys) && sales == old(sales)
    {
      settings := settings[key := value];
    }

    /**
     * `assign_key_to_user`: mark the key used, stamp the user's claim time
     * and append the sale, all at time `now`.
     */
    method AssignKeyToUser(userId: int, keyId: nat, keyText: string, durationDays: int,
                           chatId: int, messageId: int, now: int)
      requires Valid()
      modifies this
      ensures Valid()
      ensures keys == MarkUsed(old(keys), keyId)
      ensures users == SetLastKeyTime(old(users), userId, now)
      ensures sales == old(sales) + [SaleRow(|old(sales)| + 1, userId, keyId, keyText, durationDays, now, chatId, messageId)]
      ensures channels == old(channels) && nextChannelId == old(nextChannelId) && settings == old(settings)
      ensures old(Consistent()) && userId in old(users) && 1 <= keyId <= old(|keys|)
              && !old(keys[keyId - 1].used) && keyText == old(keys[keyId - 1].text)
              && durationDays == old(keys[keyId - 1].durationDays)
              ==> Consistent()
    {
      if Consistent() && userId in users && 1 <= keyId <= |keys| && !keys[keyId - 1].used
         && keyText == keys[keyId - 1].text && durationDays == keys[keyId - 1].durationDays {
        AssignKeepsConsistent(users, keys, sales, userId, keyId, chatId, messageId, now);
      }
      keys := MarkUsed(keys, keyId);
      users := SetLastKeyTime(users, userId, now);
      sales := sales + [SaleRow(|sales| + 1, userId, keyId, keyText, durationDays, now, chatId, messageId)];
    }

    /**
     * The INSERTs of one bulk upload, committed together: the accepted
     * lines become unused keys with the next ids, all stamped `now`.
     */
    method InsertKeys(kls: seq<KeyLine>, now: int)
      requires Valid() && Consistent()
      modifies this
      ensures Valid() && Consistent()
      ensures keys == old(keys) + NewKeyRows(kls, |old(keys)| + 1, now)
      ensures channels == old(channels) && nextChannelId == old(nextChannelId)
      ensures users == old(users) && sales == old(sales) && settings == old(settings)
    {
      AppendBatchRows(keys, kls, now);
      InsertKeepsConsistent(users, keys, sales, NewKeyRows(kls, |keys| + 1, now));
      keys := keys + NewKeyRows(kls, |keys| + 1, now);
    }
  }
}
