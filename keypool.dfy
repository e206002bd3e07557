/**
 * The key pool (`keys` table), the claim records (`sales` table), the
 * first-in-first-out choice of `get_next_key`, and the line format the
 * operator uses to add keys in bulk.
 */
module KeyPool {
  import opened Wrappers
  import opened Strings
  import opened Numbers

  /** A `keys` row. `durationDays` is whatever `int()` accepted, zero and negatives included. */
  datatype Key = Key(id: nat, text: string, durationDays: int, name: Option<string>,
                     link: Option<string>, used: bool, addedAt: int)

  /** A `sales` row: who got which key, when, until when, and where it was delivered. */
  datatype Sale = Sale(id: nat, userId: int, keyId: nat, keyText: string, assignedAt: int,
                       expiresAt: int, active: bool, chatId: int, messageId: int)

  /**
   * The rows of a table that only ever grows through AUTOINCREMENT inserts:
   * the row at position `i` has id `i + 1`.
   */
  ghost predicate KeyIdsDense(ks: seq<Key>) {
    forall i :: 0 <= i < |ks| ==> ks[i].id == i + 1
  }

  ghost predicate SaleIdsDense(ss: seq<Sale>) {
    forall i :: 0 <= i < |ss| ==> ss[i].id == i + 1
  }

  ghost predicate KeyIdsAscending(ks: seq<Key>) {
    forall i, j :: 0 <= i < j < |ks| ==> ks[i].id < ks[j].id
  }

  /**
   * `get_next_key`: `SELECT ... WHERE used=0 ORDER BY id LIMIT 1`. `None`
   * exactly when every key is used; otherwise an unused key that no other
   * unused key precedes by id.
   */
  function NextKey(ks: seq<Key>): (r: Option<Key>)
    requires KeyIdsAscending(ks)
    ensures r.None? <==> forall i :: 0 <= i < |ks| ==> ks[i].used
    ensures r.Some? ==> r.value in ks && !r.value.used
    ensures r.Some? ==> forall i :: 0 <= i < |ks| && !ks[i].used ==> r.value.id <= ks[i].id
    decreases |ks|
  {
    if ks == [] then None
    else if !ks[0].used then Some(ks[0])
    else
      assert KeyIdsAscending(ks[1..]);
      NextKey(ks[1..])
  }

  /** `UPDATE keys SET used=1 WHERE id=?`. */
  function MarkUsed(ks: seq<Key>, id: nat): (r: seq<Key>)
    ensures |r| == |ks|
  {
    seq(|ks|, i requires 0 <= i < |ks| => if ks[i].id == id then ks[i].(used := true) else ks[i])
  }

  /**
   * The UPDATE touches only the `used` column: a row becomes used exactly
   * when its id is the one given or it was used already, and keeps every
   * other column.
   */
  lemma MarkUsedOnlyFlag(ks: seq<Key>, id: nat, i: nat)
    requires i < |ks|
    ensures MarkUsed(ks, id)[i].used <==> ks[i].used || ks[i].id == id
    ensures MarkUsed(ks, id)[i].(used := ks[i].used) == ks[i]
  {
  }

  /** The ids of the unused keys, in table order. */
  function UnusedIds(ks: seq<Key>): seq<nat>
    decreases |ks|
  {
    if ks == [] then [] else (if ks[0].used then [] else [ks[0].id]) + UnusedIds(ks[1..])
  }

  /** The key `get_next_key` returns is the first of the unused keys in insertion order. */
  lemma {:induction false} NextKeyIsFirstUnused(ks: seq<Key>)
    requires KeyIdsAscending(ks)
    ensures NextKey(ks).None? <==> UnusedIds(ks) == []
    ensures NextKey(ks).Some? ==> NextKey(ks).value.id == UnusedIds(ks)[0]
    decreases |ks|
  {
    if ks != [] && ks[0].used {
      assert KeyIdsAscending(ks[1..]);
      NextKeyIsFirstUnused(ks[1..]);
    }
  }

  /**
   * A claim consumes the first unused key and no other: the unused keys
   * that remain are the old ones minus the first, in the same order.
   */
  lemma {:induction false} ClaimTakesFirst(ks: seq<Key>)
    requires KeyIdsAscending(ks) && NextKey(ks).Some?
    ensures UnusedIds(ks) != []
    ensures UnusedIds(MarkUsed(ks, NextKey(ks).value.id)) == UnusedIds(ks)[1..]
    decreases |ks|
  {
    NextKeyIsFirstUnused(ks);
    var id := NextKey(ks).value.id;
    MarkUsedTail(ks, id);
    if ks[0].used {
      assert KeyIdsAscending(ks[1..]);
      ClaimTakesFirst(ks[1..]);
    } else {
      assert id == ks[0].id;
      MarkUsedAbsent(ks[1..], id);
    }
  }

  /** Marking works key by key: the first key, then the rest. */
  lemma MarkUsedTail(ks: seq<Key>, id: nat)
    requires ks != []
    ensures MarkUsed(ks, id)[1..] == MarkUsed(ks[1..], id)
    ensures MarkUsed(ks, id)[0] == if ks[0].id == id then ks[0].(used := true) else ks[0]
  {
    var r := MarkUsed(ks, id);
    forall i | 0 <= i < |ks| - 1 ensures r[1..][i] == MarkUsed(ks[1..], id)[i] {
      assert ks[1..][i] == ks[i + 1];
    }
  }

  /** Marking an id that no later key has leaves those keys alone. */
  lemma {:induction false} MarkUsedAbsent(ks: seq<Key>, id: nat)
    requires forall i :: 0 <= i < |ks| ==> ks[i].id != id
    ensures MarkUsed(ks, id) == ks
  {
  }

  function Min(a: nat, b: nat): nat {
    if a <= b then a else b
  }

  /** The keys `n` successive claims take, one claim at a time. */
  function ClaimedIds(ks: seq<Key>, n: nat): seq<nat>
    requires KeyIdsAscending(ks)
    decreases n
  {
    if n == 0 then []
    else match NextKey(ks)
      case None => []
      case Some(k) =>
        var after := MarkUsed(ks, k.id);
        assert KeyIdsAscending(after);
        [k.id] + ClaimedIds(after, n - 1)
  }

  /** The first `n` elements of `u`, or all of them when there are fewer. */
  function Take(u: seq<nat>, n: nat): (t: seq<nat>)
    ensures |t| == Min(n, |u|)
    decreases n
  {
    if n == 0 || u == [] then [] else [u[0]] + Take(u[1..], n - 1)
  }

  /** `Take` is the prefix of length `Min(n, |u|)`. */
  lemma {:induction false} TakeIsPrefix(u: seq<nat>, n: nat)
    ensures Take(u, n) == u[..Min(n, |u|)]
    decreases n
  {
    if n > 0 && u != [] {
      TakeIsPrefix(u[1..], n - 1);
      assert u[..Min(n, |u|)] == [u[0]] + u[1..][..Min(n - 1, |u| - 1)];
    }
  }

  /**
   * First in, first out: `n` successive claims take the first `n` unused
   * keys in the order they were inserted, and stop when the pool runs dry.
   */
  lemma ClaimsAreFifo(ks: seq<Key>, n: nat)
    requires KeyIdsAscending(ks)
    ensures ClaimedIds(ks, n) == UnusedIds(ks)[..Min(n, |UnusedIds(ks)|)]
  {
    ClaimsTakeUnused(ks, n);
    TakeIsPrefix(UnusedIds(ks), n);
  }

  /** The induction behind `ClaimsAreFifo`, one claim at a time. */
  lemma {:induction false} ClaimsTakeUnused(ks: seq<Key>, n: nat)
    requires KeyIdsAscending(ks)
    ensures ClaimedIds(ks, n) == Take(UnusedIds(ks), n)
    decreases n
  {
    NextKeyIsFirstUnused(ks);
    if n > 0 && NextKey(ks).Some? {
      var after := MarkUsed(ks, NextKey(ks).value.id);
      ClaimedStep(ks, n);
      ClaimTakesFirst(ks);
      ClaimsTakeUnused(after, n - 1);
    }
  }

  /** One claim of a series: the next key, then the claims on the pool it leaves. */
  lemma ClaimedStep(ks: seq<Key>, n: nat)
    requires KeyIdsAscending(ks) && n > 0 && NextKey(ks).Some?
    ensures KeyIdsAscending(MarkUsed(ks, NextKey(ks).value.id))
    ensures ClaimedIds(ks, n) == [NextKey(ks).value.id] + ClaimedIds(MarkUsed(ks, NextKey(ks).value.id), n - 1)
  {
  }

  /** Three keys added in the order K1, K2, K3 are handed out as K1, then K2, then K3. */
  lemma ThreeClaimsInOrder(k1: Key, k2: Key, k3: Key)
    requires !k1.used && !k2.used && !k3.used
    requires k1.id < k2.id < k3.id
    ensures ClaimedIds([k1, k2, k3], 3) == [k1.id, k2.id, k3.id]
  {
    var ks := [k1, k2, k3];
    assert KeyIdsAscending(ks);
    ClaimsAreFifo(ks, 3);
    UnusedOfThree(k1, k2, k3);
    assert UnusedIds(ks)[..Min(3, |UnusedIds(ks)|)] == UnusedIds(ks);
  }

  lemma UnusedOfThree(k1: Key, k2: Key, k3: Key)
    requires !k1.used && !k2.used && !k3.used
    ensures UnusedIds([k1, k2, k3]) == [k1.id, k2.id, k3.id]
  {
    assert [k3][1..] == [];
    assert UnusedIds([k3]) == [k3.id];
    assert [k2, k3][1..] == [k3];
    assert UnusedIds([k2, k3]) == [k2.id, k3.id];
    assert [k1, k2, k3][1..] == [k2, k3];
  }

  // ---------------------------------------------------------------------------
  // Counts shown by the statistics screen
  // ---------------------------------------------------------------------------

  function CountUsed(ks: seq<Key>): nat
    decreases |ks|
  {
    if ks == [] then 0 else (if ks[0].used then 1 else 0) + CountUsed(ks[1..])
  }

  function CountUnused(ks: seq<Key>): nat
    decreases |ks|
  {
    if ks == [] then 0 else (if ks[0].used then 0 else 1) + CountUnused(ks[1..])
  }

  /** Unused plus used is the size of the pool. */
  lemma {:induction false} CountsAddUp(ks: seq<Key>)
    ensures CountUsed(ks) + CountUnused(ks) == |ks|
    decreases |ks|
  {
    if ks != [] { CountsAddUp(ks[1..]); }
  }

  /** Marking an unused key used moves exactly one key from unused to used. */
  lemma {:induction false} MarkUsedCounts(ks: seq<Key>, i: nat)
    requires i < |ks| && !ks[i].used
    requires forall j :: 0 <= j < |ks| && j != i ==> ks[j].id != ks[i].id
    ensures CountUsed(MarkUsed(ks, ks[i].id)) == CountUsed(ks) + 1
    decreases |ks|
  {
    var id := ks[i].id;
    var r := MarkUsed(ks, id);
    assert r[1..] == MarkUsed(ks[1..], id);
    if i == 0 {
      MarkUsedAbsent(ks[1..], id);
    } else {
      MarkUsedCounts(ks[1..], i - 1);
    }
  }

  /** Appending rows adds their used ones to the count. */
  lemma {:induction false} CountUsedAppend(a: seq<Key>, b: seq<Key>)
    ensures CountUsed(a + b) == CountUsed(a) + CountUsed(b)
    decreases |a|
  {
    if a == [] {
      assert a + b == b;
    } else {
      assert (a + b)[1..] == a[1..] + b;
      CountUsedAppend(a[1..], b);
    }
  }

  // ---------------------------------------------------------------------------
  // Bulk ingestion: one `key | duration_days | name | link` per line
  // ---------------------------------------------------------------------------

  /** What one accepted line contributes: the columns of a new `keys` row. */
  datatype KeyLine = KeyLine(text: string, durationDays: int, name: Option<string>, link: Option<string>)

  /** `[p.strip() for p in line.split('|')]`. */
  function Fields(line: string): (fs: seq<string>)
    ensures |fs| >= 1
  {
    StripAll(Split(line, '|'))
  }

  /**
   * One line: accepted iff it has at least two fields and the second parses
   * as an integer; the third and fourth fields, when present, are the name
   * and link, and further fields are ignored.
   */
  function ParseKeyLine(line: string): (r: Option<KeyLine>)
    ensures r.Some? <==> |Fields(line)| >= 2 && ParseInt(Fields(line)[1]).Some?
  {
    var parts := Fields(line);
    if |parts| >= 2 then
      match ParseInt(parts[1])
      case Some(d) =>
        Some(KeyLine(parts[0], d,
                     if |parts| > 2 then Some(parts[2]) else None,
                     if |parts| > 3 then Some(parts[3]) else None))
      case None => None
    else None
  }

  /** Bar-free pieces joined by bars split back into those pieces, each stripped. */
  lemma FieldsOfJoin(fs: seq<string>)
    requires |fs| >= 1 && forall i :: 0 <= i < |fs| ==> '|' !in fs[i]
    ensures Fields(Join(fs, '|')) == StripAll(fs)
  {
    SplitJoin(fs, '|');
  }

  /** Four pieces joined by bars. */
  lemma JoinFour(a: string, b: string, c: string, d: string)
    ensures Join([a, b, c, d], '|') == a + "|" + b + "|" + c + "|" + d
  {
    var fs := [a, b, c, d];
    assert fs[1..] == [b, c, d];
    assert [b, c, d][1..] == [c, d];
    assert [c, d][1..] == [d];
    assert Join([c, d], '|') == c + "|" + d;
    assert Join([b, c, d], '|') == b + "|" + (c + "|" + d);
  }

  /**
   * Bar-free pieces joined by bars, the second of them a number: the line adds
   * the key whose text, name and link are the first, third and fourth pieces,
   * stripped.
   */
  lemma JoinedLine(fs: seq<string>, v: int)
    requires |fs| >= 2 && forall i :: 0 <= i < |fs| ==> '|' !in fs[i]
    requires ParseInt(fs[1]) == Some(v)
    ensures ParseKeyLine(Join(fs, '|'))
         == Some(KeyLine(Strip(fs[0]), v, if |fs| > 2 then Some(Strip(fs[2])) else None,
                                          if |fs| > 3 then Some(Strip(fs[3])) else None))
  {
    FieldsOfJoin(fs);
    ParseIntStrip(fs[1]);
    AcceptedLine(Join(fs, '|'), StripAll(fs), v);
  }

  /**
   * `key | days`: two bar-free pieces whose second is a number give a key
   * with the stripped first piece as its text and no name or link.
   */
  lemma TwoFieldLine(a: string, b: string, v: int)
    requires '|' !in a && '|' !in b
    requires ParseInt(b) == Some(v)
    ensures ParseKeyLine(a + "|" + b) == Some(KeyLine(Strip(a), v, None, None))
  {
    var fs := [a, b];
    assert Join(fs, '|') == a + "|" + b by {
      assert fs[1..] == [b];
    }
    JoinedLine(fs, v);
  }

  /**
   * `key | days | name | link`: four bar-free pieces whose second is a number
   * give a key whose text, name and link are the other three pieces, stripped.
   */
  lemma FourFieldLine(a: string, b: string, c: string, d: string, v: int)
    requires '|' !in a && '|' !in b && '|' !in c && '|' !in d
    requires ParseInt(b) == Some(v)
    ensures ParseKeyLine(a + "|" + b + "|" + c + "|" + d) == Some(KeyLine(Strip(a), v, Some(Strip(c)), Some(Strip(d))))
  {
    var fs := [a, b, c, d];
    assert fs[0] == a && fs[1] == b && fs[2] == c && fs[3] == d;
    forall i | 0 <= i < |fs| ensures '|' !in fs[i] {
      if i == 0 { } else if i == 1 { } else if i == 2 { } else { assert i == 3; }
    }
    JoinedLine(fs, v);
    JoinFour(a, b, c, d);
  }

  /** A line with fewer than two bar-separated pieces, such as one without any bar, adds nothing. */
  lemma OneFieldLine(a: string)
    requires '|' !in a
    ensures ParseKeyLine(a) == None
  {
    SplitFree(a, '|');
  }

  /** The accepted lines of a batch, in order; rejected lines are skipped. */
  function ParseKeyLines(lines: seq<string>): (r: seq<KeyLine>)
    ensures |r| <= |lines|
    decreases |lines|
  {
    if lines == [] then [] else LineKeys(lines[0]) + ParseKeyLines(lines[1..])
  }

  /** What one line adds: its key, or nothing when the line is rejected. */
  function LineKeys(line: string): (r: seq<KeyLine>)
    ensures |r| <= 1
  {
    match ParseKeyLine(line) case Some(kl) => [kl] case None => []
  }

  /** `message.text.strip().split('\n')`. */
  function BatchLines(text: string): seq<string> {
    Split(Strip(text), '\n')
  }

  /** Number of lines of a batch that are accepted. */
  function CountAccepted(lines: seq<string>): nat
    decreases |lines|
  {
    if lines == [] then 0
    else (if ParseKeyLine(lines[0]).Some? then 1 else 0) + CountAccepted(lines[1..])
  }

  /** One key is added per accepted line. */
  lemma {:induction false} ParsedCount(lines: seq<string>)
    ensures |ParseKeyLines(lines)| == CountAccepted(lines)
    decreases |lines|
  {
    if lines != [] { ParsedCount(lines[1..]); }
  }

  /** Lines are independent: a batch parses as its parts do, so a bad line never aborts the rest. */
  lemma {:induction false} ParseKeyLinesAppend(a: seq<string>, b: seq<string>)
    ensures ParseKeyLines(a + b) == ParseKeyLines(a) + ParseKeyLines(b)
    decreases |a|
  {
    if a == [] {
      assert a + b == b;
    } else {
      assert (a + b)[0] == a[0];
      assert (a + b)[1..] == a[1..] + b;
      ParseKeyLinesAppend(a[1..], b);
      assert ParseKeyLines(a + b) == LineKeys(a[0]) + ParseKeyLines(a[1..] + b);
    }
  }

  /** The `keys` row one accepted line becomes. */
  function NewKeyRow(kl: KeyLine, id: nat, now: int): Key {
    Key(id, kl.text, kl.durationDays, kl.name, kl.link, false, now)
  }

  /** The `keys` rows a batch inserts: consecutive ids from `firstId`, unused, stamped `now`. */
  function NewKeyRows(kls: seq<KeyLine>, firstId: nat, now: int): (r: seq<Key>)
    ensures |r| == |kls|
    decreases |kls|
  {
    if kls == [] then [] else [NewKeyRow(kls[0], firstId, now)] + NewKeyRows(kls[1..], firstId + 1, now)
  }

  /** Row `i` of a batch holds line `i` under id `firstId + i`, unused. */
  lemma {:induction false} NewKeyRowsAt(kls: seq<KeyLine>, firstId: nat, now: int, i: nat)
    requires i < |kls|
    ensures NewKeyRows(kls, firstId, now)[i]
         == Key(firstId + i, kls[i].text, kls[i].durationDays, kls[i].name, kls[i].link, false, now)
    decreases i
  {
    if i > 0 {
      NewKeyRowsAt(kls[1..], firstId + 1, now, i - 1);
    }
  }

  /** The rows of two consecutive groups of lines are the rows of the first, then those of the second. */
  lemma {:induction false} NewKeyRowsAppend(a: seq<KeyLine>, b: seq<KeyLine>, firstId: nat, now: int)
    ensures NewKeyRows(a + b, firstId, now) == NewKeyRows(a, firstId, now) + NewKeyRows(b, firstId + |a|, now)
    decreases |a|
  {
    if a == [] {
      assert a + b == b;
    } else {
      assert (a + b)[0] == a[0];
      assert (a + b)[1..] == a[1..] + b;
      NewKeyRowsAppend(a[1..], b, firstId + 1, now);
    }
  }

  /** One loop step of the bulk add: the lines so far, then one more. */
  lemma BatchStep(lines: seq<string>, i: nat)
    requires i < |lines|
    ensures ParseKeyLines(lines[..i + 1]) == ParseKeyLines(lines[..i]) + LineKeys(lines[i])
  {
    assert lines[..i + 1] == lines[..i] + [lines[i]];
    ParseKeyLinesAppend(lines[..i], [lines[i]]);
    assert [lines[i]][1..] == [];
  }

  /** A batch appended after a pool with dense ids keeps the ids dense, and adds no used key. */
  lemma {:induction false} AppendBatchRows(keys: seq<Key>, kls: seq<KeyLine>, now: int)
    requires KeyIdsDense(keys)
    ensures KeyIdsDense(keys + NewKeyRows(kls, |keys| + 1, now))
    ensures CountUsed(NewKeyRows(kls, |keys| + 1, now)) == 0
  {
    var rows := NewKeyRows(kls, |keys| + 1, now);
    forall i | 0 <= i < |rows| ensures rows[i].id == |keys| + 1 + i {
      NewKeyRowsAt(kls, |keys| + 1, now, i);
    }
    NoneUsed(kls, |keys| + 1, now);
  }

  lemma {:induction false} NoneUsed(kls: seq<KeyLine>, firstId: nat, now: int)
    ensures CountUsed(NewKeyRows(kls, firstId, now)) == 0
    decreases |kls|
  {
    if kls != [] {
      var rows := NewKeyRows(kls, firstId, now);
      assert rows[1..] == NewKeyRows(kls[1..], firstId + 1, now);
      NoneUsed(kls[1..], firstId + 1, now);
    }
  }

  /** A field an operator can write: no separator, no whitespace at its ends. */
  predicate PlainField(f: string) {
    '|' !in f && IsStripped(f)
  }

  /** A key line that has a written form: plain fields, and a link only after a name. */
  predicate Writable(kl: KeyLine) {
    && PlainField(kl.text)
    && (kl.name.Some? ==> PlainField(kl.name.value))
    && (kl.link.Some? ==> kl.name.Some? && PlainField(kl.link.value))
  }

  /** The fields of the line an operator writes for a key: text, duration, then name and link when present. */
  function LineFields(kl: KeyLine): seq<string> {
    [kl.text, IntToString(kl.durationDays)]
    + (if kl.name.Some? then [kl.name.value] + (if kl.link.Some? then [kl.link.value] else []) else [])
  }

  /** `text|days`, `text|days|name` or `text|days|name|link`. */
  function FormatKeyLine(kl: KeyLine): string {
    Join(LineFields(kl), '|')
  }

  /** Every key that can be written down is read back as written. */
  lemma FormatParse(kl: KeyLine)
    requires Writable(kl)
    ensures ParseKeyLine(FormatKeyLine(kl)) == Some(kl)
    ensures LineKeys(FormatKeyLine(kl)) == [kl]
  {
    var fs := LineFields(kl);
    LineFieldsPlain(kl);
    FieldsOf(FormatKeyLine(kl), fs);
    ParseIntToString(kl.durationDays);
    AcceptedLine(FormatKeyLine(kl), fs, kl.durationDays);
  }

  /** The written fields are plain and hold the key's columns in place. */
  lemma LineFieldsPlain(kl: KeyLine)
    requires Writable(kl)
    ensures var fs := LineFields(kl);
            && 2 <= |fs| <= 4
            && (forall i :: 0 <= i < |fs| ==> '|' !in fs[i] && IsStripped(fs[i]))
            && fs[0] == kl.text && fs[1] == IntToString(kl.durationDays)
            && (if |fs| > 2 then Some(fs[2]) else None) == kl.name
            && (if |fs| > 3 then Some(fs[3]) else None) == kl.link
  {
    IntToStringPlain(kl.durationDays, '|');
  }

  /**
   * A bad line between two good ones: the batch adds the two written keys,
   * in order, and skips the line whose duration is not a number.
   */
  lemma ExampleBatch(k1: KeyLine, k2: KeyLine)
    requires Writable(k1) && Writable(k2)
    ensures ParseKeyLines([FormatKeyLine(k1), "BAD|notanumber", FormatKeyLine(k2)]) == [k1, k2]
  {
    FormatParse(k1);
    FormatParse(k2);
    ExampleLine2();
    SkipsMiddle(FormatKeyLine(k1), "BAD|notanumber", FormatKeyLine(k2), k1, k2);
  }

  /**
   * The batch `K1|30`, `BAD|notanumber`, `K2|7|Label|http://x` adds two keys,
   * the second with its name and link.
   */
  lemma SampleBatch()
    ensures ParseKeyLines(["K1|30", "BAD|notanumber", "K2|7|Label|http://x"])
            == [KeyLine("K1", 30, None, None), KeyLine("K2", 7, Some("Label"), Some("http://x"))]
  {
    ExampleLine1();
    ExampleLine2();
    ExampleLine3();
    SkipsMiddle("K1|30", "BAD|notanumber", "K2|7|Label|http://x",
                KeyLine("K1", 30, None, None), KeyLine("K2", 7, Some("Label"), Some("http://x")));
  }

  lemma SkipsMiddle(l1: string, bad: string, l3: string, k1: KeyLine, k2: KeyLine)
    requires LineKeys(l1) == [k1] && LineKeys(bad) == [] && LineKeys(l3) == [k2]
    ensures ParseKeyLines([l1, bad, l3]) == [k1, k2]
  {
    ThreeLines(l1, bad, l3);
  }

  /** A batch of three lines yields what each line yields, in order. */
  lemma ThreeLines(l1: string, l2: string, l3: string)
    ensures ParseKeyLines([l1, l2, l3]) == LineKeys(l1) + LineKeys(l2) + LineKeys(l3)
  {
    assert [l1, l2, l3] == [l1] + [l2, l3];
    assert [l2, l3] == [l2] + [l3];
    ParseKeyLinesAppend([l1], [l2, l3]);
    ParseKeyLinesAppend([l2], [l3]);
    OneLine(l1);
    OneLine(l2);
    OneLine(l3);
  }

  lemma OneLine(l: string)
    ensures ParseKeyLines([l]) == LineKeys(l)
  {
    assert [l][1..] == [];
  }

  lemma ExampleLine1()
    ensures LineKeys("K1|30") == [KeyLine("K1", 30, None, None)]
  {
    var fs := ["K1", "30"];
    ExampleFields1();
    ParseSmall("30", 30);
    AcceptedLine("K1|30", fs, 30);
  }

  lemma ExampleLine3()
    ensures LineKeys("K2|7|Label|http://x") == [KeyLine("K2", 7, Some("Label"), Some("http://x"))]
  {
    ExampleFields3();
    PlainFourFieldLine("K2", "7", "Label", "http://x", 7);
    ExampleJoin3();
  }

  /** The four pieces of the third sample line are bar-free, stripped, and the second is 7. */
  lemma ExampleFields3()
    ensures '|' !in "K2" && '|' !in "7" && '|' !in "Label" && '|' !in "http://x"
    ensures ParseInt("7") == Some(7)
    ensures Strip("K2") == "K2" && Strip("Label") == "Label" && Strip("http://x") == "http://x"
  {
    ExampleBarFree3();
    ParseSmall("7", 7);
    VisibleEnds("K2");
    VisibleEnds("Label");
    VisibleEnds("http://x");
  }

  lemma ExampleBarFree3()
    ensures '|' !in "K2" && '|' !in "7" && '|' !in "Label" && '|' !in "http://x"
  {
    var d := "http://x";
    assert forall i :: 0 <= i < |d| ==> d[i] != '|';
  }

  lemma ExampleJoin3()
    ensures "K2" + "|" + "7" + "|" + "Label" + "|" + "http://x" == "K2|7|Label|http://x"
  {
  }

  /** `FourFieldLine` for pieces that are already stripped: the line adds exactly that key. */
  lemma PlainFourFieldLine(a: string, b: string, c: string, d: string, v: int)
    requires '|' !in a && '|' !in b && '|' !in c && '|' !in d
    requires ParseInt(b) == Some(v) && Strip(a) == a && Strip(c) == c && Strip(d) == d
    ensures LineKeys(a + "|" + b + "|" + c + "|" + d) == [KeyLine(a, v, Some(c), Some(d))]
  {
    FourFieldLine(a, b, c, d, v);
  }

  /** Text that starts and ends with a visible ASCII character is already stripped. */
  lemma VisibleEnds(t: string)
    requires t != [] && '!' <= t[0] <= '~' && '!' <= t[|t| - 1] <= '~'
    ensures Strip(t) == t
  {
    StripFixesStripped(t);
  }

  lemma ExampleFields1()
    ensures Fields("K1|30") == ["K1", "30"]
  {
    var fs := ["K1", "30"];
    assert Join(fs, '|') == "K1|30" by {
      assert fs[1..] == ["30"];
    }
    FieldsOf("K1|30", fs);
  }

  lemma ExampleLine2()
    ensures LineKeys("BAD|notanumber") == []
  {
    var fs := ["BAD", "notanumber"];
    assert Join(fs, '|') == "BAD|notanumber" by {
      assert fs[1..] == ["notanumber"];
    }
    FieldsOf("BAD|notanumber", fs);
    NotANumber();
  }

  /** A line whose fields are known and whose second field parses adds the key they describe. */
  lemma AcceptedLine(line: string, fs: seq<string>, d: int)
    requires Fields(line) == fs && |fs| >= 2 && ParseInt(fs[1]) == Some(d)
    ensures ParseKeyLine(line) == Some(KeyLine(fs[0], d, if |fs| > 2 then Some(fs[2]) else None,
                                                if |fs| > 3 then Some(fs[3]) else None))
    ensures LineKeys(line) == [ParseKeyLine(line).value]
  {
  }

  /** A line made of stripped, separator-free fields splits into exactly those fields. */
  lemma FieldsOf(line: string, fs: seq<string>)
    requires |fs| >= 1 && line == Join(fs, '|')
    requires forall i :: 0 <= i < |fs| ==> '|' !in fs[i] && IsStripped(fs[i])
    ensures Fields(line) == fs
  {
    SplitJoin(fs, '|');
    forall i | 0 <= i < |fs| ensures Strip(fs[i]) == fs[i] {
      StripFixesStripped(fs[i]);
    }
  }

  lemma ParseSmall(s: string, n: nat)
    requires s == NatToString(n)
    ensures ParseInt(s) == Some(n as int)
  {
    ParseIntToString(n);
  }

  lemma NotANumber()
    ensures ParseInt("notanumber") == None
  {
    var s := "notanumber";
    assert IsStripped(s);
    StripFixesStripped(s);
    assert !IsDigit(s[0]);
  }
}
