/**
 * Decimal integers as text: Python's `int(text)` (base 10) and `str(n)`.
 * The bot parses durations and cooldown hours with the first and stores the
 * cooldown back with the second, so the two must round-trip.
 */
module Numbers {
  import opened Wrappers
  import opened Strings

  predicate IsDigit(c: char) {
    '0' <= c <= '9'
  }

  predicate AllDigits(s: string) {
    forall i :: 0 <= i < |s| ==> IsDigit(s[i])
  }

  function DigitValue(c: char): nat
    requires IsDigit(c)
  {
    c as int - '0' as int
  }

  /** The character for a digit value below ten. */
  function DigitChar(d: nat): (c: char)
    requires d < 10
    ensures IsDigit(c) && DigitValue(c) == d
  {
    ('0' as int + d) as char
  }

  /** The value of a string of decimal digits, most significant first. */
  function DigitsValue(ds: string): nat
    requires AllDigits(ds)
    decreases |ds|
  {
    if ds == [] then 0 else DigitsValue(ds[..|ds| - 1]) * 10 + DigitValue(ds[|ds| - 1])
  }

  /**
   * The whitespace `int()` skips around its digits. CPython maps non-ASCII
   * whitespace to a space and then skips only the ASCII space, tab, line
   * feed, vertical tab, form feed and carriage return, so this is
   * `str.isspace()` without the four separators U+001C to U+001F.
   */
  predicate IntSpace(c: char) {
    IsSpace(c) && !('\U{1C}' <= c <= '\U{1F}')
  }

  /** Skip the leading whitespace `int()` ignores. */
  function SkipLeft(s: string): (r: string)
    ensures |r| <= |s| && r == s[|s| - |r|..]
    ensures forall i :: 0 <= i < |s| - |r| ==> IntSpace(s[i])
    ensures r == [] || !IntSpace(r[0])
    decreases |s|
  {
    if s != [] && IntSpace(s[0]) then SkipLeft(s[1..]) else s
  }

  /** Skip the trailing whitespace `int()` ignores. */
  function SkipRight(s: string): (r: string)
    ensures |r| <= |s| && r == s[..|r|]
    ensures forall i :: |r| <= i < |s| ==> IntSpace(s[i])
    ensures r == [] || !IntSpace(r[|r| - 1])
    decreases |s|
  {
    if s != [] && IntSpace(s[|s| - 1]) then SkipRight(s[..|s| - 1]) else s
  }

  /** The text `int()` reads: its argument without the whitespace it skips at either end. */
  function IntCore(s: string): (r: string)
    ensures |r| <= |s|
    ensures r == [] || (!IntSpace(r[0]) && !IntSpace(r[|r| - 1]))
  {
    var t := SkipLeft(s);
    var r := SkipRight(t);
    assert r != [] ==> r[0] == t[0];
    r
  }

  /** The text `int()` accepts once stripped: an optional `+` or `-`, then at least one ASCII digit. */
  predicate IntText(t: string) {
    if |t| >= 1 && (t[0] == '-' || t[0] == '+') then |t| >= 2 && AllDigits(t[1..])
    else |t| >= 1 && AllDigits(t)
  }

  /**
   * `int(text)`: the whitespace of `IntSpace` around it is ignored, then an
   * optional `+` or `-` and at least one ASCII digit; anything else raises
   * `ValueError`, modelled as `None`. The value is the digits' value,
   * negated after `-`.
   */
  function ParseInt(text: string): (r: Option<int>)
    ensures r.Some? <==> IntText(IntCore(text))
    ensures r.Some? ==> r.value == (if IntCore(text)[0] == '-' then -(DigitsValue(IntCore(text)[1..]) as int)
                                    else if IntCore(text)[0] == '+' then DigitsValue(IntCore(text)[1..])
                                    else DigitsValue(IntCore(text)))
    ensures r.Some? && IntCore(text)[0] == '-' ==> r.value <= 0
    ensures r.Some? && IntCore(text)[0] != '-' ==> r.value >= 0
  {
    ParseStripped(IntCore(text))
  }

  /** `int()` once the surrounding whitespace is gone. */
  function ParseStripped(t: string): (r: Option<int>)
    ensures r.Some? <==> IntText(t)
    ensures r.Some? ==> r.value == (if t[0] == '-' then -(DigitsValue(t[1..]) as int)
                                    else if t[0] == '+' then DigitsValue(t[1..])
                                    else DigitsValue(t))
  {
    if t != [] && (t[0] == '-' || t[0] == '+') then
      var ds := t[1..];
      if ds != [] && AllDigits(ds) then
        var v: int := DigitsValue(ds);
        Some(if t[0] == '-' then -v else v)
      else None
    else if t != [] && AllDigits(t) then Some(DigitsValue(t) as int)
    else None
  }

  /**
   * Text that `int()` accepts as it stands reads the same after `strip()`.
   * The converse fails: `strip()` also removes U+001C to U+001F, which
   * `int()` rejects (`NotStripBlind`).
   */
  lemma ParseIntStrip(text: string)
    requires ParseInt(text).Some?
    ensures ParseInt(Strip(text)) == ParseInt(text)
  {
    var core := IntCore(text);
    IntTextStripped(core);
    StripIntCore(text);
    IntCoreFixes(core);
  }

  /** Accepted text has a sign or a digit at its start and a digit at its end. */
  lemma IntTextStripped(t: string)
    requires IntText(t)
    ensures IsStripped(t) && !IntSpace(t[0]) && !IntSpace(t[|t| - 1])
  {
    if t[0] == '-' || t[0] == '+' {
      assert t[1..][|t| - 2] == t[|t| - 1];
    }
  }

  /** When what `int()` reads is already stripped, `strip()` gives exactly that. */
  lemma StripIntCore(text: string)
    requires IntCore(text) != [] && IsStripped(IntCore(text))
    ensures Strip(text) == IntCore(text)
  {
    var t := SkipLeft(text);
    assert IntCore(text)[0] == t[0];
    TrimLeftSkips(text);
    TrimRightSkips(t);
  }

  /** `lstrip()` stops where `int()` stops when the character there is not whitespace to `strip()`. */
  lemma {:induction false} TrimLeftSkips(s: string)
    requires SkipLeft(s) != [] && !IsSpace(SkipLeft(s)[0])
    ensures TrimLeft(s) == SkipLeft(s)
    decreases |s|
  {
    if IntSpace(s[0]) {
      TrimLeftSkips(s[1..]);
    }
  }

  /** `rstrip()` stops where `int()` stops when the character there is not whitespace to `strip()`. */
  lemma {:induction false} TrimRightSkips(s: string)
    requires SkipRight(s) != [] && !IsSpace(SkipRight(s)[|SkipRight(s)| - 1])
    ensures TrimRight(s) == SkipRight(s)
    decreases |s|
  {
    if IntSpace(s[|s| - 1]) {
      TrimRightSkips(s[..|s| - 1]);
    }
  }

  /**
   * A separator U+001C to U+001F in front of a number: `strip()` removes it,
   * so the stripped text parses, but `int()` does not skip it and rejects the
   * text.
   */
  lemma NotStripBlind(c: char, n: nat)
    requires '\U{1C}' <= c <= '\U{1F}'
    ensures ParseInt(Strip([c] + NatToString(n))) == Some(n as int)
    ensures ParseInt([c] + NatToString(n)) == None
  {
    SeparatorStripped(c, NatToString(n));
    ParseIntToString(n);
    SeparatorRejected(c, NatToString(n));
  }

  lemma SeparatorStripped(c: char, d: string)
    requires '\U{1C}' <= c <= '\U{1F}'
    requires d != [] && IsStripped(d)
    ensures Strip([c] + d) == d
  {
    assert [c] + d == [c] + d + [];
    StripAround([c], d, []);
  }

  lemma SeparatorRejected(c: char, d: string)
    requires '\U{1C}' <= c <= '\U{1F}'
    requires d != [] && !IntSpace(d[|d| - 1])
    ensures ParseInt([c] + d) == None
  {
    SeparatorRead(c, d);
    SeparatorNotInt(c, d);
  }

  lemma SeparatorRead(c: char, d: string)
    requires '\U{1C}' <= c <= '\U{1F}'
    requires d != [] && !IntSpace(d[|d| - 1])
    ensures IntCore([c] + d) == [c] + d
  {
    var s := [c] + d;
    assert s[0] == c && !IntSpace(c);
    assert s[|s| - 1] == d[|d| - 1];
    IntCoreFixes(s);
  }

  lemma SeparatorNotInt(c: char, d: string)
    requires '\U{1C}' <= c <= '\U{1F}'
    ensures !IntText([c] + d)
  {
    var s := [c] + d;
    assert s[0] == c && !IsDigit(c);
  }

  /** Text with no skippable whitespace at its ends is read as it stands. */
  lemma IntCoreFixes(t: string)
    requires t == [] || (!IntSpace(t[0]) && !IntSpace(t[|t| - 1]))
    ensures IntCore(t) == t
  {
    assert SkipLeft(t) == t;
    assert SkipRight(t) == t;
  }

  /** `str(n)` for a natural number: its decimal digits without leading zeros. */
  function NatToString(n: nat): (r: string)
    ensures r != [] && AllDigits(r)
    ensures DigitsValue(r) == n
    ensures |r| > 1 ==> r[0] != '0'
    decreases n
  {
    if n < 10 then [DigitChar(n)]
    else
      var r := NatToString(n / 10) + [DigitChar(n % 10)];
      assert r[..|r| - 1] == NatToString(n / 10);
      r
  }

  /** `str(n)`: a minus sign in front of the digits of a negative number. */
  function IntToString(n: int): (r: string)
    ensures r != []
    ensures r[0] == '-' <==> n < 0
  {
    if n < 0 then "-" + NatToString(-n) else NatToString(n)
  }

  /** The text of a number is a sign and digits: no whitespace at its ends, no separator inside. */
  lemma IntToStringPlain(n: int, sep: char)
    requires sep != '-' && !IsDigit(sep)
    ensures IsStripped(IntToString(n)) && sep !in IntToString(n)
  {
    var s := IntToString(n);
    var d := NatToString(if n < 0 then -n else n);
    if n < 0 {
      forall i | 0 < i < |s| ensures IsDigit(s[i]) {
        assert s[i] == d[i - 1];
      }
    }
  }

  /** The text of a number parses back to that number. */
  lemma ParseIntToString(n: int)
    ensures ParseInt(IntToString(n)) == Some(n)
  {
    var s := IntToString(n);
    assert IsStripped(s);
    IntCoreFixes(s);
    if n < 0 {
      assert s[1..] == NatToString(-n);
    }
  }

  /** Whitespace that `int()` skips, around a number, does not stop it parsing. */
  lemma ParseIntIgnoresSpaces(pre: string, digits: string, post: string)
    requires forall i :: 0 <= i < |pre| ==> IntSpace(pre[i])
    requires forall i :: 0 <= i < |post| ==> IntSpace(post[i])
    requires digits != [] && AllDigits(digits)
    ensures ParseInt(pre + digits + post) == Some(DigitsValue(digits) as int)
  {
    assert IsDigit(digits[0]) && IsDigit(digits[|digits| - 1]);
    IntCoreAround(pre, digits, post);
    assert ParseStripped(digits) == Some(DigitsValue(digits) as int);
  }

  /** `int()` reads the core of text made of skippable whitespace, a core, and skippable whitespace. */
  lemma IntCoreAround(pre: string, core: string, post: string)
    requires forall i :: 0 <= i < |pre| ==> IntSpace(pre[i])
    requires forall i :: 0 <= i < |post| ==> IntSpace(post[i])
    requires core != [] && !IntSpace(core[0]) && !IntSpace(core[|core| - 1])
    ensures IntCore(pre + core + post) == core
  {
    var rest := core + post;
    assert rest[0] == core[0];
    assert pre + core + post == pre + rest;
    SkipLeftAround(pre, rest);
    SkipRightAround(core, post);
  }

  lemma {:induction false} SkipLeftAround(pre: string, rest: string)
    requires forall i :: 0 <= i < |pre| ==> IntSpace(pre[i])
    requires rest != [] && !IntSpace(rest[0])
    ensures SkipLeft(pre + rest) == rest
    decreases |pre|
  {
    var s := pre + rest;
    if pre != [] {
      assert s[0] == pre[0];
      assert s[1..] == pre[1..] + rest;
      SkipLeftAround(pre[1..], rest);
    } else {
      assert s == rest;
    }
  }

  lemma {:induction false} SkipRightAround(core: string, post: string)
    requires forall i :: 0 <= i < |post| ==> IntSpace(post[i])
    requires core != [] && !IntSpace(core[|core| - 1])
    ensures SkipRight(core + post) == core
    decreases |post|
  {
    var s := core + post;
    if post != [] {
      assert s[|s| - 1] == post[|post| - 1];
      assert s[..|s| - 1] == core + post[..|post| - 1];
      SkipRightAround(core, post[..|post| - 1]);
    } else {
      assert s == core;
    }
  }

  /** Stripping text that is whitespace, then a stripped core, then whitespace, yields that core. */
  lemma {:induction false} StripAround(pre: string, core: string, post: string)
    requires forall i :: 0 <= i < |pre| ==> IsSpace(pre[i])
    requires forall i :: 0 <= i < |post| ==> IsSpace(post[i])
    requires core != [] && IsStripped(core)
    ensures Strip(pre + core + post) == core
  {
    var rest := core + post;
    assert rest[0] == core[0];
    assert pre + core + post == pre + rest;
    TrimLeftAround(pre, rest);
    TrimRightAround(core, post);
    assert TrimRight(TrimLeft(pre + rest)) == core;
  }

  lemma {:induction false} TrimLeftAround(pre: string, rest: string)
    requires forall i :: 0 <= i < |pre| ==> IsSpace(pre[i])
    requires rest != [] && !IsSpace(rest[0])
    ensures TrimLeft(pre + rest) == rest
    decreases |pre|
  {
    var s := pre + rest;
    if pre != [] {
      assert s[0] == pre[0] && IsSpace(s[0]);
      assert s[1..] == pre[1..] + rest;
      assert TrimLeft(s) == TrimLeft(s[1..]);
      TrimLeftAround(pre[1..], rest);
    } else {
      assert s == rest;
      assert TrimLeft(s) == s;
    }
  }

  lemma {:induction false} TrimRightAround(core: string, post: string)
    requires forall i :: 0 <= i < |post| ==> IsSpace(post[i])
    requires core != [] && !IsSpace(core[|core| - 1])
    ensures TrimRight(core + post) == core
    decreases |post|
  {
    var s := core + post;
    if post != [] {
      assert s[|s| - 1] == post[|post| - 1] && IsSpace(s[|s| - 1]);
      assert s[..|s| - 1] == core + post[..|post| - 1];
      assert TrimRight(s) == TrimRight(s[..|s| - 1]);
      TrimRightAround(core, post[..|post| - 1]);
    } else {
      assert s == core;
      assert TrimRight(s) == s;
    }
  }
}
