/**
 * The handful of Python `str` operations the bot relies on: `strip()`,
 * `split(sep)`, `lower()`, `lstrip(ch)` and `replace(old, new)`, as
 * functions on `seq<char>` with the properties the rest of the model uses.
 */
module Strings {

  // ---------------------------------------------------------------------------
  // Whitespace and strip()
  // ---------------------------------------------------------------------------

  /** The characters Python's `str.isspace()` accepts, which `str.strip()` removes. */
  predicate IsSpace(c: char) {
    c == ' ' || ('\t' <= c <= '\r') || ('\U{1C}' <= c <= '\U{1F}')
    || c == '\U{85}' || c == '\U{A0}' || c == '\U{1680}'
    || ('\U{2000}' <= c <= '\U{200A}') || c == '\U{2028}' || c == '\U{2029}'
    || c == '\U{202F}' || c == '\U{205F}' || c == '\U{3000}'
  }

  /** A string with no whitespace at either end: what `strip()` returns. */
  predicate IsStripped(t: string) {
    t == [] || (!IsSpace(t[0]) && !IsSpace(t[|t| - 1]))
  }

  /** `lstrip()`: drop the leading whitespace. */
  function TrimLeft(s: string): (r: string)
    ensures |r| <= |s| && r == s[|s| - |r|..]
    ensures forall i :: 0 <= i < |s| - |r| ==> IsSpace(s[i])
    ensures r == [] || !IsSpace(r[0])
    decreases |s|
  {
    if s != [] && IsSpace(s[0]) then TrimLeft(s[1..]) else s
  }

  /** `rstrip()`: drop the trailing whitespace. */
  function TrimRight(s: string): (r: string)
    ensures |r| <= |s| && r == s[..|r|]
    ensures forall i :: |r| <= i < |s| ==> IsSpace(s[i])
    ensures r == [] || !IsSpace(r[|r| - 1])
    decreases |s|
  {
    if s != [] && IsSpace(s[|s| - 1]) then TrimRight(s[..|s| - 1]) else s
  }

  /** `strip()`: drop whitespace at both ends and keep everything in between. */
  function Strip(s: string): (r: string)
    ensures IsStripped(r)
    ensures |r| <= |s|
  {
    var t := TrimLeft(s);
    var r := TrimRight(t);
    assert r != [] ==> r[0] == t[0];
    r
  }

  /** A string that is already stripped is left as it is. */
  lemma StripFixesStripped(t: string)
    requires IsStripped(t)
    ensures Strip(t) == t
  {
    assert TrimLeft(t) == t;
    assert TrimRight(t) == t;
  }

  /** Stripping twice is stripping once. */
  lemma StripIdempotent(s: string)
    ensures Strip(Strip(s)) == Strip(s)
  {
    StripFixesStripped(Strip(s));
  }

  // ---------------------------------------------------------------------------
  // split(sep) and its inverse
  // ---------------------------------------------------------------------------

  /** Python's `s.split(sep)` for a one-character separator: always at least one piece. */
  function Split(s: string, sep: char): (parts: seq<string>)
    ensures |parts| >= 1
    ensures forall i :: 0 <= i < |parts| ==> sep !in parts[i]
    decreases |s|
  {
    if s == [] then [""]
    else if s[0] == sep then [""] + Split(s[1..], sep)
    else
      var rest := Split(s[1..], sep);
      [[s[0]] + rest[0]] + rest[1..]
  }

  /** `sep.join(parts)`. */
  function Join(parts: seq<string>, sep: char): string
    decreases |parts|
  {
    if |parts| == 0 then ""
    else if |parts| == 1 then parts[0]
    else parts[0] + [sep] + Join(parts[1..], sep)
  }

  /** Joining the pieces back with the separator gives the original text. */
  lemma {:induction false} JoinSplit(s: string, sep: char)
    ensures Join(Split(s, sep), sep) == s
    decreases |s|
  {
    if s == [] {
    } else if s[0] == sep {
      JoinSplit(s[1..], sep);
      var rest := Split(s[1..], sep);
      assert Split(s, sep) == [""] + rest;
      assert ([""] + rest)[1..] == rest;
      assert s == [sep] + s[1..];
    } else {
      JoinSplit(s[1..], sep);
      var rest := Split(s[1..], sep);
      var parts := [[s[0]] + rest[0]] + rest[1..];
      assert Split(s, sep) == parts;
      if |rest| == 1 {
        assert s == [s[0]] + s[1..];
      } else {
        assert parts[1..] == rest[1..];
        assert Join(rest, sep) == rest[0] + [sep] + Join(rest[1..], sep);
        assert s == [s[0]] + s[1..];
      }
    }
  }

  /** Splitting a join of separator-free pieces gives the pieces back. */
  lemma {:induction false} SplitJoin(parts: seq<string>, sep: char)
    requires |parts| >= 1
    requires forall i :: 0 <= i < |parts| ==> sep !in parts[i]
    ensures Split(Join(parts, sep), sep) == parts
    decreases |parts|, |parts[0]|
  {
    var p := parts[0];
    if |parts| == 1 {
      SplitFree(p, sep);
    } else if p == [] {
      SplitJoin(parts[1..], sep);
      assert Join(parts, sep) == [sep] + Join(parts[1..], sep);
      assert [""] + parts[1..] == parts;
    } else {
      var tail := [p[1..]] + parts[1..];
      assert tail[1..] == parts[1..];
      SplitJoin(tail, sep);
      assert Join(parts, sep) == [p[0]] + Join(tail, sep) by {
        assert p == [p[0]] + p[1..];
      }
      var j := Join(parts, sep);
      assert j[1..] == Join(tail, sep);
      var rest := Split(j[1..], sep);
      assert rest == tail;
      assert [[p[0]] + rest[0]] + rest[1..] == parts;
    }
  }

  /** A separator-free text splits into itself alone. */
  lemma {:induction false} SplitFree(s: string, sep: char)
    requires sep !in s
    ensures Split(s, sep) == [s]
    decreases |s|
  {
    if s != [] {
      assert s[0] != sep;
      assert sep !in s[1..];
      SplitFree(s[1..], sep);
      assert s == [s[0]] + s[1..];
    }
  }

  /** `[p.strip() for p in parts]`. */
  function StripAll(parts: seq<string>): (r: seq<string>)
    ensures |r| == |parts|
    ensures forall i :: 0 <= i < |r| ==> r[i] == Strip(parts[i])
  {
    seq(|parts|, i requires 0 <= i < |parts| => Strip(parts[i]))
  }

  // ---------------------------------------------------------------------------
  // lower() and lstrip(ch)
  // ---------------------------------------------------------------------------

  /** Lower-casing of one character; only ASCII letters change. */
  function LowerChar(c: char): char {
    if 'A' <= c <= 'Z' then (c as int + 32) as char else c
  }

  /** `s.lower()`, restricted to the ASCII letters. */
  function Lower(s: string): (r: string)
    ensures |r| == |s|
    ensures forall i :: 0 <= i < |s| ==> r[i] == LowerChar(s[i])
  {
    seq(|s|, i requires 0 <= i < |s| => LowerChar(s[i]))
  }

  /** Text without capital letters is its own lower case. */
  lemma LowerFixes(s: string)
    requires forall i :: 0 <= i < |s| ==> !('A' <= s[i] <= 'Z')
    ensures Lower(s) == s
  {
  }

  /** Number of leading copies of `c` in `s`. */
  function LeadingCount(s: string, c: char): (n: nat)
    ensures n <= |s|
    ensures forall i :: 0 <= i < n ==> s[i] == c
    ensures n == |s| || s[n] != c
    decreases |s|
  {
    if s != [] && s[0] == c then 1 + LeadingCount(s[1..], c) else 0
  }

  /** `s.lstrip(c)`: drop every leading copy of `c`. */
  function LStripChar(s: string, c: char): (r: string)
    ensures r == s[LeadingCount(s, c)..]
    ensures r == [] || r[0] != c
  {
    s[LeadingCount(s, c)..]
  }

  /** Stripping a character the text does not start with leaves it as it is. */
  lemma LStripAbsent(s: string, c: char)
    requires s == [] || s[0] != c
    ensures LStripChar(s, c) == s
  {
  }

  /** `n` copies of `c`. */
  function Repeat(c: char, n: nat): (r: string)
    ensures |r| == n
    ensures forall i :: 0 <= i < n ==> r[i] == c
  {
    seq(n, _ => c)
  }

  /** Any number of leading copies of `c` in front of a text that does not start with `c` are what `lstrip` removes. */
  lemma {:induction false} LStripRepeat(c: char, n: nat, w: string)
    requires w == [] || w[0] != c
    ensures LStripChar(Repeat(c, n) + w, c) == w
    decreases n
  {
    var s := Repeat(c, n) + w;
    if n > 0 {
      assert s[1..] == Repeat(c, n - 1) + w;
      LStripRepeat(c, n - 1, w);
      assert LeadingCount(s, c) == 1 + LeadingCount(s[1..], c);
    } else {
      assert s == w;
    }
  }

  /**
   * The converse, after lower-casing: a text whose lower case, stripped of
   * leading `c`, is `t` is some copies of `c` followed by a text whose lower
   * case is `t` (`c` is no lower-case letter, so only `c` lowers to `c`).
   */
  lemma LStripLowerSplit(u: string, c: char, t: string)
    requires !('a' <= c <= 'z')
    requires LStripChar(Lower(u), c) == t
    ensures exists n: nat, w: string :: u == Repeat(c, n) + w && Lower(w) == t
  {
    var l := Lower(u);
    var n := LeadingCount(l, c);
    var w := u[n..];
    forall i | 0 <= i < n ensures u[i] == c {
      assert LowerChar(u[i]) == c;
    }
    assert u[..n] == Repeat(c, n);
    assert u == u[..n] + w;
    assert Lower(w) == l[n..];
  }

  // ---------------------------------------------------------------------------
  // replace(old, new)
  // ---------------------------------------------------------------------------

  /** `p` occurs in `s` starting at index `i`. */
  predicate OccursAt(s: string, p: string, i: int) {
    0 <= i && i + |p| <= |s| && s[i..i + |p|] == p
  }

  /**
   * `s.replace(p, r)` for a non-empty `p`: scan left to right, and at every
   * position where `p` starts, emit `r` and skip past `p`.
   */
  function Replace(s: string, p: string, r: string): string
    requires |p| > 0
    decreases |s|
  {
    if s == [] then []
    else if OccursAt(s, p, 0) then r + Replace(s[|p|..], p, r)
    else [s[0]] + Replace(s[1..], p, r)
  }

  /** A text in which `p` never occurs is unchanged by the replacement. */
  lemma {:induction false} ReplaceAbsent(s: string, p: string, r: string)
    requires |p| > 0
    requires forall i :: 0 <= i < |s| ==> !OccursAt(s, p, i)
    ensures Replace(s, p, r) == s
    decreases |s|
  {
    if s != [] {
      assert !OccursAt(s, p, 0);
      forall i | 0 <= i < |s| - 1 ensures !OccursAt(s[1..], p, i) {
        assert !OccursAt(s, p, i + 1);
        if i + |p| <= |s| - 1 {
          assert s[1..][i..i + |p|] == s[i + 1..i + 1 + |p|];
        }
      }
      ReplaceAbsent(s[1..], p, r);
      assert s == [s[0]] + s[1..];
    }
  }

  /** The pattern itself is replaced by the replacement text. */
  lemma ReplaceWhole(p: string, r: string)
    requires |p| > 0
    ensures Replace(p, p, r) == r
  {
    assert OccursAt(p, p, 0);
    assert p[|p|..] == [];
  }

  /** An occurrence inside `a[k..] + b` is an occurrence inside `a + b`, `k` positions further on. */
  lemma OccursShift(a: string, b: string, k: nat, p: string, i: nat)
    requires k <= |a|
    ensures OccursAt(a[k..] + b, p, i) <==> OccursAt(a + b, p, i + k)
  {
    assert a[k..] + b == (a + b)[k..];
    if i + |p| <= |a[k..] + b| {
      assert (a[k..] + b)[i..i + |p|] == (a + b)[i + k..i + k + |p|];
    }
  }

  /**
   * Replacement distributes over a concatenation when no occurrence of the
   * pattern straddles the seam between the two parts.
   */
  lemma {:induction false} ReplaceConcat(a: string, b: string, p: string, r: string)
    requires |p| > 0
    requires forall i :: 0 <= i < |a| < i + |p| ==> !OccursAt(a + b, p, i)
    ensures Replace(a + b, p, r) == Replace(a, p, r) + Replace(b, p, r)
    decreases |a|
  {
    var s := a + b;
    if a == [] {
      assert s == b;
    } else if OccursAt(s, p, 0) {
      assert |p| <= |a|;
      assert OccursAt(a, p, 0) by { assert a[..|p|] == s[..|p|]; }
      var k := |p|;
      forall i | 0 <= i < |a| - k < i + |p| ensures !OccursAt(a[k..] + b, p, i) {
        OccursShift(a, b, k, p, i);
      }
      ReplaceConcat(a[k..], b, p, r);
      assert s[k..] == a[k..] + b;
    } else {
      assert !OccursAt(a, p, 0) by {
        if |p| <= |a| { assert a[..|p|] == s[..|p|]; }
      }
      forall i | 0 <= i < |a| - 1 < i + |p| ensures !OccursAt(a[1..] + b, p, i) {
        OccursShift(a, b, 1, p, i);
      }
      ReplaceConcat(a[1..], b, p, r);
      assert s[1..] == a[1..] + b;
      assert s[0] == a[0];
    }
  }
}
