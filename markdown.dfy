/**
 * Telegram MarkdownV2 escaping (`escape_markdown`) and the operator's
 * key-message template, whose `{key}`, `{days}` and `{user}` placeholders are
 * filled with escaped values by three chained `str.replace` calls.
 */
module Markdown {
  import opened Strings
  import opened Numbers

  // ---------------------------------------------------------------------------
  // escape_markdown
  // ---------------------------------------------------------------------------

  /** The characters `escape_markdown` puts a backslash in front of. */
  const EscapeChars: string := "_*[]()~`>#+-=|{}.!"

  predicate IsSpecial(c: char) {
    c in EscapeChars
  }

  /** How many characters of `s` need escaping. */
  function CountSpecial(s: string): nat
    decreases |s|
  {
    if s == [] then 0 else (if IsSpecial(s[0]) then 1 else 0) + CountSpecial(s[1..])
  }

  /** One character as `escape_markdown` writes it. */
  function EscapeChar(c: char): string {
    if IsSpecial(c) then ['\\', c] else [c]
  }

  /**
   * `escape_markdown(text)`: every special character gets one backslash in
   * front of it, every other character is copied, and empty text gives "".
   */
  function EscapeMarkdown(s: string): (r: string)
    ensures s == [] ==> r == []
    ensures |r| == |s| + CountSpecial(s)
    decreases |s|
  {
    if s == [] then "" else EscapeChar(s[0]) + EscapeMarkdown(s[1..])
  }

  /** Escaping works character by character, so it distributes over concatenation. */
  lemma {:induction false} EscapeConcat(a: string, b: string)
    ensures EscapeMarkdown(a + b) == EscapeMarkdown(a) + EscapeMarkdown(b)
    decreases |a|
  {
    if a == [] {
      assert a + b == b;
    } else {
      assert (a + b)[1..] == a[1..] + b;
      EscapeConcat(a[1..], b);
    }
  }

  /** Escaped text never starts with a special character: it starts with a backslash or a plain one. */
  lemma EscapeStartsPlain(s: string)
    ensures EscapeMarkdown(s) == [] || !IsSpecial(EscapeMarkdown(s)[0])
  {
  }

  /** Drop the backslash in front of every escaped special character. */
  function Unescape(r: string): string
    decreases |r|
  {
    if r == [] then []
    else if |r| >= 2 && r[0] == '\\' && IsSpecial(r[1]) then [r[1]] + Unescape(r[2..])
    else [r[0]] + Unescape(r[1..])
  }

  /** Removing the added backslashes recovers the original text. */
  lemma {:induction false} UnescapeEscape(s: string)
    ensures Unescape(EscapeMarkdown(s)) == s
    decreases |s|
  {
    if s != [] {
      var rest := EscapeMarkdown(s[1..]);
      var r := EscapeMarkdown(s);
      UnescapeEscape(s[1..]);
      if IsSpecial(s[0]) {
        assert r == ['\\', s[0]] + rest;
        assert r[2..] == rest;
      } else {
        assert r == [s[0]] + rest;
        assert r[1..] == rest;
        EscapeStartsPlain(s[1..]);
        assert !(|r| >= 2 && r[0] == '\\' && IsSpecial(r[1]));
      }
      assert s == [s[0]] + s[1..];
    }
  }

  /** In escaped text, every special character sits right after a backslash: none is left bare. */
  lemma {:induction false} EscapeGuardsSpecials(s: string)
    ensures forall j :: 0 <= j < |EscapeMarkdown(s)| && IsSpecial(EscapeMarkdown(s)[j]) ==>
              j > 0 && EscapeMarkdown(s)[j - 1] == '\\'
    decreases |s|
  {
    if s != [] {
      EscapeGuardsSpecials(s[1..]);
      var head := EscapeChar(s[0]);
      var rest := EscapeMarkdown(s[1..]);
      var r := EscapeMarkdown(s);
      assert r == head + rest;
      EscapeStartsPlain(s[1..]);
      forall j | 0 <= j < |r| && IsSpecial(r[j]) ensures j > 0 && r[j - 1] == '\\' {
        if j >= |head| {
          assert r[j] == rest[j - |head|];
          if j > |head| {
            assert r[j - 1] == rest[j - |head| - 1];
          }
        }
      }
    }
  }

  // ---------------------------------------------------------------------------
  // The custom key message
  // ---------------------------------------------------------------------------

  /**
   * The custom key message: `{key}`, then `{days}`, then `{user}` are
   * replaced, in that order, by the escaped key text, the escaped decimal
   * duration and the escaped first name of the claimant.
   */
  function RenderKeyMessage(template: string, keyText: string, days: int, firstName: string): (r: string)
    ensures '{' !in template ==> r == template
  {
    var withKey := Replace(template, "{key}", EscapeMarkdown(keyText));
    var withDays := Replace(withKey, "{days}", EscapeMarkdown(IntToString(days)));
    var out := Replace(withDays, "{user}", EscapeMarkdown(firstName));
    if '{' in template then out
    else
      SlotFacts();
      ReplaceBraceFree(template, "{key}", EscapeMarkdown(keyText));
      ReplaceBraceFree(template, "{days}", EscapeMarkdown(IntToString(days)));
      ReplaceBraceFree(template, "{user}", EscapeMarkdown(firstName));
      out
  }

  /** A template read as literal text and placeholders. */
  datatype Piece = Literal(text: string) | KeySlot | DaysSlot | UserSlot

  /** Each piece as a string, with `k`, `d` and `u` standing for the three placeholders. */
  function Layout(ps: seq<Piece>, k: string, d: string, u: string): (cs: seq<string>)
    ensures |cs| == |ps|
  {
    seq(|ps|, i requires 0 <= i < |ps| =>
      match ps[i]
      case Literal(t) => t
      case KeySlot => k
      case DaysSlot => d
      case UserSlot => u)
  }

  function Concat(cs: seq<string>): string
    decreases |cs|
  {
    if cs == [] then "" else cs[0] + Concat(cs[1..])
  }

  /** The template text the operator writes for a sequence of pieces. */
  function TemplateText(ps: seq<Piece>): string {
    Concat(Layout(ps, "{key}", "{days}", "{user}"))
  }

  /** The only braces of the template are those of its placeholders. */
  predicate BraceFreeLiterals(ps: seq<Piece>) {
    forall i :: 0 <= i < |ps| && ps[i].Literal? ==> '{' !in ps[i].text && '}' !in ps[i].text
  }

  /**
   * Rendering a template whose literal text holds no braces puts the escaped
   * key, duration and name exactly where the placeholders were and leaves
   * the literal text as written: a value is never itself mistaken for a
   * placeholder by a later replacement.
   */
  lemma RenderFillsPlaceholders(ps: seq<Piece>, keyText: string, days: int, firstName: string)
    requires BraceFreeLiterals(ps)
    ensures RenderKeyMessage(TemplateText(ps), keyText, days, firstName)
         == Concat(Layout(ps, EscapeMarkdown(keyText), EscapeMarkdown(IntToString(days)), EscapeMarkdown(firstName)))
  {
    var ek, ed, eu := EscapeMarkdown(keyText), EscapeMarkdown(IntToString(days)), EscapeMarkdown(firstName);
    SlotFacts();
    EscapeCloseSafe(keyText);
    EscapeCloseSafe(IntToString(days));
    EscapeCloseSafe(firstName);

    PassOverLayout(ps, "{key}", "{days}", "{user}", "{key}", ek);
    ReplaceWhole("{key}", ek);
    ReplaceOtherSlot("{days}", "{key}", ek);
    ReplaceOtherSlot("{user}", "{key}", ek);

    PassOverLayout(ps, ek, "{days}", "{user}", "{days}", ed);
    ReplaceEscaped(keyText, "{days}", ed);
    ReplaceWhole("{days}", ed);
    ReplaceOtherSlot("{user}", "{days}", ed);

    PassOverLayout(ps, ek, ed, "{user}", "{user}", eu);
    ReplaceEscaped(keyText, "{user}", eu);
    ReplaceEscaped(IntToString(days), "{user}", eu);
    ReplaceWhole("{user}", eu);
  }

  // --- Proof machinery for the template lemma ---------------------------------

  predicate IsLetter(c: char) {
    'a' <= c <= 'z'
  }

  /** A placeholder: a brace, one or more lower-case letters, a closing brace. */
  predicate IsSlotPattern(p: string) {
    |p| >= 3 && p[0] == '{' && p[|p| - 1] == '}' && forall i :: 0 < i < |p| - 1 ==> IsLetter(p[i])
  }

  lemma SlotFacts()
    ensures IsSlotPattern("{key}") && IsSlotPattern("{days}") && IsSlotPattern("{user}")
    ensures CloseSafe("{key}") && CloseSafe("{days}") && CloseSafe("{user}")
  {
    assert LetterRun("{key}") == 0;
    assert LetterRun("{days}") == 0;
    assert LetterRun("{user}") == 0;
  }

  /** Length of the run of letters a string starts with. */
  function LetterRun(s: string): (n: nat)
    ensures n <= |s|
    ensures forall i :: 0 <= i < n ==> IsLetter(s[i])
    ensures n == |s| || !IsLetter(s[n])
    decreases |s|
  {
    if s != [] && IsLetter(s[0]) then 1 + LetterRun(s[1..]) else 0
  }

  /** A string that does not start with letters followed by `}`: no placeholder can end inside it after starting earlier. */
  predicate CloseSafe(s: string) {
    LetterRun(s) == |s| || s[LetterRun(s)] != '}'
  }

  lemma {:induction false} LetterRunConcat(a: string, b: string)
    ensures LetterRun(a + b) == if LetterRun(a) < |a| then LetterRun(a) else |a| + LetterRun(b)
    decreases |a|
  {
    if a == [] {
      assert a + b == b;
    } else if IsLetter(a[0]) {
      assert (a + b)[1..] == a[1..] + b;
      LetterRunConcat(a[1..], b);
    }
  }

  lemma CloseSafeConcat(a: string, b: string)
    requires CloseSafe(a) && CloseSafe(b)
    ensures CloseSafe(a + b)
  {
    LetterRunConcat(a, b);
    if LetterRun(a) == |a| {
      assert (a + b)[|a| + LetterRun(b)..] == b[LetterRun(b)..];
    }
  }

  lemma {:induction false} EscapeCloseSafe(s: string)
    ensures CloseSafe(EscapeMarkdown(s))
    decreases |s|
  {
    if s != [] {
      EscapeCloseSafe(s[1..]);
      var head := EscapeChar(s[0]);
      assert IsSpecial('}');
      assert CloseSafe(head) by {
        if IsSpecial(s[0]) { assert LetterRun(head) == 0; }
      }
      CloseSafeConcat(head, EscapeMarkdown(s[1..]));
    }
  }

  /** A string that starts with exactly `m` letters and then a non-letter has a letter run of `m`. */
  lemma {:induction false} LetterRunIs(b: string, m: nat)
    ensures m < |b| && !IsLetter(b[m]) && (forall j :: 0 <= j < m ==> IsLetter(b[j])) ==> LetterRun(b) == m
    decreases m
  {
    if m > 0 && |b| > 0 {
      LetterRunIs(b[1..], m - 1);
    }
  }

  /** A placeholder match that straddled the seam would make `b` start with letters and `}`. */
  lemma NoSlotAcrossSeam(a: string, b: string, p: string)
    requires IsSlotPattern(p) && CloseSafe(b)
    ensures forall i :: 0 <= i < |a| < i + |p| ==> !OccursAt(a + b, p, i)
  {
    forall i | 0 <= i < |a| < i + |p| ensures !OccursAt(a + b, p, i) {
      var k := |a| - i;
      var m := |p| - k - 1;
      LetterRunIs(b, m);
      if i + |p| <= |a + b| {
        forall j | 0 <= j <= m ensures (a + b)[i..i + |p|][k + j] == b[j] {
        }
      }
    }
  }

  lemma {:induction false} ConcatCloseSafe(cs: seq<string>)
    requires forall i :: 0 <= i < |cs| ==> CloseSafe(cs[i])
    ensures CloseSafe(Concat(cs))
    decreases |cs|
  {
    if cs != [] {
      ConcatCloseSafe(cs[1..]);
      CloseSafeConcat(cs[0], Concat(cs[1..]));
    } else {
      assert LetterRun("") == 0;
    }
  }

  function MapReplace(cs: seq<string>, p: string, r: string): (rs: seq<string>)
    requires |p| > 0
    ensures |rs| == |cs|
    ensures forall i :: 0 <= i < |cs| ==> rs[i] == Replace(cs[i], p, r)
  {
    seq(|cs|, i requires 0 <= i < |cs| => Replace(cs[i], p, r))
  }

  /** Replacing a placeholder in a concatenation of close-safe chunks replaces it chunk by chunk. */
  lemma {:induction false} ReplaceChunks(cs: seq<string>, p: string, r: string)
    requires IsSlotPattern(p)
    requires forall i :: 0 <= i < |cs| ==> CloseSafe(cs[i])
    ensures Replace(Concat(cs), p, r) == Concat(MapReplace(cs, p, r))
    decreases |cs|
  {
    if cs != [] {
      ConcatCloseSafe(cs[1..]);
      NoSlotAcrossSeam(cs[0], Concat(cs[1..]), p);
      ReplaceConcat(cs[0], Concat(cs[1..]), p, r);
      ReplaceChunks(cs[1..], p, r);
      assert MapReplace(cs, p, r)[1..] == MapReplace(cs[1..], p, r);
    }
  }

  /** Text without `{` holds no placeholder. */
  lemma ReplaceBraceFree(s: string, p: string, r: string)
    requires IsSlotPattern(p) && '{' !in s
    ensures Replace(s, p, r) == s
  {
    forall i | 0 <= i < |s| ensures !OccursAt(s, p, i) {
      assert s[i] in s;
      if i + |p| <= |s| {
        assert s[i..i + |p|][0] == s[i];
      }
    }
    ReplaceAbsent(s, p, r);
  }

  /** Escaped text holds no placeholder: its every `}` follows a backslash. */
  lemma ReplaceEscaped(x: string, p: string, r: string)
    requires IsSlotPattern(p)
    ensures Replace(EscapeMarkdown(x), p, r) == EscapeMarkdown(x)
  {
    var e := EscapeMarkdown(x);
    EscapeGuardsSpecials(x);
    assert IsSpecial('}');
    forall i | 0 <= i < |e| ensures !OccursAt(e, p, i) {
      if i + |p| <= |e| {
        var j := i + |p| - 1;
        assert e[j] == e[i..i + |p|][|p| - 1];
        assert e[j - 1] == e[i..i + |p|][|p| - 2];
      }
    }
    ReplaceAbsent(e, p, r);
  }

  /** One placeholder holds no other placeholder. */
  lemma ReplaceOtherSlot(q: string, p: string, r: string)
    requires IsSlotPattern(q) && IsSlotPattern(p) && q != p
    ensures Replace(q, p, r) == q
  {
    forall i | 0 <= i < |q| ensures !OccursAt(q, p, i) {
      if i + |p| <= |q| {
        assert q[i] == q[i..i + |p|][0];
        if i == 0 && |p| < |q| {
          assert q[|p| - 1] == q[..|p|][|p| - 1];
        }
      }
    }
    ReplaceAbsent(q, p, r);
  }

  lemma LiteralCloseSafe(s: string)
    requires '}' !in s
    ensures CloseSafe(s)
  {
    if LetterRun(s) < |s| {
      assert s[LetterRun(s)] in s;
    }
  }

  /** One replacement pass over a laid-out template, chunk by chunk. */
  lemma PassOverLayout(ps: seq<Piece>, k: string, d: string, u: string, p: string, r: string)
    requires BraceFreeLiterals(ps) && IsSlotPattern(p)
    requires CloseSafe(k) && CloseSafe(d) && CloseSafe(u)
    ensures Replace(Concat(Layout(ps, k, d, u)), p, r)
         == Concat(Layout(ps, Replace(k, p, r), Replace(d, p, r), Replace(u, p, r)))
  {
    var cs := Layout(ps, k, d, u);
    forall i | 0 <= i < |cs| ensures CloseSafe(cs[i]) {
      if ps[i].Literal? { LiteralCloseSafe(ps[i].text); }
    }
    ReplaceChunks(cs, p, r);
    var after := Layout(ps, Replace(k, p, r), Replace(d, p, r), Replace(u, p, r));
    forall i | 0 <= i < |cs| ensures MapReplace(cs, p, r)[i] == after[i] {
      if ps[i].Literal? { ReplaceBraceFree(ps[i].text, p, r); }
    }
    assert MapReplace(cs, p, r) == after;
  }
}
