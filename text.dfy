/**
 * String primitives of the JavaScript runtime that the chat widget and the
 * text utilities rely on: the whitespace class shared by `\s` and `trim`,
 * case mapping and canonical decomposition, `includes`, `trim`, and the
 * global regular-expression rewrites `replace(/[...]/g, '')`,
 * `replace(/x+/g, '-')` and `split(/\s+/)`.
 *
 * Strings are sequences of Unicode scalar values.
 */
module Text {

  /** ECMAScript WhiteSpace and LineTerminator code points: exactly the
      characters matched by `\s` and removed by `String.prototype.trim`. */
  predicate IsWhitespace(c: char) {
    || c == '\U{9}' || c == '\U{A}' || c == '\U{B}' || c == '\U{C}' || c == '\U{D}'
    || c == ' ' || c == '\U{A0}' || c == '\U{1680}'
    || ('\U{2000}' <= c <= '\U{200A}')
    || c == '\U{2028}' || c == '\U{2029}' || c == '\U{202F}' || c == '\U{205F}'
    || c == '\U{3000}' || c == '\U{FEFF}'
  }

  predicate IsWordChar(c: char) {
    !IsWhitespace(c)
  }

  predicate IsAscii(c: char) {
    c < '\U{80}'
  }

  predicate IsAsciiUpper(c: char) {
    'A' <= c <= 'Z'
  }

  /** The case mapping `toLowerCase` applies to an ASCII character. */
  function AsciiLower(c: char): (r: char)
    ensures IsAscii(c) ==> IsAscii(r)
    ensures !IsAsciiUpper(r)
    ensures IsAsciiUpper(c) <==> r != c
  {
    if IsAsciiUpper(c) then (c as int + 32) as char else c
  }

  /**
   * The two Unicode tables the source reaches through the runtime, each
   * given per code point: `lower` is the full lowercase mapping used by
   * `toLowerCase`, `decompose` the full canonical decomposition used by
   * `normalize('NFD')`. Both may map one character to several.
   */
  datatype Unicode = Unicode(lower: char -> string, decompose: char -> string)

  /** What the model relies on about the tables: on ASCII, lowercasing maps
      A-Z to a-z and fixes everything else, and decomposition is the identity. */
  ghost predicate Conforming(u: Unicode) {
    && (forall c: char :: IsAscii(c) ==> u.lower(c) == [AsciiLower(c)])
    && (forall c: char :: IsAscii(c) ==> u.decompose(c) == [c])
  }

  /** Applies a per-character mapping to every character and concatenates. */
  function FlatMap(f: char -> string, s: string): (r: string)
  {
    if s == [] then [] else f(s[0]) + FlatMap(f, s[1..])
  }

  lemma {:induction false} FlatMapAppend(f: char -> string, a: string, b: string)
    ensures FlatMap(f, a + b) == FlatMap(f, a) + FlatMap(f, b)
  {
    if a != [] {
      assert (a + b)[0] == a[0] && (a + b)[1..] == a[1..] + b;
      FlatMapAppend(f, a[1..], b);
      calc {
        FlatMap(f, a + b);
        f(a[0]) + FlatMap(f, a[1..] + b);
        f(a[0]) + (FlatMap(f, a[1..]) + FlatMap(f, b));
      }
    } else {
      assert a + b == b;
    }
  }

  /** A mapping that sends every character of `s` to itself leaves `s` alone. */
  lemma {:induction false} FlatMapIdentity(f: char -> string, s: string)
    requires forall i :: 0 <= i < |s| ==> f(s[i]) == [s[i]]
    ensures FlatMap(f, s) == s
  {
    if s != [] {
      FlatMapIdentity(f, s[1..]);
    }
  }

  /**
   * `toLowerCase`, with each code point replaced by its own lowercase mapping.
   * This leaves out the one context-sensitive rule of the Unicode case mapping
   * that `toLowerCase` applies, Final_Sigma (a capital sigma at the end of a word
   * becomes the final form U+03C2, elsewhere U+03C3).
   */
  function Lower(u: Unicode, s: string): string {
    FlatMap(u.lower, s)
  }

  /** Two strings that differ only in the case of ASCII letters. */
  predicate SameUpToAsciiCase(a: string, b: string) {
    |a| == |b| && forall i :: 0 <= i < |a| ==> AsciiLower(a[i]) == AsciiLower(b[i])
  }

  /** Lowercasing cannot tell apart strings that differ only in ASCII case. */
  lemma {:induction false} LowerIgnoresAsciiCase(u: Unicode, a: string, b: string)
    requires Conforming(u)
    requires SameUpToAsciiCase(a, b)
    ensures Lower(u, a) == Lower(u, b)
  {
    if a != [] {
      var x, y := a[0], b[0];
      if IsAscii(x) || IsAscii(y) {
        // a character that some ASCII letter lowercases to is ASCII itself
        assert IsAscii(x) && IsAscii(y);
        assert u.lower(x) == [AsciiLower(x)] && u.lower(y) == [AsciiLower(y)];
      } else {
        assert x == AsciiLower(x) == AsciiLower(y) == y;
      }
      assert SameUpToAsciiCase(a[1..], b[1..]) by {
        forall i | 0 <= i < |a[1..]| ensures AsciiLower(a[1..][i]) == AsciiLower(b[1..][i]) {
          assert a[1..][i] == a[i + 1] && b[1..][i] == b[i + 1];
        }
      }
      LowerIgnoresAsciiCase(u, a[1..], b[1..]);
    }
  }

  /** Lowercasing an ASCII string that has no capital letter changes nothing. */
  lemma LowerOfLowerAscii(u: Unicode, s: string)
    requires Conforming(u)
    requires forall i :: 0 <= i < |s| ==> IsAscii(s[i]) && !IsAsciiUpper(s[i])
    ensures Lower(u, s) == s
  {
    FlatMapIdentity(u.lower, s);
  }

  // ---------------------------------------------------------------------
  // String.prototype.includes

  /** `t` occurs in `s` starting at index `i`. */
  predicate OccursAt(s: string, t: string, i: nat) {
    i + |t| <= |s| && s[i..i + |t|] == t
  }

  /** `s.includes(t)`: `t` occurs in `s` at some position. */
  predicate Includes(s: string, t: string) {
    exists i: nat | i <= |s| :: OccursAt(s, t, i)
  }

  /** The scan `includes` performs: `t` is a prefix of `s`, or occurs in the rest of `s`. */
  lemma IncludesStep(s: string, t: string)
    ensures Includes(s, t) <==> t <= s || (s != [] && Includes(s[1..], t))
  {
    if Includes(s, t) && !(t <= s) {
      var i: nat :| i <= |s| && OccursAt(s, t, i);
      assert i != 0;
      assert s[1..][i - 1..i - 1 + |t|] == s[i..i + |t|];
      assert OccursAt(s[1..], t, i - 1);
    }
    if t <= s {
      assert OccursAt(s, t, 0);
    } else if s != [] && Includes(s[1..], t) {
      var i: nat :| i <= |s[1..]| && OccursAt(s[1..], t, i);
      assert s[i + 1..i + 1 + |t|] == s[1..][i..i + |t|];
      assert OccursAt(s, t, i + 1);
    }
  }

  lemma IncludesLength(s: string, t: string)
    requires Includes(s, t)
    ensures |t| <= |s|
  {
  }

  /** A string occurs wherever it is placed. */
  lemma IncludesInfix(a: string, t: string, b: string)
    ensures Includes(a + t + b, t)
  {
    assert (a + t + b)[|a|..|a| + |t|] == t;
    assert OccursAt(a + t + b, t, |a|);
  }

  /** A string cannot occur where one of its characters is missing. */
  lemma IncludesMissingChar(s: string, t: string, c: char)
    requires c in t && c !in s
    ensures !Includes(s, t)
  {
    var k :| 0 <= k < |t| && t[k] == c;
    forall i: nat | i + |t| <= |s| ensures !OccursAt(s, t, i) {
      assert s[i..i + |t|][k] == s[i + k] != c;
    }
  }

  /** An occurrence of `t` cannot straddle a character that `t` lacks. */
  lemma IncludesAcrossSeparator(a: string, c: char, b: string, t: string)
    requires c !in t
    requires Includes(a + [c] + b, t)
    ensures Includes(a, t) || Includes(b, t)
  {
    var s := a + [c] + b;
    var i: nat :| i <= |s| && OccursAt(s, t, i);
    if i + |t| <= |a| {
      assert s[i..i + |t|] == a[i..i + |t|];
      assert OccursAt(a, t, i);
    } else if i > |a| {
      assert s[i..i + |t|] == b[i - |a| - 1..i - |a| - 1 + |t|];
      assert OccursAt(b, t, i - |a| - 1);
    } else {
      OccursAtIndex(s, t, i, |a| - i);
      assert false;
    }
  }

  lemma OccursAtIndex(s: string, t: string, i: nat, k: nat)
    requires OccursAt(s, t, i) && k < |t|
    ensures s[i + k] == t[k]
  {
    assert s[i..i + |t|][k] == s[i + k];
  }

  // ---------------------------------------------------------------------
  // Filtering, trimming, run replacement and splitting

  /** `s.replace(/[^...]/g, '')`: keeps the characters that satisfy `p`, in order. */
  function Filter(p: char -> bool, s: string): (r: string)
    ensures forall i :: 0 <= i < |r| ==> p(r[i]) && r[i] in s
    ensures forall i :: 0 <= i < |s| && p(s[i]) ==> s[i] in r
    ensures (forall i :: 0 <= i < |s| ==> p(s[i])) ==> r == s
  {
    if s == [] then []
    else if p(s[0]) then [s[0]] + Filter(p, s[1..])
    else Filter(p, s[1..])
  }

  /** Filtering works piece by piece and keeps the order of the pieces. */
  lemma {:induction false} FilterAppend(p: char -> bool, a: string, b: string)
    ensures Filter(p, a + b) == Filter(p, a) + Filter(p, b)
  {
    if a == [] {
      assert a + b == b;
    } else {
      var ab := a + b;
      assert ab[0] == a[0] && ab[1..] == a[1..] + b;
      FilterAppend(p, a[1..], b);
      var fa, fb := Filter(p, a[1..]), Filter(p, b);
      assert Filter(p, ab) == (if p(a[0]) then [a[0]] else []) + (fa + fb);
      assert Filter(p, a) == (if p(a[0]) then [a[0]] else []) + fa;
    }
  }

  /** The longest suffix of `s` that does not start with a character satisfying `p`. */
  function DropWhile(p: char -> bool, s: string): (r: string)
    ensures |r| <= |s| && r == s[|s| - |r|..]
    ensures forall i :: 0 <= i < |s| - |r| ==> p(s[i])
    ensures r == [] || !p(r[0])
  {
    if s != [] && p(s[0]) then
      var r := DropWhile(p, s[1..]);
      assert s[1..][|s| - 1 - |r|..] == s[|s| - |r|..];
      r
    else s
  }

  /** Dropping from the front stops where the second part begins if it starts outside `p`. */
  lemma {:induction false} DropWhileAppend(p: char -> bool, a: string, b: string)
    requires b == [] || !p(b[0])
    ensures DropWhile(p, a + b) == DropWhile(p, a) + b
  {
    if a == [] {
      assert a + b == b;
    } else {
      assert (a + b)[0] == a[0] && (a + b)[1..] == a[1..] + b;
      if p(a[0]) {
        DropWhileAppend(p, a[1..], b);
      }
    }
  }

  /** `trimStart`: the longest suffix of `s` not starting with whitespace. */
  function TrimStart(s: string): (r: string)
    ensures |r| <= |s| && r == s[|s| - |r|..]
    ensures forall i :: 0 <= i < |s| - |r| ==> IsWhitespace(s[i])
    ensures r == [] || !IsWhitespace(r[0])
  {
    DropWhile(IsWhitespace, s)
  }

  /** `trimEnd`: the longest prefix of `s` that does not end in whitespace. */
  function TrimEnd(s: string): (r: string)
    ensures |r| <= |s| && r == s[..|r|]
    ensures forall i :: |r| <= i < |s| ==> IsWhitespace(s[i])
    ensures r == [] || !IsWhitespace(r[|r| - 1])
  {
    if s != [] && IsWhitespace(s[|s| - 1]) then TrimEnd(s[..|s| - 1]) else s
  }

  /** `trim`: whitespace removed from both ends. */
  function Trim(s: string): (r: string)
    ensures r == [] || (IsWordChar(r[0]) && IsWordChar(r[|r| - 1]))
  {
    var t := TrimStart(s);
    var r := TrimEnd(t);
    assert r != [] ==> r[0] == t[0];
    r
  }

  /** `trim` keeps the part of `s` between its leading and trailing whitespace. */
  lemma TrimInfix(s: string)
    ensures OccursAt(s, Trim(s), |s| - |TrimStart(s)|)
  {
    var t := TrimStart(s);
    var r := TrimEnd(t);
    var i := |s| - |t|;
    assert t == s[i..];
    assert r == t[..|r|];
    assert s[i..i + |r|] == t[..|r|];
  }

  /** `trim` leaves alone a string that neither starts nor ends with whitespace. */
  lemma TrimNoOp(s: string)
    requires s == [] || (IsWordChar(s[0]) && IsWordChar(s[|s| - 1]))
    ensures Trim(s) == s
  {
  }

  /** `trim` removes nothing but whitespace: a string without any is left alone. */
  lemma TrimWithoutWhitespace(s: string)
    requires forall i :: 0 <= i < |s| ==> IsWordChar(s[i])
    ensures Trim(s) == s
  {
    TrimNoOp(s);
  }

  /** `Trim(s)` is empty exactly when `s` holds nothing but whitespace
      (so `!s.trim()` is JavaScript's blank-input test). */
  lemma TrimEmptyIff(s: string)
    ensures Trim(s) == [] <==> forall i :: 0 <= i < |s| ==> IsWhitespace(s[i])
  {
    var t := TrimStart(s);
    if !forall i :: 0 <= i < |s| ==> IsWhitespace(s[i]) {
      var i :| 0 <= i < |s| && !IsWhitespace(s[i]);
      assert t[0] == s[|s| - |t|];
    }
  }

  /**
   * `s.replace(/x+/g, c)` where `x` is the character class `p`: every maximal
   * run of characters satisfying `p` is replaced by the single character `c`.
   */
  function ReplaceRuns(s: string, p: char -> bool, c: char): (r: string)
    decreases |s|
  {
    if s == [] then []
    else if p(s[0]) then [c] + ReplaceRuns(DropWhile(p, s[1..]), p, c)
    else [s[0]] + ReplaceRuns(s[1..], p, c)
  }

  /** Every character of the result is the replacement or a character of `s` outside the class. */
  lemma {:induction false} ReplaceRunsChars(s: string, p: char -> bool, c: char)
    ensures forall i :: 0 <= i < |ReplaceRuns(s, p, c)| ==>
      ReplaceRuns(s, p, c)[i] == c || (!p(ReplaceRuns(s, p, c)[i]) && ReplaceRuns(s, p, c)[i] in s)
  {
    if s != [] {
      if p(s[0]) {
        var rest := DropWhile(p, s[1..]);
        ReplaceRunsChars(rest, p, c);
        assert forall x :: x in rest ==> x in s;
      } else {
        ReplaceRunsChars(s[1..], p, c);
      }
    }
  }

  /** No two characters of `s` in a row both belong to the class `p`. */
  predicate NoAdjacent(s: string, p: char -> bool) {
    forall i :: 0 <= i < |s| - 1 ==> !(p(s[i]) && p(s[i + 1]))
  }

  /** The result starts with the replacement exactly when `s` starts inside the class. */
  lemma ReplaceRunsHead(s: string, p: char -> bool, c: char)
    requires s != []
    ensures ReplaceRuns(s, p, c) != []
    ensures ReplaceRuns(s, p, c)[0] == if p(s[0]) then c else s[0]
  {
  }

  /** When the replacement itself is in the class, the result has no two class characters in a row. */
  lemma {:induction false} ReplaceRunsNoAdjacent(s: string, p: char -> bool, c: char)
    requires p(c)
    ensures NoAdjacent(ReplaceRuns(s, p, c), p)
  {
    if s != [] {
      var r := ReplaceRuns(s, p, c);
      if p(s[0]) {
        var rest := DropWhile(p, s[1..]);
        ReplaceRunsNoAdjacent(rest, p, c);
        if rest != [] {
          ReplaceRunsHead(rest, p, c);
        }
        assert r == [c] + ReplaceRuns(rest, p, c);
      } else {
        ReplaceRunsNoAdjacent(s[1..], p, c);
        assert r == [s[0]] + ReplaceRuns(s[1..], p, c);
      }
    }
  }

  /** A string whose class characters are all `c` and never adjacent is left unchanged. */
  lemma {:induction false} ReplaceRunsNoOp(s: string, p: char -> bool, c: char)
    requires forall i :: 0 <= i < |s| ==> p(s[i]) ==> s[i] == c
    requires NoAdjacent(s, p)
    ensures ReplaceRuns(s, p, c) == s
  {
    if s != [] {
      if p(s[0]) {
        assert |s| > 1 ==> !p(s[1]);
        assert DropWhile(p, s[1..]) == s[1..];
      }
      ReplaceRunsNoOp(s[1..], p, c);
    }
  }

  /** Characters outside the class survive `replace(/x+/g, c)`, all of them and
      in order, when the replacement is itself in the class (`q` is the
      complement of `p`). */
  lemma {:induction false} ReplaceRunsKeepsOthers(s: string, p: char -> bool, q: char -> bool, c: char)
    requires forall x :: q(x) <==> !p(x)
    requires p(c)
    ensures Filter(q, ReplaceRuns(s, p, c)) == Filter(q, s)
    decreases |s|
  {
    if s != [] {
      if p(s[0]) {
        var rest := DropWhile(p, s[1..]);
        ReplaceRunsKeepsOthers(rest, p, q, c);
        FilterSkipsRun(s[1..], p, q);
        assert ([c] + ReplaceRuns(rest, p, c))[1..] == ReplaceRuns(rest, p, c);
      } else {
        ReplaceRunsKeepsOthers(s[1..], p, q, c);
        assert ([s[0]] + ReplaceRuns(s[1..], p, c))[1..] == ReplaceRuns(s[1..], p, c);
      }
    }
  }

  /** A leading run of the class holds nothing the complement keeps. */
  lemma {:induction false} FilterSkipsRun(s: string, p: char -> bool, q: char -> bool)
    requires forall x :: q(x) <==> !p(x)
    ensures Filter(q, DropWhile(p, s)) == Filter(q, s)
  {
    if s != [] && p(s[0]) {
      FilterSkipsRun(s[1..], p, q);
    }
  }

  /** `s.split(/x+/)` where `x` is the class `p`: the pieces between maximal runs. */
  function Split(s: string, p: char -> bool): (pieces: seq<string>)
    ensures |pieces| >= 1
    decreases |s|
  {
    if s == [] then [[]]
    else if p(s[0]) then [[]] + Split(DropWhile(p, s[1..]), p)
    else
      var rest := Split(s[1..], p);
      [[s[0]] + rest[0]] + rest[1..]
  }
}
