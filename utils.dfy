/**
 * The two text utilities of the site: `slugify`, which turns a title into a
 * URL fragment, and `readingTime`, which estimates minutes of reading at 200
 * words a minute.
 */
module Utils {
  import opened Text

  // ---------------------------------------------------------------------
  // slugify

  /** The block U+0300-U+036F of combining diacritical marks. */
  predicate IsCombiningMark(c: char) {
    '\U{300}' <= c <= '\U{36F}'
  }

  predicate IsNotCombiningMark(c: char) {
    !IsCombiningMark(c)
  }

  /** The characters `[a-z0-9 -]` that survive the second filter. */
  predicate IsKept(c: char) {
    ('a' <= c <= 'z') || ('0' <= c <= '9') || c == ' ' || c == '-'
  }

  predicate IsHyphen(c: char) {
    c == '-'
  }

  /** The characters a slug is made of: `[a-z0-9-]`. */
  predicate IsSlugChar(c: char) {
    ('a' <= c <= 'z') || ('0' <= c <= '9') || c == '-'
  }

  /** No hyphen is directly followed by another. */
  predicate NoDoubleHyphen(s: string) {
    forall i :: 0 <= i < |s| - 1 ==> !(s[i] == '-' && s[i + 1] == '-')
  }

  /** The first four steps of `slugify`: lowercase, decompose canonically,
      drop the combining marks U+0300-U+036F, drop everything outside `[a-z0-9 -]`. */
  function Kept(u: Unicode, text: string): (kept: string)
    ensures forall i :: 0 <= i < |kept| ==> IsKept(kept[i])
  {
    var decomposed := FlatMap(u.decompose, Lower(u, text));
    Filter(IsKept, Filter(IsNotCombiningMark, decomposed))
  }

  /** The last three steps of `slugify`: each whitespace run becomes `-`, each
      run of `-` collapses to one, and the ends are trimmed. */
  function Dashed(kept: string): string {
    Trim(ReplaceRuns(ReplaceRuns(kept, IsWhitespace, '-'), IsHyphen, '-'))
  }

  /** `slugify(text)`: a string over `[a-z0-9-]` with no two hyphens in a row. */
  function Slugify(u: Unicode, text: string): (slug: string)
    ensures forall i :: 0 <= i < |slug| ==> IsSlugChar(slug[i])
    ensures NoDoubleHyphen(slug)
  {
    var kept := Kept(u, text);
    SlugAlphabet(kept);
    Dashed(kept)
  }

  /** On characters of `[a-z0-9 -]` the last three steps leave only `[a-z0-9-]`,
      never two hyphens in a row, and nothing for `trim` to remove. */
  lemma SlugAlphabet(kept: string)
    requires forall i :: 0 <= i < |kept| ==> IsKept(kept[i])
    ensures var collapsed := ReplaceRuns(ReplaceRuns(kept, IsWhitespace, '-'), IsHyphen, '-');
      && (forall i :: 0 <= i < |collapsed| ==> IsSlugChar(collapsed[i]))
      && NoDoubleHyphen(collapsed)
      && Dashed(kept) == collapsed
  {
    var dashed := ReplaceRuns(kept, IsWhitespace, '-');
    var collapsed := ReplaceRuns(dashed, IsHyphen, '-');
    ReplaceRunsChars(kept, IsWhitespace, '-');
    forall i | 0 <= i < |dashed| ensures IsSlugChar(dashed[i]) {
      if dashed[i] != '-' {
        var k :| 0 <= k < |kept| && kept[k] == dashed[i];
        assert IsKept(kept[k]);
      }
    }
    ReplaceRunsChars(dashed, IsHyphen, '-');
    forall i | 0 <= i < |collapsed| ensures IsSlugChar(collapsed[i]) {
      if collapsed[i] != '-' {
        var k :| 0 <= k < |dashed| && dashed[k] == collapsed[i];
      }
    }
    ReplaceRunsNoAdjacent(dashed, IsHyphen, '-');
    TrimWithoutWhitespace(collapsed);
  }

  /** A slug is its own slug. */
  lemma SlugifyIdempotent(u: Unicode, text: string)
    requires Conforming(u)
    ensures Slugify(u, Slugify(u, text)) == Slugify(u, text)
  {
    var slug := Slugify(u, text);
    SlugifyFixes(u, slug);
  }

  /** The first four steps leave alone a string over `[a-z0-9 -]`. */
  lemma KeptFixes(u: Unicode, s: string)
    requires Conforming(u)
    requires forall i :: 0 <= i < |s| ==> IsKept(s[i])
    ensures Kept(u, s) == s
  {
    LowerOfLowerAscii(u, s);
    FlatMapIdentity(u.decompose, s);
    assert Filter(IsNotCombiningMark, s) == s;
  }

  /** Every string over `[a-z0-9-]` without a double hyphen is its own slug. */
  lemma SlugifyFixes(u: Unicode, s: string)
    requires Conforming(u)
    requires forall i :: 0 <= i < |s| ==> IsSlugChar(s[i])
    requires NoDoubleHyphen(s)
    ensures Slugify(u, s) == s
  {
    KeptFixes(u, s);
    ReplaceRunsNoOp(s, IsWhitespace, '-');
    ReplaceRunsNoOp(s, IsHyphen, '-');
    TrimWithoutWhitespace(s);
  }

  /** Leading and trailing whitespace become hyphens that the final `trim` keeps:
      " a " gives "-a-". */
  lemma SlugifyKeepsEdgeHyphens(u: Unicode, text: string)
    requires Conforming(u)
    requires text == " a "
    ensures Slugify(u, text) == "-a-"
  {
    KeptFixes(u, text);
    DashedSpaceA(text);
  }

  lemma DashedSpaceA(s: string)
    requires s == " a "
    ensures Dashed(s) == "-a-"
  {
    var dashed := SpaceADashed(s);
    HyphenADashed(dashed);
    TrimWithoutWhitespace(dashed);
  }

  lemma HyphenADashed(s: string)
    requires s == "-a-"
    ensures ReplaceRuns(s, IsHyphen, '-') == s
  {
    assert NoAdjacent(s, IsHyphen);
    ReplaceRunsNoOp(s, IsHyphen, '-');
  }

  lemma SpaceADashed(s: string) returns (dashed: string)
    requires s == " a "
    ensures dashed == "-a-" && ReplaceRuns(s, IsWhitespace, '-') == dashed
  {
    dashed := "-a-";
    assert s[1..] == "a " && DropWhile(IsWhitespace, s[1..]) == "a ";
    assert ReplaceRuns(" ", IsWhitespace, '-') == "-";
    assert ReplaceRuns("a ", IsWhitespace, '-') == "a-";
  }

  /** A letter whose lowercase form decomposes into an ASCII letter followed by
      combining marks loses its accents: "É" gives "e". */
  lemma SlugifyDropsAccents(u: Unicode, c: char, l: char, base: char, marks: string)
    requires u.lower(c) == [l]
    requires u.decompose(l) == [base] + marks
    requires 'a' <= base <= 'z'
    requires forall i :: 0 <= i < |marks| ==> IsCombiningMark(marks[i])
    ensures Slugify(u, [c]) == [base]
  {
    assert [c][0] == c && [c][1..] == [];
    assert FlatMap(u.lower, [c]) == u.lower(c) + FlatMap(u.lower, []);
    assert Lower(u, [c]) == [l];
    assert [l][1..] == [];
    assert FlatMap(u.decompose, [l]) == [base] + marks;
    FilterDropsAll(IsNotCombiningMark, marks);
    assert ([base] + marks)[1..] == marks;
    assert Filter(IsNotCombiningMark, [base] + marks) == [base];
    assert Filter(IsKept, [base]) == [base];
    SlugifyFixesOne(base);
  }

  lemma SlugifyFixesOne(base: char)
    requires 'a' <= base <= 'z'
    ensures Dashed([base]) == [base]
  {
    assert ReplaceRuns([base], IsWhitespace, '-') == [base];
    assert ReplaceRuns([base], IsHyphen, '-') == [base];
    TrimWithoutWhitespace([base]);
  }

  lemma {:induction false} FilterDropsAll(p: char -> bool, s: string)
    requires forall i :: 0 <= i < |s| ==> !p(s[i])
    ensures Filter(p, s) == []
  {
    if s != [] {
      FilterDropsAll(p, s[1..]);
    }
  }

  // ---------------------------------------------------------------------
  // readingTime

  const WordsPerMinute: nat := 200

  /** The number of words: maximal runs of non-whitespace characters. */
  function WordCount(s: string): nat
    decreases |s|
  {
    if s == [] then 0
    else if IsWhitespace(s[0]) then WordCount(s[1..])
    else 1 + WordCount(DropWhile(IsWordChar, s[1..]))
  }

  /** `readingTime(content)`: the number of pieces `content.trim().split(/\s+/)`
      yields, divided by 200 and rounded up. */
  function ReadingTime(content: string): (minutes: nat)
    ensures minutes >= 1
    ensures (minutes - 1) * WordsPerMinute < |Split(Trim(content), IsWhitespace)| <= minutes * WordsPerMinute
  {
    var words := |Split(Trim(content), IsWhitespace)|;
    (words + WordsPerMinute - 1) / WordsPerMinute
  }

  /** The split counts the words, and an empty or blank text still counts as one. */
  lemma ReadingTimeCountsWords(content: string)
    ensures |Split(Trim(content), IsWhitespace)| == if WordCount(content) == 0 then 1 else WordCount(content)
  {
    WordCountTrim(content);
    SplitCount(Trim(content));
  }

  /** Trimming keeps every word. */
  lemma WordCountTrim(content: string)
    ensures WordCount(Trim(content)) == WordCount(content)
  {
    WordCountDropWhitespace(content);
    WordCountTrimEnd(TrimStart(content));
  }

  /** Trailing whitespace holds no word. */
  lemma WordCountTrimEnd(t: string)
    ensures WordCount(TrimEnd(t)) == WordCount(t)
  {
    var r := TrimEnd(t);
    var w := t[|r|..];
    assert t == r + w;
    WordCountAppendWhitespace(r, w);
  }

  /** Reading time is at least one minute, at most 200 words a minute, and
      grows with the word count. */
  lemma ReadingTimeBounds(content: string)
    ensures (ReadingTime(content) - 1) * WordsPerMinute < WordCount(content) || WordCount(content) == 0
    ensures WordCount(content) <= ReadingTime(content) * WordsPerMinute
    ensures WordCount(content) <= WordsPerMinute ==> ReadingTime(content) == 1
  {
    ReadingTimeCountsWords(content);
  }

  lemma ReadingTimeMonotonic(a: string, b: string)
    requires WordCount(a) <= WordCount(b)
    ensures ReadingTime(a) <= ReadingTime(b)
  {
    ReadingTimeCountsWords(a);
    ReadingTimeCountsWords(b);
    var wa := |Split(Trim(a), IsWhitespace)|;
    var wb := |Split(Trim(b), IsWhitespace)|;
    assert wa <= wb;
  }

  /** Leading whitespace holds no word. */
  lemma {:induction false} WordCountDropWhitespace(s: string)
    ensures WordCount(DropWhile(IsWhitespace, s)) == WordCount(s)
  {
    if s != [] && IsWhitespace(s[0]) {
      WordCountDropWhitespace(s[1..]);
    }
  }

  /** Trailing whitespace holds no word. */
  lemma {:induction false} WordCountAppendWhitespace(s: string, w: string)
    requires forall i :: 0 <= i < |w| ==> IsWhitespace(w[i])
    ensures WordCount(s + w) == WordCount(s)
    decreases |s|
  {
    if s == [] {
      assert s + w == w;
      WordCountAllWhitespace(w);
    } else if IsWhitespace(s[0]) {
      WordCountConsSpace(s, w);
      WordCountAppendWhitespace(s[1..], w);
    } else {
      var d := DropWhile(IsWordChar, s[1..]);
      WordCountConsWord(s, w);
      assert w != [] ==> !IsWordChar(w[0]);
      DropWhileAppend(IsWordChar, s[1..], w);
      assert WordCount(s + w) == 1 + WordCount(d + w);
      WordCountAppendWhitespace(d, w);
      assert WordCount(s) == 1 + WordCount(d);
    }
  }

  lemma WordCountConsSpace(s: string, w: string)
    requires s != [] && IsWhitespace(s[0])
    ensures WordCount(s + w) == WordCount(s[1..] + w)
  {
    assert (s + w)[0] == s[0] && (s + w)[1..] == s[1..] + w;
  }

  lemma WordCountConsWord(s: string, w: string)
    requires s != [] && !IsWhitespace(s[0])
    ensures WordCount(s + w) == 1 + WordCount(DropWhile(IsWordChar, s[1..] + w))
  {
    assert (s + w)[0] == s[0] && (s + w)[1..] == s[1..] + w;
  }

  lemma {:induction false} WordCountAllWhitespace(w: string)
    requires forall i :: 0 <= i < |w| ==> IsWhitespace(w[i])
    ensures WordCount(w) == 0
  {
    if w != [] {
      WordCountAllWhitespace(w[1..]);
    }
  }

  /**
   * For a string that does not end in whitespace, `split(/\s+/)` yields one
   * piece per word, plus an empty first piece when the string is empty or
   * starts with whitespace.
   */
  lemma {:induction false} SplitCount(s: string)
    requires s == [] || !IsWhitespace(s[|s| - 1])
    ensures |Split(s, IsWhitespace)| == WordCount(s) + if s == [] || IsWhitespace(s[0]) then 1 else 0
    decreases |s|, 1
  {
    if s != [] {
      if IsWhitespace(s[0]) {
        SplitCountSpace(s);
      } else {
        SplitCountWord(s);
      }
    }
  }

  /** A leading whitespace run gives the empty first piece. */
  lemma {:induction false} SplitCountSpace(s: string)
    requires s != [] && IsWhitespace(s[0]) && !IsWhitespace(s[|s| - 1])
    ensures |Split(s, IsWhitespace)| == WordCount(s) + 1
    decreases |s|, 0
  {
    var d := DropWhile(IsWhitespace, s[1..]);
    assert |Split(s, IsWhitespace)| == 1 + |Split(d, IsWhitespace)|;
    assert d != [] && d[|d| - 1] == s[|s| - 1];
    SplitCount(d);
    WordCountDropWhitespace(s[1..]);
  }

  /** A leading word extends the first piece of the rest. */
  lemma {:induction false} SplitCountWord(s: string)
    requires s != [] && !IsWhitespace(s[0]) && !IsWhitespace(s[|s| - 1])
    ensures |Split(s, IsWhitespace)| == WordCount(s)
    decreases |s|, 0
  {
    var t := s[1..];
    assert |Split(s, IsWhitespace)| == |Split(t, IsWhitespace)|;
    assert WordCount(s) == 1 + WordCount(DropWhile(IsWordChar, t));
    if t != [] {
      assert t[|t| - 1] == s[|s| - 1];
    }
    SplitCount(t);
    if t != [] && !IsWhitespace(t[0]) {
      assert DropWhile(IsWordChar, t) == DropWhile(IsWordChar, t[1..]);
    }
  }
}
