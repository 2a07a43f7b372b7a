/**
 * The `java.lang.String` operations the library relies on, over `seq<char>`:
 * `trim()`, `isBlank()`, `toLowerCase(Locale.ROOT)`, `contains`, regex splitting on `\s+`
 * and splitting on a single character.
 */
module Text {

  /** `String.trim()` strips every code point at or below U+0020 from both ends. */
  predicate IsTrimmable(c: char) { c <= ' ' }

  function TrimStart(s: string): (r: string)
    ensures |r| <= |s|
    ensures r == [] || !IsTrimmable(r[0])
  {
    if s == [] || !IsTrimmable(s[0]) then s else TrimStart(s[1..])
  }

  function TrimEnd(s: string): (r: string)
    ensures |r| <= |s|
    ensures r == [] || !IsTrimmable(r[|r| - 1])
    ensures r != [] ==> r[0] == s[0]
  {
    if s == [] || !IsTrimmable(s[|s| - 1]) then s else TrimEnd(s[..|s| - 1])
  }

  /** `TrimStart` drops a trimmable prefix and keeps the rest. */
  lemma {:induction false} TrimStartSuffix(s: string)
    ensures var r := TrimStart(s); r == s[|s| - |r|..] && AllTrimmable(s[..|s| - |r|])
  {
    if s != [] && IsTrimmable(s[0]) {
      TrimStartSuffix(s[1..]);
      var r := TrimStart(s[1..]);
      assert s[1..][..|s| - 1 - |r|] == s[1..|s| - |r|];
    }
  }

  /** `TrimEnd` drops a trimmable suffix and keeps the rest. */
  lemma {:induction false} TrimEndPrefix(s: string)
    ensures var r := TrimEnd(s); r == s[..|r|] && AllTrimmable(s[|r|..])
  {
    if s != [] && IsTrimmable(s[|s| - 1]) {
      TrimEndPrefix(s[..|s| - 1]);
      var r := TrimEnd(s[..|s| - 1]);
      assert s[..|s| - 1][|r|..] == s[|r|..|s| - 1];
    }
  }

  function Trim(s: string): (r: string)
    ensures r == [] || (!IsTrimmable(r[0]) && !IsTrimmable(r[|r| - 1]))
  {
    TrimEnd(TrimStart(s))
  }

  /**
   * `Trim(s)` is the infix of `s` between a trimmable prefix and a trimmable suffix; with the
   * ends `Trim` ensures, that is exactly what `String.trim()` returns.
   */
  lemma TrimInfix(s: string)
    ensures exists i, j :: 0 <= i <= j <= |s| && Trim(s) == s[i..j] && AllTrimmable(s[..i]) && AllTrimmable(s[j..])
  {
    var t := TrimStart(s);
    TrimStartSuffix(s);
    TrimEndPrefix(t);
    var i := |s| - |t|;
    var r := TrimEnd(t);
    var j := i + |r|;
    assert r == s[i..j];
    assert s[j..] == t[|r|..];
  }

  /** A string with no trimmable character at either end is its own trim. */
  lemma TrimOfTrimmed(s: string)
    requires s == [] || (!IsTrimmable(s[0]) && !IsTrimmable(s[|s| - 1]))
    ensures Trim(s) == s
  {
  }

  /** Lower-casing distributes over concatenation. */
  lemma {:induction false} LowerAppend(a: string, b: string)
    ensures Lower(a + b) == Lower(a) + Lower(b)
  {
    if a == [] {
      assert a + b == b;
    } else {
      LowerAppend(a[1..], b);
      assert (a + b)[0] == a[0] && (a + b)[1..] == a[1..] + b;
    }
  }

  /** `Character.isWhitespace`: ASCII separators, the four information separators and the Unicode spaces that are not no-break spaces. */
  predicate IsWhitespace(c: char) {
    c == ' ' || ('\t' <= c <= '\r') || ('\U{1C}' <= c <= '\U{1F}')
    || c == '\U{1680}' || ('\U{2000}' <= c <= '\U{2006}') || ('\U{2008}' <= c <= '\U{200A}')
    || c == '\U{2028}' || c == '\U{2029}' || c == '\U{205F}' || c == '\U{3000}'
  }

  /** `String.isBlank()`: empty, or whitespace only. */
  predicate IsBlank(s: string) { forall i :: 0 <= i < |s| ==> IsWhitespace(s[i]) }

  /** `toLowerCase(Locale.ROOT)` on one character, for ASCII and the basic Cyrillic block. */
  function LowerChar(c: char): char {
    if 'A' <= c <= 'Z' then (c as int + 32) as char
    else if '\U{410}' <= c <= '\U{42F}' then (c as int + 32) as char
    else if '\U{400}' <= c <= '\U{40F}' then (c as int + 80) as char
    else c
  }

  function Lower(s: string): (r: string)
    ensures |r| == |s|
  {
    if s == [] then [] else [LowerChar(s[0])] + Lower(s[1..])
  }

  /** `v.trim().toLowerCase(Locale.ROOT)`, the normalisation most of the library applies to attributes. */
  function TrimLower(v: string): string { Lower(Trim(v)) }

  /** The i-th character of the lower-cased text is the lower-cased i-th character. */
  lemma {:induction false} LowerAt(s: string, i: int)
    requires 0 <= i < |s|
    ensures Lower(s)[i] == LowerChar(s[i])
  {
    if i > 0 { LowerAt(s[1..], i - 1); }
  }

  lemma {:induction false} LowerIdempotent(s: string)
    ensures Lower(Lower(s)) == Lower(s)
  {
    if s != [] { LowerIdempotent(s[1..]); }
  }

  /** Lower-casing after trimming needs no second trim: case mapping never creates or removes a trimmable end. */
  lemma TrimLowerIdempotent(s: string)
    ensures TrimLower(TrimLower(s)) == TrimLower(s)
  {
    var t := Trim(s);
    if t != [] {
      LowerAt(t, 0);
      LowerAt(t, |t| - 1);
    }
    TrimOfTrimmed(Lower(t));
    LowerIdempotent(t);
  }

  predicate IsAsciiDigit(c: char) { '0' <= c <= '9' }

  /** Letters of the ASCII range and of the basic Cyrillic block. */
  predicate IsUpperLetter(c: char) { ('A' <= c <= 'Z') || ('\U{400}' <= c <= '\U{42F}') }
  predicate IsLowerLetter(c: char) { ('a' <= c <= 'z') || ('\U{430}' <= c <= '\U{45F}') }
  predicate IsLetter(c: char) { IsUpperLetter(c) || IsLowerLetter(c) }
  predicate IsLetterOrDigit(c: char) { IsLetter(c) || IsAsciiDigit(c) }

  predicate StartsWith(s: string, p: string) { |p| <= |s| && s[..|p|] == p }

  /** `haystack.contains(needle)`, scanning the start positions left to right. */
  predicate Contains(haystack: string, needle: string)
    decreases |haystack|
  {
    StartsWith(haystack, needle) || (haystack != [] && Contains(haystack[1..], needle))
  }

  /** A substring occurrence at position `i`. */
  predicate OccursAt(haystack: string, needle: string, i: int) {
    0 <= i && i + |needle| <= |haystack| && haystack[i..i + |needle|] == needle
  }

  lemma {:induction false} ContainsIffOccurs(haystack: string, needle: string)
    ensures Contains(haystack, needle) <==> exists i :: OccursAt(haystack, needle, i)
    decreases |haystack|
  {
    if haystack != [] {
      ContainsIffOccurs(haystack[1..], needle);
      if StartsWith(haystack, needle) {
        assert OccursAt(haystack, needle, 0);
      }
      if Contains(haystack[1..], needle) {
        var i :| OccursAt(haystack[1..], needle, i);
        assert haystack[i + 1..i + 1 + |needle|] == haystack[1..][i..i + |needle|];
        assert OccursAt(haystack, needle, i + 1);
      }
      if i :| OccursAt(haystack, needle, i) {
        if i > 0 {
          assert haystack[1..][i - 1..i - 1 + |needle|] == haystack[i..i + |needle|];
          assert OccursAt(haystack[1..], needle, i - 1);
        } else {
          assert StartsWith(haystack, needle);
        }
      }
    } else {
      if i :| OccursAt(haystack, needle, i) {
        assert |needle| == 0 && StartsWith(haystack, needle);
      }
      if Contains(haystack, needle) {
        assert OccursAt(haystack, needle, 0);
      }
    }
  }

  /** An occurrence in a part is an occurrence in the whole. */
  lemma ContainsInMiddle(a: string, b: string, c: string, needle: string)
    requires Contains(b, needle)
    ensures Contains(a + b + c, needle)
  {
    ContainsIffOccurs(b, needle);
    var i :| OccursAt(b, needle, i);
    assert (a + b + c)[|a| + i..|a| + i + |needle|] == b[i..i + |needle|];
    assert OccursAt(a + b + c, needle, |a| + i);
    ContainsIffOccurs(a + b + c, needle);
  }

  /** The regex class `\s` of `java.util.regex`: space, tab, newline, vertical tab, form feed, carriage return. */
  predicate IsRegexSpace(c: char) {
    c == ' ' || c == '\t' || c == '\n' || c == '\U{B}' || c == '\U{C}' || c == '\r'
  }

  /** Length of the leading run of characters that are not `\s`. */
  function WordLength(s: string): (n: nat)
    ensures n <= |s|
    ensures forall i :: 0 <= i < n ==> !IsRegexSpace(s[i])
    ensures n == |s| || IsRegexSpace(s[n])
  {
    if s == [] || IsRegexSpace(s[0]) then 0 else 1 + WordLength(s[1..])
  }

  /** Length of the leading run of `\s` characters. */
  function SpaceLength(s: string): (n: nat)
    ensures n <= |s|
    ensures forall i :: 0 <= i < n ==> IsRegexSpace(s[i])
    ensures n == |s| || !IsRegexSpace(s[n])
  {
    if s == [] || !IsRegexSpace(s[0]) then 0 else 1 + SpaceLength(s[1..])
  }

  /**
   * `s.split("\\s+")` for an `s` that does not start with `\s`: the maximal runs of other
   * characters in order. Java drops trailing empty strings, and an empty `s` gives `[""]`.
   */
  function SplitOnSpaces(s: string): (words: seq<string>)
    ensures |words| >= 1
    ensures s != [] && !IsRegexSpace(s[0]) ==> forall k :: 0 <= k < |words| ==> words[k] != []
    ensures forall k, i :: 0 <= k < |words| && 0 <= i < |words[k]| ==> !IsRegexSpace(words[k][i])
    decreases |s|
  {
    if s == [] then [""]
    else
      var n := WordLength(s);
      var rest := s[n..];
      var m := SpaceLength(rest);
      if m == |rest| then [s[..n]]
      else
        assert !IsRegexSpace(rest[m..][0]);
        [s[..n]] + SplitOnSpaces(rest[m..])
  }

  /** `s.split(String.valueOf(c), -1)`: every part between separators, empty ones included. */
  function SplitOn(s: string, c: char): (parts: seq<string>)
    ensures |parts| >= 1
    ensures forall k :: 0 <= k < |parts| ==> c !in parts[k]
  {
    if s == [] then [[]]
    else
      var rest := SplitOn(s[1..], c);
      if s[0] == c then [[]] + rest else [[s[0]] + rest[0]] + rest[1..]
  }

  /** The parts joined with `sep` between consecutive ones. */
  function JoinWith(parts: seq<string>, sep: string): string {
    if parts == [] then []
    else if |parts| == 1 then parts[0]
    else parts[0] + sep + JoinWith(parts[1..], sep)
  }

  /** Splitting on `c` and joining with `c` gives the text back. */
  lemma {:induction false} JoinSplitOn(s: string, c: char)
    ensures JoinWith(SplitOn(s, c), [c]) == s
  {
    if s != [] {
      JoinSplitOn(s[1..], c);
      var rest := SplitOn(s[1..], c);
      if s[0] != c {
        if |rest| > 1 {
          assert JoinWith(rest, [c]) == rest[0] + [c] + JoinWith(rest[1..], [c]);
          assert s == [s[0]] + s[1..];
        }
      }
    }
  }

  /** The number of parts is one more than the number of separators. */
  function CountChar(s: string, c: char): nat {
    if s == [] then 0 else (if s[0] == c then 1 else 0) + CountChar(s[1..], c)
  }

  lemma {:induction false} SplitOnCount(s: string, c: char)
    ensures |SplitOn(s, c)| == CountChar(s, c) + 1
  {
    if s != [] { SplitOnCount(s[1..], c); }
  }

  lemma {:induction false} CountCharZero(s: string, c: char)
    ensures CountChar(s, c) == 0 <==> c !in s
  {
    if s != [] {
      CountCharZero(s[1..], c);
      assert s == [s[0]] + s[1..];
    }
  }
  /** Every `\s` in `s` is a plain space and no two of them are adjacent. */
  predicate SingleSpaced(s: string) {
    (forall i :: 0 <= i < |s| && IsRegexSpace(s[i]) ==> s[i] == ' ')
    && (forall i :: 0 <= i < |s| - 1 && s[i] == ' ' ==> s[i + 1] != ' ')
  }

  /** `s.replaceAll("\\s+", " ")`: every maximal run of `\s` becomes one space. */
  function CollapseSpaces(s: string): (r: string)
    ensures SingleSpaced(r)
    ensures r != [] && r[0] == ' ' ==> s != [] && IsRegexSpace(s[0])
    decreases |s|
  {
    if s == [] then []
    else if IsRegexSpace(s[0]) then " " + CollapseSpaces(s[SpaceLength(s)..])
    else [s[0]] + CollapseSpaces(s[1..])
  }

  /** Text that is already single-spaced is left as it is, so collapsing twice is collapsing once. */
  lemma {:induction false} CollapseOfSingleSpaced(s: string)
    requires SingleSpaced(s)
    ensures CollapseSpaces(s) == s
  {
    if s != [] {
      if IsRegexSpace(s[0]) {
        assert SpaceLength(s) == 1 by {
          assert |s| == 1 || s[1] != ' ';
          assert |s| == 1 || !IsRegexSpace(s[1]);
        }
      }
      CollapseOfSingleSpaced(s[1..]);
      assert s == [s[0]] + s[1..];
    }
  }

  /** Text without `\s` is left as it is by collapsing. */
  lemma NoSpaceCollapse(w: string)
    requires forall i :: 0 <= i < |w| ==> !IsRegexSpace(w[i])
    ensures CollapseSpaces(w) == w
  {
    CollapseOfSingleSpaced(w);
  }

  /**
   * For text that neither starts nor ends with `\s`, the words of `split("\\s+")` joined by
   * single spaces are `replaceAll("\\s+", " ")` of the text: the split yields exactly the
   * text's words, in order.
   */
  lemma {:induction false} JoinSplitOnSpaces(s: string)
    requires s == [] || (!IsRegexSpace(s[0]) && !IsRegexSpace(s[|s| - 1]))
    ensures JoinWith(SplitOnSpaces(s), " ") == CollapseSpaces(s)
    decreases |s|
  {
    if s != [] {
      var rest := s[WordLength(s)..];
      if SpaceLength(rest) == |rest| {
        SingleWord(s);
        NoSpaceCollapse(s);
      } else {
        var tail := rest[SpaceLength(rest)..];
        assert tail[|tail| - 1] == s[|s| - 1];
        JoinSplitOnSpaces(tail);
        SplitStep(s);
        CollapseFirstWord(s, WordLength(s));
        JoinCons(s[..WordLength(s)], SplitOnSpaces(tail));
      }
    }
  }

  /** Collapsing text whose first word `s[..n]` is followed by `\s`: the word, one space, the collapsed rest. */
  lemma CollapseFirstWord(s: string, n: nat)
    requires 0 < n < |s| && IsRegexSpace(s[n])
    requires forall i :: 0 <= i < n ==> !IsRegexSpace(s[i])
    ensures CollapseSpaces(s) == s[..n] + " " + CollapseSpaces(s[n..][SpaceLength(s[n..])..])
  {
    var w := s[..n];
    var rest := s[n..];
    assert s == w + rest;
    NoSpaceCollapse(w);
    CollapseStep(w, rest);
  }

  /** Text ending in a non-`\s` character whose first word runs to a trailing `\s` run is one word. */
  lemma SingleWord(s: string)
    requires s != [] && !IsRegexSpace(s[0]) && !IsRegexSpace(s[|s| - 1])
    requires SpaceLength(s[WordLength(s)..]) == |s[WordLength(s)..]|
    ensures WordLength(s) == |s| && SplitOnSpaces(s) == [s]
  {
    assert s[..|s|] == s;
  }

  lemma JoinCons(w: string, ws: seq<string>)
    requires ws != []
    ensures JoinWith([w] + ws, " ") == w + " " + JoinWith(ws, " ")
  {
    assert ([w] + ws)[1..] == ws;
  }

  /** One step of `SplitOnSpaces` when more words follow the first. */
  lemma SplitStep(s: string)
    requires s != [] && !IsRegexSpace(s[0])
    requires SpaceLength(s[WordLength(s)..]) < |s[WordLength(s)..]|
    ensures var n := WordLength(s); var rest := s[n..];
      SplitOnSpaces(s) == [s[..n]] + SplitOnSpaces(rest[SpaceLength(rest)..])
  {
  }

  /** A word followed by a run of `\s` collapses to the word, one space and the collapsed rest. */
  lemma CollapseStep(w: string, rest: string)
    requires w != [] && !IsRegexSpace(w[|w| - 1]) && CollapseSpaces(w) == w
    requires rest != [] && IsRegexSpace(rest[0])
    ensures CollapseSpaces(w + rest) == w + " " + CollapseSpaces(rest[SpaceLength(rest)..])
  {
    CollapseAppend(w, rest);
  }

  lemma CollapseIdempotent(s: string)
    ensures CollapseSpaces(CollapseSpaces(s)) == CollapseSpaces(s)
  {
    CollapseOfSingleSpaced(CollapseSpaces(s));
  }

  /** Every character of `s` is one `String.trim()` strips. */
  predicate AllTrimmable(s: string) { forall i :: 0 <= i < |s| ==> IsTrimmable(s[i]) }

  lemma {:induction false} TrimStartSkip(s: string, n: nat)
    requires n <= |s| && AllTrimmable(s[..n])
    ensures TrimStart(s) == TrimStart(s[n..])
  {
    if n > 0 {
      assert IsTrimmable(s[..n][0]);
      assert s[1..][..n - 1] == s[1..n];
      TrimStartSkip(s[1..], n - 1);
      assert s[1..][n - 1..] == s[n..];
    }
  }

  lemma {:induction false} TrimStartCollapse(s: string)
    ensures TrimStart(CollapseSpaces(s)) == CollapseSpaces(TrimStart(s))
    decreases |s|
  {
    if s != [] && IsTrimmable(s[0]) {
      if IsRegexSpace(s[0]) {
        var n := SpaceLength(s);
        TrimStartCollapse(s[n..]);
        TrimStartSkip(s, n);
        assert (" " + CollapseSpaces(s[n..]))[1..] == CollapseSpaces(s[n..]);
      } else {
        TrimStartCollapse(s[1..]);
        assert ([s[0]] + CollapseSpaces(s[1..]))[1..] == CollapseSpaces(s[1..]);
      }
    }
  }

  lemma {:induction false} SpaceLengthAppend(a: string, b: string)
    requires SpaceLength(a) < |a|
    ensures SpaceLength(a + b) == SpaceLength(a)
  {
    if IsRegexSpace(a[0]) {
      assert (a + b)[1..] == a[1..] + b;
      SpaceLengthAppend(a[1..], b);
    }
  }

  lemma ConsAppend(h: string, z: string, x: string, y: string)
    requires z == x + y
    ensures h + z == (h + x) + y
  {
  }

  /** A run of `\s` cannot straddle a boundary whose left side ends in another character. */
  lemma {:induction false} CollapseAppend(a: string, b: string)
    requires a == [] || !IsRegexSpace(a[|a| - 1])
    ensures CollapseSpaces(a + b) == CollapseSpaces(a) + CollapseSpaces(b)
    decreases |a|
  {
    if a == [] {
      assert a + b == b;
    } else {
      var ab := a + b;
      assert ab[0] == a[0];
      var space := IsRegexSpace(a[0]);
      var n := if space then SpaceLength(a) else 1;
      if space {
        SpaceLengthAppend(a, b);
      }
      assert ab[n..] == a[n..] + b;
      CollapseAppend(a[n..], b);
      var h := if space then " " else [a[0]];
      assert CollapseSpaces(ab) == h + CollapseSpaces(ab[n..]);
      assert CollapseSpaces(a) == h + CollapseSpaces(a[n..]);
      ConsAppend(h, CollapseSpaces(ab[n..]), CollapseSpaces(a[n..]), CollapseSpaces(b));
    }
  }

  lemma {:induction false} CollapseTrimmable(z: string)
    requires AllTrimmable(z)
    ensures AllTrimmable(CollapseSpaces(z))
    decreases |z|
  {
    if z != [] {
      if IsRegexSpace(z[0]) {
        CollapseTrimmable(z[SpaceLength(z)..]);
      } else {
        CollapseTrimmable(z[1..]);
      }
    }
  }

  lemma {:induction false} TrimEndAppendTrimmable(a: string, z: string)
    requires AllTrimmable(z)
    ensures TrimEnd(a + z) == TrimEnd(a)
    decreases |z|
  {
    if z != [] {
      var n := |z| - 1;
      assert (a + z)[..|a + z| - 1] == a + z[..n];
      TrimEndAppendTrimmable(a, z[..n]);
    } else {
      assert a + z == a;
    }
  }

  lemma {:induction false} CollapseLast(m: string)
    requires m != [] && !IsTrimmable(m[|m| - 1])
    ensures var r := CollapseSpaces(m); r != [] && r[|r| - 1] == m[|m| - 1]
    decreases |m|
  {
    if IsRegexSpace(m[0]) {
      CollapseLast(m[SpaceLength(m)..]);
    } else if |m| > 1 {
      CollapseLast(m[1..]);
    }
  }

  lemma TrimEndCollapse(t: string)
    ensures TrimEnd(CollapseSpaces(t)) == CollapseSpaces(TrimEnd(t))
  {
    var m := TrimEnd(t);
    var z := t[|m|..];
    TrimEndPrefix(t);
    assert t == m + z;
    CollapseTrimmable(z);
    if m == [] {
      assert t == z;
      TrimEndAppendTrimmable([], CollapseSpaces(z));
      assert [] + CollapseSpaces(z) == CollapseSpaces(z);
    } else {
      CollapseAppend(m, z);
      TrimEndAppendTrimmable(CollapseSpaces(m), CollapseSpaces(z));
      CollapseLast(m);
    }
  }

  /**
   * Trimming and collapsing `\s` runs commute: `s.replaceAll("\\s+", " ").trim()` and
   * `s.trim().replaceAll("\\s+", " ")` are the same text.
   */
  lemma TrimCollapseCommute(s: string)
    ensures Trim(CollapseSpaces(s)) == CollapseSpaces(Trim(s))
  {
    TrimStartCollapse(s);
    TrimEndCollapse(TrimStart(s));
  }
}
