/**
 * The conservative detector of machine-generated CSS class tokens
 * (`isProbablyHashedCssClassToken` and its character scans): Emotion-style `css-…`,
 * styled-components-style `sc-…`, CSS-Modules-style `…__tail` / `…--tail`, `_tail`, and long
 * hex runs. Each scan is a function stating what it decides and a loop method proved to
 * decide exactly that.
 */
module HashedTokens {
  import opened Wrappers
  import opened Text

  // ------------------------------------------------------------ counts

  /** Number of digits, counted left to right. */
  function DigitCount(s: string): nat {
    if s == [] then 0 else DigitCount(s[..|s| - 1]) + (if IsAsciiDigit(s[|s| - 1]) then 1 else 0)
  }

  /** Number of letters, counted left to right. */
  function LetterCount(s: string): nat {
    if s == [] then 0 else LetterCount(s[..|s| - 1]) + (if IsLetter(s[|s| - 1]) then 1 else 0)
  }

  predicate AllLetterOrDigit(s: string) { forall i :: 0 <= i < |s| ==> IsLetterOrDigit(s[i]) }

  predicate HasUpper(s: string) { exists i :: 0 <= i < |s| && IsUpperLetter(s[i]) }
  predicate HasLower(s: string) { exists i :: 0 <= i < |s| && IsLowerLetter(s[i]) }

  /** Two digit positions make at least two digits. */
  lemma {:induction false} DigitCountAtLeastTwo(s: string, i: int, j: int)
    requires 0 <= i < j < |s| && IsAsciiDigit(s[i]) && IsAsciiDigit(s[j])
    ensures DigitCount(s) >= 2
  {
    var n := |s| - 1;
    if j < n {
      DigitCountAtLeastTwo(s[..n], i, j);
    } else {
      DigitCountAtLeastOne(s[..n], i);
    }
  }

  lemma {:induction false} DigitCountAtLeastOne(s: string, i: int)
    requires 0 <= i < |s| && IsAsciiDigit(s[i])
    ensures DigitCount(s) >= 1
  {
    var n := |s| - 1;
    if i < n {
      DigitCountAtLeastOne(s[..n], i);
    }
  }

  lemma {:induction false} LetterCountAtLeastTwo(s: string, i: int, j: int)
    requires 0 <= i < j < |s| && IsLetter(s[i]) && IsLetter(s[j])
    ensures LetterCount(s) >= 2
  {
    var n := |s| - 1;
    if j < n {
      LetterCountAtLeastTwo(s[..n], i, j);
    } else {
      LetterCountAtLeastOne(s[..n], i);
    }
  }

  lemma {:induction false} LetterCountAtLeastOne(s: string, i: int)
    requires 0 <= i < |s| && IsLetter(s[i])
    ensures LetterCount(s) >= 1
  {
    var n := |s| - 1;
    if i < n {
      LetterCountAtLeastOne(s[..n], i);
    }
  }

  // ------------------------------------------------------------ scans

  /** `isAlphaNumOnly`: non-empty, letters and digits only. */
  predicate IsAlphaNumOnly(s: string) { s != [] && AllLetterOrDigit(s) }

  /** `containsDigit`. */
  predicate ContainsDigit(s: string) { exists i :: 0 <= i < |s| && IsAsciiDigit(s[i]) }

  /** A hex digit after `Character.toLowerCase`. */
  predicate IsHexChar(c: char) { IsAsciiDigit(LowerChar(c)) || ('a' <= LowerChar(c) <= 'f') }

  /** `isHexLike`: the trimmed text has at least six characters, all hex digits. */
  predicate IsHexLike(s: string) {
    var t := Trim(s);
    |t| >= 6 && forall i :: 0 <= i < |t| ==> IsHexChar(t[i])
  }

  /** `looksHashTail`: the trimmed tail has at least five characters, only letters and digits, at least two of each. */
  predicate LooksHashTail(tail: string) {
    var s := Trim(tail);
    |s| >= 5 && AllLetterOrDigit(s) && DigitCount(s) >= 2 && LetterCount(s) >= 2
  }

  /** The `sc-` rule on its tail: 5 to 12 letters or digits, with both cases or at least two digits. */
  predicate ScTailHashed(tail: string) {
    5 <= |tail| <= 12 && IsAlphaNumOnly(tail) && ((HasUpper(tail) && HasLower(tail)) || DigitCount(tail) >= 2)
  }

  /** `s.lastIndexOf(pat)`: the last start position of `pat` at or before `from`, or -1. */
  function LastIndexFrom(s: string, pat: string, from: int): (r: int)
    requires -1 <= from < |s|
    ensures -1 <= r <= from
    ensures r >= 0 ==> OccursAt(s, pat, r)
    ensures forall j :: r < j <= from ==> !OccursAt(s, pat, j)
    decreases from + 1
  {
    if from < 0 then -1
    else if OccursAt(s, pat, from) then from
    else LastIndexFrom(s, pat, from - 1)
  }

  function LastIndexOf(s: string, pat: string): int {
    LastIndexFrom(s, pat, |s| - 1)
  }

  /** The start of the last `__` or `--` separator (`Math.max` of the two `lastIndexOf`s), or -1. */
  function LastSeparator(t: string): int {
    var a, b := LastIndexOf(t, "__"), LastIndexOf(t, "--");
    if a >= b then a else b
  }

  /** `isProbablyHashedCssClassToken(token)`; `None` stands for a `null` token. */
  predicate IsProbablyHashed(token: Option<string>) {
    token.Some? &&
    var t := Trim(token.value);
    if |t| < 5 then false
    else if StartsWith(t, "css-") then |t[4..]| >= 5 && IsAlphaNumOnly(t[4..])
    else if StartsWith(t, "sc-") then ScTailHashed(t[3..])
    else
      var idx := LastSeparator(t);
      (idx >= 0 && idx + 2 < |t| && LooksHashTail(t[idx + 2..]))
      || (t[0] == '_' && LooksHashTail(t[1..]))
      || (IsHexLike(t) && |t| >= 8 && ContainsDigit(t))
  }

  // ------------------------------------------------------------ the loops

  /** The counting loop of `looksHashTail`, with its early exit on any other character. */
  method LooksHashTailScan(tail: string) returns (r: bool)
    ensures r == LooksHashTail(tail)
  {
    var s := Trim(tail);
    if |s| < 5 {
      return false;
    }
    var digits, letters := 0, 0;
    var i := 0;
    while i < |s|
      invariant 0 <= i <= |s|
      invariant AllLetterOrDigit(s[..i])
      invariant digits == DigitCount(s[..i]) && letters == LetterCount(s[..i])
    {
      var c := s[i];
      assert s[..i + 1][..i] == s[..i];
      if IsAsciiDigit(c) {
        digits := digits + 1;
      } else if IsLetter(c) {
        letters := letters + 1;
      } else {
        assert !IsLetterOrDigit(s[i]);
        return false;
      }
      i := i + 1;
    }
    assert s[..i] == s;
    return digits >= 2 && letters >= 2;
  }

  /** The loop of `isAlphaNumOnly`. */
  method IsAlphaNumOnlyScan(s: string) returns (r: bool)
    ensures r == IsAlphaNumOnly(s)
  {
    if s == [] {
      return false;
    }
    var i := 0;
    while i < |s|
      invariant 0 <= i <= |s|
      invariant forall k :: 0 <= k < i ==> IsLetterOrDigit(s[k])
    {
      if !IsLetterOrDigit(s[i]) {
        return false;
      }
      i := i + 1;
    }
    return true;
  }

  /** The loop of `containsDigit`. */
  method ContainsDigitScan(s: string) returns (r: bool)
    ensures r == ContainsDigit(s)
  {
    var i := 0;
    while i < |s|
      invariant 0 <= i <= |s|
      invariant forall k :: 0 <= k < i ==> !IsAsciiDigit(s[k])
    {
      if IsAsciiDigit(s[i]) {
        return true;
      }
      i := i + 1;
    }
    return false;
  }

  /** The loop of `isHexLike`. */
  method IsHexLikeScan(s: string) returns (r: bool)
    ensures r == IsHexLike(s)
  {
    var t := Trim(s);
    if |t| < 6 {
      return false;
    }
    var i := 0;
    while i < |t|
      invariant 0 <= i <= |t|
      invariant forall k :: 0 <= k < i ==> IsHexChar(t[k])
    {
      if !IsHexChar(t[i]) {
        return false;
      }
      i := i + 1;
    }
    return true;
  }

  /** The counting loop of the `sc-` branch: digits, then upper case, then lower case. */
  method ScTailScan(tail: string) returns (r: bool)
    ensures r == ScTailHashed(tail)
  {
    var alnum := IsAlphaNumOnlyScan(tail);
    if !(|tail| >= 5 && |tail| <= 12 && alnum) {
      return false;
    }
    var hasUpper, hasLower := false, false;
    var digits := 0;
    var i := 0;
    while i < |tail|
      invariant 0 <= i <= |tail|
      invariant digits == DigitCount(tail[..i])
      invariant hasUpper <==> exists k :: 0 <= k < i && IsUpperLetter(tail[k])
      invariant hasLower <==> exists k :: 0 <= k < i && IsLowerLetter(tail[k])
    {
      var c := tail[i];
      assert tail[..i + 1][..i] == tail[..i];
      if IsAsciiDigit(c) {
        digits := digits + 1;
      } else if IsUpperLetter(c) {
        hasUpper := true;
      } else if IsLowerLetter(c) {
        hasLower := true;
      }
      i := i + 1;
    }
    assert tail[..i] == tail;
    return (hasUpper && hasLower) || digits >= 2;
  }

  /** `isProbablyHashedCssClassToken`, calling the scans. */
  method IsProbablyHashedCheck(token: Option<string>) returns (r: bool)
    ensures r == IsProbablyHashed(token)
  {
    if token.None? {
      return false;
    }
    var t := Trim(token.value);
    if |t| < 5 {
      return false;
    }
    if StartsWith(t, "css-") {
      var tail := t[4..];
      var alnum := IsAlphaNumOnlyScan(tail);
      return |tail| >= 5 && alnum;
    }
    if StartsWith(t, "sc-") {
      r := ScTailScan(t[3..]);
      return;
    }
    var idx := LastSeparator(t);
    if idx >= 0 && idx + 2 < |t| {
      var hashTail := LooksHashTailScan(t[idx + 2..]);
      if hashTail {
        return true;
      }
    }
    if t[0] == '_' {
      var underscoreTail := LooksHashTailScan(t[1..]);
      if underscoreTail {
        return true;
      }
    }
    var hex := IsHexLikeScan(t);
    var digit := ContainsDigitScan(t);
    return hex && |t| >= 8 && digit;
  }

  // ------------------------------------------------------------ properties

  /** Tokens shorter than five characters after trimming are never hashed. */
  lemma ShortTokensNeverHashed(token: string)
    requires |Trim(token)| < 5
    ensures !IsProbablyHashed(Some(token))
  {
  }

  /** A `css-` token is hashed exactly when its tail is at least five letters or digits. */
  lemma CssPrefixRule(token: string)
    requires var t := Trim(token); |t| >= 5 && StartsWith(t, "css-")
    ensures IsProbablyHashed(Some(token)) <==>
      (var tail := Trim(token)[4..]; |tail| >= 5 && forall i :: 0 <= i < |tail| ==> IsLetterOrDigit(tail[i]))
  {
  }

  /**
   * An `sc-` token is hashed exactly when its tail has 5 to 12 letters or digits and either
   * mixes upper and lower case or has at least two digits.
   */
  lemma ScPrefixRule(token: string)
    requires var t := Trim(token); |t| >= 5 && StartsWith(t, "sc-")
    ensures IsProbablyHashed(Some(token)) <==>
      (var tail := Trim(token)[3..];
       5 <= |tail| <= 12 && (forall i :: 0 <= i < |tail| ==> IsLetterOrDigit(tail[i]))
       && ((HasUpper(tail) && HasLower(tail)) || DigitCount(tail) >= 2))
  {
    var t := Trim(token);
    assert !StartsWith(t, "css-") by {
      assert t[..3] == "sc-";
      assert t[1] == 'c';
    }
  }

  /** Hex-like tokens of eight or more characters with a digit are hashed, whatever their other rules say. */
  lemma LongHexRule(token: string)
    requires var t := Trim(token); !StartsWith(t, "css-") && !StartsWith(t, "sc-")
    requires var t := Trim(token); |t| >= 8 && IsHexLike(t) && ContainsDigit(t)
    ensures IsProbablyHashed(Some(token))
  {
  }

  /** A tail after the last `__` or `--` that looks hashed makes the token hashed. */
  lemma SeparatorTailRule(token: string)
    requires var t := Trim(token); |t| >= 5 && !StartsWith(t, "css-") && !StartsWith(t, "sc-")
    requires var t := Trim(token); var idx := LastSeparator(t); idx >= 0 && idx + 2 < |t| && LooksHashTail(t[idx + 2..])
    ensures IsProbablyHashed(Some(token))
  {
  }

  /** A token starting with `_` whose remainder looks like a hash tail is hashed, whatever its separators. */
  lemma UnderscoreTailRule(token: string)
    requires var t := Trim(token); |t| >= 5 && t[0] == '_' && LooksHashTail(t[1..])
    ensures IsProbablyHashed(Some(token))
  {
    var t := Trim(token);
    assert !StartsWith(t, "css-") && !StartsWith(t, "sc-") by {
      assert t[..4][0] == '_' && t[..3][0] == '_';
    }
  }

  /** `3x9aF` looks like a hash tail: five letters or digits, two digits and three letters. */
  lemma HashTailExample()
    ensures LooksHashTail("3x9aF")
  {
    var tail := "3x9aF";
    TrimOfTrimmed(tail);
    DigitCountAtLeastTwo(tail, 0, 2);
    LetterCountAtLeastTwo(tail, 1, 3);
  }

  /** The last separator of `Button_root__3x9aF` is the `__` at position 11. */
  lemma ModulesSeparator()
    ensures LastSeparator("Button_root__3x9aF") == 11
  {
    var t := "Button_root__3x9aF";
    assert forall j :: 0 < j < |t| ==> t[j] != '-';
    NoPairAfter(t, '-', -1);
    assert OccursAt(t, "__", 11) by {
      assert t[11..13] == "__";
    }
    assert forall j :: 12 < j < |t| ==> t[j] != '_';
    NoPairAfter(t, '_', 11);
  }

  /** No doubled `c` starts after `lo` when no character after `lo + 1` is `c`. */
  lemma NoPairAfter(s: string, c: char, lo: int)
    requires -1 <= lo
    requires forall j :: lo + 1 < j < |s| ==> s[j] != c
    ensures forall j :: lo < j ==> !OccursAt(s, [c, c], j)
  {
    forall j | lo < j
      ensures !OccursAt(s, [c, c], j)
    {
      if j + 2 <= |s| {
        assert s[j..j + 2][1] == s[j + 1];
      }
    }
  }

  /** A CSS-Modules name with a hashed suffix is detected: `Button_root__3x9aF`. */
  lemma ModulesExample()
    ensures IsProbablyHashed(Some("Button_root__3x9aF"))
  {
    var t := "Button_root__3x9aF";
    TrimOfTrimmed(t);
    assert !StartsWith(t, "css-") && !StartsWith(t, "sc-") by {
      assert t[0] == 'B';
    }
    ModulesSeparator();
    assert t[13..] == "3x9aF";
    HashTailExample();
    SeparatorTailRule(t);
  }

  /** An underscore-prefixed short token with digits and letters is detected: `_3x9aF`. */
  lemma UnderscoreExample()
    ensures IsProbablyHashed(Some("_3x9aF"))
  {
    var t := "_3x9aF";
    TrimOfTrimmed(t);
    assert t[0] == '_';
    assert t[1..] == "3x9aF";
    HashTailExample();
  }
}
