/**
 * The literal encoders of the locator synthesizer: `xpathLiteral` (XPath 1.0, section 3.7
 * Literal and section 4.2 `concat`), `cssAttrLiteral` (a single-quoted CSS string, CSS 2.1
 * section 4.3.7) and `cssEscapeIdentifier` (backslash escapes, CSS 2.1 section 4.1.3).
 * Each encoder is paired with a decoder and proved to round-trip.
 */
module Literals {
  import opened Wrappers
  import opened Text

  // ---------------------------------------------------------------- XPath

  /** An XPath 1.0 string expression as the encoder can build it: a quoted literal or a `concat` call. */
  datatype XPathString = Quoted(quote: char, body: string) | Concat(args: seq<XPathString>)

  /** A literal is delimited by `'` or `"` and cannot contain its own delimiter; `concat` takes two or more quoted arguments. */
  predicate WellFormedLiteral(e: XPathString) {
    e.Quoted? && (e.quote == '\'' || e.quote == '"') && e.quote !in e.body
  }

  predicate WellFormed(e: XPathString) {
    match e
    case Quoted(_, _) => WellFormedLiteral(e)
    case Concat(args) => |args| >= 2 && forall k :: 0 <= k < |args| ==> WellFormedLiteral(args[k])
  }

  /** The string an expression evaluates to. */
  function ValueOf(e: XPathString): string
    decreases e, 1
  {
    match e
    case Quoted(_, body) => body
    case Concat(args) => ConcatValue(args)
  }

  function ConcatValue(args: seq<XPathString>): string
    decreases args, 0
  {
    if args == [] then [] else ConcatValue(args[..|args| - 1]) + ValueOf(args[|args| - 1])
  }

  /** The concrete syntax of an expression. */
  function Render(e: XPathString): string
    decreases e, 1
  {
    match e
    case Quoted(q, body) => [q] + body + [q]
    case Concat(args) => "concat(" + RenderArgs(args) + ")"
  }

  function RenderArgs(args: seq<XPathString>): string
    decreases args, 0
  {
    if args == [] then []
    else if |args| == 1 then Render(args[0])
    else RenderArgs(args[..|args| - 1]) + ", " + Render(args[|args| - 1])
  }

  /** The `"'"` argument placed between the parts. */
  const Apostrophe: XPathString := Quoted('"', "'")

  /** The `concat` arguments for the parts of a value split on `'`: each part quoted, `"'"` between consecutive parts. */
  function Interleave(parts: seq<string>): seq<XPathString>
    requires parts != []
  {
    if |parts| == 1 then [Quoted('\'', parts[0])]
    else Interleave(parts[..|parts| - 1]) + [Apostrophe, Quoted('\'', parts[|parts| - 1])]
  }

  /** What the source's `StringBuilder` loop appends between `concat(` and `)`, built part by part. */
  function ConcatBody(parts: seq<string>): string {
    if parts == [] then []
    else
      var n := |parts| - 1;
      (if n > 0 then ConcatBody(parts[..n]) + ", \"'\", " else []) + "'" + parts[n] + "'"
  }

  /** `xpathLiteral(value)`; `None` stands for a `null` value. */
  function XPathLiteral(value: Option<string>): string {
    if value.None? then "''"
    else
      var v := value.value;
      if '\'' !in v then "'" + v + "'"
      else if '"' !in v then "\"" + v + "\""
      else "concat(" + ConcatBody(SplitOn(v, '\'')) + ")"
  }

  /** The expression the encoder emits for a value. */
  function LiteralExpression(v: string): XPathString {
    if '\'' !in v then Quoted('\'', v)
    else if '"' !in v then Quoted('"', v)
    else Concat(Interleave(SplitOn(v, '\'')))
  }

  lemma {:induction false} InterleaveWellFormed(parts: seq<string>)
    requires parts != []
    requires forall k :: 0 <= k < |parts| ==> '\'' !in parts[k]
    ensures |Interleave(parts)| == 2 * |parts| - 1
    ensures forall k :: 0 <= k < |Interleave(parts)| ==> WellFormedLiteral(Interleave(parts)[k])
  {
    var n := |parts| - 1;
    if n > 0 {
      InterleaveWellFormed(parts[..n]);
      var xs := Interleave(parts[..n]);
      var ys := Interleave(parts);
      assert ys == xs + [Apostrophe, Quoted('\'', parts[n])];
      forall k | 0 <= k < |ys| ensures WellFormedLiteral(ys[k]) {
        if k < |xs| {
          assert ys[k] == xs[k];
        } else {
          assert ys[k] == Apostrophe || ys[k] == Quoted('\'', parts[n]);
        }
      }
    }
  }

  /** Rendering the interleaved arguments gives what the loop appends. */
  lemma {:induction false} InterleaveRender(parts: seq<string>)
    requires parts != []
    ensures RenderArgs(Interleave(parts)) == ConcatBody(parts)
  {
    var n := |parts| - 1;
    if n > 0 {
      InterleaveRender(parts[..n]);
      var xs := Interleave(parts[..n]);
      var ys := xs + [Apostrophe, Quoted('\'', parts[n])];
      assert xs != [];
      assert ys[..|ys| - 1] == xs + [Apostrophe];
      assert (xs + [Apostrophe])[..|xs|] == xs;
      assert RenderArgs(ys) == RenderArgs(xs) + ", " + Render(Apostrophe) + ", " + Render(Quoted('\'', parts[n]));
    }
  }

  /** The interleaved arguments evaluate to the parts joined with `'`. */
  lemma {:induction false} InterleaveValue(parts: seq<string>)
    requires parts != []
    ensures ConcatValue(Interleave(parts)) == JoinWith(parts, "'")
  {
    var n := |parts| - 1;
    if n == 0 {
      assert ConcatValue([Quoted('\'', parts[0])]) == ConcatValue([]) + parts[0];
    } else {
      var init := parts[..n];
      InterleaveValue(init);
      var xs := Interleave(init);
      var ys := xs + [Apostrophe, Quoted('\'', parts[n])];
      assert ys[..|ys| - 1] == xs + [Apostrophe];
      assert (xs + [Apostrophe])[..|xs|] == xs;
      assert ConcatValue(ys) == ConcatValue(xs + [Apostrophe]) + parts[n];
      assert ConcatValue(xs + [Apostrophe]) == ConcatValue(xs) + "'";
      JoinWithSnoc(init, parts[n], "'");
      assert init + [parts[n]] == parts;
    }
  }

  /** Joining is built left to right as well. */
  lemma {:induction false} JoinWithSnoc(parts: seq<string>, last: string, sep: string)
    requires parts != []
    ensures JoinWith(parts + [last], sep) == JoinWith(parts, sep) + sep + last
  {
    if |parts| == 1 {
      assert (parts + [last])[1..] == [last];
    } else {
      JoinWithSnoc(parts[1..], last, sep);
      assert (parts + [last])[1..] == parts[1..] + [last];
    }
  }

  /**
   * The encoder emits a well-formed XPath 1.0 string expression that evaluates to the value:
   * a literal in the quote the value lacks, or `concat` of the `'`-separated parts (empty parts
   * kept) with `"'"` between them.
   */
  lemma XPathLiteralRoundTrip(v: string)
    ensures XPathLiteral(Some(v)) == Render(LiteralExpression(v))
    ensures WellFormed(LiteralExpression(v))
    ensures ValueOf(LiteralExpression(v)) == v
  {
    if '\'' in v && '"' in v {
      var parts := SplitOn(v, '\'');
      SplitOnCount(v, '\'');
      CountCharZero(v, '\'');
      InterleaveWellFormed(parts);
      InterleaveRender(parts);
      InterleaveValue(parts);
      JoinSplitOn(v, '\'');
    }
  }

  /** The `StringBuilder` loop of `xpathLiteral`. */
  method BuildXPathLiteral(value: Option<string>) returns (r: string)
    ensures r == XPathLiteral(value)
  {
    if value.None? {
      return "''";
    }
    var v := value.value;
    if '\'' !in v {
      return "'" + v + "'";
    }
    if '"' !in v {
      return "\"" + v + "\"";
    }
    var parts := SplitOn(v, '\'');
    var sb := "concat(";
    var i := 0;
    while i < |parts|
      invariant 0 <= i <= |parts|
      invariant sb == "concat(" + ConcatBody(parts[..i])
    {
      if i > 0 {
        sb := sb + ", \"'\", ";
      }
      sb := sb + "'" + parts[i] + "'";
      assert parts[..i + 1][..i] == parts[..i];
      i := i + 1;
    }
    assert parts[..i] == parts;
    sb := sb + ")";
    return sb;
  }

  // ---------------------------------------------------------------- CSS

  /** Replaces every occurrence of `c` by `with`, as `String.replace` does for a one-character target. */
  function ReplaceChar(s: string, c: char, with: string): string {
    if s == [] then [] else (if s[0] == c then with else [s[0]]) + ReplaceChar(s[1..], c, with)
  }

  /** The body of `cssAttrLiteral`: backslashes doubled first, then `'` escaped. */
  function CssStringBody(v: string): string {
    ReplaceChar(ReplaceChar(v, '\\', "\\\\"), '\'', "\\'")
  }

  /** `cssAttrLiteral(value)`; `None` stands for a `null` value. */
  function CssAttrLiteral(value: Option<string>): string {
    var v := if value.None? then "" else value.value;
    "'" + CssStringBody(v) + "'"
  }

  /** One pass doing both replacements: `\` becomes `\\`, `'` becomes `\'`. */
  function EscapeBoth(s: string): string {
    if s == [] then []
    else (if s[0] == '\\' then "\\\\" else if s[0] == '\'' then "\\'" else [s[0]]) + EscapeBoth(s[1..])
  }

  lemma {:induction false} ReplaceCharAppend(a: string, b: string, c: char, with: string)
    ensures ReplaceChar(a + b, c, with) == ReplaceChar(a, c, with) + ReplaceChar(b, c, with)
  {
    if a != [] {
      ReplaceCharAppend(a[1..], b, c, with);
      assert (a + b)[1..] == a[1..] + b;
    } else {
      assert a + b == b;
    }
  }

  /** The second replacement never touches the backslashes the first one added. */
  lemma {:induction false} CssStringBodyIsOnePass(v: string)
    ensures CssStringBody(v) == EscapeBoth(v)
  {
    if v != [] {
      CssStringBodyIsOnePass(v[1..]);
      var head := if v[0] == '\\' then "\\\\" else [v[0]];
      ReplaceCharAppend(head, ReplaceChar(v[1..], '\\', "\\\\"), '\'', "\\'");
    }
  }

  /**
   * Backslash escapes read back: a backslash followed by a character stands for that
   * character. The encoders below escape only characters that are neither hex digits nor
   * newlines, where CSS 2.1 section 4.1.3 gives exactly this reading.
   */
  function Unescape(s: string): string {
    if s == [] then []
    else if s[0] == '\\' && |s| >= 2 then [s[1]] + Unescape(s[2..])
    else [s[0]] + Unescape(s[1..])
  }

  /** A quoted CSS string body: no bare `'` and no dangling backslash, so the string ends at the closing quote. */
  predicate QuotedBody(s: string) {
    if s == [] then true
    else if s[0] == '\\' then |s| >= 2 && QuotedBody(s[2..])
    else s[0] != '\'' && QuotedBody(s[1..])
  }

  lemma {:induction false} EscapeBothRoundTrip(v: string)
    ensures Unescape(EscapeBoth(v)) == v
    ensures QuotedBody(EscapeBoth(v))
  {
    if v != [] {
      EscapeBothRoundTrip(v[1..]);
      var e := EscapeBoth(v);
      if v[0] == '\\' || v[0] == '\'' {
        assert e[2..] == EscapeBoth(v[1..]);
      } else {
        assert e[1..] == EscapeBoth(v[1..]);
      }
      assert v == [v[0]] + v[1..];
    }
  }

  /**
   * `cssAttrLiteral` emits a single-quoted CSS string whose body ends only at the closing
   * quote and reads back as the value (a `null` value reads back as the empty string).
   */
  lemma CssAttrLiteralRoundTrip(value: Option<string>)
    ensures var lit := CssAttrLiteral(value);
      |lit| >= 2 && lit[0] == '\'' && lit[|lit| - 1] == '\''
      && QuotedBody(lit[1..|lit| - 1])
      && Unescape(lit[1..|lit| - 1]) == (if value.None? then "" else value.value)
  {
    var v := if value.None? then "" else value.value;
    CssStringBodyIsOnePass(v);
    EscapeBothRoundTrip(v);
    var lit := CssAttrLiteral(value);
    assert lit[1..|lit| - 1] == CssStringBody(v);
  }

  /** A character `cssEscapeIdentifier` copies as is: a letter, a digit, `-` or `_`. */
  predicate IsIdentifierChar(c: char) { IsLetterOrDigit(c) || c == '-' || c == '_' }

  /** `cssEscapeIdentifier(value)` on a non-null value: every other character gets a backslash before it. */
  function EscapeIdentifier(s: string): string {
    if s == [] then []
    else (if IsIdentifierChar(s[0]) then [s[0]] else ['\\', s[0]]) + EscapeIdentifier(s[1..])
  }

  /** `cssEscapeIdentifier(value)`; `None` stands for a `null` value. */
  function CssEscapeIdentifier(value: Option<string>): string {
    if value.None? then "" else EscapeIdentifier(value.value)
  }

  lemma {:induction false} EscapeIdentifierAppend(a: string, b: string)
    ensures EscapeIdentifier(a + b) == EscapeIdentifier(a) + EscapeIdentifier(b)
  {
    if a != [] {
      EscapeIdentifierAppend(a[1..], b);
      assert (a + b)[1..] == a[1..] + b;
    } else {
      assert a + b == b;
    }
  }

  /** Escaped identifier text: identifier characters, or a backslash before any other character. */
  predicate EscapedIdentifier(s: string) {
    if s == [] then true
    else if s[0] == '\\' then |s| >= 2 && !IsIdentifierChar(s[1]) && EscapedIdentifier(s[2..])
    else IsIdentifierChar(s[0]) && EscapedIdentifier(s[1..])
  }

  /**
   * `cssEscapeIdentifier` escapes exactly the characters other than letters, digits, `-` and
   * `_`, and the escapes read back as the value.
   */
  lemma {:induction false} EscapeIdentifierRoundTrip(v: string)
    ensures EscapedIdentifier(EscapeIdentifier(v))
    ensures Unescape(EscapeIdentifier(v)) == v
  {
    if v != [] {
      EscapeIdentifierRoundTrip(v[1..]);
      var e := EscapeIdentifier(v);
      if IsIdentifierChar(v[0]) {
        assert e[1..] == EscapeIdentifier(v[1..]);
      } else {
        assert e[2..] == EscapeIdentifier(v[1..]);
      }
      assert v == [v[0]] + v[1..];
    }
  }

  /** The `StringBuilder` loop of `cssEscapeIdentifier`. */
  method BuildCssEscapeIdentifier(value: Option<string>) returns (r: string)
    ensures r == CssEscapeIdentifier(value)
  {
    if value.None? {
      return "";
    }
    var v := value.value;
    var sb := "";
    var i := 0;
    while i < |v|
      invariant 0 <= i <= |v|
      invariant sb == EscapeIdentifier(v[..i])
    {
      var ch := v[i];
      if IsIdentifierChar(ch) {
        sb := sb + [ch];
      } else {
        sb := sb + ['\\'] + [ch];
      }
      EscapeIdentifierAppend(v[..i], [ch]);
      assert v[..i + 1] == v[..i] + [ch];
      i := i + 1;
    }
    assert v[..i] == v;
    return sb;
  }
}
