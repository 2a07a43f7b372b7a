/**
 * The attribute-to-string helpers of `WebDriverDomMapper`: the test attribute picked from a
 * whitelist, the `[hint:…]` tokens appended to the surrounding text, the form identifier,
 * and the text normalisation and CSS escaping used while mapping an element.
 *
 * An element's attributes are a map from attribute name to raw value; a name that is not
 * in the map stands for an attribute that is absent or whose read throws, both of which
 * `attr` turns into "".
 */
module DomMapper {
  import opened Wrappers
  import opened Text
  import opened Literals
  import StableLocators

  type Attributes = map<string, string>

  const HintPrefix: string := "[hint:"
  const HintSuffix: string := "]"

  /** The default whitelist of test attributes, in priority order. */
  const DefaultTestAttributeWhitelist: seq<string> :=
    ["data-testid", "data-test-id", "data-test", "data-qa", "data-cy", "data-automation-id", "data-automation"]

  /** `attr`: the trimmed value, "" when the attribute is absent or unreadable. */
  function Attr(el: Attributes, name: string): (r: string)
    ensures Trim(r) == r
    ensures name !in el ==> r == ""
  {
    if name in el then TrimOfTrimmed(Trim(el[name])); Trim(el[name]) else ""
  }

  // ---------------------------------------------------------------------------------------
  // Test attribute
  // ---------------------------------------------------------------------------------------

  datatype TestAttribute = TestAttribute(name: string, value: string) {
    predicate IsPresent() { !IsBlank(name) && !IsBlank(value) }
  }

  const NoTestAttribute: TestAttribute := TestAttribute("", "")

  /** A whitelist entry (`None` is a `null` entry) that names an attribute with a non-blank value. */
  predicate IsHit(entry: Option<string>, el: Attributes) {
    entry.Some? && !IsBlank(entry.value) && !IsBlank(Attr(el, entry.value))
  }

  /** The pick `resolveTestAttribute` makes, walking the whitelist from the front. */
  function FirstTestAttribute(whitelist: seq<Option<string>>, el: Attributes): TestAttribute
    decreases |whitelist|
  {
    if whitelist == [] then NoTestAttribute
    else if IsHit(whitelist[0], el) then TestAttribute(whitelist[0].value, Trim(Attr(el, whitelist[0].value)))
    else FirstTestAttribute(whitelist[1..], el)
  }

  /** `resolveTestAttribute`: the loop over the whitelist with an early return on the first hit. */
  method ResolveTestAttribute(whitelist: seq<Option<string>>, el: Attributes) returns (r: TestAttribute)
    ensures r == FirstTestAttribute(whitelist, el)
  {
    for i := 0 to |whitelist|
      invariant FirstTestAttribute(whitelist[i..], el) == FirstTestAttribute(whitelist, el)
    {
      assert whitelist[i..][1..] == whitelist[i + 1..];
      var entry := whitelist[i];
      if entry.None? || IsBlank(entry.value) {
        continue;
      }
      var v := Attr(el, entry.value);
      if !IsBlank(v) {
        return TestAttribute(entry.value, Trim(v));
      }
    }
    return NoTestAttribute;
  }

  /**
   * The first whitelist entry naming a non-blank attribute wins, with its trimmed value;
   * when no entry does (an empty whitelist in particular) the pair is ("", "").
   */
  lemma {:induction false} TestAttributeMeaning(whitelist: seq<Option<string>>, el: Attributes)
    ensures var r := FirstTestAttribute(whitelist, el);
      (r.IsPresent() <==> exists i :: 0 <= i < |whitelist| && IsHit(whitelist[i], el))
      && (r.IsPresent() ==>
            (exists i :: 0 <= i < |whitelist| && IsHit(whitelist[i], el)
              && (forall j :: 0 <= j < i ==> !IsHit(whitelist[j], el))
              && r == TestAttribute(whitelist[i].value, Attr(el, whitelist[i].value))))
      && (!r.IsPresent() ==> r == NoTestAttribute)
    decreases |whitelist|
  {
    var r := FirstTestAttribute(whitelist, el);
    if whitelist == [] {
      assert !r.IsPresent();
    } else if IsHit(whitelist[0], el) {
      assert r == TestAttribute(whitelist[0].value, Attr(el, whitelist[0].value));
      assert r.IsPresent();
    } else {
      var tail := whitelist[1..];
      TestAttributeMeaning(tail, el);
      assert r == FirstTestAttribute(tail, el);
      if r.IsPresent() {
        var i :| 0 <= i < |tail| && IsHit(tail[i], el)
          && (forall j :: 0 <= j < i ==> !IsHit(tail[j], el))
          && r == TestAttribute(tail[i].value, Attr(el, tail[i].value));
        assert whitelist[i + 1] == tail[i];
        forall j | 0 <= j < i + 1
          ensures !IsHit(whitelist[j], el)
        {
          if j > 0 { assert whitelist[j] == tail[j - 1]; }
        }
      }
      if i :| 0 <= i < |whitelist| && IsHit(whitelist[i], el) {
        assert i > 0 && tail[i - 1] == whitelist[i];
      }
    }
  }

  /** The default whitelist names seven distinct, non-blank attributes. */
  lemma DefaultWhitelistWellFormed()
    ensures |DefaultTestAttributeWhitelist| == 7
    ensures forall i :: 0 <= i < 7 ==> !IsBlank(DefaultTestAttributeWhitelist[i])
    ensures forall i, j :: 0 <= i < j < 7 ==> DefaultTestAttributeWhitelist[i] != DefaultTestAttributeWhitelist[j]
  {
    var w := DefaultTestAttributeWhitelist;
    forall i | 0 <= i < 7
      ensures !IsBlank(w[i])
    {
      assert !IsWhitespace(w[i][0]);
    }
    forall i, j | 0 <= i < j < 7
      ensures w[i] != w[j]
    {
    }
  }

  // ---------------------------------------------------------------------------------------
  // Hint tokens
  // ---------------------------------------------------------------------------------------

  /** One `[hint:key=value]` token. */
  function HintToken(key: string, value: string): string { HintPrefix + key + "=" + value + HintSuffix }

  function RenderHints(pairs: seq<(string, string)>): string {
    if pairs == [] then "" else HintToken(pairs[0].0, pairs[0].1) + RenderHints(pairs[1..])
  }

  function OptionalHint(on: bool, key: string, value: string): seq<(string, string)> {
    if on then [(key, value)] else []
  }

  /** `contenteditable` yields a hint for any non-blank value other than `false`, ignoring case. */
  predicate EditableHint(v: string) { !IsBlank(v) && Lower(Trim(v)) != "false" }

  /**
   * The (key, value) pairs `buildHints` emits, in order: role, contenteditable,
   * aria-haspopup, aria-expanded (values lower-cased) and aria-controls (value kept as is).
   */
  function HintPairs(el: Attributes): seq<(string, string)> {
    HintPairsOf(Attr(el, "role"), Attr(el, "contenteditable"), Attr(el, "aria-haspopup"),
                Attr(el, "aria-expanded"), Attr(el, "aria-controls"))
  }

  function HintPairsOf(role: string, editable: string, popup: string, expanded: string, controls: string): seq<(string, string)> {
    OptionalHint(!IsBlank(role), "role", Lower(Trim(role)))
    + OptionalHint(EditableHint(editable), "contenteditable", "true")
    + OptionalHint(!IsBlank(popup), "aria-haspopup", Lower(Trim(popup)))
    + OptionalHint(!IsBlank(expanded), "aria-expanded", Lower(Trim(expanded)))
    + OptionalHint(!IsBlank(controls), "aria-controls", Trim(controls))
  }

  /** `buildHints`: the tokens concatenated without separators. */
  function BuildHints(el: Attributes): string { RenderHints(HintPairs(el)) }

  /** The first position of `c` in `s`. */
  function IndexOf(s: string, c: char): (r: Option<nat>)
    ensures r.Some? ==> r.value < |s| && s[r.value] == c && forall j :: 0 <= j < r.value ==> s[j] != c
    ensures r.None? ==> forall j :: 0 <= j < |s| ==> s[j] != c
  {
    if s == [] then None
    else if s[0] == c then Some(0)
    else var t := IndexOf(s[1..], c); if t.None? then None else Some(t.value + 1)
  }

  /** Reads hint tokens back: each token is split at its first `=` and ends at the next `]`. */
  function ParseHints(s: string): Option<seq<(string, string)>>
    decreases |s|
  {
    if s == [] then Some([])
    else if !StartsWith(s, HintPrefix) then None
    else
      var rest := s[|HintPrefix|..];
      var eq := IndexOf(rest, '=');
      if eq.None? then None
      else
        var after := rest[eq.value + 1..];
        var close := IndexOf(after, ']');
        if close.None? then None
        else
          var tail := ParseHints(after[close.value + 1..]);
          if tail.None? then None else Some([(rest[..eq.value], after[..close.value])] + tail.value)
  }

  /** A pair a token can carry unambiguously: no `=` in the key and no `]` in the value. */
  predicate Readable(p: (string, string)) { '=' !in p.0 && ']' !in p.1 }

  lemma IndexOfAt(s: string, c: char, k: nat)
    requires k < |s| && s[k] == c && forall j :: 0 <= j < k ==> s[j] != c
    ensures IndexOf(s, c) == Some(k)
  {
  }

  /** Splitting `a + [c] + b` at the first `c` gives back `a` and `b` when `c` is not in `a`. */
  lemma SplitAtFirst(a: string, c: char, b: string)
    requires c !in a
    ensures var s := a + [c] + b; IndexOf(s, c) == Some(|a|) && s[..|a|] == a && s[|a| + 1..] == b
  {
    var s := a + [c] + b;
    assert forall j :: 0 <= j < |a| ==> s[j] == a[j];
    IndexOfAt(s, c, |a|);
  }

  lemma TokenShape(key: string, value: string, more: string)
    ensures var s := HintToken(key, value) + more; var rest := key + ['='] + (value + [']'] + more);
      StartsWith(s, HintPrefix) && s[|HintPrefix|..] == rest
  {
    var rest := key + ['='] + (value + [']'] + more);
    var s := HintToken(key, value) + more;
    assert s == HintPrefix + rest;
  }

  /** One step of `ParseHints` on text known to start with a token. */
  lemma ParseStep(s: string, key: string, value: string, more: string)
    requires Readable((key, value))
    requires StartsWith(s, HintPrefix) && s[|HintPrefix|..] == key + ['='] + (value + [']'] + more)
    ensures ParseHints(s) ==
      (var tail := ParseHints(more); if tail.None? then None else Some([(key, value)] + tail.value))
  {
    SplitAtFirst(key, '=', value + [']'] + more);
    SplitAtFirst(value, ']', more);
  }

  lemma ParseToken(key: string, value: string, more: string)
    requires Readable((key, value))
    ensures ParseHints(HintToken(key, value) + more) ==
      (var tail := ParseHints(more); if tail.None? then None else Some([(key, value)] + tail.value))
  {
    TokenShape(key, value, more);
    ParseStep(HintToken(key, value) + more, key, value, more);
  }

  /** Rendered tokens parse back to the pairs they were rendered from. */
  lemma {:induction false} RenderParseRoundTrip(pairs: seq<(string, string)>)
    requires AllReadable(pairs)
    ensures ParseHints(RenderHints(pairs)) == Some(pairs)
  {
    if pairs != [] {
      RenderParseRoundTrip(pairs[1..]);
      ParseToken(pairs[0].0, pairs[0].1, RenderHints(pairs[1..]));
      assert [pairs[0]] + pairs[1..] == pairs;
    }
  }

  lemma LowerKeepsBracketOut(s: string)
    requires ']' !in s
    ensures ']' !in Lower(s)
  {
    forall i | 0 <= i < |s|
      ensures Lower(s)[i] != ']'
    {
      LowerAt(s, i);
    }
  }

  predicate AllReadable(pairs: seq<(string, string)>) { forall i :: 0 <= i < |pairs| ==> Readable(pairs[i]) }

  lemma AllReadableAppend(a: seq<(string, string)>, b: seq<(string, string)>)
    requires AllReadable(a) && AllReadable(b)
    ensures AllReadable(a + b)
  {
    assert forall i :: 0 <= i < |a + b| ==> (a + b)[i] == (if i < |a| then a[i] else b[i - |a|]);
  }

  lemma OptionalHintReadable(on: bool, key: string, value: string)
    requires Readable((key, value))
    ensures AllReadable(OptionalHint(on, key, value))
  {
  }

  lemma LowerTrimReadable(key: string, v: string)
    requires '=' !in key && ']' !in v && Trim(v) == v
    ensures Readable((key, Lower(Trim(v)))) && Readable((key, Trim(v)))
  {
    LowerKeepsBracketOut(v);
  }

  /** With trimmed values free of `]`, every emitted pair is readable. */
  lemma HintPairsReadable(role: string, editable: string, popup: string, expanded: string, controls: string)
    requires Trim(role) == role && Trim(popup) == popup && Trim(expanded) == expanded && Trim(controls) == controls
    requires ']' !in role && ']' !in popup && ']' !in expanded && ']' !in controls
    ensures AllReadable(HintPairsOf(role, editable, popup, expanded, controls))
  {
    LowerTrimReadable("role", role);
    LowerTrimReadable("aria-haspopup", popup);
    LowerTrimReadable("aria-expanded", expanded);
    LowerTrimReadable("aria-controls", controls);
    var a := OptionalHint(!IsBlank(role), "role", Lower(Trim(role)));
    var b := OptionalHint(EditableHint(editable), "contenteditable", "true");
    var c := OptionalHint(!IsBlank(popup), "aria-haspopup", Lower(Trim(popup)));
    var d := OptionalHint(!IsBlank(expanded), "aria-expanded", Lower(Trim(expanded)));
    var e := OptionalHint(!IsBlank(controls), "aria-controls", Trim(controls));
    OptionalHintReadable(!IsBlank(role), "role", Lower(Trim(role)));
    OptionalHintReadable(EditableHint(editable), "contenteditable", "true");
    OptionalHintReadable(!IsBlank(popup), "aria-haspopup", Lower(Trim(popup)));
    OptionalHintReadable(!IsBlank(expanded), "aria-expanded", Lower(Trim(expanded)));
    OptionalHintReadable(!IsBlank(controls), "aria-controls", Trim(controls));
    AllReadableAppend(a, b);
    AllReadableAppend(a + b, c);
    AllReadableAppend(a + b + c, d);
    AllReadableAppend(a + b + c + d, e);
  }

  /** The attribute values the hints copy, none of which may contain `]`. */
  predicate HintValuesReadable(el: Attributes) {
    ']' !in Attr(el, "role") && ']' !in Attr(el, "aria-haspopup")
    && ']' !in Attr(el, "aria-expanded") && ']' !in Attr(el, "aria-controls")
  }

  /**
   * The hints read back to exactly the emitted pairs, in emission order, as long as no
   * copied value contains the closing bracket.
   */
  lemma HintsRoundTrip(el: Attributes)
    requires HintValuesReadable(el)
    ensures ParseHints(BuildHints(el)) == Some(HintPairs(el))
  {
    HintPairsReadable(Attr(el, "role"), Attr(el, "contenteditable"), Attr(el, "aria-haspopup"),
                      Attr(el, "aria-expanded"), Attr(el, "aria-controls"));
    RenderParseRoundTrip(HintPairs(el));
  }

  /** Rendered hints are blank exactly when there are none: every token starts with `[`. */
  lemma RenderedHintsBlankIffNone(pairs: seq<(string, string)>)
    ensures IsBlank(RenderHints(pairs)) <==> pairs == []
  {
    if pairs != [] {
      assert RenderHints(pairs)[0] == '[';
    }
  }

  /** `appendHints`, given the hints already built and the normalised surrounding text. */
  function AppendHints(surrounding: string, hints: string): string {
    if IsBlank(hints) then surrounding
    else if IsBlank(surrounding) then hints
    else surrounding + " " + hints
  }

  /** The surrounding text `mapElement` stores: the normalised text with the element's hints. */
  function SurroundingText(base: string, el: Attributes): string { AppendHints(base, BuildHints(el)) }

  /**
   * The stored text is blank only when both the text and the hints are; otherwise it is the
   * text (when not blank) and one space, followed by hints that read back to the element's
   * hint pairs.
   */
  lemma SurroundingTextCarriesHints(base: string, el: Attributes)
    requires HintValuesReadable(el)
    ensures var r := SurroundingText(base, el);
      (IsBlank(r) <==> IsBlank(base) && HintPairs(el) == [])
      && (HintPairs(el) == [] ==> r == base)
      && (HintPairs(el) != [] ==>
            exists n :: 0 <= n <= |r| && r[..n] == (if IsBlank(base) then "" else base + " ")
              && ParseHints(r[n..]) == Some(HintPairs(el)))
  {
    var hints := BuildHints(el);
    RenderedHintsBlankIffNone(HintPairs(el));
    HintsRoundTrip(el);
    AppendHintsSplit(base, hints);
  }

  /** `appendHints` keeps a non-blank text in front of the hints, separated by one space. */
  lemma AppendHintsSplit(base: string, hints: string)
    ensures var r := AppendHints(base, hints);
      (IsBlank(r) <==> IsBlank(base) && IsBlank(hints))
      && (IsBlank(hints) ==> r == base)
      && (!IsBlank(hints) ==>
            exists n :: 0 <= n <= |r| && r[..n] == (if IsBlank(base) then "" else base + " ") && r[n..] == hints)
  {
    var r := AppendHints(base, hints);
    if !IsBlank(hints) {
      if IsBlank(base) {
        assert r[..0] == "" && r[0..] == hints;
      } else {
        assert r == (base + " ") + hints;
        assert r[..|base| + 1] == base + " " && r[|base| + 1..] == hints;
        StableLocators.NotBlankAppend(base, " " + hints);
        assert r == base + (" " + hints);
      }
    }
  }

  // ---------------------------------------------------------------------------------------
  // Form identifier
  // ---------------------------------------------------------------------------------------

  /** Which attribute of the enclosing form names it. */
  datatype FormKey = NotInForm | FormById(id: string) | FormByName(name: string) | FormByAction(action: string) | AnonymousForm

  /** `resolveFormIdentifier`'s choice; `form` is the closest enclosing form, `None` when there is none or the lookup throws. */
  function FormKeyOf(form: Option<Attributes>): FormKey {
    if form.None? then NotInForm
    else if !IsBlank(Attr(form.value, "id")) then FormById(Attr(form.value, "id"))
    else if !IsBlank(Attr(form.value, "name")) then FormByName(Attr(form.value, "name"))
    else if !IsBlank(Attr(form.value, "action")) then FormByAction(Attr(form.value, "action"))
    else AnonymousForm
  }

  function RenderFormKey(k: FormKey): string {
    match k
    case NotInForm => ""
    case FormById(v) => "id:" + v
    case FormByName(v) => "name:" + v
    case FormByAction(v) => "action:" + v
    case AnonymousForm => "form"
  }

  /** `resolveFormIdentifier`. */
  function FormIdentifier(form: Option<Attributes>): string { RenderFormKey(FormKeyOf(form)) }

  /** Reads a form identifier back by its prefix. */
  function ParseFormKey(s: string): FormKey {
    if s == "" then NotInForm
    else if StartsWith(s, "id:") then FormById(s[3..])
    else if StartsWith(s, "name:") then FormByName(s[5..])
    else if StartsWith(s, "action:") then FormByAction(s[7..])
    else AnonymousForm
  }

  /** The prefixes keep the kinds apart: every form key reads back as itself. */
  lemma FormKeyRoundTrip(k: FormKey)
    ensures ParseFormKey(RenderFormKey(k)) == k
  {
    var s := RenderFormKey(k);
    match k
    case NotInForm =>
    case FormById(v) =>
      assert s[..3] == "id:" && s[3..] == v;
    case FormByName(v) =>
      assert s[..5] == "name:" && s[5..] == v;
      assert s[0] != "id:"[0];
    case FormByAction(v) =>
      assert s[..7] == "action:" && s[7..] == v;
      assert s[0] != "id:"[0] && s[0] != "name:"[0];
    case AnonymousForm =>
      assert s[0] == 'f';
  }

  /**
   * The identifier is blank exactly when the element is outside any form (or the lookup
   * failed), and it reads back to the attribute that named the form.
   */
  lemma FormIdentifierMeaning(form: Option<Attributes>)
    ensures IsBlank(FormIdentifier(form)) <==> form.None?
    ensures ParseFormKey(FormIdentifier(form)) == FormKeyOf(form)
  {
    FormKeyRoundTrip(FormKeyOf(form));
    var s := FormIdentifier(form);
    if form.Some? {
      assert s != [] && !IsWhitespace(s[0]);
    }
  }

  /** The form's `id` and `name` as the driver reads them, "" when absent. */
  function Raw(f: Attributes, name: string): string { if name in f then f[name] else "" }

  /**
   * For a form named by a trimmed `id` or `name`, the driver's fallback form key and the
   * mapper's identifier are the same string.
   */
  lemma DriverFormKeyAgrees(f: Attributes)
    requires Trim(Raw(f, "id")) == Raw(f, "id") && Trim(Raw(f, "name")) == Raw(f, "name")
    requires !IsBlank(Raw(f, "id")) || !IsBlank(Raw(f, "name"))
    ensures StableLocators.ResolveFormKey("", StableLocators.ResolveFormContext(Some((Raw(f, "id"), Raw(f, "name")))))
      == FormIdentifier(Some(f))
  {
    assert IsBlank("");
  }

  // ---------------------------------------------------------------------------------------
  // Text normalisation and escaping
  // ---------------------------------------------------------------------------------------

  /** `normalizeText`: runs of `\s` become one space, then the ends are trimmed; `null` gives "". */
  function NormalizeText(s: Option<string>): string {
    if s.None? then "" else Trim(CollapseSpaces(s.value))
  }

  /**
   * The mapper collapses then trims, the driver trims then collapses: both give the same
   * label, and the driver's normalisation of a mapped label changes nothing.
   */
  lemma NormalizeTextAgreesWithDriver(s: string)
    ensures NormalizeText(Some(s)) == StableLocators.NormalizeLabel(s)
    ensures StableLocators.NormalizeLabel(NormalizeText(Some(s))) == NormalizeText(Some(s))
    ensures SingleSpaced(NormalizeText(Some(s)))
  {
    TrimCollapseCommute(s);
    var y := NormalizeText(Some(s));
    TrimOfTrimmed(y);
    CollapseOfSingleSpaced(y);
  }

  /** `cssEscape`: backslashes doubled, then `'` escaped; `null` and "" give "". */
  function CssEscape(s: Option<string>): string {
    if s.None? || s.value == "" then "" else CssStringBody(s.value)
  }

  /** The selector `label[for='…']` used to find an element's label by its `id`. */
  function LabelForSelector(id: string): string { "label[for='" + CssEscape(Some(id)) + "']" }

  /**
   * The label selector quotes the id exactly as the driver's `cssAttrLiteral` does, so the
   * quoted string ends at its closing quote and reads back as the id.
   */
  lemma LabelForSelectorQuotesId(id: string)
    ensures LabelForSelector(id) == "label[for=" + CssAttrLiteral(Some(id)) + "]"
    ensures var body := CssEscape(Some(id)); QuotedBody(body) && Unescape(body) == id
  {
    var body := CssEscape(Some(id));
    assert body == CssStringBody(id);
    CssStringBodyIsOnePass(id);
    EscapeBothRoundTrip(id);
    assert CssAttrLiteral(Some(id)) == "'" + body + "'";
    assert LabelForSelector(id) == "label[for=" + ("'" + body + "'") + "]";
  }
}
