/**
 * The locator synthesizer of `IntentiumWebDriver`: for the element the selector elected, a
 * best-effort XPath and CSS selector built from the first anchor, in a fixed preference order,
 * that is unique among the snapshot candidates sharing the element's tag and form.
 *
 * The live browser is replaced by inputs: the snapshot is the list of candidates collected from
 * the page (`ref` is the identity of each descriptor object), the element's own tag read and its
 * enclosing form's `id`/`name` are passed in as values.
 */
module StableLocators {
  import opened Wrappers
  import opened Text
  import opened DomElement
  import opened Literals
  import opened HashedTokens

  // ---------------------------------------------------------------- uniqueness in context

  /** The attributes an anchor can name, with their HTML attribute names. */
  datatype Attribute = Name | AriaLabel | Placeholder | Title | TypeAttr

  function AttributeName(a: Attribute): string {
    match a
    case Name => "name"
    case AriaLabel => "aria-label"
    case Placeholder => "placeholder"
    case Title => "title"
    case TypeAttr => "type"
  }

  /** The descriptor getters the uniqueness checks read. */
  datatype Getter = Attr(attribute: Attribute) | TestName | TestValue

  function Get(g: Getter, e: DomElementInfo): string {
    match g
    case Attr(Name) => e.name
    case Attr(AriaLabel) => e.ariaLabel
    case Attr(Placeholder) => e.placeholder
    case Attr(Title) => e.title
    case Attr(TypeAttr) => e.typeAttr
    case TestName => e.testAttributeName
    case TestValue => e.testAttributeValue
  }

  /**
   * What a candidate must carry to count: equal values for one or two getters (the two
   * `isUniqueInContext` overloads), or a class token (`isUniqueClassTokenInContext`).
   */
  datatype Criterion = Equal(probes: seq<(Getter, string)>) | HasClass(token: string)

  /** The values looked for are non-blank; otherwise the check answers false without looking. */
  predicate WellPosed(c: Criterion) {
    match c
    case Equal(probes) => forall k :: 0 <= k < |probes| ==> !IsBlank(probes[k].1)
    case HasClass(token) => !IsBlank(token)
  }

  /** `cssClasses.trim().split("\\s+")`. */
  function ClassTokens(cssClasses: string): seq<string> {
    SplitOnSpaces(Trim(cssClasses))
  }

  /** `hasClassToken`: the token is one of the whitespace-separated words of the class attribute. */
  predicate HasClassToken(cssClasses: string, token: string) {
    !IsBlank(cssClasses) && !IsBlank(token) && token in ClassTokens(cssClasses)
  }

  predicate Meets(e: DomElementInfo, c: Criterion) {
    match c
    case Equal(probes) => forall k :: 0 <= k < |probes| ==> Get(probes[k].0, e) == probes[k].1
    case HasClass(token) => HasClassToken(e.cssClasses, token)
  }

  /** `tagEquals`: `equalsIgnoreCase` on the tag names. */
  predicate TagEquals(a: string, b: string) { Lower(a) == Lower(b) }

  /** `formMatches`: a blank expected key matches only a blank key, any other key only itself. */
  predicate FormMatches(expected: string, actual: string) {
    if IsBlank(expected) then IsBlank(actual) else expected == actual
  }

  /** The candidates a uniqueness check looks at: same tag, ignoring case, and same form key. */
  predicate InContext(e: DomElementInfo, tag: string, formKey: string) {
    TagEquals(tag, e.tagName) && FormMatches(formKey, e.formIdentifier)
  }

  predicate Counted(e: DomElementInfo, tag: string, formKey: string, c: Criterion) {
    InContext(e, tag, formKey) && Meets(e, c)
  }

  /** The number of candidates in context that meet the criterion. */
  function CountInContext(snapshot: seq<Candidate>, tag: string, formKey: string, c: Criterion): nat {
    if snapshot == [] then 0
    else
      var n := |snapshot| - 1;
      CountInContext(snapshot[..n], tag, formKey, c) + (if Counted(snapshot[n].info, tag, formKey, c) then 1 else 0)
  }

  /** `isUniqueInContext` (both overloads) and `isUniqueClassTokenInContext`. */
  predicate IsUniqueInContext(snapshot: seq<Candidate>, tag: string, formKey: string, c: Criterion) {
    WellPosed(c) && CountInContext(snapshot, tag, formKey, c) == 1
  }

  lemma {:induction false} CountPrefixAtMost(snapshot: seq<Candidate>, i: int, tag: string, formKey: string, c: Criterion)
    requires 0 <= i <= |snapshot|
    ensures CountInContext(snapshot[..i], tag, formKey, c) <= CountInContext(snapshot, tag, formKey, c)
    decreases |snapshot|
  {
    if i < |snapshot| {
      var n := |snapshot| - 1;
      assert snapshot[..n][..i] == snapshot[..i];
      CountPrefixAtMost(snapshot[..n], i, tag, formKey, c);
    } else {
      assert snapshot[..i] == snapshot;
    }
  }

  /**
   * The scan of the source: candidates in order, stopping as soon as a second one is counted.
   */
  method UniqueInContextScan(snapshot: seq<Candidate>, tag: string, formKey: string, c: Criterion) returns (r: bool)
    ensures r == IsUniqueInContext(snapshot, tag, formKey, c)
  {
    if !WellPosed(c) {
      return false;
    }
    var count := 0;
    var i := 0;
    while i < |snapshot|
      invariant 0 <= i <= |snapshot|
      invariant count == CountInContext(snapshot[..i], tag, formKey, c) <= 1
    {
      var d := snapshot[i].info;
      assert snapshot[..i + 1][..i] == snapshot[..i];
      if Counted(d, tag, formKey, c) {
        count := count + 1;
        if count > 1 {
          CountPrefixAtMost(snapshot, i + 1, tag, formKey, c);
          return false;
        }
      }
      i := i + 1;
    }
    assert snapshot[..i] == snapshot;
    return count == 1;
  }

  /** Whether each candidate of the snapshot is counted, in order. */
  function Hits(snapshot: seq<Candidate>, tag: string, formKey: string, c: Criterion): (r: seq<bool>)
    ensures |r| == |snapshot|
  {
    if snapshot == [] then []
    else
      var n := |snapshot| - 1;
      Hits(snapshot[..n], tag, formKey, c) + [Counted(snapshot[n].info, tag, formKey, c)]
  }

  function CountTrue(b: seq<bool>): nat {
    if b == [] then 0 else CountTrue(b[..|b| - 1]) + (if b[|b| - 1] then 1 else 0)
  }

  lemma {:induction false} CountIsCountTrue(snapshot: seq<Candidate>, tag: string, formKey: string, c: Criterion)
    ensures CountInContext(snapshot, tag, formKey, c) == CountTrue(Hits(snapshot, tag, formKey, c))
  {
    if snapshot != [] {
      var n := |snapshot| - 1;
      CountIsCountTrue(snapshot[..n], tag, formKey, c);
      var h := Hits(snapshot, tag, formKey, c);
      assert h[..n] == Hits(snapshot[..n], tag, formKey, c);
    }
  }

  lemma {:induction false} HitsAt(snapshot: seq<Candidate>, j: int, tag: string, formKey: string, c: Criterion)
    requires 0 <= j < |snapshot|
    ensures Hits(snapshot, tag, formKey, c)[j] == Counted(snapshot[j].info, tag, formKey, c)
  {
    var n := |snapshot| - 1;
    if j < n {
      HitsAt(snapshot[..n], j, tag, formKey, c);
      assert snapshot[..n][j] == snapshot[j];
    }
  }

  lemma {:induction false} CountTrueZero(b: seq<bool>)
    ensures CountTrue(b) == 0 <==> forall j :: 0 <= j < |b| ==> !b[j]
  {
    if b != [] {
      var n := |b| - 1;
      CountTrueZero(b[..n]);
      assert forall j :: 0 <= j < n ==> b[..n][j] == b[j];
    }
  }

  /** Exactly one flag, at position `i`, is set. */
  predicate OnlyTrue(b: seq<bool>, i: int) {
    0 <= i < |b| && b[i] && forall j :: 0 <= j < |b| && j != i ==> !b[j]
  }

  lemma {:induction false} CountTrueOne(b: seq<bool>)
    ensures CountTrue(b) == 1 <==> exists i :: OnlyTrue(b, i)
  {
    if b != [] {
      var n := |b| - 1;
      var pre := b[..n];
      assert forall j :: 0 <= j < n ==> pre[j] == b[j];
      CountTrueOne(pre);
      CountTrueZero(pre);
      if b[n] {
        if CountTrue(b) == 1 {
          assert OnlyTrue(b, n);
        }
        if exists i :: OnlyTrue(b, i) {
          var i :| OnlyTrue(b, i);
          assert i == n;
        }
      } else {
        if CountTrue(b) == 1 {
          var i :| OnlyTrue(pre, i);
          assert OnlyTrue(b, i);
        }
        if exists i :: OnlyTrue(b, i) {
          var i :| OnlyTrue(b, i);
          assert OnlyTrue(pre, i);
        }
      }
    }
  }

  /** No candidate is counted exactly when the count is zero. */
  lemma CountZeroIffNone(snapshot: seq<Candidate>, tag: string, formKey: string, c: Criterion)
    ensures CountInContext(snapshot, tag, formKey, c) == 0 <==>
      forall j :: 0 <= j < |snapshot| ==> !Counted(snapshot[j].info, tag, formKey, c)
  {
    var h := Hits(snapshot, tag, formKey, c);
    CountIsCountTrue(snapshot, tag, formKey, c);
    CountTrueZero(h);
    forall j | 0 <= j < |snapshot| {
      HitsAt(snapshot, j, tag, formKey, c);
    }
  }

  /** Exactly one candidate of the snapshot, at position `i`, is counted. */
  predicate OnlyCounted(snapshot: seq<Candidate>, i: int, tag: string, formKey: string, c: Criterion) {
    0 <= i < |snapshot| && Counted(snapshot[i].info, tag, formKey, c)
    && forall j :: 0 <= j < |snapshot| && j != i ==> !Counted(snapshot[j].info, tag, formKey, c)
  }

  lemma CountOneIffSingle(snapshot: seq<Candidate>, tag: string, formKey: string, c: Criterion)
    ensures CountInContext(snapshot, tag, formKey, c) == 1 <==>
      exists i :: OnlyCounted(snapshot, i, tag, formKey, c)
  {
    var h := Hits(snapshot, tag, formKey, c);
    CountIsCountTrue(snapshot, tag, formKey, c);
    CountTrueOne(h);
    forall j | 0 <= j < |snapshot| ensures h[j] == Counted(snapshot[j].info, tag, formKey, c) {
      HitsAt(snapshot, j, tag, formKey, c);
    }
    if exists i :: OnlyTrue(h, i) {
      var i :| OnlyTrue(h, i);
      assert OnlyCounted(snapshot, i, tag, formKey, c);
    }
    if exists i :: OnlyCounted(snapshot, i, tag, formKey, c) {
      var i :| OnlyCounted(snapshot, i, tag, formKey, c);
      assert OnlyTrue(h, i);
    }
  }

  /**
   * A uniqueness check holds exactly when the values looked for are non-blank and one single
   * candidate of the snapshot has the tag (ignoring case), the form key and those values.
   */
  lemma UniqueIffExactlyOne(snapshot: seq<Candidate>, tag: string, formKey: string, c: Criterion)
    ensures IsUniqueInContext(snapshot, tag, formKey, c) <==>
      WellPosed(c) && exists i :: OnlyCounted(snapshot, i, tag, formKey, c)
  {
    CountOneIffSingle(snapshot, tag, formKey, c);
  }

  // ---------------------------------------------------------------- ordinal position

  /** `"input".equalsIgnoreCase(tag)`. */
  predicate IsInputTag(tag: string) { Lower(tag) == "input" }

  /** The candidates `ordinalInContext` numbers: in context, and of the same type when the tag is `input` and the type is known. */
  predicate Numbered(e: DomElementInfo, tag: string, formKey: string, typeValue: string) {
    InContext(e, tag, formKey) && (!IsBlank(typeValue) && IsInputTag(tag) ==> e.typeAttr == typeValue)
  }

  function Numbering(snapshot: seq<Candidate>, tag: string, formKey: string, typeValue: string): (r: seq<Candidate>)
    ensures |r| <= |snapshot|
  {
    if snapshot == [] then []
    else
      var n := |snapshot| - 1;
      Numbering(snapshot[..n], tag, formKey, typeValue)
        + (if Numbered(snapshot[n].info, tag, formKey, typeValue) then [snapshot[n]] else [])
  }

  /** The first position holding the reference `ref`, or -1. */
  function IndexOfRef(s: seq<Candidate>, ref: nat): (r: int)
    ensures -1 <= r < |s|
    ensures r >= 0 ==> s[r].ref == ref && forall j :: 0 <= j < r ==> s[j].ref != ref
    ensures r == -1 ==> forall j :: 0 <= j < |s| ==> s[j].ref != ref
  {
    if s == [] then -1
    else if s[0].ref == ref then 0
    else
      var k := IndexOfRef(s[1..], ref);
      if k < 0 then -1 else k + 1
  }

  /** `ordinalInContext`: the 1-based position of the target, by identity, among the numbered candidates, or -1. */
  function OrdinalInContext(snapshot: seq<Candidate>, target: Option<Candidate>, tag: string, formKey: string, typeValue: string): int {
    if target.None? then -1
    else
      var k := IndexOfRef(Numbering(snapshot, tag, formKey, typeValue), target.value.ref);
      if k < 0 then -1 else k + 1
  }

  /**
   * A positive ordinal names the target: the `n`-th numbered candidate is the target object and
   * no earlier one is; -1 means the target is null or not among the numbered candidates.
   */
  lemma OrdinalNamesTarget(snapshot: seq<Candidate>, target: Option<Candidate>, tag: string, formKey: string, typeValue: string)
    ensures var n := OrdinalInContext(snapshot, target, tag, formKey, typeValue);
      var ns := Numbering(snapshot, tag, formKey, typeValue);
      (n == -1 || 1 <= n <= |ns|)
      && (n > 0 ==> ns[n - 1].ref == target.value.ref && forall j :: 0 <= j < n - 1 ==> ns[j].ref != target.value.ref)
      && (n == -1 <==> target.None? || forall j :: 0 <= j < |ns| ==> ns[j].ref != target.value.ref)
  {
  }

  lemma {:induction false} IndexOfRefAppend(a: seq<Candidate>, b: seq<Candidate>, ref: nat)
    requires IndexOfRef(a, ref) == -1
    ensures IndexOfRef(a + b, ref) == (if IndexOfRef(b, ref) < 0 then -1 else |a| + IndexOfRef(b, ref))
  {
    if a != [] {
      IndexOfRefAppend(a[1..], b, ref);
      assert (a + b)[1..] == a[1..] + b;
    } else {
      assert a + b == b;
    }
  }

  lemma {:induction false} IndexOfRefFound(a: seq<Candidate>, b: seq<Candidate>, ref: nat)
    requires IndexOfRef(a, ref) >= 0
    ensures IndexOfRef(a + b, ref) == IndexOfRef(a, ref)
  {
    if a[0].ref != ref {
      IndexOfRefFound(a[1..], b, ref);
      assert (a + b)[1..] == a[1..] + b;
    }
  }

  /** The numbering of a longer snapshot begins with the numbering of its prefix. */
  lemma {:induction false} NumberingPrefix(snapshot: seq<Candidate>, i: int, tag: string, formKey: string, typeValue: string)
    requires 0 <= i <= |snapshot|
    ensures exists rest :: Numbering(snapshot, tag, formKey, typeValue) == Numbering(snapshot[..i], tag, formKey, typeValue) + rest
    decreases |snapshot|
  {
    if i == |snapshot| {
      assert snapshot[..i] == snapshot;
      assert Numbering(snapshot, tag, formKey, typeValue) == Numbering(snapshot[..i], tag, formKey, typeValue) + [];
    } else {
      var n := |snapshot| - 1;
      assert snapshot[..n][..i] == snapshot[..i];
      NumberingPrefix(snapshot[..n], i, tag, formKey, typeValue);
      var rest :| Numbering(snapshot[..n], tag, formKey, typeValue) == Numbering(snapshot[..i], tag, formKey, typeValue) + rest;
      var last := if Numbered(snapshot[n].info, tag, formKey, typeValue) then [snapshot[n]] else [];
      assert Numbering(snapshot, tag, formKey, typeValue) == Numbering(snapshot[..i], tag, formKey, typeValue) + (rest + last);
    }
  }

  /** One step of the scan: the numbering of `snapshot[..i + 1]` extends that of `snapshot[..i]` by the `i`-th candidate, if numbered. */
  lemma NumberingStep(snapshot: seq<Candidate>, i: int, tag: string, formKey: string, typeValue: string, ref: nat)
    requires 0 <= i < |snapshot|
    requires IndexOfRef(Numbering(snapshot[..i], tag, formKey, typeValue), ref) == -1
    ensures var before := Numbering(snapshot[..i], tag, formKey, typeValue);
      var d := snapshot[i];
      Numbering(snapshot[..i + 1], tag, formKey, typeValue) == before + (if Numbered(d.info, tag, formKey, typeValue) then [d] else [])
      && (!(Numbered(d.info, tag, formKey, typeValue) && d.ref == ref) ==>
            IndexOfRef(Numbering(snapshot[..i + 1], tag, formKey, typeValue), ref) == -1)
  {
    var before := Numbering(snapshot[..i], tag, formKey, typeValue);
    var d := snapshot[i];
    assert snapshot[..i + 1][..i] == snapshot[..i];
    var last := if Numbered(d.info, tag, formKey, typeValue) then [d] else [];
    IndexOfRefAppend(before, last, ref);
  }

  /** The scan stops at the target: its ordinal is one more than the count of numbered candidates before it. */
  lemma OrdinalFoundAt(snapshot: seq<Candidate>, i: int, tag: string, formKey: string, typeValue: string, target: Candidate)
    requires 0 <= i < |snapshot|
    requires IndexOfRef(Numbering(snapshot[..i], tag, formKey, typeValue), target.ref) == -1
    requires Numbered(snapshot[i].info, tag, formKey, typeValue) && snapshot[i].ref == target.ref
    ensures OrdinalInContext(snapshot, Some(target), tag, formKey, typeValue) == |Numbering(snapshot[..i], tag, formKey, typeValue)| + 1
  {
    var before := Numbering(snapshot[..i], tag, formKey, typeValue);
    var d := snapshot[i];
    NumberingStep(snapshot, i, tag, formKey, typeValue, target.ref);
    IndexOfRefAppend(before, [d], target.ref);
    NumberingPrefix(snapshot, i + 1, tag, formKey, typeValue);
    var rest :| Numbering(snapshot, tag, formKey, typeValue) == (before + [d]) + rest;
    IndexOfRefFound(before + [d], rest, target.ref);
  }

  /** The scan of the source: count the numbered candidates and stop at the target. */
  method OrdinalScan(snapshot: seq<Candidate>, target: Option<Candidate>, tag: string, formKey: string, typeValue: string) returns (r: int)
    ensures r == OrdinalInContext(snapshot, target, tag, formKey, typeValue)
  {
    if target.None? {
      return -1;
    }
    var ref := target.value.ref;
    var ordinal := 0;
    var i := 0;
    while i < |snapshot|
      invariant 0 <= i <= |snapshot|
      invariant ordinal == |Numbering(snapshot[..i], tag, formKey, typeValue)|
      invariant IndexOfRef(Numbering(snapshot[..i], tag, formKey, typeValue), ref) == -1
    {
      var d := snapshot[i];
      NumberingStep(snapshot, i, tag, formKey, typeValue, ref);
      if Numbered(d.info, tag, formKey, typeValue) {
        if d.ref == ref {
          OrdinalFoundAt(snapshot, i, tag, formKey, typeValue, target.value);
          return ordinal + 1;
        }
        ordinal := ordinal + 1;
      }
      i := i + 1;
    }
    assert snapshot[..i] == snapshot;
    return -1;
  }

  // ---------------------------------------------------------------- class tokens

  /**
   * The first token, from position `i` on, that is non-blank, hashed or not as asked, and unique
   * in context (one pass of `pickUniqueClassToken`).
   */
  function FirstUniqueToken(tokens: seq<string>, i: nat, hashed: bool, snapshot: seq<Candidate>, tag: string, formKey: string): (r: Option<string>)
    decreases |tokens| - i
  {
    if i >= |tokens| then None
    else
      var t := tokens[i];
      if !IsBlank(t) && IsProbablyHashed(Some(t)) == hashed && IsUniqueInContext(snapshot, tag, formKey, HasClass(t)) then Some(t)
      else FirstUniqueToken(tokens, i + 1, hashed, snapshot, tag, formKey)
  }

  /** A token that a pass may pick. */
  predicate Pickable(t: string, hashed: bool, snapshot: seq<Candidate>, tag: string, formKey: string) {
    !IsBlank(t) && IsProbablyHashed(Some(t)) == hashed && IsUniqueInContext(snapshot, tag, formKey, HasClass(t))
  }

  lemma {:induction false} FirstUniqueTokenMeaning(tokens: seq<string>, i: nat, hashed: bool, snapshot: seq<Candidate>, tag: string, formKey: string)
    requires i <= |tokens|
    ensures var r := FirstUniqueToken(tokens, i, hashed, snapshot, tag, formKey);
      (r.Some? ==> exists k :: i <= k < |tokens| && tokens[k] == r.value && Pickable(r.value, hashed, snapshot, tag, formKey)
                      && forall j :: i <= j < k ==> !Pickable(tokens[j], hashed, snapshot, tag, formKey))
      && (r.None? ==> forall j :: i <= j < |tokens| ==> !Pickable(tokens[j], hashed, snapshot, tag, formKey))
    decreases |tokens| - i
  {
    if i < |tokens| {
      FirstUniqueTokenMeaning(tokens, i + 1, hashed, snapshot, tag, formKey);
      var r := FirstUniqueToken(tokens, i, hashed, snapshot, tag, formKey);
      if Pickable(tokens[i], hashed, snapshot, tag, formKey) {
        assert r == Some(tokens[i]);
      } else if r.Some? {
        var k :| i + 1 <= k < |tokens| && tokens[k] == r.value && Pickable(r.value, hashed, snapshot, tag, formKey)
          && forall j :: i + 1 <= j < k ==> !Pickable(tokens[j], hashed, snapshot, tag, formKey);
        assert forall j :: i <= j < k ==> !Pickable(tokens[j], hashed, snapshot, tag, formKey);
      }
    }
  }

  /**
   * `pickUniqueClassToken`: the first unique non-hashed token; when none and hashed tokens are
   * allowed, the first unique hashed one.
   */
  function PickUniqueClassToken(snapshot: seq<Candidate>, tag: string, formKey: string, cssClasses: string, allowHashed: bool): Option<string> {
    if IsBlank(cssClasses) then None
    else
      var tokens := ClassTokens(cssClasses);
      var plain := FirstUniqueToken(tokens, 0, false, snapshot, tag, formKey);
      if plain.Some? then plain
      else if !allowHashed then None
      else FirstUniqueToken(tokens, 0, true, snapshot, tag, formKey)
  }

  /** One pass of the source over the class tokens, stopping at the first pick. */
  method FirstUniqueTokenScan(tokens: seq<string>, hashed: bool, snapshot: seq<Candidate>, tag: string, formKey: string)
    returns (r: Option<string>)
    ensures r == FirstUniqueToken(tokens, 0, hashed, snapshot, tag, formKey)
  {
    for i := 0 to |tokens|
      invariant FirstUniqueToken(tokens, i, hashed, snapshot, tag, formKey) == FirstUniqueToken(tokens, 0, hashed, snapshot, tag, formKey)
    {
      var t := tokens[i];
      if !IsBlank(t) {
        var isHashed := IsProbablyHashedCheck(Some(t));
        if isHashed == hashed {
          var unique := UniqueInContextScan(snapshot, tag, formKey, HasClass(t));
          if unique {
            return Some(t);
          }
        }
      }
    }
    return None;
  }

  /** `pickUniqueClassToken`: the non-hashed pass, then the hashed pass when allowed. */
  method PickUniqueClassTokenScan(snapshot: seq<Candidate>, tag: string, formKey: string, cssClasses: string, allowHashed: bool)
    returns (r: Option<string>)
    ensures r == PickUniqueClassToken(snapshot, tag, formKey, cssClasses, allowHashed)
  {
    if IsBlank(cssClasses) {
      return None;
    }
    var tokens := ClassTokens(cssClasses);
    r := FirstUniqueTokenScan(tokens, false, snapshot, tag, formKey);
    if r.Some? {
      return r;
    }
    if !allowHashed {
      return None;
    }
    r := FirstUniqueTokenScan(tokens, true, snapshot, tag, formKey);
  }

  /**
   * What a picked class token is: a word of the class attribute, unique in context; a hashed
   * one only when hashed tokens are allowed and no non-hashed word is unique. Nothing is picked
   * only when no word qualifies.
   */
  lemma PickedTokenMeaning(snapshot: seq<Candidate>, tag: string, formKey: string, cssClasses: string, allowHashed: bool)
    ensures var r := PickUniqueClassToken(snapshot, tag, formKey, cssClasses, allowHashed);
      var tokens := ClassTokens(cssClasses);
      (r.Some? ==> r.value in tokens && !IsBlank(r.value) && IsUniqueInContext(snapshot, tag, formKey, HasClass(r.value)))
      && (r.Some? && IsProbablyHashed(Some(r.value)) ==>
            allowHashed && forall j :: 0 <= j < |tokens| ==> !Pickable(tokens[j], false, snapshot, tag, formKey))
      && (!allowHashed && r.Some? ==> !IsProbablyHashed(Some(r.value)))
      && (r.None? && !IsBlank(cssClasses) ==>
            forall j :: 0 <= j < |tokens| ==> !Pickable(tokens[j], false, snapshot, tag, formKey)
                                              && (allowHashed ==> !Pickable(tokens[j], true, snapshot, tag, formKey)))
  {
    var tokens := ClassTokens(cssClasses);
    FirstUniqueTokenMeaning(tokens, 0, false, snapshot, tag, formKey);
    FirstUniqueTokenMeaning(tokens, 0, true, snapshot, tag, formKey);
  }

  // ---------------------------------------------------------------- form context

  /** The enclosing form's `id` and `name`; `NoForm` is `FormContext.NONE`. */
  datatype FormContext = FormContext(id: string, name: string)

  const NoForm: FormContext := FormContext("", "")

  /**
   * `resolveFormContext`: `ancestor` is the (`id`, `name`) of the nearest enclosing form, `None`
   * when there is none or the lookup throws.
   */
  function ResolveFormContext(ancestor: Option<(string, string)>): (f: FormContext)
    ensures f == NoForm || !IsBlank(f.id) || !IsBlank(f.name)
  {
    if ancestor.None? then NoForm
    else if IsBlank(ancestor.value.0) && IsBlank(ancestor.value.1) then NoForm
    else FormContext(ancestor.value.0, ancestor.value.1)
  }

  /** `resolveFormKey`: the descriptor's own form identifier, else `id:`/`name:` of the form context, else "". */
  function ResolveFormKey(infoFormIdentifier: string, form: FormContext): string {
    if !IsBlank(infoFormIdentifier) then infoFormIdentifier
    else if !IsBlank(form.id) then "id:" + form.id
    else if !IsBlank(form.name) then "name:" + form.name
    else ""
  }

  lemma NotBlankAppend(a: string, b: string)
    requires !IsBlank(a)
    ensures !IsBlank(a + b)
  {
    var i :| 0 <= i < |a| && !IsWhitespace(a[i]);
    assert (a + b)[i] == a[i];
  }

  /**
   * The form key is blank exactly when neither the descriptor nor the form context names a form,
   * so elements outside any form are compared only with each other.
   */
  lemma FormKeyBlankIffNoForm(infoFormIdentifier: string, form: FormContext)
    ensures IsBlank(ResolveFormKey(infoFormIdentifier, form)) <==>
      IsBlank(infoFormIdentifier) && IsBlank(form.id) && IsBlank(form.name)
  {
    if IsBlank(infoFormIdentifier) {
      if !IsBlank(form.id) {
        assert !IsBlank("id:") by { assert !IsWhitespace("id:"[0]); }
        NotBlankAppend("id:", form.id);
      } else if !IsBlank(form.name) {
        assert !IsBlank("name:") by { assert !IsWhitespace("name:"[0]); }
        NotBlankAppend("name:", form.name);
      }
    }
  }

  /** `ensureStartsWithDoubleSlash`. */
  function EnsureStartsWithDoubleSlash(x: string): string {
    if IsBlank(x) then ""
    else if StartsWith(x, "//") then x
    else if StartsWith(x, "/") then "/" + x
    else "//" + x
  }

  /**
   * A non-blank path comes back as a descendant path: it starts with `//` and ends with the
   * given path; doing it twice changes nothing.
   */
  lemma DoubleSlashMeaning(x: string)
    ensures var r := EnsureStartsWithDoubleSlash(x);
      (IsBlank(x) ==> r == "")
      && (!IsBlank(x) ==> StartsWith(r, "//") && |x| <= |r| && r[|r| - |x|..] == x)
      && EnsureStartsWithDoubleSlash(r) == r
  {
    var r := EnsureStartsWithDoubleSlash(x);
    if !IsBlank(x) {
      if StartsWith(x, "//") {
      } else if StartsWith(x, "/") {
        assert r[..2] == "//";
      } else {
        assert r[..2] == "//";
      }
      assert !IsBlank(r) by {
        var i :| 0 <= i < |x| && !IsWhitespace(x[i]);
        assert r[|r| - |x| + i] == x[i];
      }
    }
  }

  /** `xPathWithFormPrefix`. */
  function XPathWithFormPrefix(form: FormContext, x: string): string {
    if !IsBlank(form.id) then "//form[@id=" + XPathLiteral(Some(form.id)) + "]" + EnsureStartsWithDoubleSlash(x)
    else if !IsBlank(form.name) then "//form[@name=" + XPathLiteral(Some(form.name)) + "]" + EnsureStartsWithDoubleSlash(x)
    else x
  }

  /** `cssWithFormPrefix`. */
  function CssWithFormPrefix(form: FormContext, css: string): string {
    if !IsBlank(form.id) then "form#" + CssEscapeIdentifier(Some(form.id)) + " " + css
    else if !IsBlank(form.name) then "form[name=" + CssAttrLiteral(Some(form.name)) + "] " + css
    else css
  }

  lemma StartsWithAppend(a: string, b: string, p: string)
    requires StartsWith(a, p)
    ensures StartsWith(a + b, p)
  {
    assert (a + b)[..|p|] == a[..|p|];
  }

  /**
   * Scoping by the form: with no form the path is unchanged; a form with an id (else a name)
   * becomes a `//form[@id=…]` (`//form[@name=…]`) step before the descendant path, which
   * ends the result.
   */
  lemma XPathScopedByForm(form: FormContext, x: string)
    ensures var r := XPathWithFormPrefix(form, x);
      var tail := EnsureStartsWithDoubleSlash(x);
      (IsBlank(form.id) && IsBlank(form.name) ==> r == x)
      && (!IsBlank(form.id) ==> StartsWith(r, "//form[@id=") && r[|r| - |tail|..] == tail)
      && (IsBlank(form.id) && !IsBlank(form.name) ==> StartsWith(r, "//form[@name=") && r[|r| - |tail|..] == tail)
  {
    var tail := EnsureStartsWithDoubleSlash(x);
    if !IsBlank(form.id) {
      var head := "//form[@id=" + XPathLiteral(Some(form.id)) + "]";
      StartsWithAppend("//form[@id=", XPathLiteral(Some(form.id)) + "]" + tail, "//form[@id=");
      assert "//form[@id=" + (XPathLiteral(Some(form.id)) + "]" + tail) == head + tail;
    } else if !IsBlank(form.name) {
      var head := "//form[@name=" + XPathLiteral(Some(form.name)) + "]";
      StartsWithAppend("//form[@name=", XPathLiteral(Some(form.name)) + "]" + tail, "//form[@name=");
      assert "//form[@name=" + (XPathLiteral(Some(form.name)) + "]" + tail) == head + tail;
    }
  }

  /**
   * The same scoping for CSS: a `form#id ` (else `form[name=…] `) compound and a descendant
   * combinator before the selector, which ends the result.
   */
  lemma CssScopedByForm(form: FormContext, css: string)
    ensures var r := CssWithFormPrefix(form, css);
      (IsBlank(form.id) && IsBlank(form.name) ==> r == css)
      && (!IsBlank(form.id) ==> StartsWith(r, "form#") && r[|r| - |css| - 1..] == " " + css)
      && (IsBlank(form.id) && !IsBlank(form.name) ==> StartsWith(r, "form[name=") && r[|r| - |css| - 2..] == "] " + css)
  {
    if !IsBlank(form.id) {
      StartsWithAppend("form#", CssEscapeIdentifier(Some(form.id)) + " " + css, "form#");
      assert "form#" + CssEscapeIdentifier(Some(form.id)) + " " + css
        == "form#" + (CssEscapeIdentifier(Some(form.id)) + " " + css);
      assert "form#" + CssEscapeIdentifier(Some(form.id)) + " " + css
        == ("form#" + CssEscapeIdentifier(Some(form.id))) + (" " + css);
    } else if !IsBlank(form.name) {
      var lit := CssAttrLiteral(Some(form.name));
      StartsWithAppend("form[name=", lit + "] " + css, "form[name=");
      assert "form[name=" + lit + "] " + css == "form[name=" + (lit + "] " + css);
      assert "form[name=" + lit + "] " + css == ("form[name=" + lit) + ("] " + css);
    }
  }
  // ---------------------------------------------------------------- anchors

  /** The probes of the attribute anchors. */
  function TestAttribute(e: DomElementInfo): Criterion {
    Equal([(TestName, e.testAttributeName), (TestValue, e.testAttributeValue)])
  }

  function Single(a: Attribute, e: DomElementInfo): Criterion {
    Equal([(Attr(a), Get(Attr(a), e))])
  }

  function WithType(a: Attribute, e: DomElementInfo): Criterion {
    Equal([(Attr(a), Get(Attr(a), e)), (Attr(TypeAttr), e.typeAttr)])
  }

  /** What a locator is anchored on. */
  datatype Anchor =
    | ById(id: string)
    | ByTestAttribute(attribute: string, value: string)
    | ByAttribute(attr: Attribute, value: string)
    | ByAttributeAndType(attr: Attribute, value: string, typeValue: string)
    | ByClass(token: string)
    | ByLabel(labelText: string)
    | ByOrdinal(position: nat)
    | ByType(typeValue: string)
    | ByHashedClass(token: string)
    | ByTag

  /**
   * The attribute anchors both builders try after the id, in the order of the source, each with
   * the uniqueness check it must pass: the test attribute (whose blank-value guard is part of
   * the check), then name, aria-label, placeholder and title alone, then each of them with type.
   */
  function AttributeSteps(e: DomElementInfo): seq<(Criterion, Anchor)> {
    [ (TestAttribute(e), ByTestAttribute(e.testAttributeName, e.testAttributeValue)),
      (Single(Name, e), ByAttribute(Name, e.name)),
      (Single(AriaLabel, e), ByAttribute(AriaLabel, e.ariaLabel)),
      (Single(Placeholder, e), ByAttribute(Placeholder, e.placeholder)),
      (Single(Title, e), ByAttribute(Title, e.title)),
      (WithType(Name, e), ByAttributeAndType(Name, e.name, e.typeAttr)),
      (WithType(AriaLabel, e), ByAttributeAndType(AriaLabel, e.ariaLabel, e.typeAttr)),
      (WithType(Placeholder, e), ByAttributeAndType(Placeholder, e.placeholder, e.typeAttr)),
      (WithType(Title, e), ByAttributeAndType(Title, e.title, e.typeAttr)) ]
  }

  /** The anchors the attribute steps give. */
  predicate AttributeKind(a: Anchor) {
    a.ByTestAttribute? || a.ByAttribute? || a.ByAttributeAndType?
  }

  /** The anchor of the first step, from position `i` on, whose check passes. */
  function FirstUniqueStep(steps: seq<(Criterion, Anchor)>, i: nat, snapshot: seq<Candidate>, tag: string, formKey: string): (r: Option<Anchor>)
    requires forall j :: 0 <= j < |steps| ==> AttributeKind(steps[j].1)
    ensures r.Some? ==> AttributeKind(r.value)
    decreases |steps| - i
  {
    if i >= |steps| then None
    else if IsUniqueInContext(snapshot, tag, formKey, steps[i].0) then Some(steps[i].1)
    else FirstUniqueStep(steps, i + 1, snapshot, tag, formKey)
  }

  lemma {:induction false} FirstUniqueStepMeaning(steps: seq<(Criterion, Anchor)>, i: nat, snapshot: seq<Candidate>, tag: string, formKey: string)
    requires i <= |steps|
    requires forall j :: 0 <= j < |steps| ==> AttributeKind(steps[j].1)
    ensures var r := FirstUniqueStep(steps, i, snapshot, tag, formKey);
      (r.Some? ==> exists k :: i <= k < |steps| && steps[k].1 == r.value && IsUniqueInContext(snapshot, tag, formKey, steps[k].0)
                      && forall j :: i <= j < k ==> !IsUniqueInContext(snapshot, tag, formKey, steps[j].0))
      && (r.None? ==> forall j :: i <= j < |steps| ==> !IsUniqueInContext(snapshot, tag, formKey, steps[j].0))
    decreases |steps| - i
  {
    if i < |steps| {
      FirstUniqueStepMeaning(steps, i + 1, snapshot, tag, formKey);
      var r := FirstUniqueStep(steps, i, snapshot, tag, formKey);
      if !IsUniqueInContext(snapshot, tag, formKey, steps[i].0) && r.Some? {
        var k :| i + 1 <= k < |steps| && steps[k].1 == r.value && IsUniqueInContext(snapshot, tag, formKey, steps[k].0)
          && forall j :: i + 1 <= j < k ==> !IsUniqueInContext(snapshot, tag, formKey, steps[j].0);
        assert forall j :: i <= j < k ==> !IsUniqueInContext(snapshot, tag, formKey, steps[j].0);
      }
    }
  }

  /**
   * The anchors both builders try first, in the same order: the id (with no uniqueness check),
   * the attribute steps, then a non-hashed class token.
   */
  function CommonAnchor(e: DomElementInfo, snapshot: seq<Candidate>, tag: string, formKey: string): (r: Option<Anchor>)
    ensures r.Some? ==> r.value.ById? || AttributeKind(r.value) || r.value.ByClass?
  {
    if !IsBlank(e.id) then Some(ById(e.id))
    else
      var s := FirstUniqueStep(AttributeSteps(e), 0, snapshot, tag, formKey);
      if s.Some? then s
      else
        var c := PickUniqueClassToken(snapshot, tag, formKey, e.cssClasses, false);
        if c.Some? then Some(ByClass(c.value)) else None
  }

  /** The driver's `normalizeText`: trimmed, then every run of `\s` replaced by one space. */
  function NormalizeLabel(v: string): string { CollapseSpaces(Trim(v)) }

  /** The anchor of `buildStableXPath`: the common ones, then label, ordinal, hashed class token, bare tag. */
  function XPathAnchor(target: Candidate, snapshot: seq<Candidate>, tag: string, formKey: string, allowHashed: bool): Anchor {
    var common := CommonAnchor(target.info, snapshot, tag, formKey);
    if common.Some? then common.value else XPathFallback(target, snapshot, tag, formKey, allowHashed)
  }

  /** The steps of `buildStableXPath` after the common ones. */
  function XPathFallback(target: Candidate, snapshot: seq<Candidate>, tag: string, formKey: string, allowHashed: bool): Anchor {
    var e := target.info;
    if !IsBlank(NormalizeLabel(e.labelText)) then ByLabel(NormalizeLabel(e.labelText))
    else
      var n := OrdinalInContext(snapshot, Some(target), tag, formKey, e.typeAttr);
      if n > 0 then ByOrdinal(n)
      else
        var h := PickUniqueClassToken(snapshot, tag, formKey, e.cssClasses, allowHashed);
        if h.Some? then ByHashedClass(h.value) else ByTag
  }

  /** The anchor of `buildStableCssSelector`: the common ones, then type alone, hashed class token, bare tag. */
  function CssAnchor(e: DomElementInfo, snapshot: seq<Candidate>, tag: string, formKey: string, allowHashed: bool): Anchor {
    var common := CommonAnchor(e, snapshot, tag, formKey);
    if common.Some? then common.value
    else if !IsBlank(e.typeAttr) && IsUniqueInContext(snapshot, tag, formKey, Single(TypeAttr, e)) then ByType(e.typeAttr)
    else
      var h := PickUniqueClassToken(snapshot, tag, formKey, e.cssClasses, allowHashed);
      if h.Some? then ByHashedClass(h.value) else ByTag
  }

  // ---------------------------------------------------------------- rendering

  function DigitChar(d: nat): char
    requires d < 10
  {
    (48 + d) as char
  }

  /** `Integer.toString` of a non-negative number. */
  function NatToString(n: nat): (s: string)
    ensures |s| >= 1
    decreases n
  {
    if n < 10 then [DigitChar(n)] else NatToString(n / 10) + [DigitChar(n % 10)]
  }

  /** The number a string of decimal digits denotes. */
  function DecimalValue(s: string): int {
    if s == [] then 0 else 10 * DecimalValue(s[..|s| - 1]) + (s[|s| - 1] as int - 48)
  }

  /** The printed position reads back as the position, and is made of decimal digits only. */
  lemma {:induction false} NatToStringRoundTrip(n: nat)
    ensures DecimalValue(NatToString(n)) == n
    ensures forall i :: 0 <= i < |NatToString(n)| ==> IsAsciiDigit(NatToString(n)[i])
    decreases n
  {
    var s := NatToString(n);
    if n >= 10 {
      NatToStringRoundTrip(n / 10);
      assert s[..|s| - 1] == NatToString(n / 10);
    }
  }

  function XPathLit(v: string): string { XPathLiteral(Some(v)) }

  function CssLit(v: string): string { CssAttrLiteral(Some(v)) }

  /** The XPath predicate that tests for one word of the `class` attribute. */
  function ClassPredicate(token: string): string {
    "contains(concat(' ', normalize-space(@class), ' '), " + XPathLit(" " + token + " ") + ")"
  }

  /** The path the ordinal is taken over: the tag, narrowed by type for an `input` with a known type. */
  function OrdinalBase(tag: string, typeValue: string): string {
    if !IsBlank(typeValue) && IsInputTag(tag) then "//" + tag + "[@type=" + XPathLit(typeValue) + "]"
    else "//" + tag
  }

  /** The XPath of an anchor before form scoping. */
  function XPathPath(a: Anchor, tag: string): string
    requires !a.ById? && !a.ByOrdinal? && !a.ByType?
  {
    match a
    case ByTestAttribute(n, v) => "//" + tag + "[@" + n + "=" + XPathLit(v) + "]"
    case ByAttribute(attr, v) => "//" + tag + "[@" + AttributeName(attr) + "=" + XPathLit(v) + "]"
    case ByAttributeAndType(attr, v, t) =>
      "//" + tag + "[@" + AttributeName(attr) + "=" + XPathLit(v) + " and @type=" + XPathLit(t) + "]"
    case ByClass(t) => "//" + tag + "[" + ClassPredicate(t) + "]"
    case ByLabel(l) => "//label[normalize-space(.)=" + XPathLit(l) + "]/following::" + tag + "[1]"
    case ByHashedClass(t) => "//" + tag + "[" + ClassPredicate(t) + "]"
    case ByTag => "//" + tag
  }

  /** The XPath text of an anchor; the XPath builder never anchors on type alone. */
  function RenderXPath(a: Anchor, tag: string, form: FormContext, typeValue: string): string
    requires !a.ByType?
  {
    if a.ById? then "//*[@id=" + XPathLit(a.id) + "]"
    else if a.ByOrdinal? then "(" + XPathWithFormPrefix(form, OrdinalBase(tag, typeValue)) + ")[" + NatToString(a.position) + "]"
    else XPathWithFormPrefix(form, XPathPath(a, tag))
  }

  /** The CSS selector of an anchor before form scoping. */
  function CssPath(a: Anchor, tag: string): string
    requires !a.ById? && !a.ByLabel? && !a.ByOrdinal?
  {
    match a
    case ByTestAttribute(n, v) => tag + "[" + n + "=" + CssLit(v) + "]"
    case ByAttribute(attr, v) => tag + "[" + AttributeName(attr) + "=" + CssLit(v) + "]"
    case ByAttributeAndType(attr, v, t) => tag + "[" + AttributeName(attr) + "=" + CssLit(v) + "][type=" + CssLit(t) + "]"
    case ByClass(t) => tag + "." + CssEscapeIdentifier(Some(t))
    case ByType(t) => tag + "[type=" + CssLit(t) + "]"
    case ByHashedClass(t) => tag + "." + CssEscapeIdentifier(Some(t))
    case ByTag => tag
  }

  /** The CSS text of an anchor; the CSS builder never anchors on a label or an ordinal. */
  function RenderCss(a: Anchor, tag: string, form: FormContext): string
    requires !a.ByLabel? && !a.ByOrdinal?
  {
    if a.ById? then "#" + CssEscapeIdentifier(Some(a.id))
    else CssWithFormPrefix(form, CssPath(a, tag))
  }

  /**
   * `safeTagName`: the descriptor's tag when non-blank, else the element's own tag read;
   * `elementTag` is `None` when that read throws, which gives `div`.
   */
  function SafeTagName(infoTag: string, elementTag: Option<string>): string {
    if !IsBlank(infoTag) then infoTag
    else if elementTag.None? then "div"
    else elementTag.value
  }

  /**
   * `buildStableXPath` for the elected candidate `target`; `ancestor` is its enclosing form's
   * (`id`, `name`) and `allowHashed` the driver's `allowHashedLastResort`.
   */
  function BuildStableXPath(target: Candidate, elementTag: Option<string>, ancestor: Option<(string, string)>,
                            snapshot: seq<Candidate>, allowHashed: bool): string
  {
    var e := target.info;
    var tag := SafeTagName(e.tagName, elementTag);
    var form := ResolveFormContext(ancestor);
    var a := XPathAnchor(target, snapshot, tag, ResolveFormKey(e.formIdentifier, form), allowHashed);
    RenderXPath(a, tag, form, e.typeAttr)
  }

  /** `buildStableCssSelector`, with the same inputs. */
  function BuildStableCssSelector(target: Candidate, elementTag: Option<string>, ancestor: Option<(string, string)>,
                                  snapshot: seq<Candidate>, allowHashed: bool): string
  {
    var e := target.info;
    var tag := SafeTagName(e.tagName, elementTag);
    var form := ResolveFormContext(ancestor);
    var a := CssAnchor(e, snapshot, tag, ResolveFormKey(e.formIdentifier, form), allowHashed);
    RenderCss(a, tag, form)
  }

  // ---------------------------------------------------------------- properties of the builders

  /** A non-blank id short-circuits both builders, whatever the snapshot and the form: no uniqueness check, no form scoping. */
  lemma IdShortCircuits(target: Candidate, elementTag: Option<string>, ancestor: Option<(string, string)>,
                        snapshot: seq<Candidate>, allowHashed: bool)
    requires !IsBlank(target.info.id)
    ensures BuildStableXPath(target, elementTag, ancestor, snapshot, allowHashed) == "//*[@id=" + XPathLiteral(Some(target.info.id)) + "]"
    ensures BuildStableCssSelector(target, elementTag, ancestor, snapshot, allowHashed) == "#" + EscapeIdentifier(target.info.id)
  {
  }

  /** The uniqueness check an anchor stands on, for the anchors that have one. */
  function Claimed(a: Anchor): Option<Criterion> {
    match a
    case ByTestAttribute(n, v) => Some(Equal([(TestName, n), (TestValue, v)]))
    case ByAttribute(attr, v) => Some(Equal([(Attr(attr), v)]))
    case ByAttributeAndType(attr, v, t) => Some(Equal([(Attr(attr), v), (Attr(TypeAttr), t)]))
    case ByClass(t) => Some(HasClass(t))
    case ByType(t) => Some(Equal([(Attr(TypeAttr), t)]))
    case ByHashedClass(t) => Some(HasClass(t))
    case _ => None
  }

  /** The position of an anchor among the common steps: 0 for the id, 1-9 for the attribute steps, 10 for a class token (11 for the others). */
  function CommonRank(a: Anchor): nat {
    match a
    case ById(_) => 0
    case ByTestAttribute(_, _) => 1
    case ByAttribute(attr, _) => 2 + AttributeIndex(attr)
    case ByAttributeAndType(attr, _, _) => 6 + AttributeIndex(attr)
    case ByClass(_) => 10
    case _ => 11
  }

  function AttributeIndex(a: Attribute): nat {
    match a
    case Name => 0
    case AriaLabel => 1
    case Placeholder => 2
    case Title => 3
    case TypeAttr => 4
  }

  /** The attribute tried at position `i` of name, aria-label, placeholder, title. */
  function LabelledAttribute(i: int): Attribute {
    if i == 0 then Name else if i == 1 then AriaLabel else if i == 2 then Placeholder else Title
  }

  /** The check of common step `k` (1 to 9), stated on its own: the test attribute, then four attributes alone, then with type. */
  function StepCriterion(k: int, e: DomElementInfo): Criterion {
    if k <= 1 then TestAttribute(e)
    else if k <= 5 then Single(LabelledAttribute(k - 2), e)
    else WithType(LabelledAttribute(k - 6), e)
  }

  /** Each row of the step table stands on the check of its position, claims it, and names the element's own values. */
  lemma StepFacts(e: DomElementInfo, k: int)
    requires 0 <= k < 9
    ensures var step := AttributeSteps(e)[k];
      step.0 == StepCriterion(k + 1, e) && Claimed(step.1) == Some(step.0) && CommonRank(step.1) == k + 1 && Meets(e, step.0)
  {
  }

  /** The anchor the attribute steps give is vouched by its check. */
  lemma StepAnchorVouched(e: DomElementInfo, snapshot: seq<Candidate>, tag: string, formKey: string)
    ensures var s := FirstUniqueStep(AttributeSteps(e), 0, snapshot, tag, formKey);
      s.Some? ==> Claimed(s.value).Some? && IsUniqueInContext(snapshot, tag, formKey, Claimed(s.value).value) && Meets(e, Claimed(s.value).value)
  {
    var steps := AttributeSteps(e);
    FirstUniqueStepMeaning(steps, 0, snapshot, tag, formKey);
    var s := FirstUniqueStep(steps, 0, snapshot, tag, formKey);
    if s.Some? {
      var k :| 0 <= k < |steps| && steps[k].1 == s.value && IsUniqueInContext(snapshot, tag, formKey, steps[k].0)
        && forall j :: 0 <= j < k ==> !IsUniqueInContext(snapshot, tag, formKey, steps[j].0);
      StepFacts(e, k);
    }
  }

  /** The attribute steps in order: the anchor they give is the first whose check passes; none means none passes. */
  lemma StepOrder(e: DomElementInfo, snapshot: seq<Candidate>, tag: string, formKey: string)
    ensures var s := FirstUniqueStep(AttributeSteps(e), 0, snapshot, tag, formKey);
      (s.Some? ==> 1 <= CommonRank(s.value) <= 9 && IsUniqueInContext(snapshot, tag, formKey, StepCriterion(CommonRank(s.value), e))
                   && forall j :: 1 <= j < CommonRank(s.value) ==> !IsUniqueInContext(snapshot, tag, formKey, StepCriterion(j, e)))
      && (s.None? ==> forall j :: 1 <= j <= 9 ==> !IsUniqueInContext(snapshot, tag, formKey, StepCriterion(j, e)))
  {
    var steps := AttributeSteps(e);
    FirstUniqueStepMeaning(steps, 0, snapshot, tag, formKey);
    var s := FirstUniqueStep(steps, 0, snapshot, tag, formKey);
    if s.Some? {
      var k :| 0 <= k < |steps| && steps[k].1 == s.value && IsUniqueInContext(snapshot, tag, formKey, steps[k].0)
        && forall j :: 0 <= j < k ==> !IsUniqueInContext(snapshot, tag, formKey, steps[j].0);
      StepFacts(e, k);
      forall j | 1 <= j < k + 1
        ensures !IsUniqueInContext(snapshot, tag, formKey, StepCriterion(j, e))
      {
        StepFacts(e, j - 1);
      }
    } else {
      forall j | 1 <= j <= 9
        ensures !IsUniqueInContext(snapshot, tag, formKey, StepCriterion(j, e))
      {
        StepFacts(e, j - 1);
      }
    }
  }

  /** A picked class token is a word of the element's own classes, unique in context. */
  lemma PickedTokenIsOwnAndUnique(e: DomElementInfo, snapshot: seq<Candidate>, tag: string, formKey: string, allowHashed: bool)
    ensures var r := PickUniqueClassToken(snapshot, tag, formKey, e.cssClasses, allowHashed);
      r.Some? ==> Meets(e, HasClass(r.value)) && IsUniqueInContext(snapshot, tag, formKey, HasClass(r.value))
  {
    PickedTokenMeaning(snapshot, tag, formKey, e.cssClasses, allowHashed);
  }

  lemma CommonAnchorIsUnique(e: DomElementInfo, snapshot: seq<Candidate>, tag: string, formKey: string)
    ensures var a := CommonAnchor(e, snapshot, tag, formKey);
      a.Some? && Claimed(a.value).Some? ==>
        IsUniqueInContext(snapshot, tag, formKey, Claimed(a.value).value) && Meets(e, Claimed(a.value).value)
  {
    StepAnchorVouched(e, snapshot, tag, formKey);
    PickedTokenIsOwnAndUnique(e, snapshot, tag, formKey, false);
  }

  /** The shape of the XPath anchor once the common steps are decided. */
  lemma XPathAnchorCases(target: Candidate, snapshot: seq<Candidate>, tag: string, formKey: string, allowHashed: bool)
    ensures var a := XPathAnchor(target, snapshot, tag, formKey, allowHashed);
      var common := CommonAnchor(target.info, snapshot, tag, formKey);
      (common.Some? ==> a == common.value)
      && (common.None? ==>
            a.ByLabel? || a.ByOrdinal? || a.ByTag?
            || (a.ByHashedClass? && PickUniqueClassToken(snapshot, tag, formKey, target.info.cssClasses, allowHashed) == Some(a.token)))
  {
  }

  /** The shape of the CSS anchor once the common steps are decided. */
  lemma CssAnchorCases(e: DomElementInfo, snapshot: seq<Candidate>, tag: string, formKey: string, allowHashed: bool)
    ensures var a := CssAnchor(e, snapshot, tag, formKey, allowHashed);
      var common := CommonAnchor(e, snapshot, tag, formKey);
      (common.Some? ==> a == common.value)
      && (common.None? ==>
            a.ByTag?
            || (a.ByType? && a.typeValue == e.typeAttr && IsUniqueInContext(snapshot, tag, formKey, Single(TypeAttr, e)))
            || (a.ByHashedClass? && PickUniqueClassToken(snapshot, tag, formKey, e.cssClasses, allowHashed) == Some(a.token)))
  {
  }

  /**
   * The claim of an anchor chosen from a vouched common anchor, a vouched class token, a type
   * that passed its check, or an anchor with no claim, is vouched too.
   */
  lemma ClaimTransfer(a: Anchor, common: Option<Anchor>, h: Option<string>, e: DomElementInfo,
                      snapshot: seq<Candidate>, tag: string, formKey: string)
    requires common.Some? ==> a == common.value
    requires common.None? ==>
      a.ByLabel? || a.ByOrdinal? || a.ByTag? || (a.ByHashedClass? && h == Some(a.token))
      || (a.ByType? && a.typeValue == e.typeAttr && IsUniqueInContext(snapshot, tag, formKey, Single(TypeAttr, e)))
    requires common.Some? && Claimed(common.value).Some? ==>
      IsUniqueInContext(snapshot, tag, formKey, Claimed(common.value).value) && Meets(e, Claimed(common.value).value)
    requires h.Some? ==> Meets(e, HasClass(h.value)) && IsUniqueInContext(snapshot, tag, formKey, HasClass(h.value))
    ensures Claimed(a).Some? ==> IsUniqueInContext(snapshot, tag, formKey, Claimed(a).value) && Meets(e, Claimed(a).value)
  {
  }

  /**
   * Every attribute or class anchor `buildStableXPath` emits has passed its uniqueness check,
   * and names the element's own values: among the candidates with the element's tag and form
   * key, only one carries them.
   */
  lemma XPathAnchorsAreUnique(target: Candidate, snapshot: seq<Candidate>, tag: string, formKey: string, allowHashed: bool)
    ensures var a := XPathAnchor(target, snapshot, tag, formKey, allowHashed);
      Claimed(a).Some? ==> IsUniqueInContext(snapshot, tag, formKey, Claimed(a).value) && Meets(target.info, Claimed(a).value)
  {
    XPathAnchorCases(target, snapshot, tag, formKey, allowHashed);
    CommonAnchorIsUnique(target.info, snapshot, tag, formKey);
    PickedTokenIsOwnAndUnique(target.info, snapshot, tag, formKey, allowHashed);
    ClaimTransfer(XPathAnchor(target, snapshot, tag, formKey, allowHashed), CommonAnchor(target.info, snapshot, tag, formKey),
                  PickUniqueClassToken(snapshot, tag, formKey, target.info.cssClasses, allowHashed), target.info, snapshot, tag, formKey);
  }

  /** The same for `buildStableCssSelector`, whose type anchor also passed its check. */
  lemma CssAnchorsAreUnique(e: DomElementInfo, snapshot: seq<Candidate>, tag: string, formKey: string, allowHashed: bool)
    ensures var a := CssAnchor(e, snapshot, tag, formKey, allowHashed);
      Claimed(a).Some? ==> IsUniqueInContext(snapshot, tag, formKey, Claimed(a).value) && Meets(e, Claimed(a).value)
  {
    CssAnchorCases(e, snapshot, tag, formKey, allowHashed);
    CommonAnchorIsUnique(e, snapshot, tag, formKey);
    PickedTokenIsOwnAndUnique(e, snapshot, tag, formKey, allowHashed);
    ClaimTransfer(CssAnchor(e, snapshot, tag, formKey, allowHashed), CommonAnchor(e, snapshot, tag, formKey),
                  PickUniqueClassToken(snapshot, tag, formKey, e.cssClasses, allowHashed), e, snapshot, tag, formKey);
  }

  /** The common steps never give a hashed class token. */
  lemma CommonClassNotHashed(e: DomElementInfo, snapshot: seq<Candidate>, tag: string, formKey: string)
    ensures var a := CommonAnchor(e, snapshot, tag, formKey);
      a.Some? && a.value.ByClass? ==> !IsProbablyHashed(Some(a.value.token))
  {
    FirstUniqueTokenMeaning(ClassTokens(e.cssClasses), 0, false, snapshot, tag, formKey);
  }

  /** After the common steps failed, a class token picked with `allowHashed` is hashed, and only picked when allowed. */
  lemma LastResortTokenHashed(e: DomElementInfo, snapshot: seq<Candidate>, tag: string, formKey: string, allowHashed: bool)
    requires PickUniqueClassToken(snapshot, tag, formKey, e.cssClasses, false).None?
    ensures var h := PickUniqueClassToken(snapshot, tag, formKey, e.cssClasses, allowHashed);
      h.Some? ==> allowHashed && IsProbablyHashed(Some(h.value))
  {
    FirstUniqueTokenMeaning(ClassTokens(e.cssClasses), 0, true, snapshot, tag, formKey);
  }

  /**
   * Class tokens: the class anchor of the common steps is never hashed; a hashed token is
   * emitted only when hashed tokens are allowed, and then it is hashed.
   */
  lemma HashedTokensOnlyWhenAllowed(target: Candidate, snapshot: seq<Candidate>, tag: string, formKey: string, allowHashed: bool)
    ensures var a := XPathAnchor(target, snapshot, tag, formKey, allowHashed);
      (a.ByClass? ==> !IsProbablyHashed(Some(a.token)))
      && (a.ByHashedClass? ==> allowHashed && IsProbablyHashed(Some(a.token)))
    ensures var a := CssAnchor(target.info, snapshot, tag, formKey, allowHashed);
      (a.ByClass? ==> !IsProbablyHashed(Some(a.token)))
      && (a.ByHashedClass? ==> allowHashed && IsProbablyHashed(Some(a.token)))
  {
    var e := target.info;
    CommonClassNotHashed(e, snapshot, tag, formKey);
    if CommonAnchor(e, snapshot, tag, formKey).None? {
      LastResortTokenHashed(e, snapshot, tag, formKey, allowHashed);
    }
  }

  // ---------------------------------------------------------------- preference order

  /** Some word of the classes, hashed or not as asked, is unique in context. */
  predicate SomeTokenPickable(e: DomElementInfo, hashed: bool, snapshot: seq<Candidate>, tag: string, formKey: string) {
    !IsBlank(e.cssClasses)
    && exists j :: 0 <= j < |ClassTokens(e.cssClasses)| && Pickable(ClassTokens(e.cssClasses)[j], hashed, snapshot, tag, formKey)
  }

  /**
   * Steps 0 to 10 of both builders, each stated on its own: an id; a unique test attribute;
   * name, aria-label, placeholder, title unique alone (2-5); the same with type (6-9); a unique
   * non-hashed class word (10).
   */
  predicate CommonStepApplies(k: nat, e: DomElementInfo, snapshot: seq<Candidate>, tag: string, formKey: string) {
    if k == 0 then !IsBlank(e.id)
    else if k <= 9 then IsUniqueInContext(snapshot, tag, formKey, StepCriterion(k, e))
    else SomeTokenPickable(e, false, snapshot, tag, formKey)
  }

  /** The common steps: an anchor there is the first step that applies; none means none applies. */
  lemma CommonOrder(e: DomElementInfo, snapshot: seq<Candidate>, tag: string, formKey: string)
    ensures var a := CommonAnchor(e, snapshot, tag, formKey);
      (a.Some? ==> CommonRank(a.value) <= 10 && CommonStepApplies(CommonRank(a.value), e, snapshot, tag, formKey)
                   && forall k: nat :: k < CommonRank(a.value) ==> !CommonStepApplies(k, e, snapshot, tag, formKey))
      && (a.None? ==> forall k: nat :: k <= 10 ==> !CommonStepApplies(k, e, snapshot, tag, formKey))
  {
    StepOrder(e, snapshot, tag, formKey);
    ClassStepIff(e, snapshot, tag, formKey);
  }

  /** The non-hashed class step picks exactly when some non-hashed word qualifies. */
  lemma ClassStepIff(e: DomElementInfo, snapshot: seq<Candidate>, tag: string, formKey: string)
    ensures PickUniqueClassToken(snapshot, tag, formKey, e.cssClasses, false).Some? <==> SomeTokenPickable(e, false, snapshot, tag, formKey)
  {
    var tokens := ClassTokens(e.cssClasses);
    FirstUniqueTokenMeaning(tokens, 0, false, snapshot, tag, formKey);
    var c := FirstUniqueToken(tokens, 0, false, snapshot, tag, formKey);
    if c.Some? {
      var k :| 0 <= k < |tokens| && tokens[k] == c.value && Pickable(c.value, false, snapshot, tag, formKey)
        && forall j :: 0 <= j < k ==> !Pickable(tokens[j], false, snapshot, tag, formKey);
    }
  }

  /** The steps of `buildStableXPath`: the common ones, then its own. */
  predicate XPathStepApplies(k: nat, target: Candidate, snapshot: seq<Candidate>, tag: string, formKey: string, allowHashed: bool) {
    if k <= 10 then CommonStepApplies(k, target.info, snapshot, tag, formKey)
    else XPathLateStepApplies(k, target, snapshot, tag, formKey, allowHashed)
  }

  /** Steps 11-14 of `buildStableXPath`: a non-blank label, a positive ordinal, a unique hashed class word (when allowed), the tag. */
  predicate XPathLateStepApplies(k: nat, target: Candidate, snapshot: seq<Candidate>, tag: string, formKey: string, allowHashed: bool) {
    var e := target.info;
    if k == 11 then !IsBlank(NormalizeLabel(e.labelText))
    else if k == 12 then OrdinalInContext(snapshot, Some(target), tag, formKey, e.typeAttr) > 0
    else if k == 13 then allowHashed && SomeTokenPickable(e, true, snapshot, tag, formKey)
    else true
  }

  function XPathRank(a: Anchor): nat {
    match a
    case ByLabel(_) => 11
    case ByOrdinal(_) => 12
    case ByHashedClass(_) => 13
    case ByTag => 14
    case _ => CommonRank(a)
  }

  /** The hashed pass after the common steps failed: it picks exactly when some hashed word qualifies and hashed tokens are allowed. */
  lemma LastResortPickIff(e: DomElementInfo, snapshot: seq<Candidate>, tag: string, formKey: string, allowHashed: bool)
    requires PickUniqueClassToken(snapshot, tag, formKey, e.cssClasses, false).None?
    ensures PickUniqueClassToken(snapshot, tag, formKey, e.cssClasses, allowHashed).Some? <==>
      allowHashed && SomeTokenPickable(e, true, snapshot, tag, formKey)
  {
    var tokens := ClassTokens(e.cssClasses);
    FirstUniqueTokenMeaning(tokens, 0, true, snapshot, tag, formKey);
    var h := FirstUniqueToken(tokens, 0, true, snapshot, tag, formKey);
    if h.Some? {
      var k :| 0 <= k < |tokens| && tokens[k] == h.value && Pickable(h.value, true, snapshot, tag, formKey)
        && forall j :: 0 <= j < k ==> !Pickable(tokens[j], true, snapshot, tag, formKey);
    }
  }

  /**
   * The preference order of `buildStableXPath`: the anchor it emits is the first step of the
   * order that applies; every earlier step does not.
   */
  lemma XPathPreferenceOrder(target: Candidate, snapshot: seq<Candidate>, tag: string, formKey: string, allowHashed: bool)
    ensures var a := XPathAnchor(target, snapshot, tag, formKey, allowHashed);
      XPathStepApplies(XPathRank(a), target, snapshot, tag, formKey, allowHashed)
      && forall k: nat :: k < XPathRank(a) ==> !XPathStepApplies(k, target, snapshot, tag, formKey, allowHashed)
  {
    var e := target.info;
    CommonOrder(e, snapshot, tag, formKey);
    if CommonAnchor(e, snapshot, tag, formKey).None? {
      XPathFallbackOrder(target, snapshot, tag, formKey, allowHashed);
    }
  }

  /** After the common steps: label, ordinal, hashed class word, tag, the first that applies. */
  lemma XPathFallbackOrder(target: Candidate, snapshot: seq<Candidate>, tag: string, formKey: string, allowHashed: bool)
    requires PickUniqueClassToken(snapshot, tag, formKey, target.info.cssClasses, false).None?
    ensures var a := XPathFallback(target, snapshot, tag, formKey, allowHashed);
      11 <= XPathRank(a) <= 14 && XPathLateStepApplies(XPathRank(a), target, snapshot, tag, formKey, allowHashed)
      && (XPathRank(a) > 11 ==> !XPathLateStepApplies(11, target, snapshot, tag, formKey, allowHashed))
      && (XPathRank(a) > 12 ==> !XPathLateStepApplies(12, target, snapshot, tag, formKey, allowHashed))
      && (XPathRank(a) > 13 ==> !XPathLateStepApplies(13, target, snapshot, tag, formKey, allowHashed))
  {
    LastResortPickIff(target.info, snapshot, tag, formKey, allowHashed);
  }

  /** The steps of `buildStableCssSelector`: the common ones, then its own. */
  predicate CssStepApplies(k: nat, e: DomElementInfo, snapshot: seq<Candidate>, tag: string, formKey: string, allowHashed: bool) {
    if k <= 10 then CommonStepApplies(k, e, snapshot, tag, formKey)
    else CssLateStepApplies(k, e, snapshot, tag, formKey, allowHashed)
  }

  /** Steps 11-13 of `buildStableCssSelector`: type unique alone, a unique hashed class word (when allowed), the tag. */
  predicate CssLateStepApplies(k: nat, e: DomElementInfo, snapshot: seq<Candidate>, tag: string, formKey: string, allowHashed: bool) {
    if k == 11 then !IsBlank(e.typeAttr) && IsUniqueInContext(snapshot, tag, formKey, Single(TypeAttr, e))
    else if k == 12 then allowHashed && SomeTokenPickable(e, true, snapshot, tag, formKey)
    else true
  }

  function CssRank(a: Anchor): nat {
    match a
    case ByType(_) => 11
    case ByHashedClass(_) => 12
    case ByTag => 13
    case _ => CommonRank(a)
  }

  /** The preference order of `buildStableCssSelector`, stated the same way. */
  lemma CssPreferenceOrder(e: DomElementInfo, snapshot: seq<Candidate>, tag: string, formKey: string, allowHashed: bool)
    ensures var a := CssAnchor(e, snapshot, tag, formKey, allowHashed);
      CssStepApplies(CssRank(a), e, snapshot, tag, formKey, allowHashed)
      && forall k: nat :: k < CssRank(a) ==> !CssStepApplies(k, e, snapshot, tag, formKey, allowHashed)
  {
    CommonOrder(e, snapshot, tag, formKey);
    if CommonAnchor(e, snapshot, tag, formKey).None? {
      LastResortPickIff(e, snapshot, tag, formKey, allowHashed);
    }
  }

  // ---------------------------------------------------------------- ordinal and form scoping

  /**
   * An ordinal anchor names the element: the `n` of `(base)[n]` is the position of the target
   * object among the candidates numbered in its context.
   */
  lemma OrdinalAnchorNamesTarget(target: Candidate, snapshot: seq<Candidate>, tag: string, formKey: string, allowHashed: bool)
    requires XPathAnchor(target, snapshot, tag, formKey, allowHashed).ByOrdinal?
    ensures var n := XPathAnchor(target, snapshot, tag, formKey, allowHashed).position;
      var ns := Numbering(snapshot, tag, formKey, target.info.typeAttr);
      1 <= n <= |ns| && ns[n - 1].ref == target.ref && forall j :: 0 <= j < n - 1 ==> ns[j].ref != target.ref
  {
    OrdinalNamesTarget(snapshot, Some(target), tag, formKey, target.info.typeAttr);
  }

  /**
   * Every XPath but the id one is scoped by the enclosing form: it begins with the form step
   * (inside the parentheses of an ordinal).
   */
  lemma XPathFormScoped(a: Anchor, tag: string, form: FormContext, typeValue: string)
    requires !a.ById? && !a.ByType?
    ensures var r := RenderXPath(a, tag, form, typeValue);
      (!IsBlank(form.id) ==> StartsWith(r, "//form[@id=") || (a.ByOrdinal? && StartsWith(r, "(//form[@id=")))
      && (IsBlank(form.id) && !IsBlank(form.name) ==>
            StartsWith(r, "//form[@name=") || (a.ByOrdinal? && StartsWith(r, "(//form[@name=")))
  {
    if a.ByOrdinal? {
      OrdinalFormScoped(a.position, tag, form, typeValue);
    } else {
      XPathScopedByForm(form, XPathPath(a, tag));
    }
  }

  lemma OrdinalFormScoped(n: nat, tag: string, form: FormContext, typeValue: string)
    ensures var r := RenderXPath(ByOrdinal(n), tag, form, typeValue);
      (!IsBlank(form.id) ==> StartsWith(r, "(//form[@id="))
      && (IsBlank(form.id) && !IsBlank(form.name) ==> StartsWith(r, "(//form[@name="))
  {
    WrappedScopedByForm(form, OrdinalBase(tag, typeValue), NatToString(n));
  }

  lemma WrappedScopedByForm(form: FormContext, base: string, m: string)
    ensures var r := "(" + XPathWithFormPrefix(form, base) + ")[" + m + "]";
      (!IsBlank(form.id) ==> StartsWith(r, "(//form[@id="))
      && (IsBlank(form.id) && !IsBlank(form.name) ==> StartsWith(r, "(//form[@name="))
  {
    if !IsBlank(form.id) {
      WrappedPrefix("//form[@id=", XPathLiteral(Some(form.id)), EnsureStartsWithDoubleSlash(base), m);
      assert "(" + "//form[@id=" == "(//form[@id=";
    } else if !IsBlank(form.name) {
      WrappedPrefix("//form[@name=", XPathLiteral(Some(form.name)), EnsureStartsWithDoubleSlash(base), m);
      assert "(" + "//form[@name=" == "(//form[@name=";
    }
  }

  /** The form step stays at the front of a form-scoped path wrapped in an ordinal. */
  lemma WrappedPrefix(p: string, lit: string, path: string, m: string)
    ensures StartsWith("(" + (p + lit + "]" + path) + ")[" + m + "]", "(" + p)
  {
    assert ("(" + (p + lit + "]" + path) + ")[" + m + "]")[..|p| + 1] == "(" + p;
  }

  /** Every CSS selector but the id one is scoped by the enclosing form. */
  lemma CssFormScoped(a: Anchor, tag: string, form: FormContext)
    requires !a.ById? && !a.ByLabel? && !a.ByOrdinal?
    ensures var r := RenderCss(a, tag, form);
      (!IsBlank(form.id) ==> StartsWith(r, "form#"))
      && (IsBlank(form.id) && !IsBlank(form.name) ==> StartsWith(r, "form[name="))
  {
    CssScopedByForm(form, CssPath(a, tag));
  }
}
