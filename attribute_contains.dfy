/**
 * The one concrete heuristic: a candidate matches when one of the configured attributes,
 * trimmed and lower-cased, contains one of the configured needles.
 */
module AttributeContainsHeuristic {
  import opened Wrappers
  import opened Text
  import opened DomElement
  import opened Sequences

  /** The attributes a heuristic can search, in the enum's declaration order. */
  datatype Attribute =
    | TagName | TypeAttr | Id | Name | CssClasses | TestAttributeName | TestAttributeValue
    | LabelText | Placeholder | AriaLabel | Title | SurroundingText | FormIdentifier

  /** `EnumSet` iterates in declaration order. */
  const AllAttributes: seq<Attribute> :=
    [TagName, TypeAttr, Id, Name, CssClasses, TestAttributeName, TestAttributeValue,
     LabelText, Placeholder, AriaLabel, Title, SurroundingText, FormIdentifier]

  lemma AllAttributesListed(a: Attribute)
    ensures a in AllAttributes
  {
    match a
    case TagName => assert AllAttributes[0] == a;
    case TypeAttr => assert AllAttributes[1] == a;
    case Id => assert AllAttributes[2] == a;
    case Name => assert AllAttributes[3] == a;
    case CssClasses => assert AllAttributes[4] == a;
    case TestAttributeName => assert AllAttributes[5] == a;
    case TestAttributeValue => assert AllAttributes[6] == a;
    case LabelText => assert AllAttributes[7] == a;
    case Placeholder => assert AllAttributes[8] == a;
    case AriaLabel => assert AllAttributes[9] == a;
    case Title => assert AllAttributes[10] == a;
    case SurroundingText => assert AllAttributes[11] == a;
    case FormIdentifier => assert AllAttributes[12] == a;
  }

  /** The heuristic's final fields. */
  datatype Config = Config(
    id: string,
    order: int,
    role: IntentRole,
    attributes: set<Attribute>,
    needles: seq<string>,
    restrictToMatches: bool,
    preferMatches: bool,
    scoreBoost: real)

  /** `read(a, c)`: the attribute's value, trimmed and lower-cased. */
  function Read(a: Attribute, c: DomElementInfo): string {
    match a
    case TagName => TrimLower(c.tagName)
    case TypeAttr => TrimLower(c.typeAttr)
    case Id => TrimLower(c.id)
    case Name => TrimLower(c.name)
    case CssClasses => TrimLower(c.cssClasses)
    case TestAttributeName => TrimLower(c.testAttributeName)
    case TestAttributeValue => TrimLower(c.testAttributeValue)
    case LabelText => TrimLower(c.labelText)
    case Placeholder => TrimLower(c.placeholder)
    case AriaLabel => TrimLower(c.ariaLabel)
    case Title => TrimLower(c.title)
    case SurroundingText => TrimLower(c.surroundingText)
    case FormIdentifier => TrimLower(c.formIdentifier)
  }

  /**
   * The stored needles: the non-null inputs, trimmed and lower-cased, with the empty results
   * dropped, in input order.
   */
  function NormalizedNeedles(needles: seq<Option<string>>): (r: seq<string>)
    ensures |r| <= |needles|
    ensures forall k :: 0 <= k < |r| ==> r[k] != [] && TrimLower(r[k]) == r[k]
    ensures forall k :: 0 <= k < |needles| && needles[k].Some? && TrimLower(needles[k].value) != [] ==>
              TrimLower(needles[k].value) in r
    ensures forall x :: x in r ==> exists k :: 0 <= k < |needles| && needles[k].Some? && x == TrimLower(needles[k].value)
  {
    if needles == [] then []
    else
      var n := |needles| - 1;
      var init := NormalizedNeedles(needles[..n]);
      assert forall k :: 0 <= k < n ==> needles[..n][k] == needles[k];
      if needles[n].None? then init
      else
        var t := TrimLower(needles[n].value);
        TrimLowerIdempotent(needles[n].value);
        if t == [] then init else init + [t]
  }

  /** `normalizeNeedles`: a `null` list gives no needles. */
  method NormalizeNeedles(needles: Option<seq<Option<string>>>) returns (out: seq<string>)
    ensures needles.None? ==> out == []
    ensures needles.Some? ==> out == NormalizedNeedles(needles.value)
  {
    if needles.None? || needles.value == [] {
      return [];
    }
    var ns := needles.value;
    out := [];
    var i := 0;
    while i < |ns|
      invariant 0 <= i <= |ns|
      invariant out == NormalizedNeedles(ns[..i])
    {
      assert ns[..i + 1][..i] == ns[..i];
      if ns[i].Some? {
        var t := TrimLower(ns[i].value);
        if t != [] {
          out := out + [t];
        }
      }
      i := i + 1;
    }
    assert ns[..i] == ns;
  }

  /** The attribute set after the constructor's default: a missing or empty set means the test-attribute value. */
  function EffectiveAttributes(attributes: Option<set<Attribute>>): (r: set<Attribute>)
    ensures r != {}
    ensures attributes.None? || attributes.value == {} ==> r == {TestAttributeValue}
    ensures attributes.Some? && attributes.value != {} ==> r == attributes.value
  {
    if attributes.None? || attributes.value == {} then {TestAttributeValue} else attributes.value
  }

  /** The constructor: `id` and `role` must not be null; the other arguments take their defaults. */
  method New(id: Option<string>, order: int, role: Option<IntentRole>, attributes: Option<set<Attribute>>,
             needles: Option<seq<Option<string>>>, restrictToMatches: bool, preferMatches: bool,
             scoreBoost: real) returns (r: Result<Config>)
    ensures id.None? ==> r == Err("id must not be null")
    ensures id.Some? && role.None? ==> r == Err("role must not be null")
    ensures id.Some? && role.Some? ==> r.Ok?
    ensures r.Ok? ==> r.value.id == id.value && r.value.order == order && r.value.role == role.value
    ensures r.Ok? ==> r.value.attributes == EffectiveAttributes(attributes)
    ensures r.Ok? ==> r.value.needles == (if needles.None? then [] else NormalizedNeedles(needles.value))
    ensures r.Ok? ==> r.value.restrictToMatches == restrictToMatches && r.value.preferMatches == preferMatches
    ensures r.Ok? ==> r.value.scoreBoost == scoreBoost
  {
    if id.None? {
      return Err("id must not be null");
    }
    if role.None? {
      return Err("role must not be null");
    }
    var ns := NormalizeNeedles(needles);
    r := Ok(Config(id.value, order, role.value, EffectiveAttributes(attributes), ns,
                   restrictToMatches, preferMatches, scoreBoost));
  }

  /** `supports(r)`: exactly the configured role. */
  predicate Supports(cfg: Config, r: IntentRole) { cfg.role == r }

  /** One attribute matches when its value is non-empty and contains one of the needles. */
  predicate AttributeMatches(cfg: Config, a: Attribute, c: DomElementInfo) {
    Read(a, c) != [] && exists n :: n in cfg.needles && Contains(Read(a, c), n)
  }

  /** `matches(c)`: with no needles nothing matches; otherwise some configured attribute matches. */
  predicate Matches(cfg: Config, c: DomElementInfo) {
    cfg.needles != [] && exists a :: a in cfg.attributes && AttributeMatches(cfg, a, c)
  }

  /** `matches`: the attributes in enum order, and for each the needles in order, stopping at the first hit. */
  method MatchesScan(cfg: Config, c: DomElementInfo) returns (b: bool)
    ensures b == Matches(cfg, c)
  {
    if cfg.needles == [] {
      return false;
    }
    var i := 0;
    while i < |AllAttributes|
      invariant 0 <= i <= |AllAttributes|
      invariant forall j :: 0 <= j < i ==> !(AllAttributes[j] in cfg.attributes && AttributeMatches(cfg, AllAttributes[j], c))
    {
      var a := AllAttributes[i];
      if a in cfg.attributes {
        var value := Read(a, c);
        if value != [] {
          var k := 0;
          while k < |cfg.needles|
            invariant 0 <= k <= |cfg.needles|
            invariant forall m :: 0 <= m < k ==> !Contains(value, cfg.needles[m])
          {
            if Contains(value, cfg.needles[k]) {
              return true;
            }
            k := k + 1;
          }
        }
      }
      i := i + 1;
    }
    forall a | a in cfg.attributes ensures !AttributeMatches(cfg, a, c) {
      AllAttributesListed(a);
    }
    return false;
  }

  /** `matchesOnly`: the matching candidates, same references, in input order. */
  function MatchingCandidates(cfg: Config, cs: seq<Candidate>): seq<Candidate> {
    if cs == [] then []
    else
      var n := |cs| - 1;
      var init := MatchingCandidates(cfg, cs[..n]);
      if Matches(cfg, cs[n].info) then init + [cs[n]] else init
  }

  /** The matching candidates are a subsequence of the input holding exactly its matching entries. */
  lemma {:induction false} MatchingCandidatesShape(cfg: Config, cs: seq<Candidate>)
    ensures IsSubsequence(MatchingCandidates(cfg, cs), cs)
    ensures forall x :: x in MatchingCandidates(cfg, cs) <==> x in cs && Matches(cfg, x.info)
  {
    if cs == [] {
      SubsequenceReflexive(cs);
    } else {
      var n := |cs| - 1;
      assert cs == cs[..n] + [cs[n]];
      MatchingCandidatesShape(cfg, cs[..n]);
      SubsequenceExtend(MatchingCandidates(cfg, cs[..n]), cs[..n], cs[n]);
    }
  }

  method MatchesOnly(cfg: Config, cs: seq<Candidate>) returns (out: seq<Candidate>)
    ensures out == MatchingCandidates(cfg, cs)
  {
    if cs == [] {
      return [];
    }
    out := [];
    var i := 0;
    while i < |cs|
      invariant 0 <= i <= |cs|
      invariant out == MatchingCandidates(cfg, cs[..i])
    {
      assert cs[..i + 1][..i] == cs[..i];
      var m := MatchesScan(cfg, cs[i].info);
      if m {
        out := out + [cs[i]];
      }
      i := i + 1;
    }
    assert cs[..i] == cs;
  }

  /** `restrict`: the input itself unless restricting to matches is configured. */
  function RestrictSpec(cfg: Config, cs: seq<Candidate>): seq<Candidate> {
    if !cfg.restrictToMatches then cs else MatchingCandidates(cfg, cs)
  }

  /** `prefer`: nothing unless preferring matches is configured. */
  function PreferSpec(cfg: Config, cs: seq<Candidate>): seq<Candidate> {
    if !cfg.preferMatches then [] else MatchingCandidates(cfg, cs)
  }

  /**
   * `restrict` keeps every candidate unless restricting is configured, and then exactly the
   * matching ones; `prefer` gives none unless preferring is configured, and then exactly the
   * matching ones. Both keep the input order.
   */
  lemma RestrictAndPreferShape(cfg: Config, cs: seq<Candidate>)
    ensures !cfg.restrictToMatches ==> RestrictSpec(cfg, cs) == cs
    ensures cfg.restrictToMatches ==> forall x :: x in RestrictSpec(cfg, cs) <==> x in cs && Matches(cfg, x.info)
    ensures IsSubsequence(RestrictSpec(cfg, cs), cs)
    ensures !cfg.preferMatches ==> PreferSpec(cfg, cs) == []
    ensures cfg.preferMatches ==> forall x :: x in PreferSpec(cfg, cs) <==> x in cs && Matches(cfg, x.info)
    ensures IsSubsequence(PreferSpec(cfg, cs), cs)
  {
    SubsequenceReflexive(cs);
    MatchingCandidatesShape(cfg, cs);
  }

  /** `scoreAdjustment`: the boost for a matching candidate, whatever the role asked for. */
  function ScoreAdjustmentSpec(cfg: Config, c: DomElementInfo): real {
    if cfg.scoreBoost == 0.0 then 0.0 else if Matches(cfg, c) then cfg.scoreBoost else 0.0
  }

  /** The adjustment is the boost or nothing, and it is non-zero exactly for a matching candidate and a non-zero boost. */
  lemma ScoreAdjustmentShape(cfg: Config, c: DomElementInfo)
    ensures ScoreAdjustmentSpec(cfg, c) == 0.0 || ScoreAdjustmentSpec(cfg, c) == cfg.scoreBoost
    ensures ScoreAdjustmentSpec(cfg, c) != 0.0 <==> cfg.scoreBoost != 0.0 && Matches(cfg, c)
  {
  }

  method Restrict(cfg: Config, cs: seq<Candidate>) returns (r: seq<Candidate>)
    ensures r == RestrictSpec(cfg, cs)
  {
    if !cfg.restrictToMatches {
      return cs;
    }
    r := MatchesOnly(cfg, cs);
  }

  method Prefer(cfg: Config, cs: seq<Candidate>) returns (r: seq<Candidate>)
    ensures r == PreferSpec(cfg, cs)
  {
    if !cfg.preferMatches {
      return [];
    }
    r := MatchesOnly(cfg, cs);
  }

  method ScoreAdjustment(cfg: Config, c: DomElementInfo) returns (r: real)
    ensures r == ScoreAdjustmentSpec(cfg, c)
  {
    if cfg.scoreBoost == 0.0 {
      return 0.0;
    }
    var m := MatchesScan(cfg, c);
    r := if m then cfg.scoreBoost else 0.0;
  }

  /** An empty attribute value never matches, whatever the needles. */
  lemma EmptyValueNeverMatches(cfg: Config, a: Attribute, c: DomElementInfo)
    requires Read(a, c) == []
    ensures !AttributeMatches(cfg, a, c)
  {
  }

  /** Matching is case-insensitive: a needle given in any case matches its lower-case occurrence. */
  lemma NeedleCaseIgnored(id: string, role: IntentRole, needle: string, c: DomElementInfo)
    requires TrimLower(needle) != [] && Contains(TrimLower(c.testAttributeValue), TrimLower(needle))
    ensures Matches(Config(id, 0, role, EffectiveAttributes(None), NormalizedNeedles([Some(needle)]), false, false, 1.0), c)
  {
    var ns := NormalizedNeedles([Some(needle)]);
    assert [Some(needle)][..0] == [];
    assert ns == [TrimLower(needle)];
    var cfg := Config(id, 0, role, EffectiveAttributes(None), ns, false, false, 1.0);
    assert TrimLower(needle) in cfg.needles;
    assert AttributeMatches(cfg, TestAttributeValue, c);
  }
}
