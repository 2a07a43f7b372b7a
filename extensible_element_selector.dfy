/**
 * The extensible selector: heuristics narrow the candidates, supply preferred subsets and
 * adjust scores. Four tiers are tried in turn (preferred and restricted, restricted,
 * preferred, all), each split into three test-attribute sub-tiers, and every pass is the
 * shared best/second-best sweep.
 */
module ExtensibleElementSelector {
  import opened Wrappers
  import opened Text
  import opened DomElement
  import opened Sequences
  import opened Selection
  import opened ElementHeuristic
  import ElementHeuristics
  import HES = HeuristicElementScorer
  import DES = DefaultElementScorer
  import DefaultSelector = DefaultElementSelector
  import AC = AttributeContainsHeuristic

  /** The hint tokens the web mapper emits, as this selector spells them. */
  const HintTextbox: string := "[hint:role=textbox]"
  const HintCombobox: string := "[hint:role=combobox]"
  const HintContentEditable: string := "[hint:contenteditable=true]"

  const LoginTestIds: seq<string> :=
    ["login", "user", "username", "email", "e-mail", "mail", "phone", "логин", "польз", "почт", "тел"]
  const PasswordTestIds: seq<string> := ["password", "pass", "pwd", "secret", "пароль", "пасс"]
  const ButtonTestIds: seq<string> :=
    ["login", "signin", "sign-in", "sign in", "submit", "enter", "войти", "вход", "логин", "авториз"]
  const LoginInputTypes: seq<string> := ["text", "email", "tel", "number", "search"]
  const ButtonInputTypes: seq<string> := ["submit", "button"]

  // ---- list helpers ----

  /** The candidates satisfying `p`, in list order (the loops that append to a fresh list). */
  function Filter(cs: seq<Candidate>, p: Candidate -> bool): seq<Candidate> {
    if cs == [] then []
    else
      var n := |cs| - 1;
      var init := Filter(cs[..n], p);
      if p(cs[n]) then init + [cs[n]] else init
  }

  /** The filtered list is a subsequence holding exactly the entries that satisfy `p`. */
  lemma {:induction false} FilterShape(cs: seq<Candidate>, p: Candidate -> bool)
    ensures IsSubsequence(Filter(cs, p), cs)
    ensures forall c :: c in Filter(cs, p) <==> c in cs && p(c)
  {
    if cs == [] {
      SubsequenceReflexive(cs);
    } else {
      var n := |cs| - 1;
      assert cs == cs[..n] + [cs[n]];
      FilterShape(cs[..n], p);
      SubsequenceExtend(Filter(cs[..n], p), cs[..n], cs[n]);
    }
  }

  /** Some candidate of `cs` is `equals` to a descriptor with this value. */
  predicate InfoIn(info: DomElementInfo, cs: seq<Candidate>) {
    exists s :: s in cs && s.info == info
  }

  /** `intersectPreserveOrder`: the entries of `base` that are value-equal to some entry of `subset`. */
  function Intersect(base: seq<Candidate>, subset: seq<Candidate>): seq<Candidate> {
    Filter(base, InfoInBy(subset))
  }

  function InfoInBy(subset: seq<Candidate>): Candidate -> bool {
    (c: Candidate) => InfoIn(c.info, subset)
  }

  /** Nothing is value-equal to an entry of an empty list. */
  lemma {:induction false} IntersectNothing(base: seq<Candidate>)
    ensures Intersect(base, []) == []
  {
    if base != [] {
      IntersectNothing(base[..|base| - 1]);
    }
  }

  /** The intersection keeps, in order, exactly the entries of `base` with a value-equal entry in `subset`. */
  lemma IntersectShape(base: seq<Candidate>, subset: seq<Candidate>)
    ensures IsSubsequence(Intersect(base, subset), base)
    ensures forall c :: c in Intersect(base, subset) <==> c in base && InfoIn(c.info, subset)
  {
    FilterShape(base, InfoInBy(subset));
  }

  /** `dedupePreserveOrder`: the first of each run of value-equal entries, by `HashSet.add`. */
  function DedupeByValue(cs: seq<Candidate>): seq<Candidate> {
    if cs == [] then []
    else
      var n := |cs| - 1;
      var d := DedupeByValue(cs[..n]);
      if InfoIn(cs[n].info, d) then d else d + [cs[n]]
  }

  /** The deduplicated list is a subsequence that still holds a value-equal entry for every input. */
  lemma {:induction false} DedupeByValueShape(cs: seq<Candidate>)
    ensures IsSubsequence(DedupeByValue(cs), cs)
    ensures forall c :: c in cs ==> InfoIn(c.info, DedupeByValue(cs))
  {
    if cs == [] {
      SubsequenceReflexive(cs);
    } else {
      var n := |cs| - 1;
      var p := cs[..n];
      var d := DedupeByValue(p);
      var r := DedupeByValue(cs);
      assert cs == p + [cs[n]];
      DedupeByValueShape(p);
      SubsequenceExtend(d, p, cs[n]);
      forall c | c in cs ensures InfoIn(c.info, r) {
        if c in p {
          var w :| w in d && w.info == c.info;
          assert w in r;
        } else if !InfoIn(cs[n].info, d) {
          assert c == cs[n] && cs[n] in r;
        }
      }
    }
  }

  /** No two entries of the deduplicated list are `equals`. */
  predicate DistinctInfos(r: seq<Candidate>) {
    forall i, j :: 0 <= i < j < |r| ==> r[i].info != r[j].info
  }

  lemma {:induction false} DedupeByValueDistinct(cs: seq<Candidate>)
    ensures DistinctInfos(DedupeByValue(cs))
  {
    if cs != [] {
      var n := |cs| - 1;
      DedupeByValueDistinct(cs[..n]);
      var d := DedupeByValue(cs[..n]);
      if !InfoIn(cs[n].info, d) {
        var r := d + [cs[n]];
        assert DedupeByValue(cs) == r;
        forall i, j | 0 <= i < j < |r| ensures r[i].info != r[j].info {
          assert r[i] == d[i] && d[i] in d;
          if j < |d| {
            assert r[j] == d[j];
            assert d[i].info != d[j].info;
          } else {
            assert r[j] == cs[n];
          }
        }
      }
    }
  }

  // ---- scores ----

  /** The adjustments of the heuristics that support the role. */
  function SupportedSum(hs: seq<Heuristic>, role: IntentRole, e: DomElementInfo): real {
    if hs == [] then 0.0
    else
      var n := |hs| - 1;
      SupportedSum(hs[..n], role, e) + (if Supports(hs[n], role) then ScoreAdjustmentSpec(hs[n], role, e) else 0.0)
  }

  /** `score`: the base score, plus the adjustments of the supporting heuristics. */
  function ScoreWith(base: ScoreFn, hs: seq<Heuristic>, role: IntentRole, e: DomElementInfo): real {
    if hs == [] then base(role, e) else base(role, e) + SupportedSum(hs, role, e)
  }

  /** The candidates with their scores, in list order. */
  function Scores(base: ScoreFn, hs: seq<Heuristic>, role: IntentRole, cs: seq<Candidate>): (r: seq<Scored>)
    ensures |r| == |cs|
  {
    if cs == [] then []
    else
      var n := |cs| - 1;
      Scores(base, hs, role, cs[..n]) + [Scored(cs[n], ScoreWith(base, hs, role, cs[n].info))]
  }

  lemma {:induction false} ScoresAt(base: ScoreFn, hs: seq<Heuristic>, role: IntentRole, cs: seq<Candidate>)
    ensures forall i :: 0 <= i < |cs| ==> Scores(base, hs, role, cs)[i] == Scored(cs[i], ScoreWith(base, hs, role, cs[i].info))
  {
    if cs != [] {
      var n := |cs| - 1;
      ScoresAt(base, hs, role, cs[..n]);
      forall i | 0 <= i < n ensures Scores(base, hs, role, cs)[i] == Scored(cs[i], ScoreWith(base, hs, role, cs[i].info)) {
        assert cs[..n][i] == cs[i];
      }
    }
  }

  /** `trySelectBestOrNull` on a list: null for an empty list, otherwise one pass. */
  function PassOn(base: ScoreFn, hs: seq<Heuristic>, role: IntentRole, cs: seq<Candidate>): Outcome {
    if cs == [] then NoMatch else Pass(role, Scores(base, hs, role, cs))
  }

  /** A pass's result, unless it found nothing; an ambiguity propagates as the exception does. */
  function OrElse(o: Outcome, next: Outcome): Outcome {
    if o.NoMatch? then next else o
  }

  // ---- tiers ----

  /** This selector's `containsAny` on an already lower-cased haystack. */
  predicate ContainsAnyLiteral(haystack: string, needles: seq<string>) {
    haystack != [] && exists k :: 0 <= k < |needles| && needles[k] != [] && Contains(haystack, needles[k])
  }

  predicate LooksLikeRoleByTestId(role: IntentRole, testValue: string) {
    match role
    case LoginField => ContainsAnyLiteral(testValue, LoginTestIds)
    case PasswordField => ContainsAnyLiteral(testValue, PasswordTestIds)
    case LoginButton => ContainsAnyLiteral(testValue, ButtonTestIds)
  }

  /** First sub-tier: the test value names the role. */
  predicate InTierMatch(role: IntentRole, c: Candidate) {
    var tv := TrimLower(c.info.testAttributeValue);
    !IsBlank(tv) && LooksLikeRoleByTestId(role, tv)
  }

  function TierMatchBy(role: IntentRole): Candidate -> bool {
    c => InTierMatch(role, c)
  }

  /** Second sub-tier: any non-blank test value. */
  predicate InTierAny(c: Candidate) {
    !IsBlank(TrimLower(c.info.testAttributeValue))
  }

  /** `trySelectWithTestTiersOrNull`. */
  function TierPass(base: ScoreFn, hs: seq<Heuristic>, role: IntentRole, cs: seq<Candidate>): Outcome {
    if cs == [] then NoMatch
    else
      var tm := Filter(cs, TierMatchBy(role));
      var ta := Filter(cs, InTierAny);
      OrElse(PassOn(base, hs, role, tm), OrElse(PassOn(base, hs, role, ta), PassOn(base, hs, role, cs)))
  }

  // ---- restriction and preference ----

  /** One heuristic's narrowing step: accepted only when non-empty and strictly smaller. */
  function RestrictStep(h: Heuristic, role: IntentRole, current: seq<Candidate>): seq<Candidate> {
    if !Supports(h, role) then current
    else
      var restricted := Intersect(current, RestrictSpec(h, role, current));
      if restricted != [] && |restricted| < |current| then restricted else current
  }

  /** `applyRestrictions`: the steps of all heuristics in list order. */
  function Restrictions(hs: seq<Heuristic>, role: IntentRole, cs: seq<Candidate>): seq<Candidate> {
    if hs == [] then cs
    else
      var n := |hs| - 1;
      RestrictStep(hs[n], role, Restrictions(hs[..n], role, cs))
  }

  /** A step keeps a subsequence of the current list, and never empties a non-empty one. */
  lemma RestrictStepShape(h: Heuristic, role: IntentRole, current: seq<Candidate>)
    ensures IsSubsequence(RestrictStep(h, role, current), current)
    ensures current != [] ==> RestrictStep(h, role, current) != []
  {
    SubsequenceReflexive(current);
    if Supports(h, role) {
      IntersectShape(current, RestrictSpec(h, role, current));
    }
  }

  /** The restricted list is a subsequence of the candidates, non-empty when they are. */
  lemma {:induction false} RestrictionsShape(hs: seq<Heuristic>, role: IntentRole, cs: seq<Candidate>)
    ensures IsSubsequence(Restrictions(hs, role, cs), cs)
    ensures cs != [] ==> Restrictions(hs, role, cs) != []
  {
    if hs == [] {
      SubsequenceReflexive(cs);
    } else {
      var n := |hs| - 1;
      var prev := Restrictions(hs[..n], role, cs);
      RestrictionsShape(hs[..n], role, cs);
      RestrictStepShape(hs[n], role, prev);
      SubsequenceTransitive(RestrictStep(hs[n], role, prev), prev, cs);
    }
  }

  /** The extensible `filterPreferred`: no hidden-input exclusion; the hints are the mapper's. */
  predicate IsPreferred(role: IntentRole, e: DomElementInfo) {
    var tag := TrimLower(e.tagName);
    var ty := TrimLower(e.typeAttr);
    match role
    case PasswordField => tag == "input" && ty == "password"
    case LoginButton => tag == "button" || (tag == "input" && ContainsAnyLiteral(ty, ButtonInputTypes))
    case LoginField =>
      tag == "textarea"
      || (tag == "input" && (ty == [] || ContainsAnyLiteral(ty, LoginInputTypes)))
      || (var s := TrimLower(DES.Join([e.id, e.name, e.labelText, e.ariaLabel, e.placeholder, e.title, e.surroundingText]));
          Contains(s, HintTextbox) || Contains(s, HintCombobox) || Contains(s, HintContentEditable))
  }

  function PreferredBy(role: IntentRole): Candidate -> bool {
    (c: Candidate) => IsPreferred(role, c.info)
  }

  /** The preferred lists of the supporting heuristics, each intersected with the candidates. */
  function HeuristicPreferred(hs: seq<Heuristic>, role: IntentRole, cs: seq<Candidate>): seq<Candidate> {
    if hs == [] then []
    else
      var n := |hs| - 1;
      HeuristicPreferred(hs[..n], role, cs) + PreferStep(hs[n], role, cs)
  }

  lemma HeuristicPreferredSnoc(hs: seq<Heuristic>, h: Heuristic, role: IntentRole, cs: seq<Candidate>)
    ensures HeuristicPreferred(hs + [h], role, cs) == HeuristicPreferred(hs, role, cs) + PreferStep(h, role, cs)
  {
    assert (hs + [h])[..|hs|] == hs;
  }

  /** What one heuristic adds: its non-empty preferred list, intersected with the candidates, if it supports the role. */
  function PreferStep(h: Heuristic, role: IntentRole, cs: seq<Candidate>): seq<Candidate> {
    if Supports(h, role) && PreferSpec(h, role, cs) != [] then Intersect(cs, PreferSpec(h, role, cs)) else []
  }

  /** `buildPreferred`: the role's own preferred candidates, then the heuristics', deduplicated by value. */
  function Preferred(hs: seq<Heuristic>, role: IntentRole, cs: seq<Candidate>): seq<Candidate> {
    DedupeByValue(Filter(cs, PreferredBy(role)) + HeuristicPreferred(hs, role, cs))
  }

  lemma {:induction false} HeuristicPreferredFromInput(hs: seq<Heuristic>, role: IntentRole, cs: seq<Candidate>)
    ensures forall c :: c in HeuristicPreferred(hs, role, cs) ==> c in cs
  {
    if hs != [] {
      var n := |hs| - 1;
      HeuristicPreferredFromInput(hs[..n], role, cs);
      if Supports(hs[n], role) && PreferSpec(hs[n], role, cs) != [] {
        IntersectShape(cs, PreferSpec(hs[n], role, cs));
      }
    }
  }

  /** Every preferred candidate is an entry of the input list (the same reference). */
  lemma PreferredFromInput(hs: seq<Heuristic>, role: IntentRole, cs: seq<Candidate>)
    ensures forall c :: c in Preferred(hs, role, cs) ==> c in cs
  {
    var all := Filter(cs, PreferredBy(role)) + HeuristicPreferred(hs, role, cs);
    HeuristicPreferredFromInput(hs, role, cs);
    FilterShape(cs, PreferredBy(role));
    DedupeByValueShape(all);
    SubsequenceMembers(DedupeByValue(all), all);
  }

  const NoCandidates: string := "No candidates provided for role"
  const AmbiguousMatch: string := "Ambiguous match for role"
  const NoSuitableMatch: string := "No suitable match found for role"

  /** `selectBest` as a function of the configuration and the inputs. */
  function SelectBestSpec(base: ScoreFn, hs: seq<Heuristic>, role: IntentRole, cs: seq<Candidate>): Result<ElementMatch> {
    if cs == [] then Err(NoCandidates)
    else
      var restricted := Restrictions(hs, role, cs);
      var preferred := Preferred(hs, role, cs);
      var both := Intersect(preferred, restricted);
      var o := OrElse(TierPass(base, hs, role, both),
               OrElse(TierPass(base, hs, role, restricted),
               OrElse(TierPass(base, hs, role, preferred),
                      TierPass(base, hs, role, cs))));
      if o.Selected? then Ok(o.m)
      else if o.Ambiguous? then Err(AmbiguousMatch)
      else Err(NoSuitableMatch)
  }

  // ---- properties ----

  /** A pass elects an entry of the list it was given, with its positive score. */
  lemma PassOnFromList(base: ScoreFn, hs: seq<Heuristic>, role: IntentRole, cs: seq<Candidate>)
    requires PassOn(base, hs, role, cs).Selected?
    ensures var m := PassOn(base, hs, role, cs).m;
      m.role == role && m.score > 0.0 && m.element in cs && m.score == ScoreWith(base, hs, role, m.element.info)
  {
    var xs := Scores(base, hs, role, cs);
    ScoresAt(base, hs, role, cs);
    SelectedIsUniqueMaximum(role, xs);
  }

  lemma TierPassFromList(base: ScoreFn, hs: seq<Heuristic>, role: IntentRole, cs: seq<Candidate>)
    requires TierPass(base, hs, role, cs).Selected?
    ensures var m := TierPass(base, hs, role, cs).m;
      m.role == role && m.score > 0.0 && m.element in cs && m.score == ScoreWith(base, hs, role, m.element.info)
  {
    var tm := Filter(cs, TierMatchBy(role));
    var ta := Filter(cs, InTierAny);
    FilterShape(cs, TierMatchBy(role));
    FilterShape(cs, InTierAny);
    if PassOn(base, hs, role, tm).Selected? {
      PassOnFromList(base, hs, role, tm);
    } else if PassOn(base, hs, role, tm).NoMatch? && PassOn(base, hs, role, ta).Selected? {
      PassOnFromList(base, hs, role, ta);
    } else {
      PassOnFromList(base, hs, role, cs);
    }
  }

  /**
   * The elected candidate is always an entry of the input list, the same reference, with the
   * role asked for and a positive score.
   */
  lemma ElectedFromInput(base: ScoreFn, hs: seq<Heuristic>, role: IntentRole, cs: seq<Candidate>)
    requires SelectBestSpec(base, hs, role, cs).Ok?
    ensures var m := SelectBestSpec(base, hs, role, cs).value;
      m.role == role && m.score > 0.0 && m.element in cs && m.score == ScoreWith(base, hs, role, m.element.info)
  {
    var restricted := Restrictions(hs, role, cs);
    var preferred := Preferred(hs, role, cs);
    var both := Intersect(preferred, restricted);
    RestrictionsShape(hs, role, cs);
    IntersectShape(preferred, restricted);
    SubsequenceMembers(restricted, cs);
    PreferredFromInput(hs, role, cs);
    if TierPass(base, hs, role, both).Selected? {
      TierPassFromList(base, hs, role, both);
    } else if TierPass(base, hs, role, both).NoMatch? && TierPass(base, hs, role, restricted).Selected? {
      TierPassFromList(base, hs, role, restricted);
    } else if TierPass(base, hs, role, both).NoMatch? && TierPass(base, hs, role, restricted).NoMatch?
              && TierPass(base, hs, role, preferred).Selected? {
      TierPassFromList(base, hs, role, preferred);
    } else {
      TierPassFromList(base, hs, role, cs);
    }
  }

  /** A pass over entries of `cs` finds nothing when no entry of `cs` scores above zero. */
  lemma PassOnNonPositive(base: ScoreFn, hs: seq<Heuristic>, role: IntentRole, cs: seq<Candidate>, sub: seq<Candidate>)
    requires forall c :: c in cs ==> ScoreWith(base, hs, role, c.info) <= 0.0
    requires forall c :: c in sub ==> c in cs
    ensures PassOn(base, hs, role, sub) == NoMatch
  {
    if sub != [] {
      var xs := Scores(base, hs, role, sub);
      ScoresAt(base, hs, role, sub);
      forall i | 0 <= i < |xs| ensures xs[i].score <= 0.0 {
        assert sub[i] in sub;
      }
      NoMatchIff(role, xs);
    }
  }

  /** The same for all three sub-tiers of a list of entries of `cs`. */
  lemma TierPassNonPositive(base: ScoreFn, hs: seq<Heuristic>, role: IntentRole, cs: seq<Candidate>, sub: seq<Candidate>)
    requires forall c :: c in cs ==> ScoreWith(base, hs, role, c.info) <= 0.0
    requires forall c :: c in sub ==> c in cs
    ensures TierPass(base, hs, role, sub) == NoMatch
  {
    if sub != [] {
      FilterShape(sub, TierMatchBy(role));
      FilterShape(sub, InTierAny);
      PassOnNonPositive(base, hs, role, cs, Filter(sub, TierMatchBy(role)));
      PassOnNonPositive(base, hs, role, cs, Filter(sub, InTierAny));
      PassOnNonPositive(base, hs, role, cs, sub);
    }
  }

  /** No tier elects anything when no candidate scores above zero. */
  lemma AllNonPositiveNoSuitable(base: ScoreFn, hs: seq<Heuristic>, role: IntentRole, cs: seq<Candidate>)
    requires cs != []
    requires forall c :: c in cs ==> ScoreWith(base, hs, role, c.info) <= 0.0
    ensures SelectBestSpec(base, hs, role, cs) == Err(NoSuitableMatch)
  {
    var restricted := Restrictions(hs, role, cs);
    var preferred := Preferred(hs, role, cs);
    var both := Intersect(preferred, restricted);
    RestrictionsShape(hs, role, cs);
    SubsequenceMembers(restricted, cs);
    PreferredFromInput(hs, role, cs);
    IntersectShape(preferred, restricted);
    TierPassNonPositive(base, hs, role, cs, both);
    TierPassNonPositive(base, hs, role, cs, restricted);
    TierPassNonPositive(base, hs, role, cs, preferred);
    TierPassNonPositive(base, hs, role, cs, cs);
  }

  /** The last tier is the whole list, so "No suitable match" means that no candidate scores above zero. */
  lemma NoSuitableAllNonPositive(base: ScoreFn, hs: seq<Heuristic>, role: IntentRole, cs: seq<Candidate>)
    requires cs != []
    requires SelectBestSpec(base, hs, role, cs) == Err(NoSuitableMatch)
    ensures forall c :: c in cs ==> ScoreWith(base, hs, role, c.info) <= 0.0
  {
    assert TierPass(base, hs, role, cs).NoMatch?;
    var xs := Scores(base, hs, role, cs);
    ScoresAt(base, hs, role, cs);
    NoMatchIff(role, xs);
    forall c | c in cs ensures ScoreWith(base, hs, role, c.info) <= 0.0 {
      var i :| 0 <= i < |cs| && cs[i] == c;
    }
  }

  /**
   * For a non-empty list, "No suitable match" is raised exactly when no candidate scores above
   * zero: every tier is drawn from the candidates, and the last tier is all of them.
   */
  lemma NoSuitableMatchIff(base: ScoreFn, hs: seq<Heuristic>, role: IntentRole, cs: seq<Candidate>)
    requires cs != []
    ensures SelectBestSpec(base, hs, role, cs) == Err(NoSuitableMatch)
        <==> forall c :: c in cs ==> ScoreWith(base, hs, role, c.info) <= 0.0
  {
    if forall c :: c in cs ==> ScoreWith(base, hs, role, c.info) <= 0.0 {
      AllNonPositiveNoSuitable(base, hs, role, cs);
    }
    if SelectBestSpec(base, hs, role, cs) == Err(NoSuitableMatch) {
      NoSuitableAllNonPositive(base, hs, role, cs);
    }
  }

  /** Heuristics that do not support the role leave the score at the base score. */
  lemma {:induction false} UnsupportedAddNothing(hs: seq<Heuristic>, role: IntentRole, e: DomElementInfo)
    requires forall k :: 0 <= k < |hs| ==> !Supports(hs[k], role)
    ensures SupportedSum(hs, role, e) == 0.0
  {
    if hs != [] {
      UnsupportedAddNothing(hs[..|hs| - 1], role, e);
    }
  }

  lemma ScoreWithoutSupport(base: ScoreFn, hs: seq<Heuristic>, role: IntentRole, e: DomElementInfo)
    requires forall k :: 0 <= k < |hs| ==> !Supports(hs[k], role)
    ensures ScoreWith(base, hs, role, e) == base(role, e)
  {
    UnsupportedAddNothing(hs, role, e);
  }

  /**
   * An attribute rule configured for another role changes nothing here, while the composite
   * scorer, which does not ask `supports`, adds its boost.
   */
  lemma SupportsConsultedOnlyHere(base: HES.Scorer, cfg: AC.Config, role: IntentRole, e: DomElementInfo)
    requires cfg.role != role && cfg.scoreBoost != 0.0 && AC.Matches(cfg, e)
    ensures ScoreWith(HES.AsScoreFn(base), [AttributeContains(cfg)], role, e) == HES.ScoreSpec(base, role, e)
    ensures HES.ScoreSpec(HES.HeuristicScorer(base, [AttributeContains(cfg)]), role, e)
         == HES.ScoreSpec(base, role, e) + cfg.scoreBoost
  {
    var hs := [AttributeContains(cfg)];
    assert !Supports(hs[0], role);
    ScoreWithoutSupport(HES.AsScoreFn(base), hs, role, e);
    assert hs[1..] == [];
    assert HES.SumAdjustments(hs, role, e) == cfg.scoreBoost;
  }

  lemma FilterOne(c: Candidate, p: Candidate -> bool)
    ensures Filter([c], p) == if p(c) then [c] else []
  {
    assert [c][..0] == [];
  }

  lemma FilterTwo(c1: Candidate, c2: Candidate, p: Candidate -> bool)
    requires p(c1) == p(c2)
    ensures Filter([c1, c2], p) == if p(c1) then [c1, c2] else []
  {
    assert [c1, c2][..1] == [c1];
    FilterOne(c1, p);
  }

  /** Two entries with one score above zero make a pass ambiguous. */
  lemma TwoEqualAmbiguous(role: IntentRole, c1: Candidate, c2: Candidate, s: real)
    requires s > 0.0
    ensures Pass(role, [Scored(c1, s), Scored(c2, s)]).Ambiguous?
  {
    var x1, x2 := Scored(c1, s), Scored(c2, s);
    assert Sweep([x1]) == Best(Some(x1), None) by { assert [x1][..0] == []; }
    assert Sweep([x1, x2]) == Best(Some(x1), Some(x2)) by { assert [x1, x2][..1] == [x1]; }
  }

  /** One pass over a single entry that scores `s`. */
  lemma PassOnOne(base: ScoreFn, hs: seq<Heuristic>, role: IntentRole, c: Candidate)
    requires ScoreWith(base, hs, role, c.info) > 0.0
    ensures PassOn(base, hs, role, [c]) == Selected(ElementMatch(role, c, ScoreWith(base, hs, role, c.info)))
  {
    var x := Scored(c, ScoreWith(base, hs, role, c.info));
    assert [c][..0] == [];
    assert Scores(base, hs, role, [c]) == [x];
    assert Sweep([x]) == Best(Some(x), None) by { assert [x][..0] == []; }
  }

  /** A one-entry list with a positive score elects that entry. */
  lemma SingletonElected(base: ScoreFn, hs: seq<Heuristic>, role: IntentRole, c: Candidate)
    requires ScoreWith(base, hs, role, c.info) > 0.0
    ensures TierPass(base, hs, role, [c]) == Selected(ElementMatch(role, c, ScoreWith(base, hs, role, c.info)))
  {
    PassOnOne(base, hs, role, c);
    FilterOne(c, TierMatchBy(role));
    FilterOne(c, InTierAny);
  }

  /** Two value-equal entries make one pass ambiguous. */
  lemma PassOnTwins(base: ScoreFn, hs: seq<Heuristic>, role: IntentRole, c1: Candidate, c2: Candidate)
    requires c1.info == c2.info && ScoreWith(base, hs, role, c1.info) > 0.0
    ensures PassOn(base, hs, role, [c1, c2]).Ambiguous?
  {
    var s := ScoreWith(base, hs, role, c1.info);
    assert [c1, c2][..1] == [c1] && [c1][..0] == [];
    assert Scores(base, hs, role, [c1]) == [Scored(c1, s)];
    assert Scores(base, hs, role, [c1, c2]) == [Scored(c1, s), Scored(c2, s)];
    TwoEqualAmbiguous(role, c1, c2, s);
  }

  /** Two value-equal entries always tie in a pass that sees both. */
  lemma TwinsTie(base: ScoreFn, hs: seq<Heuristic>, role: IntentRole, c1: Candidate, c2: Candidate)
    requires c1.info == c2.info && ScoreWith(base, hs, role, c1.info) > 0.0
    ensures TierPass(base, hs, role, [c1, c2]).Ambiguous?
  {
    PassOnTwins(base, hs, role, c1, c2);
    FilterTwo(c1, c2, TierMatchBy(role));
    FilterTwo(c1, c2, InTierAny);
  }

  lemma DefaultScoredTwo(base: ScoreFn, role: IntentRole, c1: Candidate, c2: Candidate)
    ensures DefaultSelector.ScoredList(base, role, [Some(c1), Some(c2)])
         == [Scored(c1, base(role, c1.info)), Scored(c2, base(role, c2.info))]
  {
    var cs := [Some(c1), Some(c2)];
    var x1 := Scored(c1, base(role, c1.info));
    var x2 := Scored(c2, base(role, c2.info));
    assert [Some(c1)][..0] == [];
    assert DefaultSelector.ScoredList(base, role, [Some(c1)]) == DefaultSelector.ScoredList(base, role, []) + [x1];
    assert cs[..1] == [Some(c1)];
    assert DefaultSelector.ScoredList(base, role, cs) == DefaultSelector.ScoredList(base, role, [Some(c1)]) + [x2];
  }

  lemma DefaultPreferredTwins(role: IntentRole, c1: Candidate, c2: Candidate)
    requires c1.info == c2.info
    ensures DefaultSelector.Preferred(role, [Some(c1), Some(c2)])
         == if DefaultSelector.IsPreferred(role, c1.info) then [c1, c2] else []
  {
    var cs := [Some(c1), Some(c2)];
    var p := DefaultSelector.PreferredBy(role);
    assert p(c1) == p(c2) == DefaultSelector.IsPreferred(role, c1.info);
    assert DefaultSelector.NonNullWhere([Some(c1)], p) == if p(c1) then [c1] else [] by {
      assert [Some(c1)][..0] == [];
    }
    assert cs[..1] == [Some(c1)];
  }

  /** The default selector on two value-equal entries with a positive score: always an ambiguity. */
  lemma DefaultTwinsAmbiguous(base: ScoreFn, role: IntentRole, c1: Candidate, c2: Candidate)
    requires c1.info == c2.info && base(role, c1.info) > 0.0
    ensures DefaultSelector.SelectBestSpec(base, role, [Some(c1), Some(c2)]) == Err(DefaultSelector.AmbiguousMatch)
  {
    var cs := [Some(c1), Some(c2)];
    DefaultScoredTwo(base, role, c1, c2);
    TwoEqualAmbiguous(role, c1, c2, base(role, c1.info));
    DefaultPreferredTwins(role, c1, c2);
    if DefaultSelector.IsPreferred(role, c1.info) {
      assert DefaultSelector.Present([c1, c2]) == cs;
    }
  }

  lemma DedupeTwins(c1: Candidate, c2: Candidate)
    requires c1.info == c2.info
    ensures DedupeByValue([c1, c2]) == [c1]
  {
    assert [c1, c2][..1] == [c1] && [c1][..0] == [];
    assert DedupeByValue([c1]) == [c1];
    assert InfoIn(c2.info, [c1]);
  }

  lemma PreferredTwins(role: IntentRole, c1: Candidate, c2: Candidate)
    requires c1.info == c2.info && IsPreferred(role, c1.info)
    ensures Preferred([], role, [c1, c2]) == [c1]
  {
    FilterTwo(c1, c2, PreferredBy(role));
    assert Filter([c1, c2], PreferredBy(role)) + HeuristicPreferred([], role, [c1, c2]) == [c1, c2];
    DedupeTwins(c1, c2);
  }

  /**
   * Two distinct candidates with equal descriptors that this selector prefers: with no
   * heuristics the value-based dedupe keeps the first and elects it, while the default selector
   * (same base scorer) fails with an ambiguity.
   */
  lemma ValueTwinsElectFirst(base: ScoreFn, role: IntentRole, c1: Candidate, c2: Candidate)
    requires c1.info == c2.info && c1.ref != c2.ref
    requires IsPreferred(role, c1.info) && base(role, c1.info) > 0.0
    ensures SelectBestSpec(base, [], role, [c1, c2]) == Ok(ElementMatch(role, c1, base(role, c1.info)))
    ensures DefaultSelector.SelectBestSpec(base, role, [Some(c1), Some(c2)]) == Err(DefaultSelector.AmbiguousMatch)
  {
    var cs := [c1, c2];
    PreferredTwins(role, c1, c2);
    assert Restrictions([], role, cs) == cs;
    FilterOne(c1, InfoInBy(cs));
    assert Intersect([c1], cs) == [c1];
    SingletonElected(base, [], role, c1);
    DefaultTwinsAmbiguous(base, role, c1, c2);
  }

  // ---- the selector object ----

  const BaseScorerNull: string := "baseScorer must not be null"

  class ExtensibleSelector {
    const baseScorer: ScoreFn
    var heuristics: seq<Heuristic>

    /** The constructors, once the base scorer is known to be present: the heuristics are normalized; none given means none. */
    constructor(baseScorer: ScoreFn, hs: Option<seq<Option<Heuristic>>>)
      ensures this.baseScorer == baseScorer
      ensures hs.None? ==> heuristics == []
      ensures hs.Some? ==> heuristics == ElementHeuristics.NormalizeSpec(hs.value)
    {
      this.baseScorer := baseScorer;
      var normalized := ElementHeuristics.Normalize(hs);
      heuristics := normalized;
    }

    /**
     * `new ExtensibleElementSelector(baseScorer, heuristics)` with a scorer that may be null:
     * a null scorer is refused before anything is built, otherwise the selector is constructed.
     */
    static method Create(baseScorer: Option<ScoreFn>, hs: Option<seq<Option<Heuristic>>>) returns (r: Result<ExtensibleSelector>)
      ensures baseScorer.None? ==> r == Err(BaseScorerNull)
      ensures baseScorer.Some? ==> r.Ok? && fresh(r.value) && r.value.baseScorer == baseScorer.value
      ensures baseScorer.Some? && hs.None? ==> r.Ok? && r.value.heuristics == []
      ensures baseScorer.Some? && hs.Some? ==> r.Ok? && r.value.heuristics == ElementHeuristics.NormalizeSpec(hs.value)
    {
      if baseScorer.None? {
        return Err(BaseScorerNull);
      }
      var sel := new ExtensibleSelector(baseScorer.value, hs);
      return Ok(sel);
    }

    function GetHeuristics(): (r: seq<Heuristic>)
      reads this
      ensures r == heuristics
    {
      heuristics
    }

    /** `withHeuristics`: replaces the heuristics by the normalized list and returns this selector. */
    method WithHeuristics(hs: Option<seq<Option<Heuristic>>>) returns (self: ExtensibleSelector)
      modifies this
      ensures self == this
      ensures hs.None? ==> heuristics == []
      ensures hs.Some? ==> heuristics == ElementHeuristics.NormalizeSpec(hs.value)
    {
      var normalized := ElementHeuristics.Normalize(hs);
      heuristics := normalized;
      self := this;
    }

    method Score(role: IntentRole, c: DomElementInfo) returns (r: real)
      ensures r == ScoreWith(baseScorer, heuristics, role, c)
    {
      var s := baseScorer(role, c);
      var hs := heuristics;
      if hs == [] {
        return s;
      }
      var delta := 0.0;
      var i := 0;
      while i < |hs|
        invariant 0 <= i <= |hs|
        invariant delta == SupportedSum(hs[..i], role, c)
      {
        assert hs[..i + 1][..i] == hs[..i];
        if Supports(hs[i], role) {
          var a := ScoreAdjustment(hs[i], role, c);
          delta := delta + a;
        }
        i := i + 1;
      }
      assert hs[..i] == hs;
      r := s + delta;
    }

    /** `trySelectBestOrNull`. */
    method TrySelectBest(role: IntentRole, cs: seq<Candidate>) returns (o: Outcome)
      ensures o == PassOn(baseScorer, heuristics, role, cs)
    {
      if cs == [] {
        return NoMatch;
      }
      var best: Option<Scored> := None;
      var second: Option<Scored> := None;
      var i := 0;
      while i < |cs|
        invariant 0 <= i <= |cs|
        invariant Best(best, second) == Sweep(Scores(baseScorer, heuristics, role, cs[..i]))
      {
        var score := Score(role, cs[i].info);
        ghost var prev := Scores(baseScorer, heuristics, role, cs[..i]);
        ghost var x := Scored(cs[i], score);
        assert cs[..i + 1][..i] == cs[..i];
        assert Scores(baseScorer, heuristics, role, cs[..i + 1]) == prev + [x];
        assert Sweep(prev + [x]) == Step(Sweep(prev), x) by { assert (prev + [x])[..|prev|] == prev; }
        if best.None? || score > best.value.score {
          second := best;
          best := Some(Scored(cs[i], score));
        } else if second.None? || score > second.value.score {
          second := Some(Scored(cs[i], score));
        }
        i := i + 1;
      }
      assert cs[..i] == cs;
      if best.None? || best.value.score <= 0.0 {
        return NoMatch;
      }
      if second.Some? && best.value.score == second.value.score {
        return Ambiguous(best.value.score);
      }
      return Selected(ElementMatch(role, best.value.c, best.value.score));
    }

    /** The list-building filters: append the candidates that pass, in order. */
    method FilterWith(cs: seq<Candidate>, p: Candidate -> bool) returns (out: seq<Candidate>)
      ensures out == Filter(cs, p)
    {
      out := [];
      var i := 0;
      while i < |cs|
        invariant 0 <= i <= |cs|
        invariant out == Filter(cs[..i], p)
      {
        assert cs[..i + 1][..i] == cs[..i];
        if p(cs[i]) {
          out := out + [cs[i]];
        }
        i := i + 1;
      }
      assert cs[..i] == cs;
    }

    method TrySelectWithTestTiers(role: IntentRole, cs: seq<Candidate>) returns (o: Outcome)
      ensures o == TierPass(baseScorer, heuristics, role, cs)
    {
      if cs == [] {
        return NoMatch;
      }
      var tierMatch := FilterWith(cs, TierMatchBy(role));
      if tierMatch != [] {
        o := TrySelectBest(role, tierMatch);
        if !o.NoMatch? {
          return;
        }
      }
      var tierAny := FilterWith(cs, InTierAny);
      if tierAny != [] {
        o := TrySelectBest(role, tierAny);
        if !o.NoMatch? {
          return;
        }
      }
      o := TrySelectBest(role, cs);
    }

    method IntersectPreserveOrder(base: seq<Candidate>, subset: seq<Candidate>) returns (out: seq<Candidate>)
      ensures out == Intersect(base, subset)
    {
      if base == [] || subset == [] {
        IntersectNothing(base);
        return [];
      }
      var values := set s | s in subset :: s.info;
      out := [];
      var i := 0;
      while i < |base|
        invariant 0 <= i <= |base|
        invariant out == Intersect(base[..i], subset)
      {
        assert base[..i + 1][..i] == base[..i];
        if base[i].info in values {
          out := out + [base[i]];
        }
        i := i + 1;
      }
      assert base[..i] == base;
    }

    method DedupePreserveOrder(cs: seq<Candidate>) returns (out: seq<Candidate>)
      ensures out == DedupeByValue(cs)
    {
      if cs == [] {
        return [];
      }
      var seen: set<DomElementInfo> := {};
      out := [];
      var i := 0;
      while i < |cs|
        invariant 0 <= i <= |cs|
        invariant out == DedupeByValue(cs[..i])
        invariant forall v :: v in seen <==> InfoIn(v, out)
      {
        assert cs[..i + 1][..i] == cs[..i];
        if cs[i].info !in seen {
          seen := seen + {cs[i].info};
          out := out + [cs[i]];
        }
        i := i + 1;
      }
      assert cs[..i] == cs;
    }

    method ApplyRestrictions(role: IntentRole, cs: seq<Candidate>) returns (current: seq<Candidate>)
      ensures current == Restrictions(heuristics, role, cs)
    {
      var hs := heuristics;
      if hs == [] {
        return cs;
      }
      current := cs;
      var i := 0;
      while i < |hs|
        invariant 0 <= i <= |hs|
        invariant current == Restrictions(hs[..i], role, cs)
      {
        assert hs[..i + 1][..i] == hs[..i];
        var h := hs[i];
        if Supports(h, role) {
          var restricted := Restrict(h, role, current);
          restricted := IntersectPreserveOrder(current, restricted);
          if restricted != [] && |restricted| < |current| {
            current := restricted;
          }
        }
        i := i + 1;
      }
      assert hs[..i] == hs;
    }

    /** One heuristic's contribution to the preferred list. */
    method PreferredOf(h: Heuristic, role: IntentRole, cs: seq<Candidate>) returns (r: seq<Candidate>)
      ensures r == PreferStep(h, role, cs)
    {
      r := [];
      if Supports(h, role) {
        var preferred := Prefer(h, role, cs);
        if preferred != [] {
          r := IntersectPreserveOrder(cs, preferred);
        }
      }
    }

    method BuildPreferred(role: IntentRole, cs: seq<Candidate>) returns (r: seq<Candidate>)
      ensures r == Preferred(heuristics, role, cs)
    {
      var own := FilterWith(cs, PreferredBy(role));
      var extra := CollectPreferred(heuristics, role, cs);
      r := DedupePreserveOrder(own + extra);
    }

    /** The loop over the heuristics of `buildPreferred`. */
    method CollectPreferred(hs: seq<Heuristic>, role: IntentRole, cs: seq<Candidate>) returns (extra: seq<Candidate>)
      ensures extra == HeuristicPreferred(hs, role, cs)
    {
      extra := [];
      var i := 0;
      while i < |hs|
        invariant 0 <= i <= |hs|
        invariant extra == HeuristicPreferred(hs[..i], role, cs)
      {
        assert hs[..i + 1] == hs[..i] + [hs[i]];
        HeuristicPreferredSnoc(hs[..i], hs[i], role, cs);
        var step := PreferredOf(hs[i], role, cs);
        extra := extra + step;
        i := i + 1;
      }
      assert hs[..i] == hs;
    }

    method SelectBest(role: IntentRole, cs: seq<Candidate>) returns (r: Result<ElementMatch>)
      ensures r == SelectBestSpec(baseScorer, heuristics, role, cs)
    {
      if cs == [] {
        return Err(NoCandidates);
      }
      var restricted := ApplyRestrictions(role, cs);
      var preferred := BuildPreferred(role, cs);
      var preferredRestricted := IntersectPreserveOrder(preferred, restricted);
      var m := TrySelectWithTestTiers(role, preferredRestricted);
      if m.NoMatch? {
        m := TrySelectWithTestTiers(role, restricted);
      }
      if m.NoMatch? {
        m := TrySelectWithTestTiers(role, preferred);
      }
      if m.NoMatch? {
        m := TrySelectWithTestTiers(role, cs);
      }
      if m.Selected? {
        return Ok(m.m);
      }
      if m.Ambiguous? {
        return Err(AmbiguousMatch);
      }
      return Err(NoSuitableMatch);
    }
  }
}
