/**
 * The default selector: a role-based preferred subset is tried first, then the full list; each
 * try is a best/second-best pass over the scores, and a tie at the top is a hard failure.
 */
module DefaultElementSelector {
  import opened Wrappers
  import opened Text
  import opened DomElement
  import opened Selection
  import HES = HeuristicElementScorer

  /** The hint tokens this selector looks for in the surrounding text, exactly as it spells them. */
  const HintRoleButton: string := "[intentium:role=button]"
  const HintRoleTextbox: string := "[intentium:role=textbox]"
  const HintRoleCombobox: string := "[intentium:role=combobox]"
  const HintContentEditable: string := "[intentium:contenteditable]"

  const PasswordWords: seq<string> := ["password", "pwd", "пароль", "пасс"]

  /** The constructor: the scorer is required; the no-argument constructor uses the default scorer. */
  function New(scorer: Option<ScoreFn>): (r: Result<ScoreFn>)
    ensures scorer.None? ==> r == Err("scorer must not be null")
    ensures scorer.Some? ==> r == Ok(scorer.value)
  {
    if scorer.None? then Err("scorer must not be null") else Ok(scorer.value)
  }

  /** The scorer of the no-argument constructor: the default role scorer. */
  function DefaultScorer(): (f: ScoreFn)
    ensures forall role, e :: f(role, e) == HES.ScoreSpec(HES.DefaultScorer, role, e)
  {
    HES.AsScoreFn(HES.DefaultScorer)
  }

  /** This selector's `join`: the non-blank parts as given (not trimmed), separated by one space. */
  function JoinNonBlank(parts: seq<string>): (r: string)
    ensures forall k :: 0 <= k < |parts| && !IsBlank(parts[k]) ==> Contains(r, parts[k])
  {
    if parts == [] then ""
    else
      var n := |parts| - 1;
      var init := JoinNonBlank(parts[..n]);
      assert forall k :: 0 <= k < n ==> parts[..n][k] == parts[k];
      var r := if IsBlank(parts[n]) then init else if init == [] then parts[n] else init + " " + parts[n];
      forall k | 0 <= k < |parts| && !IsBlank(parts[k]) ensures Contains(r, parts[k]) {
        if k == n {
          if init != [] { ContainsInMiddle(init + " ", parts[n], [], parts[n]); assert init + " " + parts[n] + [] == r; }
          else { ContainsInMiddle([], parts[n], [], parts[n]); assert [] + parts[n] + [] == r; }
        } else if !IsBlank(parts[n]) && init != [] {
          ContainsInMiddle([], init, " " + parts[n], parts[k]);
          assert [] + init + (" " + parts[n]) == r;
        }
      }
      r
  }

  /** This selector's `containsAny`: the lowered (untrimmed) haystack is non-empty and contains a lowered non-empty needle. */
  predicate ContainsAnyLowered(haystack: string, needles: seq<string>) {
    Lower(haystack) != [] && exists k :: 0 <= k < |needles| && needles[k] != [] && Contains(Lower(haystack), Lower(needles[k]))
  }

  /** `looksLikePassword`: the joined text fields mention a password word. */
  predicate LooksLikePassword(e: DomElementInfo) {
    ContainsAnyLowered(
      JoinNonBlank([e.labelText, e.placeholder, e.ariaLabel, e.title, e.surroundingText, e.name, e.id]),
      PasswordWords)
  }

  /** The selector lower-cases tag and type without trimming them. */
  predicate IsHiddenInput(e: DomElementInfo) {
    Lower(e.tagName) == "input" && Lower(e.typeAttr) == "hidden"
  }

  predicate IsLoginInputType(t: string) {
    t == "" || t == "text" || t == "email" || t == "search" || t == "tel" || t == "url"
  }

  /** Whether `filterPreferred` keeps a (non-null) candidate for the role. */
  predicate IsPreferred(role: IntentRole, e: DomElementInfo) {
    var tag := Lower(e.tagName);
    var ty := Lower(e.typeAttr);
    var s := e.surroundingText;
    !IsHiddenInput(e) &&
    match role
    case PasswordField =>
      (tag == "input" && ty == "password")
      || ((Contains(s, HintRoleTextbox) || Contains(s, HintContentEditable)) && LooksLikePassword(e))
    case LoginField =>
      (tag == "input" && IsLoginInputType(ty))
      || tag == "textarea"
      || Contains(s, HintRoleTextbox) || Contains(s, HintRoleCombobox) || Contains(s, HintContentEditable)
    case LoginButton =>
      tag == "button" || (tag == "input" && (ty == "submit" || ty == "button")) || tag == "a"
      || Contains(s, HintRoleButton)
  }

  function PreferredBy(role: IntentRole): Candidate -> bool {
    (c: Candidate) => IsPreferred(role, c.info)
  }

  /** The non-null candidates that satisfy `p`, in input order. */
  function NonNullWhere(cs: seq<Option<Candidate>>, p: Candidate -> bool): seq<Candidate> {
    if cs == [] then []
    else
      var n := |cs| - 1;
      var init := NonNullWhere(cs[..n], p);
      if cs[n].Some? && p(cs[n].value) then init + [cs[n].value] else init
  }

  lemma {:induction false} NonNullWhereMembers(cs: seq<Option<Candidate>>, p: Candidate -> bool)
    ensures forall c :: c in NonNullWhere(cs, p) <==> Some(c) in cs && p(c)
  {
    if cs != [] {
      var n := |cs| - 1;
      assert cs == cs[..n] + [cs[n]];
      NonNullWhereMembers(cs[..n], p);
    }
  }

  /** The preferred candidates, in input order; nulls are skipped. */
  function Preferred(role: IntentRole, cs: seq<Option<Candidate>>): seq<Candidate> {
    NonNullWhere(cs, PreferredBy(role))
  }

  /** The preferred list holds exactly the non-null candidates the role prefers. */
  lemma PreferredMembers(role: IntentRole, cs: seq<Option<Candidate>>)
    ensures forall c :: c in Preferred(role, cs) <==> Some(c) in cs && IsPreferred(role, c.info)
  {
    NonNullWhereMembers(cs, PreferredBy(role));
  }

  /** The `filterPreferred` loop. */
  method FilterPreferred(role: IntentRole, cs: seq<Option<Candidate>>) returns (out: seq<Candidate>)
    ensures out == Preferred(role, cs)
  {
    var keep := PreferredBy(role);
    out := [];
    var i := 0;
    while i < |cs|
      invariant 0 <= i <= |cs|
      invariant out == NonNullWhere(cs[..i], keep)
    {
      assert cs[..i + 1][..i] == cs[..i];
      if cs[i].Some? {
        var c := cs[i].value;
        if keep(c) {
          out := out + [c];
        }
      }
      i := i + 1;
    }
    assert cs[..i] == cs;
  }

  /** The non-null candidates with their scores, in list order. */
  function ScoredList(scorer: ScoreFn, role: IntentRole, cs: seq<Option<Candidate>>): seq<Scored> {
    if cs == [] then []
    else
      var n := |cs| - 1;
      var init := ScoredList(scorer, role, cs[..n]);
      if cs[n].None? then init else init + [Scored(cs[n].value, scorer(role, cs[n].value.info))]
  }

  /** Every entry is a non-null candidate of the list, with its score. */
  lemma {:induction false} ScoredListSound(scorer: ScoreFn, role: IntentRole, cs: seq<Option<Candidate>>)
    ensures forall x :: x in ScoredList(scorer, role, cs) ==> Some(x.c) in cs && x.score == scorer(role, x.c.info)
  {
    if cs != [] {
      var n := |cs| - 1;
      var init := ScoredList(scorer, role, cs[..n]);
      ScoredListSound(scorer, role, cs[..n]);
      assert forall o :: o in cs[..n] ==> o in cs;
      if cs[n].Some? {
        var y := Scored(cs[n].value, scorer(role, cs[n].value.info));
        assert ScoredList(scorer, role, cs) == init + [y];
      }
    }
  }

  /** Every non-null candidate has its entry. */
  lemma {:induction false} ScoredListComplete(scorer: ScoreFn, role: IntentRole, cs: seq<Option<Candidate>>)
    ensures forall c :: Some(c) in cs ==> Scored(c, scorer(role, c.info)) in ScoredList(scorer, role, cs)
  {
    if cs != [] {
      var n := |cs| - 1;
      ScoredListComplete(scorer, role, cs[..n]);
      forall c | Some(c) in cs
        ensures Scored(c, scorer(role, c.info)) in ScoredList(scorer, role, cs)
      {
        if Some(c) != cs[n] {
          assert cs == cs[..n] + [cs[n]];
          assert Some(c) in cs[..n];
        }
      }
    }
  }

  lemma ScoredListMembers(scorer: ScoreFn, role: IntentRole, cs: seq<Option<Candidate>>)
    ensures forall x :: x in ScoredList(scorer, role, cs) ==> Some(x.c) in cs && x.score == scorer(role, x.c.info)
    ensures forall c :: Some(c) in cs ==> Scored(c, scorer(role, c.info)) in ScoredList(scorer, role, cs)
  {
    ScoredListSound(scorer, role, cs);
    ScoredListComplete(scorer, role, cs);
  }

  /** `trySelectBestOrNull`: one sweep that skips nulls and keeps the best and the runner-up. */
  method TrySelectBest(scorer: ScoreFn, role: IntentRole, cs: seq<Option<Candidate>>) returns (o: Outcome)
    ensures o == Pass(role, ScoredList(scorer, role, cs))
  {
    var best: Option<Scored> := None;
    var second: Option<Scored> := None;
    var i := 0;
    while i < |cs|
      invariant 0 <= i <= |cs|
      invariant Best(best, second) == Sweep(ScoredList(scorer, role, cs[..i]))
    {
      assert cs[..i + 1][..i] == cs[..i];
      if cs[i].Some? {
        var c := cs[i].value;
        var score := scorer(role, c.info);
        ghost var prev := ScoredList(scorer, role, cs[..i]);
        ghost var x := Scored(c, score);
        assert ScoredList(scorer, role, cs[..i + 1]) == prev + [x];
        assert Sweep(prev + [x]) == Step(Sweep(prev), x) by { assert (prev + [x])[..|prev|] == prev; }
        if best.None? || score > best.value.score {
          second := best;
          best := Some(Scored(c, score));
        } else if second.None? || score > second.value.score {
          second := Some(Scored(c, score));
        }
      }
      i := i + 1;
    }
    assert cs[..i] == cs;
    if best.None? || best.value.score <= 0.0 {
      return NoMatch;
    }
    if second.Some? && best.value.score == second.value.score {
      return Ambiguous(best.value.score);
    }
    return Selected(ElementMatch(role, best.value.c, best.value.score));
  }

  /** Wraps a null-free list. */
  function Present(cs: seq<Candidate>): (r: seq<Option<Candidate>>)
    ensures |r| == |cs| && forall i :: 0 <= i < |cs| ==> r[i] == Some(cs[i])
  {
    seq(|cs|, i requires 0 <= i < |cs| => Some(cs[i]))
  }

  const NoCandidates: string := "No candidates provided for role"
  const AmbiguousMatch: string := "Ambiguous match for role"
  const NoSuitableMatch: string := "No suitable match found for role"

  /** `selectBest` as a function of the inputs. */
  function SelectBestSpec(scorer: ScoreFn, role: IntentRole, cs: seq<Option<Candidate>>): Result<ElementMatch> {
    if cs == [] then Err(NoCandidates)
    else
      var preferred := Preferred(role, cs);
      var p := if preferred == [] then NoMatch else Pass(role, ScoredList(scorer, role, Present(preferred)));
      if p.Selected? then Ok(p.m)
      else if p.Ambiguous? then Err(AmbiguousMatch)
      else
        var f := Pass(role, ScoredList(scorer, role, cs));
        if f.Selected? then Ok(f.m)
        else if f.Ambiguous? then Err(AmbiguousMatch)
        else Err(NoSuitableMatch)
  }

  method SelectBest(scorer: ScoreFn, role: IntentRole, cs: seq<Option<Candidate>>) returns (r: Result<ElementMatch>)
    ensures r == SelectBestSpec(scorer, role, cs)
  {
    if cs == [] {
      return Err(NoCandidates);
    }
    var preferred := FilterPreferred(role, cs);
    if preferred != [] {
      var p := TrySelectBest(scorer, role, Present(preferred));
      if p.Selected? {
        return Ok(p.m);
      }
      if p.Ambiguous? {
        return Err(AmbiguousMatch);
      }
    }
    var f := TrySelectBest(scorer, role, cs);
    if f.Selected? {
      return Ok(f.m);
    }
    if f.Ambiguous? {
      return Err(AmbiguousMatch);
    }
    return Err(NoSuitableMatch);
  }

  // ---- properties ----

  /** Hidden inputs are never preferred, for any role. */
  lemma HiddenNeverPreferred(role: IntentRole, cs: seq<Option<Candidate>>)
    ensures forall c :: c in Preferred(role, cs) ==> !IsHiddenInput(c.info)
  {
    PreferredMembers(role, cs);
  }

  /**
   * A returned match carries the role, a non-null candidate of the input list (the same
   * reference) and that candidate's own positive score. That the rest of its pass scores
   * strictly lower is `Selection.SelectedIsUniqueMaximum`.
   */
  lemma MatchIsUniqueBest(scorer: ScoreFn, role: IntentRole, cs: seq<Option<Candidate>>)
    requires SelectBestSpec(scorer, role, cs).Ok?
    ensures var m := SelectBestSpec(scorer, role, cs).value;
      m.role == role && m.score > 0.0 && Some(m.element) in cs
      && m.score == scorer(role, m.element.info)
  {
    var preferred := Preferred(role, cs);
    var m := SelectBestSpec(scorer, role, cs).value;
    var xs := if preferred != [] && Pass(role, ScoredList(scorer, role, Present(preferred))).Selected?
              then ScoredList(scorer, role, Present(preferred))
              else ScoredList(scorer, role, cs);
    SelectedIsUniqueMaximum(role, xs);
    ScoredListMembers(scorer, role, cs);
    ScoredListMembers(scorer, role, Present(preferred));
    PreferredMembers(role, cs);
    var i :| 0 <= i < |xs| && xs[i].c == m.element && xs[i].score == m.score;
    assert xs[i] in xs;
    if xs == ScoredList(scorer, role, Present(preferred)) && preferred != [] {
      var j :| 0 <= j < |preferred| && Present(preferred)[j] == Some(m.element);
      assert preferred[j] in preferred;
    }
  }

  /** An empty candidate list is an error, never a match. */
  lemma EmptyIsError(scorer: ScoreFn, role: IntentRole)
    ensures SelectBestSpec(scorer, role, []) == Err(NoCandidates)
  {
  }

  /**
   * When the preferred subset has a unique positive best, it is returned even if the full list
   * would elect something else.
   */
  lemma PreferredFirst(scorer: ScoreFn, role: IntentRole, cs: seq<Option<Candidate>>)
    requires cs != [] && Preferred(role, cs) != []
    requires Pass(role, ScoredList(scorer, role, Present(Preferred(role, cs)))).Selected?
    ensures SelectBestSpec(scorer, role, cs) == Ok(Pass(role, ScoredList(scorer, role, Present(Preferred(role, cs)))).m)
  {
  }

  /** A positive tie at the top of the preferred pass aborts the selection, without trying the full list. */
  lemma PreferredTieIsFatal(scorer: ScoreFn, role: IntentRole, cs: seq<Option<Candidate>>)
    requires cs != [] && Preferred(role, cs) != []
    requires var xs := ScoredList(scorer, role, Present(Preferred(role, cs)));
             xs != [] && MaxScore(xs) > 0.0 && CountScore(xs, MaxScore(xs)) >= 2
    ensures SelectBestSpec(scorer, role, cs) == Err(AmbiguousMatch)
  {
    AmbiguousIff(role, ScoredList(scorer, role, Present(Preferred(role, cs))));
  }

  /** The predicate of the no-match case: no non-null candidate scores above zero. */
  ghost predicate AllNonPositive(scorer: ScoreFn, role: IntentRole, cs: seq<Option<Candidate>>) {
    forall c :: Some(c) in cs ==> scorer(role, c.info) <= 0.0
  }

  lemma FullPassNoMatchIff(scorer: ScoreFn, role: IntentRole, cs: seq<Option<Candidate>>)
    ensures Pass(role, ScoredList(scorer, role, cs)) == NoMatch <==> AllNonPositive(scorer, role, cs)
  {
    var all := ScoredList(scorer, role, cs);
    NoMatchIff(role, all);
    ScoredListMembers(scorer, role, cs);
    if AllNonPositive(scorer, role, cs) {
      forall i | 0 <= i < |all| ensures all[i].score <= 0.0 {
        assert all[i] in all;
      }
    } else {
      var c :| Some(c) in cs && scorer(role, c.info) > 0.0;
      assert Scored(c, scorer(role, c.info)) in all;
    }
  }

  lemma PreferredPassNoMatch(scorer: ScoreFn, role: IntentRole, cs: seq<Option<Candidate>>)
    requires AllNonPositive(scorer, role, cs)
    ensures Pass(role, ScoredList(scorer, role, Present(Preferred(role, cs)))) == NoMatch
  {
    var preferred := Preferred(role, cs);
    var ps := ScoredList(scorer, role, Present(preferred));
    NoMatchIff(role, ps);
    ScoredListMembers(scorer, role, Present(preferred));
    PreferredMembers(role, cs);
    forall i | 0 <= i < |ps| ensures ps[i].score <= 0.0 {
      assert ps[i] in ps;
      var j :| 0 <= j < |preferred| && Present(preferred)[j] == Some(ps[i].c);
      assert preferred[j] in preferred;
    }
  }

  /** No match at all exactly when no non-null candidate scores above zero (and there are candidates). */
  lemma NoSuitableMatchIff(scorer: ScoreFn, role: IntentRole, cs: seq<Option<Candidate>>)
    requires cs != []
    ensures SelectBestSpec(scorer, role, cs) == Err(NoSuitableMatch) <==> AllNonPositive(scorer, role, cs)
  {
    FullPassNoMatchIff(scorer, role, cs);
    if AllNonPositive(scorer, role, cs) {
      PreferredPassNoMatch(scorer, role, cs);
    }
  }
}
