/**
 * Scorers: the default role scorer, and the composite that adds the score adjustments of a
 * list of heuristics to a base scorer.
 */
module HeuristicElementScorer {
  import opened Wrappers
  import opened DomElement
  import opened ElementHeuristic
  import opened ElementHeuristics
  import DefaultElementScorer

  /** An element scorer: the default one, or a composite over another scorer. */
  datatype Scorer =
    | DefaultScorer
    | HeuristicScorer(base: Scorer, heuristics: seq<Heuristic>)

  /** A scorer handed to a selector: its `score` method as a function. */
  function AsScoreFn(s: Scorer): (f: ScoreFn)
    ensures forall role, e :: f(role, e) == ScoreSpec(s, role, e)
  {
    (role: IntentRole, e: DomElementInfo) => ScoreSpec(s, role, e)
  }

  /** The sum of every listed heuristic's adjustment; `supports` is not asked. */
  function SumAdjustments(hs: seq<Heuristic>, role: IntentRole, e: DomElementInfo): real {
    if hs == [] then 0.0
    else ScoreAdjustmentSpec(hs[0], role, e) + SumAdjustments(hs[1..], role, e)
  }

  /** `score(role, element)` of a scorer. */
  function ScoreSpec(s: Scorer, role: IntentRole, e: DomElementInfo): (r: real)
    ensures s.DefaultScorer? ==> r == DefaultElementScorer.Score(role, e)
    ensures s.HeuristicScorer? ==> r == ScoreSpec(s.base, role, e) + SumAdjustments(s.heuristics, role, e)
  {
    match s
    case DefaultScorer => DefaultElementScorer.Score(role, e)
    case HeuristicScorer(b, hs) => ScoreSpec(b, role, e) + SumAdjustments(hs, role, e)
  }

  lemma {:induction false} SumAdjustmentsAppend(hs: seq<Heuristic>, h: Heuristic, role: IntentRole, e: DomElementInfo)
    ensures SumAdjustments(hs + [h], role, e) == SumAdjustments(hs, role, e) + ScoreAdjustmentSpec(h, role, e)
  {
    if hs != [] {
      assert (hs + [h])[1..] == hs[1..] + [h];
      SumAdjustmentsAppend(hs[1..], h, role, e);
    } else {
      assert [h][1..] == [];
    }
  }

  /** `score`: the base score, plus the adjustments accumulated in list order. */
  method Score(s: Scorer, role: IntentRole, e: DomElementInfo) returns (r: real)
    ensures r == ScoreSpec(s, role, e)
  {
    match s
    case DefaultScorer =>
      r := DefaultElementScorer.Score(role, e);
    case HeuristicScorer(b, hs) =>
      var baseScore := Score(b, role, e);
      if hs == [] {
        return baseScore;
      }
      var delta := 0.0;
      var i := 0;
      while i < |hs|
        invariant 0 <= i <= |hs|
        invariant delta == SumAdjustments(hs[..i], role, e)
      {
        assert hs[..i + 1] == hs[..i] + [hs[i]];
        SumAdjustmentsAppend(hs[..i], hs[i], role, e);
        var a := ScoreAdjustment(hs[i], role, e);
        delta := delta + a;
        i := i + 1;
      }
      assert hs[..i] == hs;
      r := baseScore + delta;
  }

  /** The stored list: the non-null heuristics sorted by (order, id), duplicates kept. */
  function StoredHeuristics(hs: seq<Option<Heuristic>>): seq<Heuristic> {
    Sort(Clean(hs))
  }

  /** The private `normalize`: drop the nulls, then sort; no dedupe. */
  method NormalizeKeepingDuplicates(heuristics: Option<seq<Option<Heuristic>>>) returns (out: seq<Heuristic>)
    ensures heuristics.None? ==> out == []
    ensures heuristics.Some? ==> out == StoredHeuristics(heuristics.value)
  {
    if heuristics.None? || heuristics.value == [] {
      return [];
    }
    var hs := heuristics.value;
    var cleaned := [];
    var i := 0;
    while i < |hs|
      invariant 0 <= i <= |hs|
      invariant cleaned == Clean(hs[..i])
    {
      assert hs[..i + 1][..i] == hs[..i];
      if hs[i].Some? {
        cleaned := cleaned + [hs[i].value];
      }
      i := i + 1;
    }
    assert hs[..i] == hs;
    out := Sort(cleaned);
  }

  /** The constructor: the base scorer is required. */
  method New(base: Option<Scorer>, heuristics: Option<seq<Option<Heuristic>>>) returns (r: Result<Scorer>)
    ensures base.None? ==> r == Err("base must not be null")
    ensures base.Some? ==> r.Ok? && r.value.HeuristicScorer? && r.value.base == base.value
    ensures base.Some? && heuristics.None? ==> r.value.heuristics == []
    ensures base.Some? && heuristics.Some? ==> r.value.heuristics == StoredHeuristics(heuristics.value)
  {
    if base.None? {
      return Err("base must not be null");
    }
    var hs := NormalizeKeepingDuplicates(heuristics);
    r := Ok(HeuristicScorer(base.value, hs));
  }

  /** `heuristics()`: the stored list, sorted by (order, id), each non-null input heuristic exactly as often as given. */
  function Heuristics(s: Scorer): (r: seq<Heuristic>)
    requires s.HeuristicScorer?
    ensures r == s.heuristics
  {
    s.heuristics
  }

  lemma StoredHeuristicsSorted(hs: seq<Option<Heuristic>>)
    ensures Sorted(StoredHeuristics(hs))
    ensures multiset(StoredHeuristics(hs)) == multiset(Clean(hs))
  {
    SortSorted(Clean(hs));
    SortPermutation(Clean(hs));
  }

  /** The order in which the adjustments are added does not change their sum. */
  lemma {:induction false} SumAdjustmentsInsert(x: Heuristic, t: seq<Heuristic>, role: IntentRole, e: DomElementInfo)
    ensures SumAdjustments(Insert(x, t), role, e) == ScoreAdjustmentSpec(x, role, e) + SumAdjustments(t, role, e)
  {
    if t != [] && !KeyLe(x, t[0]) {
      SumAdjustmentsInsert(x, t[1..], role, e);
      assert Insert(x, t)[1..] == Insert(x, t[1..]);
    } else if t != [] {
      assert ([x] + t)[1..] == t;
    }
  }

  lemma {:induction false} SumAdjustmentsSort(s: seq<Heuristic>, role: IntentRole, e: DomElementInfo)
    ensures SumAdjustments(Sort(s), role, e) == SumAdjustments(s, role, e)
  {
    if s != [] {
      SumAdjustmentsSort(s[1..], role, e);
      SumAdjustmentsInsert(s[0], Sort(s[1..]), role, e);
    }
  }

  /**
   * The composite score is the base score plus the adjustment of every non-null heuristic it
   * was given, in whatever order they were given, however many times each was given.
   */
  lemma CompositeScore(base: Scorer, hs: seq<Option<Heuristic>>, role: IntentRole, e: DomElementInfo)
    ensures ScoreSpec(HeuristicScorer(base, StoredHeuristics(hs)), role, e)
         == ScoreSpec(base, role, e) + SumAdjustments(Clean(hs), role, e)
  {
    SumAdjustmentsSort(Clean(hs), role, e);
  }

  lemma {:induction false} CleanOfNulls(hs: seq<Option<Heuristic>>)
    requires forall i :: 0 <= i < |hs| ==> hs[i].None?
    ensures Clean(hs) == []
  {
    if hs != [] {
      CleanOfNulls(hs[..|hs| - 1]);
    }
  }

  /** With no (non-null) heuristics the composite scores exactly like its base. */
  lemma NoHeuristicsScoresAsBase(base: Scorer, hs: seq<Option<Heuristic>>, role: IntentRole, e: DomElementInfo)
    requires forall i :: 0 <= i < |hs| ==> hs[i].None?
    ensures ScoreSpec(HeuristicScorer(base, StoredHeuristics(hs)), role, e) == ScoreSpec(base, role, e)
  {
    CleanOfNulls(hs);
  }

  /**
   * A heuristic given twice is stored twice and adds its adjustment twice, where
   * `ElementHeuristics.normalize` keeps one.
   */
  lemma DuplicatesKept(h: Heuristic, role: IntentRole, e: DomElementInfo)
    ensures StoredHeuristics([Some(h), Some(h)]) == [h, h]
    ensures NormalizeSpec([Some(h), Some(h)]) == [h]
    ensures SumAdjustments(StoredHeuristics([Some(h), Some(h)]), role, e) == 2.0 * ScoreAdjustmentSpec(h, role, e)
  {
    var hs := [Some(h), Some(h)];
    assert hs[..1] == [Some(h)];
    assert hs[..1][..0] == [];
    assert Clean(hs) == [h, h];
    StringLessIrreflexive(Id(h));
    assert KeyLe(h, h);
    assert Sort([h]) == [h];
    assert Sort([h, h]) == Insert(h, [h]);
    assert Dedupe([h]) == [h];
    assert [h, h][..1] == [h];
    assert [h][..0] == [];
    assert IdsOf([h]) == {Id(h)};
    assert Dedupe([h, h]) == [h];
    assert [h, h][1..] == [h];
    assert [h][1..] == [];
    assert SumAdjustments([h], role, e) == ScoreAdjustmentSpec(h, role, e) + SumAdjustments([], role, e);
    assert SumAdjustments([h, h], role, e) == ScoreAdjustmentSpec(h, role, e) + SumAdjustments([h], role, e);
  }
}
