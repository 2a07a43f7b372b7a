/**
 * The best/second-best pass shared by both selectors: one sweep over the scored candidates
 * keeps the highest score seen (first occurrence wins) and the runner-up, then decides
 * between a match, an ambiguity and no match.
 */
module Selection {
  import opened Wrappers
  import opened DomElement

  /** A candidate together with the score the selector computed for it. */
  datatype Scored = Scored(c: Candidate, score: real)

  /**
   * The pass state. `None` stands for the `null` element together with the
   * `Double.NEGATIVE_INFINITY` score it starts with.
   */
  datatype Best = Best(best: Option<Scored>, second: Option<Scored>)

  /** One loop iteration: a strictly higher score displaces the best, otherwise it may displace the runner-up. */
  function Step(b: Best, x: Scored): Best {
    if b.best.None? || x.score > b.best.value.score then Best(Some(x), b.best)
    else if b.second.None? || x.score > b.second.value.score then Best(b.best, Some(x))
    else b
  }

  /** The state after the whole sweep. */
  function Sweep(xs: seq<Scored>): Best {
    if xs == [] then Best(None, None) else Step(Sweep(xs[..|xs| - 1]), xs[|xs| - 1])
  }

  /** What one pass returns: a match, the ambiguity exception, or `null`. */
  datatype Outcome = Selected(m: ElementMatch) | Ambiguous(score: real) | NoMatch

  function Decide(role: IntentRole, b: Best): Outcome {
    if b.best.None? || b.best.value.score <= 0.0 then NoMatch
    else if b.second.Some? && b.second.value.score == b.best.value.score then Ambiguous(b.best.value.score)
    else Selected(ElementMatch(role, b.best.value.c, b.best.value.score))
  }

  /** `trySelectBestOrNull` on scored candidates. */
  function Pass(role: IntentRole, xs: seq<Scored>): Outcome {
    Decide(role, Sweep(xs))
  }

  // ---- reference definitions ----

  function MaxScore(xs: seq<Scored>): (m: real)
    requires xs != []
    ensures forall i :: 0 <= i < |xs| ==> xs[i].score <= m
    ensures exists i :: 0 <= i < |xs| && xs[i].score == m
  {
    var n := |xs| - 1;
    if n == 0 then xs[0].score
    else
      var m := MaxScore(xs[..n]);
      assert forall i :: 0 <= i < n ==> xs[..n][i] == xs[i];
      if xs[n].score > m then xs[n].score else m
  }

  /** How many candidates score exactly `v`. */
  function CountScore(xs: seq<Scored>, v: real): nat {
    if xs == [] then 0
    else CountScore(xs[..|xs| - 1], v) + (if xs[|xs| - 1].score == v then 1 else 0)
  }

  lemma {:induction false} CountScorePositive(xs: seq<Scored>, i: int)
    requires 0 <= i < |xs|
    ensures CountScore(xs, xs[i].score) >= 1
  {
    var n := |xs| - 1;
    if i < n {
      assert xs[..n][i] == xs[i];
      CountScorePositive(xs[..n], i);
    }
  }

  /** A score that only one candidate reaches belongs to no other candidate. */
  lemma {:induction false} CountScoreOne(xs: seq<Scored>, i: int, j: int)
    requires 0 <= i < |xs| && 0 <= j < |xs| && i != j
    requires CountScore(xs, xs[i].score) == 1
    ensures xs[j].score != xs[i].score
  {
    var n := |xs| - 1;
    if i == n {
      assert xs[..n][j] == xs[j];
      if xs[j].score == xs[i].score { CountScorePositive(xs[..n], j); }
    } else if j == n {
      assert xs[..n][i] == xs[i];
      CountScorePositive(xs[..n], i);
    } else {
      assert xs[..n][i] == xs[i] && xs[..n][j] == xs[j];
      if xs[n].score == xs[i].score {
        CountScorePositive(xs[..n], i);
      } else {
        CountScoreOne(xs[..n], i, j);
      }
    }
  }

  /** The sweep's loop invariant, stated against the reference definitions. */
  predicate SweepOk(xs: seq<Scored>, b: Best) {
    (xs == [] <==> b.best.None?)
    && (xs != [] ==> b.best.value in xs && b.best.value.score == MaxScore(xs))
    && (b.second.Some? ==> b.best.Some? && b.second.value in xs && b.second.value.score <= b.best.value.score)
    && (xs != [] ==> (CountScore(xs, MaxScore(xs)) >= 2 <==> b.second.Some? && b.second.value.score == MaxScore(xs)))
  }

  /** One step keeps the invariant. */
  lemma StepOk(init: seq<Scored>, b: Best, x: Scored)
    requires init != [] && SweepOk(init, b)
    ensures SweepOk(init + [x], Step(b, x))
  {
    var xs := init + [x];
    assert xs[..|init|] == init;
    var m := MaxScore(init);
    var i :| 0 <= i < |init| && init[i].score == m;
    CountScorePositive(init, i);
    assert forall y :: y in init ==> y in xs;
    if x.score > m {
      assert MaxScore(xs) == x.score;
      assert CountScore(xs, x.score) == CountScore(init, x.score) + 1;
      if CountScore(init, x.score) > 0 {
        CountScoreWitness(init, x.score);
      }
    } else {
      assert MaxScore(xs) == m;
      assert CountScore(xs, m) == CountScore(init, m) + (if x.score == m then 1 else 0);
    }
  }

  lemma {:induction false} CountScoreWitness(xs: seq<Scored>, v: real)
    requires CountScore(xs, v) > 0
    ensures exists i :: 0 <= i < |xs| && xs[i].score == v
  {
    var n := |xs| - 1;
    if xs[n].score != v {
      CountScoreWitness(xs[..n], v);
      var i :| 0 <= i < n && xs[..n][i].score == v;
      assert xs[i] == xs[..n][i];
    }
  }

  lemma {:induction false} SweepInvariant(xs: seq<Scored>)
    ensures SweepOk(xs, Sweep(xs))
  {
    if xs != [] {
      var n := |xs| - 1;
      var init := xs[..n];
      assert xs == init + [xs[n]];
      SweepInvariant(init);
      if init == [] {
        assert xs == [xs[n]];
      } else {
        StepOk(init, Sweep(init), xs[n]);
      }
    }
  }

  /** When every other candidate scores differently, exactly one reaches the score. */
  lemma {:induction false} CountScoreExactlyOne(xs: seq<Scored>, i: int)
    requires 0 <= i < |xs|
    requires forall j :: 0 <= j < |xs| && j != i ==> xs[j].score != xs[i].score
    ensures CountScore(xs, xs[i].score) == 1
  {
    var n := |xs| - 1;
    var v := xs[i].score;
    if i < n {
      assert xs[..n][i] == xs[i];
      forall j | 0 <= j < n && j != i ensures xs[..n][j].score != v { assert xs[..n][j] == xs[j]; }
      CountScoreExactlyOne(xs[..n], i);
    } else {
      assert forall j :: 0 <= j < n ==> xs[..n][j] == xs[j];
      if CountScore(xs[..n], v) > 0 {
        CountScoreWitness(xs[..n], v);
      }
    }
  }

  // ---- the three outcomes, characterised ----

  /** No match exactly when there are no candidates or none scores above zero. */
  lemma NoMatchIff(role: IntentRole, xs: seq<Scored>)
    ensures Pass(role, xs) == NoMatch <==> forall i :: 0 <= i < |xs| ==> xs[i].score <= 0.0
  {
    SweepInvariant(xs);
  }

  /** Ambiguity exactly when the positive top score is reached by two or more candidates. */
  lemma AmbiguousIff(role: IntentRole, xs: seq<Scored>)
    ensures Pass(role, xs).Ambiguous? <==> xs != [] && MaxScore(xs) > 0.0 && CountScore(xs, MaxScore(xs)) >= 2
  {
    SweepInvariant(xs);
  }

  /**
   * A match elects a candidate of the list whose positive score every other candidate falls
   * strictly below.
   */
  lemma SelectedIsUniqueMaximum(role: IntentRole, xs: seq<Scored>)
    requires Pass(role, xs).Selected?
    ensures Pass(role, xs).m.role == role && Pass(role, xs).m.score > 0.0
    ensures exists i :: 0 <= i < |xs| && xs[i].c == Pass(role, xs).m.element && xs[i].score == Pass(role, xs).m.score
                        && forall j :: 0 <= j < |xs| && j != i ==> xs[j].score < xs[i].score
  {
    SweepInvariant(xs);
    var b := Sweep(xs).best.value;
    var i :| 0 <= i < |xs| && xs[i] == b;
    CountScorePositive(xs, i);
    forall j | 0 <= j < |xs| && j != i ensures xs[j].score < xs[i].score {
      CountScoreOne(xs, i, j);
    }
  }

  /** Conversely, a unique positive maximum is always elected. */
  lemma UniqueMaximumSelected(role: IntentRole, xs: seq<Scored>, i: int)
    requires 0 <= i < |xs| && xs[i].score > 0.0
    requires forall j :: 0 <= j < |xs| && j != i ==> xs[j].score < xs[i].score
    ensures Pass(role, xs) == Selected(ElementMatch(role, xs[i].c, xs[i].score))
  {
    SweepInvariant(xs);
    CountScoreExactlyOne(xs, i);
    var b := Sweep(xs).best.value;
    var k :| 0 <= k < |xs| && xs[k] == b;
    assert b.score == MaxScore(xs) == xs[i].score;
    assert k == i;
  }
}
