/**
 * The heuristic capability set: an identifier, an order, the roles it supports, and the three
 * optional stages (restriction, preference, score adjustment), each with a default.
 */
module ElementHeuristic {
  import opened DomElement
  import opened Sequences
  import AC = AttributeContainsHeuristic

  /**
   * A heuristic is either one that keeps every default (its identifier given as a plain value)
   * or the attribute-contains rule with its configuration.
   */
  datatype Heuristic =
    | Plain(plainId: string)
    | AttributeContains(cfg: AC.Config)

  function Id(h: Heuristic): (r: string)
    ensures h.Plain? ==> r == h.plainId
    ensures h.AttributeContains? ==> r == h.cfg.id
  {
    match h
    case Plain(id) => id
    case AttributeContains(cfg) => cfg.id
  }

  /** `order()`: 0 unless the heuristic overrides it. */
  function Order(h: Heuristic): (r: int)
    ensures h.Plain? ==> r == 0
    ensures h.AttributeContains? ==> r == h.cfg.order
  {
    match h
    case Plain(_) => 0
    case AttributeContains(cfg) => cfg.order
  }

  /** `supports(role)`: every role by default; the attribute rule supports only its own role. */
  predicate Supports(h: Heuristic, role: IntentRole)
    ensures h.Plain? ==> Supports(h, role)
    ensures h.AttributeContains? ==> (Supports(h, role) <==> role == h.cfg.role)
  {
    match h
    case Plain(_) => true
    case AttributeContains(cfg) => AC.Supports(cfg, role)
  }

  /** `restrict`: the input unchanged by default. */
  function RestrictSpec(h: Heuristic, role: IntentRole, cs: seq<Candidate>): seq<Candidate> {
    match h
    case Plain(_) => cs
    case AttributeContains(cfg) => AC.RestrictSpec(cfg, cs)
  }

  /** `prefer`: nothing by default. */
  function PreferSpec(h: Heuristic, role: IntentRole, cs: seq<Candidate>): seq<Candidate> {
    match h
    case Plain(_) => []
    case AttributeContains(cfg) => AC.PreferSpec(cfg, cs)
  }

  /** `scoreAdjustment`: 0 by default. */
  function ScoreAdjustmentSpec(h: Heuristic, role: IntentRole, c: DomElementInfo): real {
    match h
    case Plain(_) => 0.0
    case AttributeContains(cfg) => AC.ScoreAdjustmentSpec(cfg, c)
  }

  /**
   * The interface contract: restriction and preference never return a candidate that is not in
   * the list they were given, and they keep its order.
   */
  lemma NeverInventsCandidates(h: Heuristic, role: IntentRole, cs: seq<Candidate>)
    ensures IsSubsequence(RestrictSpec(h, role, cs), cs)
    ensures IsSubsequence(PreferSpec(h, role, cs), cs)
    ensures forall x :: x in RestrictSpec(h, role, cs) ==> x in cs
    ensures forall x :: x in PreferSpec(h, role, cs) ==> x in cs
  {
    match h
    case Plain(_) =>
      SubsequenceReflexive(cs);
      SubsequenceMembers(cs, cs);
    case AttributeContains(cfg) =>
      AC.RestrictAndPreferShape(cfg, cs);
      SubsequenceMembers(AC.RestrictSpec(cfg, cs), cs);
      SubsequenceMembers(AC.PreferSpec(cfg, cs), cs);
  }

  method Restrict(h: Heuristic, role: IntentRole, cs: seq<Candidate>) returns (r: seq<Candidate>)
    ensures r == RestrictSpec(h, role, cs)
  {
    match h
    case Plain(_) => r := cs;
    case AttributeContains(cfg) => r := AC.Restrict(cfg, cs);
  }

  method Prefer(h: Heuristic, role: IntentRole, cs: seq<Candidate>) returns (r: seq<Candidate>)
    ensures r == PreferSpec(h, role, cs)
  {
    match h
    case Plain(_) => r := [];
    case AttributeContains(cfg) => r := AC.Prefer(cfg, cs);
  }

  method ScoreAdjustment(h: Heuristic, role: IntentRole, c: DomElementInfo) returns (r: real)
    ensures r == ScoreAdjustmentSpec(h, role, c)
  {
    match h
    case Plain(_) => r := 0.0;
    case AttributeContains(cfg) => r := AC.ScoreAdjustment(cfg, c);
  }
}
