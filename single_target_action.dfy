/**
 * `SingleTargetAction`: one known target, given either as a Selenium `By` or as an element,
 * resolved at most once and cached; a request for locators re-resolves only when the cached
 * resolution lacks one of them.
 */
module SingleTarget {
  import opened Wrappers
  import IntentiumDriver

  type Resolved = IntentiumDriver.Resolved

  /**
   * The target. The two constructors of the class take exactly one of a `By` (by its printed
   * form) and an element (an opaque handle), so exactly one is present.
   */
  datatype Target = ByLocator(locator: string) | ByElement(element: nat)

  /** The driver's `resolveBy` and `resolveWebElement`, either of which may fail. */
  type ByResolver = (string, bool) -> Result<Resolved>
  type ElementResolver = (nat, bool) -> Result<Resolved>

  /** `doResolve`: a `By` target goes to `resolveBy`, an element target to `resolveWebElement`. */
  function DoResolve(t: Target, forceLocators: bool, resolveBy: ByResolver, resolveElement: ElementResolver)
    : Result<Resolved>
  {
    match t
    case ByLocator(b) => resolveBy(b, forceLocators)
    case ByElement(e) => resolveElement(e, forceLocators)
  }

  predicate HasBothLocators(r: Resolved) { r.xPath.Some? && r.css.Some? }

  /**
   * `resolve(forceLocators)`: the cache after the call and the answer. The first call
   * resolves with the requested flag; later calls answer from the cache, except that a
   * forced call re-resolves (forced) when a locator is missing. A failed resolution leaves
   * the cache as it was.
   */
  function ResolveStep(cached: Option<Resolved>, t: Target, forceLocators: bool,
                       resolveBy: ByResolver, resolveElement: ElementResolver): (Option<Resolved>, Result<Resolved>)
  {
    if cached.None? then
      var r := DoResolve(t, forceLocators, resolveBy, resolveElement);
      (if r.Ok? then Some(r.value) else cached, r)
    else if forceLocators && !HasBothLocators(cached.value) then
      var r := DoResolve(t, true, resolveBy, resolveElement);
      (if r.Ok? then Some(r.value) else cached, r)
    else (cached, Ok(cached.value))
  }

  /** Whether a call goes to the driver. */
  predicate Resolves(cached: Option<Resolved>, forceLocators: bool) {
    cached.None? || (forceLocators && !HasBothLocators(cached.value))
  }

  /** The number of successful driver resolutions made by the calls `calls` (each a forceLocators flag), in order. */
  function SuccessfulResolutions(cached: Option<Resolved>, t: Target, calls: seq<bool>,
                                 resolveBy: ByResolver, resolveElement: ElementResolver): nat
    decreases |calls|
  {
    if calls == [] then 0
    else
      var (next, r) := ResolveStep(cached, t, calls[0], resolveBy, resolveElement);
      (if Resolves(cached, calls[0]) && r.Ok? then 1 else 0)
      + SuccessfulResolutions(next, t, calls[1..], resolveBy, resolveElement)
  }

  /** A forced resolution yields both locators, as the driver's `resolveBy`/`resolveWebElement` do. */
  ghost predicate ForcedGivesBoth(resolveBy: ByResolver, resolveElement: ElementResolver) {
    (forall b :: resolveBy(b, true).Ok? ==> HasBothLocators(resolveBy(b, true).value))
    && (forall e :: resolveElement(e, true).Ok? ==> HasBothLocators(resolveElement(e, true).value))
  }

  /** How many more successful resolutions a cache state allows. */
  function Budget(cached: Option<Resolved>, anyForced: bool): nat {
    if cached.None? then (if anyForced then 2 else 1)
    else if anyForced && !HasBothLocators(cached.value) then 1
    else 0
  }

  /**
   * Whatever the calls, the target is resolved successfully at most twice (a plain
   * resolution, then one forced to obtain the locators), and at most once when no call
   * forces locators.
   */
  lemma {:induction false} ResolutionsBounded(cached: Option<Resolved>, t: Target, calls: seq<bool>,
                                              resolveBy: ByResolver, resolveElement: ElementResolver)
    requires ForcedGivesBoth(resolveBy, resolveElement)
    ensures SuccessfulResolutions(cached, t, calls, resolveBy, resolveElement)
      <= Budget(cached, exists i :: 0 <= i < |calls| && calls[i])
    decreases |calls|
  {
    if calls != [] {
      var (next, r) := ResolveStep(cached, t, calls[0], resolveBy, resolveElement);
      var rest := calls[1..];
      ResolutionsBounded(next, t, rest, resolveBy, resolveElement);
      var anyForced := exists i :: 0 <= i < |calls| && calls[i];
      var restForced := exists i :: 0 <= i < |rest| && rest[i];
      if restForced {
        var i :| 0 <= i < |rest| && rest[i];
        assert calls[i + 1];
      }
      if calls[0] {
        assert anyForced;
      }
    }
  }

  /**
   * The bound needs forced resolutions to carry both locators: a target whose forced
   * resolution keeps lacking one is resolved again by every forced call.
   */
  lemma {:induction false} RepeatsWhileLocatorMissing(cached: Option<Resolved>, t: Target, calls: seq<bool>,
                                                      resolveBy: ByResolver, resolveElement: ElementResolver)
    requires forall i :: 0 <= i < |calls| ==> calls[i]
    requires cached.None? || !HasBothLocators(cached.value)
    requires DoResolve(t, true, resolveBy, resolveElement).Ok?
    requires !HasBothLocators(DoResolve(t, true, resolveBy, resolveElement).value)
    ensures SuccessfulResolutions(cached, t, calls, resolveBy, resolveElement) == |calls|
    decreases |calls|
  {
    if calls != [] {
      var (next, r) := ResolveStep(cached, t, calls[0], resolveBy, resolveElement);
      RepeatsWhileLocatorMissing(next, t, calls[1..], resolveBy, resolveElement);
    }
  }

  /** Every successful forced call leaves both locators cached, so later calls never resolve again. */
  lemma ForcedCallSettles(cached: Option<Resolved>, t: Target, resolveBy: ByResolver, resolveElement: ElementResolver)
    requires ForcedGivesBoth(resolveBy, resolveElement)
    ensures var (next, r) := ResolveStep(cached, t, true, resolveBy, resolveElement);
      r.Ok? ==> (next == Some(r.value) && HasBothLocators(r.value)
                 && forall f :: !Resolves(next, f))
  {
    var (next, r) := ResolveStep(cached, t, true, resolveBy, resolveElement);
    if r.Ok? && cached.None? {
      match t
      case ByLocator(b) =>
      case ByElement(e) =>
    }
  }

  class SingleTargetAction {
    const target: Target
    var cached: Option<Resolved>

    /** The `By` constructor. */
    constructor ForBy(locator: string)
      ensures target == ByLocator(locator) && cached.None?
    {
      target := ByLocator(locator);
      cached := None;
    }

    /** The `WebElement` constructor. */
    constructor ForElement(element: nat)
      ensures target == ByElement(element) && cached.None?
    {
      target := ByElement(element);
      cached := None;
    }

    method Resolve(forceLocators: bool, resolveBy: ByResolver, resolveElement: ElementResolver)
      returns (r: Result<Resolved>)
      modifies this
      ensures (cached, r) == ResolveStep(old(cached), target, forceLocators, resolveBy, resolveElement)
    {
      if cached.None? {
        r := DoResolve(target, forceLocators, resolveBy, resolveElement);
        if r.Ok? {
          cached := Some(r.value);
        }
        return;
      }
      if forceLocators && (cached.value.xPath.None? || cached.value.css.None?) {
        r := DoResolve(target, true, resolveBy, resolveElement);
        if r.Ok? {
          cached := Some(r.value);
        }
        if r.Err? {
          return;
        }
      }
      return Ok(cached.value);
    }

    /** `element()` (and the element `click()`/`send()` act on): the cached element, resolving without locators if needed. */
    method Element(resolveBy: ByResolver, resolveElement: ElementResolver) returns (r: Result<nat>)
      modifies this
      ensures var (next, res) := ResolveStep(old(cached), target, false, resolveBy, resolveElement);
        cached == next && r == (if res.Ok? then Ok(res.value.element) else Err(res.error))
      ensures old(cached).Some? ==> cached == old(cached) && r == Ok(old(cached).value.element)
    {
      var res := Resolve(false, resolveBy, resolveElement);
      r := if res.Ok? then Ok(res.value.element) else Err(res.error);
    }

    /** `xPath()`: the locator of a resolution forced to carry locators. */
    method XPath(resolveBy: ByResolver, resolveElement: ElementResolver) returns (r: Result<Option<string>>)
      modifies this
      ensures var (next, res) := ResolveStep(old(cached), target, true, resolveBy, resolveElement);
        cached == next && r == (if res.Ok? then Ok(res.value.xPath) else Err(res.error))
    {
      var res := Resolve(true, resolveBy, resolveElement);
      r := if res.Ok? then Ok(res.value.xPath) else Err(res.error);
    }

    /** `cssSelector()`. */
    method CssSelector(resolveBy: ByResolver, resolveElement: ElementResolver) returns (r: Result<Option<string>>)
      modifies this
      ensures var (next, res) := ResolveStep(old(cached), target, true, resolveBy, resolveElement);
        cached == next && r == (if res.Ok? then Ok(res.value.css) else Err(res.error))
    {
      var res := Resolve(true, resolveBy, resolveElement);
      r := if res.Ok? then Ok(res.value.css) else Err(res.error);
    }
  }
}
