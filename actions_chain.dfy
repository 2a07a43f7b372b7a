/**
 * `ActionsChain`: steps accumulated against the current intent, then performed together
 * against one `ExecutionContext` that holds a candidates snapshot for the current URL and
 * memoises resolutions per (phrase, forceLocators) key.
 *
 * The page is an input: `urlAt(k)` is the URL the driver reports at the k-th resolution
 * (0 is the creation of the context), `collect(url)` the candidates collected on that page,
 * and `resolver` the driver's `resolveIntent(phrase, snapshot, forceLocators)` under the
 * settings in force.
 */
module Chains {
  import opened Wrappers
  import opened Text
  import IntentiumDriver

  type Resolved = IntentiumDriver.Resolved
  type Logger = IntentiumDriver.Logger

  /** The candidates collected from a page, as opaque element handles. */
  type Snapshot = seq<nat>

  /** The driver settings `resolveIntent` reads. */
  datatype Settings = Settings(logger: Option<Logger>, consistency: bool, allowHashed: bool)

  type Resolver = (Settings, Snapshot, string, bool) -> Result<Resolved>

  const NoCandidates: string := "No DOM candidates found \U{2013} cannot execute chain."

  // ---------------------------------------------------------------------------------------
  // The per-perform execution context
  // ---------------------------------------------------------------------------------------

  /** The memo key `intentPhrase + "|forceLocators=" + forceLocators`. */
  function CacheKey(phrase: string, forceLocators: bool): string {
    phrase + "|forceLocators=" + (if forceLocators then "true" else "false")
  }

  /** The key keeps phrases and the force flag apart: equal keys come from equal requests. */
  lemma CacheKeyInjective(p1: string, f1: bool, p2: string, f2: bool)
    ensures CacheKey(p1, f1) == CacheKey(p2, f2) <==> p1 == p2 && f1 == f2
  {
    var k1 := CacheKey(p1, f1);
    var k2 := CacheKey(p2, f2);
    if k1 == k2 {
      assert k1[|k1| - 2] == (if f1 then 'u' else 's');
      assert k2[|k2| - 2] == (if f2 then 'u' else 's');
      assert f1 == f2;
      assert |p1| == |p2|;
      assert p1 == k1[..|p1|] && p2 == k2[..|p2|];
    }
  }

  datatype ContextState = ContextState(url: string, snapshot: Snapshot, cache: map<string, Resolved>)

  /**
   * `ExecutionContext.resolve`: a URL that differs from the snapshot's refreshes the snapshot
   * (failing when the page has no candidates) and empties the memo; then the memo answers,
   * or the resolver does and its answer is memoised.
   */
  function ContextResolve(st: ContextState, url: string, phrase: string, forceLocators: bool,
                          collect: string -> Snapshot, resolver: Resolver, settings: Settings)
    : (ContextState, Result<Resolved>)
  {
    if url != st.url && collect(url) == [] then
      (ContextState(url, collect(url), st.cache), Err(NoCandidates))
    else
      var valid := if url != st.url then ContextState(url, collect(url), map[]) else st;
      var key := CacheKey(phrase, forceLocators);
      if key in valid.cache then (valid, Ok(valid.cache[key]))
      else
        var r := resolver(settings, valid.snapshot, phrase, forceLocators);
        if r.Err? then (valid, r) else (valid.(cache := valid.cache[key := r.value]), r)
  }

  class ExecutionContext {
    var urlSnapshot: string
    var snapshot: Snapshot
    var resolvedCache: map<string, Resolved>

    function State(): ContextState
      reads this
    {
      ContextState(urlSnapshot, snapshot, resolvedCache)
    }

    /** The context after its first, successful `refreshSnapshot`: the page had candidates. */
    constructor(url: string, snapshot: Snapshot)
      requires snapshot != []
      ensures State() == ContextState(url, snapshot, map[])
    {
      urlSnapshot := url;
      this.snapshot := snapshot;
      resolvedCache := map[];
    }

    /** `refreshSnapshot`: records the URL and the new candidates, and fails before clearing the memo when there are none. */
    method RefreshSnapshot(url: string, collect: string -> Snapshot) returns (ok: bool)
      modifies this
      ensures urlSnapshot == url && snapshot == collect(url)
      ensures ok <==> collect(url) != []
      ensures resolvedCache == if ok then map[] else old(resolvedCache)
    {
      urlSnapshot := url;
      snapshot := collect(url);
      if snapshot == [] {
        return false;
      }
      resolvedCache := map[];
      return true;
    }

    method Resolve(url: string, phrase: string, forceLocators: bool,
                   collect: string -> Snapshot, resolver: Resolver, settings: Settings) returns (r: Result<Resolved>)
      modifies this
      ensures (State(), r) == ContextResolve(old(State()), url, phrase, forceLocators, collect, resolver, settings)
    {
      if url != urlSnapshot {
        var ok := RefreshSnapshot(url, collect);
        if !ok {
          return Err(NoCandidates);
        }
      }
      var key := CacheKey(phrase, forceLocators);
      if key in resolvedCache {
        return Ok(resolvedCache[key]);
      }
      r := resolver(settings, snapshot, phrase, forceLocators);
      if r.Ok? {
        resolvedCache := resolvedCache[key := r.value];
      }
    }

    /** The loop of `perform`: each step resolves its intent in this context, in order; a failure ends the run. */
    method RunAll(steps: seq<Step>, urlAt: nat -> string, collect: string -> Snapshot,
                    resolver: Resolver, settings: Settings) returns (r: Result<seq<Resolved>>)
      modifies this
      ensures r == RunSteps(old(State()), steps, 0, urlAt, collect, resolver, settings)
    {
      var done: seq<Resolved> := [];
      PrependNothing(RunSteps(State(), steps, 0, urlAt, collect, resolver, settings));
      for i := 0 to |steps|
        invariant RunSteps(old(State()), steps, 0, urlAt, collect, resolver, settings)
          == PrependAll(done, RunSteps(State(), steps, i, urlAt, collect, resolver, settings))
      {
        var res := Resolve(urlAt(i + 1), steps[i].intent, false, collect, resolver, settings);
        if res.Err? {
          return Err(res.error);
        }
        PrependAllStep(done, res.value, RunSteps(State(), steps, i + 1, urlAt, collect, resolver, settings));
        done := done + [res.value];
      }
      assert done + [] == done;
      return Ok(done);
    }
  }

  /** Within one page, asking twice for the same key answers with the same object and changes nothing. */
  lemma ResolveTwiceSameAnswer(st: ContextState, url: string, phrase: string, forceLocators: bool,
                               collect: string -> Snapshot, resolver: Resolver, settings: Settings)
    ensures var (st1, r1) := ContextResolve(st, url, phrase, forceLocators, collect, resolver, settings);
      r1.Ok? ==> ContextResolve(st1, url, phrase, forceLocators, collect, resolver, settings) == (st1, r1)
  {
  }

  /** Every memo entry is what the resolver gives for its key on the current snapshot. */
  ghost predicate MemoFaithful(st: ContextState, resolver: Resolver, settings: Settings) {
    forall p: string, f: bool {:trigger CacheKey(p, f)} :: CacheKey(p, f) in st.cache ==>
      resolver(settings, st.snapshot, p, f) == Ok(st.cache[CacheKey(p, f)])
  }

  /**
   * Memoisation is invisible: a success keeps the memo faithful and is exactly what the
   * resolver gives on the snapshot now in force, and a changed URL is served from the new
   * page's snapshot rather than from any earlier entry.
   */
  lemma ContextResolveFaithful(st: ContextState, url: string, phrase: string, forceLocators: bool,
                               collect: string -> Snapshot, resolver: Resolver, settings: Settings)
    requires MemoFaithful(st, resolver, settings)
    ensures var (st1, r) := ContextResolve(st, url, phrase, forceLocators, collect, resolver, settings);
      (r.Ok? ==> MemoFaithful(st1, resolver, settings))
      && st1.url == url
      && (url != st.url ==> st1.snapshot == collect(url))
      && (url == st.url ==> st1.snapshot == st.snapshot)
      && (r.Ok? ==> r == resolver(settings, st1.snapshot, phrase, forceLocators))
      && (r.Err? && url != st.url ==> collect(url) == [] || r == resolver(settings, collect(url), phrase, forceLocators))
  {
    var (st1, r) := ContextResolve(st, url, phrase, forceLocators, collect, resolver, settings);
    if !(url != st.url && collect(url) == []) {
      var valid := if url != st.url then ContextState(url, collect(url), map[]) else st;
      var key := CacheKey(phrase, forceLocators);
      if key !in valid.cache {
        var res := resolver(settings, valid.snapshot, phrase, forceLocators);
        if res.Ok? {
          forall p: string, f: bool | CacheKey(p, f) in st1.cache
            ensures resolver(settings, st1.snapshot, p, f) == Ok(st1.cache[CacheKey(p, f)])
          {
            CacheKeyInjective(p, f, phrase, forceLocators);
          }
        }
      } else {
        assert CacheKey(phrase, forceLocators) in valid.cache;
      }
    }
  }

  // ---------------------------------------------------------------------------------------
  // The chain
  // ---------------------------------------------------------------------------------------

  /** A step's effect on the element it resolves (typing keys or clicking) is not modelled. */
  datatype StepAction = SendKeys(keys: seq<string>) | Click

  /** A step resolves the intent that was current when it was added, without forcing locators. */
  datatype Step = Step(intent: string, action: StepAction)

  /** The settings in force during `perform`: each override replaces the driver's own value. */
  function EffectiveSettings(original: Settings, loggerOverrideSpecified: bool, loggerOverrideValue: Option<Logger>,
                             consistencyOverride: Option<bool>): Settings {
    Settings(if loggerOverrideSpecified then loggerOverrideValue else original.logger,
             if consistencyOverride.Some? then consistencyOverride.value else original.consistency,
             original.allowHashed)
  }

  function Prepend(r: Resolved, rest: Result<seq<Resolved>>): Result<seq<Resolved>> {
    if rest.Err? then rest else Ok([r] + rest.value)
  }

  function PrependAll(done: seq<Resolved>, rest: Result<seq<Resolved>>): Result<seq<Resolved>> {
    if rest.Err? then rest else Ok(done + rest.value)
  }

  lemma PrependNothing(rest: Result<seq<Resolved>>)
    ensures PrependAll([], rest) == rest
  {
    if rest.Ok? {
      assert [] + rest.value == rest.value;
    }
  }

  lemma PrependAllStep(done: seq<Resolved>, r: Resolved, rest: Result<seq<Resolved>>)
    ensures PrependAll(done, Prepend(r, rest)) == PrependAll(done + [r], rest)
  {
    if rest.Ok? {
      assert done + ([r] + rest.value) == (done + [r]) + rest.value;
    }
  }

  /** The steps from `i` on, each resolving at its own URL; the first failure ends the run. */
  function RunSteps(st: ContextState, steps: seq<Step>, i: nat, urlAt: nat -> string,
                    collect: string -> Snapshot, resolver: Resolver, settings: Settings): Result<seq<Resolved>>
    requires i <= |steps|
    decreases |steps| - i
  {
    if i == |steps| then Ok([])
    else
      var (st1, r) := ContextResolve(st, urlAt(i + 1), steps[i].intent, false, collect, resolver, settings);
      if r.Err? then Err(r.error) else Prepend(r.value, RunSteps(st1, steps, i + 1, urlAt, collect, resolver, settings))
  }

  /** What `perform` resolves: a fresh context on the page at `urlAt(0)`, then every step in order. */
  function RunChain(steps: seq<Step>, urlAt: nat -> string, collect: string -> Snapshot,
                    resolver: Resolver, settings: Settings): Result<seq<Resolved>> {
    if collect(urlAt(0)) == [] then Err(NoCandidates)
    else RunSteps(ContextState(urlAt(0), collect(urlAt(0)), map[]), steps, 0, urlAt, collect, resolver, settings)
  }

  /** A resolver that reports the phrase it was asked for, as `resolveIntent` does. */
  ghost predicate KeepsPhrase(resolver: Resolver) {
    forall settings, s, p, f :: resolver(settings, s, p, f).Ok? ==> resolver(settings, s, p, f).value.phrase == p
  }

  /** A successful resolution reports the requested phrase and leaves the memo faithful. */
  lemma ResolvedPhrase(st: ContextState, url: string, phrase: string, forceLocators: bool,
                       collect: string -> Snapshot, resolver: Resolver, settings: Settings)
    requires MemoFaithful(st, resolver, settings) && KeepsPhrase(resolver)
    ensures var (st1, r) := ContextResolve(st, url, phrase, forceLocators, collect, resolver, settings);
      r.Ok? ==> r.value.phrase == phrase && MemoFaithful(st1, resolver, settings)
  {
    ContextResolveFaithful(st, url, phrase, forceLocators, collect, resolver, settings);
  }

  /** The resolutions from step `i` on carry the intents of those steps. */
  predicate PhrasesFrom(r: Result<seq<Resolved>>, steps: seq<Step>, i: nat)
    requires i <= |steps|
  {
    r.Ok? ==> |r.value| == |steps| - i && forall k :: 0 <= k < |r.value| ==> r.value[k].phrase == steps[i + k].intent
  }

  lemma PrependPhrases(x: Resolved, rest: Result<seq<Resolved>>, steps: seq<Step>, i: nat)
    requires i < |steps| && x.phrase == steps[i].intent && PhrasesFrom(rest, steps, i + 1)
    ensures PhrasesFrom(Prepend(x, rest), steps, i)
  {
    if rest.Ok? {
      var all := [x] + rest.value;
      forall k | 0 <= k < |all|
        ensures all[k].phrase == steps[i + k].intent
      {
        if k > 0 { assert all[k] == rest.value[k - 1]; }
      }
    }
  }

  /**
   * A successful run yields one resolution per remaining step, in order, each for the intent
   * its step captured.
   */
  lemma {:induction false} RunStepsMeaning(st: ContextState, steps: seq<Step>, i: nat, urlAt: nat -> string,
                                           collect: string -> Snapshot, resolver: Resolver, settings: Settings)
    requires i <= |steps| && MemoFaithful(st, resolver, settings) && KeepsPhrase(resolver)
    ensures PhrasesFrom(RunSteps(st, steps, i, urlAt, collect, resolver, settings), steps, i)
    decreases |steps| - i
  {
    if i < |steps| {
      var step := ContextResolve(st, urlAt(i + 1), steps[i].intent, false, collect, resolver, settings);
      ResolvedPhrase(st, urlAt(i + 1), steps[i].intent, false, collect, resolver, settings);
      if step.1.Ok? {
        RunStepsMeaning(step.0, steps, i + 1, urlAt, collect, resolver, settings);
        PrependPhrases(step.1.value, RunSteps(step.0, steps, i + 1, urlAt, collect, resolver, settings), steps, i);
      }
    }
  }

  /**
   * `perform` fails when the first page has no candidates; a successful run resolves every
   * step, in insertion order, for the intent the step captured when it was added.
   */
  lemma ChainMeaning(steps: seq<Step>, urlAt: nat -> string, collect: string -> Snapshot,
                     resolver: Resolver, settings: Settings)
    requires KeepsPhrase(resolver)
    ensures var r := RunChain(steps, urlAt, collect, resolver, settings);
      (collect(urlAt(0)) == [] ==> r == Err(NoCandidates))
      && (r.Ok? ==> |r.value| == |steps| && forall k :: 0 <= k < |steps| ==> r.value[k].phrase == steps[k].intent)
  {
    if collect(urlAt(0)) != [] {
      RunStepsMeaning(ContextState(urlAt(0), collect(urlAt(0)), map[]), steps, 0, urlAt, collect, resolver, settings);
    }
  }

  class ActionsChain {
    const driver: IntentiumDriver.Driver
    var currentIntent: Option<string>
    var steps: seq<Step>
    var loggerOverrideSpecified: bool
    var loggerOverrideValue: Option<Logger>
    var consistencyOverride: Option<bool>

    constructor(driver: IntentiumDriver.Driver)
      ensures this.driver == driver && currentIntent.None? && steps == []
      ensures !loggerOverrideSpecified && loggerOverrideValue.None? && consistencyOverride.None?
    {
      this.driver := driver;
      currentIntent := None;
      steps := [];
      loggerOverrideSpecified := false;
      loggerOverrideValue := None;
      consistencyOverride := None;
    }

    /** `withLogger` (also `disableLocatorLogging` with `None`): a logger for this chain's runs only. */
    method WithLogger(logger: Option<Logger>)
      modifies this
      ensures loggerOverrideSpecified && loggerOverrideValue == logger
      ensures currentIntent == old(currentIntent) && steps == old(steps) && consistencyOverride == old(consistencyOverride)
    {
      loggerOverrideSpecified := true;
      loggerOverrideValue := logger;
    }

    /** `withConsistencyCheck` (also `checkLocators` and `disableLocatorChecks`). */
    method WithConsistencyCheck(enabled: bool)
      modifies this
      ensures consistencyOverride == Some(enabled)
      ensures currentIntent == old(currentIntent) && steps == old(steps)
      ensures loggerOverrideSpecified == old(loggerOverrideSpecified) && loggerOverrideValue == old(loggerOverrideValue)
    {
      consistencyOverride := Some(enabled);
    }

    /** `into`/`at`: selects the intent later steps act on; steps already added keep theirs. */
    method Into(phrase: Option<string>)
      modifies this
      ensures currentIntent == phrase && steps == old(steps)
      ensures loggerOverrideSpecified == old(loggerOverrideSpecified) && loggerOverrideValue == old(loggerOverrideValue)
      ensures consistencyOverride == old(consistencyOverride)
    {
      currentIntent := phrase;
    }

    /** `requireCurrentIntent`: fails when no intent is selected or it is blank. */
    function RequireCurrentIntent(): (r: Result<string>)
      reads this
      ensures r.Ok? <==> currentIntent.Some? && !IsBlank(currentIntent.value)
      ensures r.Ok? ==> r.value == currentIntent.value
    {
      if currentIntent.None? || IsBlank(currentIntent.value) then
        Err("No current intent selected. Call into(...) or at(...) first.")
      else Ok(currentIntent.value)
    }

    /** `send`/`click`: appends a step for the current intent, or fails and adds nothing. */
    method AddStep(action: StepAction) returns (r: Result<()>)
      modifies this
      ensures r.Ok? <==> old(RequireCurrentIntent()).Ok?
      ensures steps == if r.Ok? then old(steps) + [Step(old(currentIntent).value, action)] else old(steps)
      ensures currentIntent == old(currentIntent)
      ensures loggerOverrideSpecified == old(loggerOverrideSpecified) && loggerOverrideValue == old(loggerOverrideValue)
      ensures consistencyOverride == old(consistencyOverride)
    {
      var intent := RequireCurrentIntent();
      if intent.Err? {
        return Err(intent.error);
      }
      steps := steps + [Step(intent.value, action)];
      return Ok(());
    }

    function DriverSettings(): Settings
      reads this, driver
    {
      Settings(driver.logger, driver.consistencyCheckEnabled, driver.allowHashedLastResort)
    }

    /**
     * `perform`: applies the overrides to the driver, runs every step (they are kept, so a
     * second `perform` runs them all again) and puts the driver's logger and consistency
     * flag back as they were, whether the run succeeds or fails.
     */
    method Perform(urlAt: nat -> string, collect: string -> Snapshot, resolver: Resolver)
      returns (r: Result<seq<Resolved>>)
      modifies driver
      ensures r == RunChain(old(steps), urlAt, collect, resolver,
                            EffectiveSettings(old(DriverSettings()), loggerOverrideSpecified, loggerOverrideValue,
                                              consistencyOverride))
      ensures driver.logger == old(driver.logger) && driver.consistencyCheckEnabled == old(driver.consistencyCheckEnabled)
      ensures driver.allowHashedLastResort == old(driver.allowHashedLastResort) && driver.whitelist == old(driver.whitelist)
      ensures driver.cacheUrl == old(driver.cacheUrl) && driver.cachePhrase == old(driver.cachePhrase)
      ensures driver.cacheLogger == old(driver.cacheLogger) && driver.cacheConsistency == old(driver.cacheConsistency)
      ensures driver.cacheResolved == old(driver.cacheResolved) && driver.cacheAllowHashed == old(driver.cacheAllowHashed)
    {
      var originalLogger := driver.logger;
      var originalConsistency := driver.consistencyCheckEnabled;
      if loggerOverrideSpecified {
        driver.logger := loggerOverrideValue;
      }
      if consistencyOverride.Some? {
        driver.consistencyCheckEnabled := consistencyOverride.value;
      }
      var settings := DriverSettings();
      var url0 := urlAt(0);
      if collect(url0) == [] {
        r := Err(NoCandidates);
      } else {
        var ctx := new ExecutionContext(url0, collect(url0));
        r := ctx.RunAll(steps, urlAt, collect, resolver, settings);
      }
      if loggerOverrideSpecified {
        driver.logger := originalLogger;
      }
      if consistencyOverride.Some? {
        driver.consistencyCheckEnabled := originalConsistency;
      }
    }
  }
}
