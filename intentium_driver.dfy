/**
 * The configuration state of `IntentiumWebDriver` and the parts of `resolveIntent` that
 * depend on it: the test-attribute whitelist setter, the effective log detail, which
 * locators a resolution must build, the last-locators cache used by the locator getters,
 * and the parsing of a manual `By` into a locator kind.
 *
 * Page access is an input: the current URL, the number of candidates collected from the
 * page, and the element and stable locators chosen for the phrase arrive as parameters.
 */
module IntentiumDriver {
  import opened Wrappers
  import opened Text
  import DomMapper

  /** `LocatorLogDetail`; `XPathAndCss` is the deprecated synonym of `Both`. */
  datatype LogDetail = LogNone | XPathOnly | CssOnly | Both | XPathAndCss

  /**
   * A `ResolvedElementLogger`, compared by identity through `ref`; `detail` is what its
   * `detail()` answers, `None` when that is `null` or throws.
   */
  datatype Logger = Logger(ref: nat, detail: Option<LogDetail>)

  /** Reference equality of two possibly absent loggers. */
  predicate SameLogger(a: Option<Logger>, b: Option<Logger>) {
    (a.None? && b.None?) || (a.Some? && b.Some? && a.value.ref == b.value.ref)
  }

  /** `ResolvedElement`: the phrase, the chosen element (an opaque handle) and the locators built, `None` when not needed. */
  datatype Resolved = Resolved(phrase: string, element: nat, xPath: Option<string>, css: Option<string>)

  predicate LogsXPath(d: LogDetail) { d == XPathOnly || d == Both }
  predicate LogsCss(d: LogDetail) { d == CssOnly || d == Both }

  // ---------------------------------------------------------------------------------------
  // Test-attribute whitelist normalisation
  // ---------------------------------------------------------------------------------------

  /** The name a raw whitelist entry contributes: trimmed, dropped when `null` or empty after trimming. */
  function Accepted(raw: Option<string>): Option<string> {
    if raw.None? || Trim(raw.value) == "" then None else Some(Trim(raw.value))
  }

  /** The whitelist `withTestAttributeWhitelist` leaves behind after reading `names` in order. */
  function NormalizedWhitelist(names: seq<Option<string>>): seq<string>
    decreases |names|
  {
    if names == [] then []
    else
      var acc := NormalizedWhitelist(names[..|names| - 1]);
      var a := Accepted(names[|names| - 1]);
      if a.None? || a.value in acc then acc else acc + [a.value]
  }

  predicate Distinct(s: seq<string>) { forall i, j :: 0 <= i < j < |s| ==> s[i] != s[j] }

  predicate Offers(names: seq<Option<string>>, x: string) {
    exists k :: 0 <= k < |names| && Accepted(names[k]) == Some(x)
  }

  /** The first position at which `names` offers `x`. */
  function FirstOffer(names: seq<Option<string>>, x: string): (k: nat)
    requires Offers(names, x)
    ensures k < |names| && Accepted(names[k]) == Some(x)
    ensures forall j :: 0 <= j < k ==> Accepted(names[j]) != Some(x)
    decreases |names|
  {
    var prefix := names[..|names| - 1];
    if Offers(prefix, x) then FirstOffer(prefix, x)
    else
      assert forall j :: 0 <= j < |names| - 1 ==> names[j] == prefix[j];
      |names| - 1
  }

  lemma OffersPrefix(names: seq<Option<string>>, x: string)
    requires names != []
    ensures var prefix := names[..|names| - 1];
      Offers(names, x) <==> Offers(prefix, x) || Accepted(names[|names| - 1]) == Some(x)
  {
    var prefix := names[..|names| - 1];
    if Offers(prefix, x) {
      var k :| 0 <= k < |prefix| && Accepted(prefix[k]) == Some(x);
      assert names[k] == prefix[k];
    }
    if k :| 0 <= k < |names| && Accepted(names[k]) == Some(x) {
      if k < |names| - 1 {
        assert prefix[k] == names[k];
      }
    }
  }

  lemma FirstOfferPrefix(names: seq<Option<string>>, x: string)
    requires names != [] && Offers(names[..|names| - 1], x)
    ensures Offers(names, x) && FirstOffer(names, x) == FirstOffer(names[..|names| - 1], x)
  {
    OffersPrefix(names, x);
  }

  /**
   * The whitelist holds exactly the accepted names, each once, trimmed and non-empty, in
   * the order of their first occurrence.
   */
  lemma {:induction false} NormalizedWhitelistMeaning(names: seq<Option<string>>)
    ensures var r := NormalizedWhitelist(names);
      Distinct(r)
      && (forall x :: x in r <==> Offers(names, x))
      && (forall i :: 0 <= i < |r| ==> r[i] != "" && Trim(r[i]) == r[i])
      && (forall i, j :: 0 <= i < j < |r| ==> FirstOffer(names, r[i]) < FirstOffer(names, r[j]))
    decreases |names|
  {
    var r := NormalizedWhitelist(names);
    if names != [] {
      var prefix := names[..|names| - 1];
      var acc := NormalizedWhitelist(prefix);
      NormalizedWhitelistMeaning(prefix);
      var a := Accepted(names[|names| - 1]);
      forall x
        ensures x in r <==> Offers(names, x)
      {
        OffersPrefix(names, x);
      }
      forall x | x in acc
        ensures Offers(names, x) && FirstOffer(names, x) == FirstOffer(prefix, x)
      {
        FirstOfferPrefix(names, x);
      }
      if a.Some? {
        TrimOfTrimmed(a.value);
      }
      if a.Some? && a.value !in acc {
        assert !Offers(prefix, a.value);
        OffersPrefix(names, a.value);
        assert FirstOffer(names, a.value) == |names| - 1;
        forall i, j | 0 <= i < j < |r|
          ensures FirstOffer(names, r[i]) < FirstOffer(names, r[j])
        {
          if j == |r| - 1 {
            assert r[i] == acc[i] && r[i] in acc;
            assert FirstOffer(prefix, r[i]) < |prefix|;
          } else {
            assert r[i] == acc[i] && r[j] == acc[j];
          }
        }
      }
    }
  }

  /** Normalising an already normalised whitelist changes nothing. */
  lemma {:induction false} NormalizedWhitelistIdempotent(w: seq<string>)
    requires Distinct(w)
    requires forall i :: 0 <= i < |w| ==> w[i] != "" && Trim(w[i]) == w[i]
    ensures NormalizedWhitelist(Wrap(w)) == w
    decreases |w|
  {
    if w != [] {
      var prefix := w[..|w| - 1];
      assert Wrap(w)[..|w| - 1] == Wrap(prefix);
      NormalizedWhitelistIdempotent(prefix);
      assert w[|w| - 1] !in prefix;
      assert prefix + [w[|w| - 1]] == w;
    }
  }

  /** The entries as non-null list elements. */
  function Wrap(w: seq<string>): (r: seq<Option<string>>)
    ensures |r| == |w| && forall i :: 0 <= i < |w| ==> r[i] == Some(w[i])
  {
    seq(|w|, i requires 0 <= i < |w| => Some(w[i]))
  }

  /** The default whitelist is already in normal form, so passing it to the setter keeps it as it is. */
  lemma DefaultWhitelistIsNormal()
    ensures NormalizedWhitelist(Wrap(DomMapper.DefaultTestAttributeWhitelist)) == DomMapper.DefaultTestAttributeWhitelist
  {
    var w := DomMapper.DefaultTestAttributeWhitelist;
    DomMapper.DefaultWhitelistWellFormed();
    forall i | 0 <= i < |w|
      ensures w[i] != "" && Trim(w[i]) == w[i]
    {
      assert !IsTrimmable(w[i][0]) && !IsTrimmable(w[i][|w[i]| - 1]);
      TrimOfTrimmed(w[i]);
    }
    NormalizedWhitelistIdempotent(w);
  }

  // ---------------------------------------------------------------------------------------
  // Manual `By` locators
  // ---------------------------------------------------------------------------------------

  const XPathByPrefix: string := "By.xpath: "
  const CssByPrefix: string := "By.cssSelector: "

  datatype ManualByKind = ManualXPath | ManualCss | ManualOther

  datatype ManualBy = ManualBy(kind: ManualByKind, value: string)

  /** `parseManualBy`, reading the `toString()` of a Selenium `By`. */
  function ParseManualBy(s: string): ManualBy {
    if StartsWith(s, XPathByPrefix) then ManualBy(ManualXPath, s[|XPathByPrefix|..])
    else if StartsWith(s, CssByPrefix) then ManualBy(ManualCss, s[|CssByPrefix|..])
    else ManualBy(ManualOther, s)
  }

  /** The `toString()` Selenium gives `By.xpath(v)` and `By.cssSelector(v)`; any other locator prints as `value`. */
  function ByString(m: ManualBy): string {
    match m.kind
    case ManualXPath => XPathByPrefix + m.value
    case ManualCss => CssByPrefix + m.value
    case ManualOther => m.value
  }

  /** A locator's kind and expression are recovered from its printed form. */
  lemma ManualByRoundTrip(m: ManualBy)
    requires m.kind == ManualOther ==> !StartsWith(m.value, XPathByPrefix) && !StartsWith(m.value, CssByPrefix)
    ensures ParseManualBy(ByString(m)) == m
  {
    var s := ByString(m);
    match m.kind
    case ManualXPath =>
      assert s[..|XPathByPrefix|] == XPathByPrefix && s[|XPathByPrefix|..] == m.value;
    case ManualCss =>
      assert s[..|CssByPrefix|] == CssByPrefix && s[|CssByPrefix|..] == m.value;
      assert s[3] == 'c';
    case ManualOther =>
  }

  /**
   * The locators `resolveByInternal` reports: the manual expression for its own kind, the
   * quick derived locator for the other, each only when needed.
   */
  function ManualLocators(m: ManualBy, needXPath: bool, needCss: bool, quickXPath: string, quickCss: string)
    : (r: (Option<string>, Option<string>))
    ensures r.0.Some? <==> needXPath
    ensures r.1.Some? <==> needCss
  {
    (if !needXPath then None else if m.kind == ManualXPath then Some(m.value) else Some(quickXPath),
     if !needCss then None else if m.kind == ManualCss then Some(m.value) else Some(quickCss))
  }

  /** A target given by XPath is reported with its own XPath, by CSS selector with its own selector. */
  lemma ManualExpressionKept(v: string, quickXPath: string, quickCss: string)
    ensures ManualLocators(ParseManualBy(XPathByPrefix + v), true, true, quickXPath, quickCss) == (Some(v), Some(quickCss))
    ensures ManualLocators(ParseManualBy(CssByPrefix + v), true, true, quickXPath, quickCss) == (Some(quickXPath), Some(v))
  {
    ManualByRoundTrip(ManualBy(ManualXPath, v));
    ManualByRoundTrip(ManualBy(ManualCss, v));
  }

  // ---------------------------------------------------------------------------------------
  // The driver's configuration and last-locators cache
  // ---------------------------------------------------------------------------------------

  class Driver {
    /** The whitelist the DOM mapper reads; the mapper holds the same list. */
    var whitelist: seq<string>
    var logger: Option<Logger>
    var consistencyCheckEnabled: bool
    var allowHashedLastResort: bool

    // `LastLocatorsCache`
    var cacheUrl: Option<string>
    var cachePhrase: Option<string>
    var cacheLogger: Option<Logger>
    var cacheConsistency: bool
    var cacheResolved: Option<Resolved>
    var cacheAllowHashed: bool

    constructor(logger: Option<Logger>)
      ensures whitelist == DomMapper.DefaultTestAttributeWhitelist && this.logger == logger
      ensures !consistencyCheckEnabled && !allowHashedLastResort
      ensures cacheUrl.None? && cachePhrase.None? && cacheLogger.None? && !cacheConsistency
      ensures cacheResolved.None? && !cacheAllowHashed
    {
      whitelist := DomMapper.DefaultTestAttributeWhitelist;
      this.logger := logger;
      consistencyCheckEnabled := false;
      allowHashedLastResort := false;
      cacheUrl := None;
      cachePhrase := None;
      cacheLogger := None;
      cacheConsistency := false;
      cacheResolved := None;
      cacheAllowHashed := false;
    }

    /** `withTestAttributeWhitelist`: clears the list, then appends each new trimmed non-empty name. */
    method WithTestAttributeWhitelist(names: seq<Option<string>>)
      modifies this
      ensures whitelist == NormalizedWhitelist(names)
      ensures logger == old(logger) && consistencyCheckEnabled == old(consistencyCheckEnabled)
      ensures allowHashedLastResort == old(allowHashedLastResort)
      ensures cacheUrl == old(cacheUrl) && cachePhrase == old(cachePhrase) && cacheLogger == old(cacheLogger)
      ensures cacheConsistency == old(cacheConsistency) && cacheResolved == old(cacheResolved)
      ensures cacheAllowHashed == old(cacheAllowHashed)
    {
      whitelist := [];
      for i := 0 to |names|
        invariant whitelist == NormalizedWhitelist(names[..i])
        invariant logger == old(logger) && consistencyCheckEnabled == old(consistencyCheckEnabled)
        invariant allowHashedLastResort == old(allowHashedLastResort)
        invariant cacheUrl == old(cacheUrl) && cachePhrase == old(cachePhrase) && cacheLogger == old(cacheLogger)
        invariant cacheConsistency == old(cacheConsistency) && cacheResolved == old(cacheResolved)
        invariant cacheAllowHashed == old(cacheAllowHashed)
      {
        assert names[..i + 1][..i] == names[..i];
        if names[i].None? {
          continue;
        }
        var name := Trim(names[i].value);
        if name == "" {
          continue;
        }
        if name !in whitelist {
          whitelist := whitelist + [name];
        }
      }
      assert names[..|names|] == names;
    }

    /** `currentLogDetail`: no logger logs nothing; an unanswered or deprecated detail means both locators. */
    function CurrentLogDetail(): (d: LogDetail)
      reads this
      ensures d != XPathAndCss
      ensures d == LogNone <==> logger.None? || logger.value.detail == Some(LogNone)
    {
      if logger.None? then LogNone
      else if logger.value.detail.None? || logger.value.detail == Some(XPathAndCss) then Both
      else logger.value.detail.value
    }

    function NeedXPath(forceLocators: bool): bool
      reads this
    {
      forceLocators || consistencyCheckEnabled || (logger.Some? && LogsXPath(CurrentLogDetail()))
    }

    function NeedCss(forceLocators: bool): bool
      reads this
    {
      forceLocators || consistencyCheckEnabled || (logger.Some? && LogsCss(CurrentLogDetail()))
    }

    /**
     * A locator is built when it is forced, when the consistency check needs both, or when
     * the logger asks for it, where a logger that answers `null`, throws or says
     * `XPATH_AND_CSS` asks for both.
     */
    lemma NeedLocatorsMeaning(forceLocators: bool)
      ensures NeedXPath(forceLocators) <==>
        (forceLocators || consistencyCheckEnabled
         || (logger.Some? && logger.value.detail != Some(LogNone) && logger.value.detail != Some(CssOnly)))
      ensures NeedCss(forceLocators) <==>
        (forceLocators || consistencyCheckEnabled
         || (logger.Some? && logger.value.detail != Some(LogNone) && logger.value.detail != Some(XPathOnly)))
    {
    }

    /** `tryGetLastLocators`: the stored resolution, if it was made under the current URL, phrase and settings. */
    function TryGetLastLocators(url: string, phrase: string): (r: Option<Resolved>)
      reads this
      ensures r.Some? ==> r == cacheResolved && r.value.xPath.Some? && r.value.css.Some?
      ensures r.Some? ==> cacheUrl == Some(url) && cachePhrase == Some(phrase) && SameLogger(cacheLogger, logger)
      ensures r.Some? ==> cacheConsistency == consistencyCheckEnabled && cacheAllowHashed == allowHashedLastResort
    {
      if cacheUrl != Some(url) || cachePhrase != Some(phrase) then None
      else if !SameLogger(cacheLogger, logger) || cacheConsistency != consistencyCheckEnabled then None
      else if cacheResolved.None? || cacheResolved.value.xPath.None? || cacheResolved.value.css.None? then None
      else if cacheAllowHashed != allowHashedLastResort then None
      else cacheResolved
    }

    /** `storeLastLocators`: records the resolution with the URL, phrase and settings it was made under. */
    method StoreLastLocators(url: string, phrase: string, resolved: Resolved)
      modifies this
      ensures cacheUrl == Some(url) && cachePhrase == Some(phrase) && cacheLogger == logger
      ensures cacheConsistency == consistencyCheckEnabled && cacheResolved == Some(resolved)
      ensures cacheAllowHashed == allowHashedLastResort
      ensures whitelist == old(whitelist) && logger == old(logger)
      ensures consistencyCheckEnabled == old(consistencyCheckEnabled) && allowHashedLastResort == old(allowHashedLastResort)
    {
      cacheUrl := Some(url);
      cachePhrase := Some(phrase);
      cacheLogger := logger;
      cacheConsistency := consistencyCheckEnabled;
      cacheResolved := Some(resolved);
      cacheAllowHashed := allowHashedLastResort;
    }

    /**
     * `resolveIntent(phrase, forceLocators)`. `url` is the page URL, `candidates` the number
     * of candidates collected, and `element`, `xPath`, `css` the selected element and its
     * stable locators. Only the forced path reads or writes the cache; a forced resolution
     * is served from the cache on the next forced call for the same phrase, URL and settings.
     */
    method ResolveIntent(phrase: string, forceLocators: bool, url: string, candidates: nat,
                         element: nat, xPath: string, css: string) returns (r: Result<Resolved>)
      modifies this
      ensures whitelist == old(whitelist) && logger == old(logger)
      ensures consistencyCheckEnabled == old(consistencyCheckEnabled) && allowHashedLastResort == old(allowHashedLastResort)
      ensures !forceLocators ==>
        (cacheUrl == old(cacheUrl) && cachePhrase == old(cachePhrase)
         && cacheLogger == old(cacheLogger) && cacheConsistency == old(cacheConsistency)
         && cacheResolved == old(cacheResolved) && cacheAllowHashed == old(cacheAllowHashed))
      ensures forceLocators && old(TryGetLastLocators(url, phrase)).Some? ==>
        r == Ok(old(TryGetLastLocators(url, phrase)).value) && cacheResolved == old(cacheResolved)
      ensures r.Err? <==> candidates == 0 && !(forceLocators && old(TryGetLastLocators(url, phrase)).Some?)
      ensures r.Ok? && !(forceLocators && old(TryGetLastLocators(url, phrase)).Some?) ==>
        r.value == Resolved(phrase, element, if NeedXPath(forceLocators) then Some(xPath) else None,
                            if NeedCss(forceLocators) then Some(css) else None)
      ensures r.Ok? && forceLocators ==> TryGetLastLocators(url, phrase) == Some(r.value)
    {
      if forceLocators {
        var cached := TryGetLastLocators(url, phrase);
        if cached.Some? {
          return Ok(cached.value);
        }
      }
      if candidates == 0 {
        return Err("No candidates found on page");
      }
      var resolved := Resolved(phrase, element, if NeedXPath(forceLocators) then Some(xPath) else None,
                               if NeedCss(forceLocators) then Some(css) else None);
      if forceLocators {
        StoreLastLocators(url, phrase, resolved);
      }
      return Ok(resolved);
    }
  }
}
