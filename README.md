# Intentium core, modelled in Dafny

Intentium lets a UI test name an element by intent ("login field", "пароль", "sign in") instead of a
locator. A phrase is resolved to an intent role through a per-language dictionary. Every candidate
element of the page is then scored for that role, and the best one is elected. Finally, stable XPath
and CSS locators are synthesised for the chosen element. This project models that engine and
proves what it promises.

The model covers:

- **Element descriptors and scoring** (`DomElement`, `DefaultElementScorer`). The 13-field descriptor
  has value equality and a matching hash. The three role scorers are sums of guarded constants;
  their ranges, the hidden-input rule and case and padding insensitivity are proved.
- **Heuristics** (`ElementHeuristic`, `AttributeContainsHeuristic`, `ElementHeuristics`,
  `HeuristicElementScorer`). The capability defaults, the one concrete attribute-contains rule, and
  list normalisation (drop nulls, stable sort by (order, id), first of each id) are modelled. The
  composite scorer keeps duplicate heuristics.
- **Selectors** (`Selection`, `DefaultElementSelector`, `ExtensibleElementSelector`). Both selectors
  share the best/second-best pass: no match when the best score is not positive, a hard failure on a
  tie at the top, otherwise the unique best. On top of it sit the two tiers of the default selector
  and the four tiers (each with three test-attribute sub-tiers) of the extensible one.
- **Intent dictionary** (`DefaultIntentResolver`): its ordered error checks and its exact-match
  lookup on the trimmed, lower-cased phrase.
- **Locator synthesis** (`Literals`, `HashedTokens`, `StableLocators`):
  - the XPath 1.0 and CSS literal encoders, each proved to round-trip;
  - the detector of machine-generated class tokens;
  - uniqueness counting within (tag, form key);
  - the ordinal position of the target;
  - class-token picking, form scoping;
  - the fixed preference order of `buildStableXPath` and `buildStableCssSelector`.
- **Mapper helpers** (`DomMapper`): the test-attribute pick, the `[hint:…]` tokens (proved to read
  back), the form identifier, text normalisation and CSS escaping.
- **State** (`IntentiumDriver`, `Chains`, `SingleTarget`):
  - the driver's whitelist setter, log detail, locator-need flags and last-locators cache;
  - the actions chain, with its per-perform context (a URL-keyed snapshot and a per-key memo) and
    the save/override/restore of the driver's settings;
  - the resolve-at-most-once cache of a single-target action.

The browser is replaced by inputs:
- a page is a sequence of candidates, each an opaque reference (Java object identity) with its
  descriptor (value equality);
- an element's attributes are a map;
- the URL, the enclosing form, the candidates collected and the element a manual locator finds
  are parameters.

Where the code and its documentation disagree, the model follows the code. For example, the
`ElementScorer` interface says scores are non-negative, but the login-field and login-button
scores can be negative (`DefaultElementScorer.Score`). The default selector also looks for
`[intentium:role=…]` hint tokens while the mapper emits `[hint:role=…]`; both spellings are
modelled as written. The class comment of `ExtensibleElementSelector` says that without heuristics
it behaves as the default selector. It does not: it de-duplicates equal descriptors before an
election, so two value-equal candidates elect the first where the default selector reports an
ambiguity (`ExtensibleElementSelector.ValueTwinsElectFirst` against
`ExtensibleElementSelector.DefaultTwinsAmbiguous`), and it looks for `[hint:…]` tokens where the
default selector looks for `[intentium:…]` ones.

Scores are `real`. Strings are `seq<char>`. Case mapping and letters cover ASCII and the basic
Cyrillic block (U+0400 to U+045F); digits are ASCII.

## Model

| member | source | states |
|---|---|---|
| DomElement.NormalizeNull | intentium-core/src/main/java/io/hearthwarrio/intentium/core/DomElementInfo.java:98-100 | a `null` argument is stored as the empty string, any other string unchanged |
| DomElement.New | intentium-core/src/main/java/io/hearthwarrio/intentium/core/DomElementInfo.java:68-96 | every one of the thirteen fields holds its argument with `null` replaced by "", so no getter returns `null` |
| DomElement.NewWithoutTestAttribute | intentium-core/src/main/java/io/hearthwarrio/intentium/core/DomElementInfo.java:38-66 | the eleven-argument constructor is the full one with an empty test-attribute name and value |
| DomElement.EqualsIsValueEquality | intentium-core/src/main/java/io/hearthwarrio/intentium/core/DomElementInfo.java:179-197 | `equals` holds exactly when all thirteen fields are equal, i.e. it is value equality, so descriptors of distinct nodes with identical attributes are equal |
| DomElement.HashCode | intentium-core/src/main/java/io/hearthwarrio/intentium/core/DomElementInfo.java:199-206 | the hash of the thirteen fields is a signed 32-bit value |
| DomElement.EqualsImpliesEqualHash | intentium-core/src/main/java/io/hearthwarrio/intentium/core/DomElementInfo.java:179-206 | descriptors that are `equals` have the same `hashCode` |
| Text.Trim | intentium-core/src/main/java/io/hearthwarrio/intentium/core/DefaultElementScorer.java:190-195 | `String.trim()`: the result neither starts nor ends with a character at or below U+0020 (`Text.TrimInfix` pins which infix it is) |
| Text.TrimInfix | intentium-core/src/main/java/io/hearthwarrio/intentium/core/DefaultElementScorer.java:190-195 | `trim()` returns the infix of its input left after removing a prefix and a suffix made only of characters at or below U+0020; with the ends `Text.Trim` ensures, this is the one infix `trim()` returns |
| Text.TrimOfTrimmed | intentium-core/src/main/java/io/hearthwarrio/intentium/core/DefaultElementScorer.java:190-195 | a string with no trimmable end is its own trim |
| Text.Lower | intentium-core/src/main/java/io/hearthwarrio/intentium/core/DefaultElementScorer.java:190-195 | `toLowerCase(Locale.ROOT)` keeps the length and maps character by character |
| Text.LowerIdempotent | intentium-core/src/main/java/io/hearthwarrio/intentium/core/DefaultElementScorer.java:190-195 | lower-casing twice is lower-casing once |
| Text.TrimLowerIdempotent | intentium-core/src/main/java/io/hearthwarrio/intentium/core/DefaultElementScorer.java:190-195 | the `lower` normalisation (trim, then lower-case) is idempotent |
| Text.ContainsIffOccurs | intentium-core/src/main/java/io/hearthwarrio/intentium/core/DefaultElementScorer.java:197-211 | `String.contains` holds exactly when the needle occurs at some position of the haystack |
| Text.ContainsInMiddle | intentium-core/src/main/java/io/hearthwarrio/intentium/core/DefaultElementScorer.java:213-232 | an occurrence in one part of a joined text is an occurrence in the whole |
| Text.SplitOnSpaces | intentium-webdriver/src/main/java/io/hearthwarrio/intentium/webdriver/IntentiumWebDriver.java:1591 | `split("\\s+")` of a trimmed class list yields at least one part, no part contains a `\s` character, and no part is empty when the text is non-empty and starts with a non-space; `Text.JoinSplitOnSpaces` shows the parts are exactly the words of the text |
| Text.JoinSplitOnSpaces | intentium-webdriver/src/main/java/io/hearthwarrio/intentium/webdriver/IntentiumWebDriver.java:1591 | for text with no `\s` at either end, the parts of `split("\\s+")` joined by single spaces equal `replaceAll("\\s+", " ")` of the text, so the split returns exactly the text's words in order and collapsing keeps them |
| Text.SplitOn | intentium-webdriver/src/main/java/io/hearthwarrio/intentium/webdriver/IntentiumWebDriver.java:1839 | `split("'", -1)` yields at least one part and no part contains the separator |
| Text.JoinSplitOn | intentium-webdriver/src/main/java/io/hearthwarrio/intentium/webdriver/IntentiumWebDriver.java:1839 | joining the parts of `split(c, -1)` with `c` gives the text back |
| Text.SplitOnCount | intentium-webdriver/src/main/java/io/hearthwarrio/intentium/webdriver/IntentiumWebDriver.java:1839 | `split(c, -1)` yields one more part than there are separators, empty parts included |
| Text.CollapseSpaces | intentium-webdriver/src/main/java/io/hearthwarrio/intentium/webdriver/WebDriverDomMapper.java:344-349 | `replaceAll("\\s+", " ")` leaves no `\s` other than single spaces, and starts with a space only if the input started with whitespace; `Text.JoinSplitOnSpaces` shows the result is the words of the input joined by single spaces |
| Text.CollapseIdempotent | intentium-webdriver/src/main/java/io/hearthwarrio/intentium/webdriver/WebDriverDomMapper.java:344-349 | collapsing whitespace twice is collapsing once |
| Text.TrimCollapseCommute | intentium-webdriver/src/main/java/io/hearthwarrio/intentium/webdriver/WebDriverDomMapper.java:344-349 | collapsing then trimming equals trimming then collapsing, so the mapper's and the driver's `normalizeText` agree |
| Sequences.SubsequenceMembers | intentium-core/src/main/java/io/hearthwarrio/intentium/core/ElementHeuristic.java:19-24 | an order-preserving subsequence of the candidates contains no candidate absent from them and is no longer |
| Sequences.SubsequenceTransitive | intentium-core/src/main/java/io/hearthwarrio/intentium/core/ExtensibleElementSelector.java:122-146 | a subsequence of a subsequence is a subsequence, so successive restriction steps stay within the original list |
| DefaultElementScorer.ContainsAnyOfLowered | intentium-core/src/main/java/io/hearthwarrio/intentium/core/DefaultElementScorer.java:197-211 | `containsAny` lowers the haystack itself, so passing an already lowered haystack changes nothing |
| DefaultElementScorer.Join | intentium-core/src/main/java/io/hearthwarrio/intentium/core/DefaultElementScorer.java:213-232 | the joined text contains the trimmed form of every part that is not blank after trimming, and never starts or ends with a trimmable character |
| DefaultElementScorer.TestValueSignal | intentium-core/src/main/java/io/hearthwarrio/intentium/core/DefaultElementScorer.java:34-43 | an empty test value contributes 0, a non-empty one 0.5 or 2.5 |
| DefaultElementScorer.TestValueKeywordBonus | intentium-core/src/main/java/io/hearthwarrio/intentium/core/DefaultElementScorer.java:34-43 | the 2.0 bonus on top of 0.5 is granted exactly when the test value contains a role keyword |
| DefaultElementScorer.LoginFieldScore | intentium-core/src/main/java/io/hearthwarrio/intentium/core/DefaultElementScorer.java:31-88 | a hidden input scores 0; every score lies in [-2, 9.5]; a negative score needs the password conflict keyword |
| DefaultElementScorer.PasswordFieldScore | intentium-core/src/main/java/io/hearthwarrio/intentium/core/DefaultElementScorer.java:90-138 | a hidden input scores 0; every score lies in [0, 11.5]; a `type=password` input scores at least 7 |
| DefaultElementScorer.LoginButtonScore | intentium-core/src/main/java/io/hearthwarrio/intentium/core/DefaultElementScorer.java:140-188 | every score lies in [-1.5, 8.5]; a negative score needs a registration conflict keyword |
| DefaultElementScorer.ScoreLoginField | intentium-core/src/main/java/io/hearthwarrio/intentium/core/DefaultElementScorer.java:31-88 | on a descriptor: hidden inputs score exactly 0, whatever their test attribute; others lie in [-2, 9.5] |
| DefaultElementScorer.ScorePasswordField | intentium-core/src/main/java/io/hearthwarrio/intentium/core/DefaultElementScorer.java:90-138 | hidden inputs score exactly 0; the score is never negative and at most 11.5 |
| DefaultElementScorer.ScoreLoginButton | intentium-core/src/main/java/io/hearthwarrio/intentium/core/DefaultElementScorer.java:140-188 | the button score lies in [-1.5, 8.5]; there is no hidden-input rule |
| DefaultElementScorer.Score | intentium-core/src/main/java/io/hearthwarrio/intentium/core/DefaultElementScorer.java:14-29 | dispatch by role: only PASSWORD_FIELD is guaranteed non-negative, hidden inputs score 0 for both field roles, all scores lie in [-2, 11.5] |
| DefaultElementScorer.ScoreNullable | intentium-core/src/main/java/io/hearthwarrio/intentium/core/DefaultElementScorer.java:14-17 | a null role or null element scores 0.0; otherwise the role score |
| DefaultElementScorer.ScoreIgnoresCaseAndPadding | intentium-core/src/main/java/io/hearthwarrio/intentium/core/DefaultElementScorer.java:31-232 | descriptors whose fields agree after trimming and lower-casing score the same for every role |
| ElementHeuristic.Id | intentium-core/src/main/java/io/hearthwarrio/intentium/core/ElementHeuristic.java:33-35 | the identifier is the configured one; the class-name default is replaced by a plain field |
| ElementHeuristic.Order | intentium-core/src/main/java/io/hearthwarrio/intentium/core/ElementHeuristic.java:43-45 | the default order is 0; the attribute rule reports its configured order |
| ElementHeuristic.Supports | intentium-core/src/main/java/io/hearthwarrio/intentium/core/ElementHeuristic.java:53-55 | by default every role is supported; the attribute rule supports exactly its own role |
| ElementHeuristic.NeverInventsCandidates | intentium-core/src/main/java/io/hearthwarrio/intentium/core/ElementHeuristic.java:19-24 | for every heuristic, `restrict` and `prefer` return an order-preserving subsequence of their input, never an outside candidate |
| ElementHeuristic.Restrict | intentium-core/src/main/java/io/hearthwarrio/intentium/core/ElementHeuristic.java:67-69 | `restrict` is the input unchanged by default, the attribute rule's restriction otherwise |
| ElementHeuristic.Prefer | intentium-core/src/main/java/io/hearthwarrio/intentium/core/ElementHeuristic.java:81-83 | `prefer` is empty by default, the attribute rule's preference otherwise |
| ElementHeuristic.ScoreAdjustment | intentium-core/src/main/java/io/hearthwarrio/intentium/core/ElementHeuristic.java:92-94 | the adjustment is 0.0 by default, the attribute rule's boost otherwise |
| AttributeContainsHeuristic.AllAttributesListed | intentium-core/src/main/java/io/hearthwarrio/intentium/core/heuristics/AttributeContainsHeuristic.java:29-43 | the enum-order list of attributes the matcher walks holds every attribute |
| AttributeContainsHeuristic.NormalizedNeedles | intentium-core/src/main/java/io/hearthwarrio/intentium/core/heuristics/AttributeContainsHeuristic.java:185-201 | the stored needles are trimmed, lower-cased and non-empty; every non-null input whose normalised form is non-empty is kept, and nothing else appears |
| AttributeContainsHeuristic.NormalizeNeedles | intentium-core/src/main/java/io/hearthwarrio/intentium/core/heuristics/AttributeContainsHeuristic.java:185-201 | the loop builds exactly the normalised needles in input order; a null list gives none |
| AttributeContainsHeuristic.EffectiveAttributes | intentium-core/src/main/java/io/hearthwarrio/intentium/core/heuristics/AttributeContainsHeuristic.java:79-81 | a null or empty attribute set becomes {TEST_ATTRIBUTE_VALUE}; any other set is kept; the result is never empty |
| AttributeContainsHeuristic.New | intentium-core/src/main/java/io/hearthwarrio/intentium/core/heuristics/AttributeContainsHeuristic.java:66-86 | a null id or role is refused with its message; otherwise every field holds its argument, with the attribute default and the normalised needles |
| AttributeContainsHeuristic.MatchesScan | intentium-core/src/main/java/io/hearthwarrio/intentium/core/heuristics/AttributeContainsHeuristic.java:140-158 | the nested early-return scan answers true exactly when there are needles and some configured attribute has a non-empty value containing a needle |
| AttributeContainsHeuristic.MatchingCandidatesShape | intentium-core/src/main/java/io/hearthwarrio/intentium/core/heuristics/AttributeContainsHeuristic.java:127-138 | `matchesOnly` keeps exactly the matching candidates, as an order-preserving subsequence of the input |
| AttributeContainsHeuristic.MatchesOnly | intentium-core/src/main/java/io/hearthwarrio/intentium/core/heuristics/AttributeContainsHeuristic.java:127-138 | the loop builds the matching subsequence, the same references in input order |
| AttributeContainsHeuristic.RestrictAndPreferShape | intentium-core/src/main/java/io/hearthwarrio/intentium/core/heuristics/AttributeContainsHeuristic.java:104-117 | `restrict` is the input when restriction is off and exactly the matching candidates when on; `prefer` is empty when preference is off and exactly the matching candidates when on; both keep input order |
| AttributeContainsHeuristic.ScoreAdjustmentShape | intentium-core/src/main/java/io/hearthwarrio/intentium/core/heuristics/AttributeContainsHeuristic.java:120-125 | the adjustment is 0.0 or the boost, and non-zero exactly for a matching candidate with a non-zero boost |
| AttributeContainsHeuristic.Restrict | intentium-core/src/main/java/io/hearthwarrio/intentium/core/heuristics/AttributeContainsHeuristic.java:104-109 | the method computes the restriction specified above |
| AttributeContainsHeuristic.Prefer | intentium-core/src/main/java/io/hearthwarrio/intentium/core/heuristics/AttributeContainsHeuristic.java:112-117 | the method computes the preference specified above |
| AttributeContainsHeuristic.ScoreAdjustment | intentium-core/src/main/java/io/hearthwarrio/intentium/core/heuristics/AttributeContainsHeuristic.java:120-125 | the method computes the adjustment specified above |
| AttributeContainsHeuristic.EmptyValueNeverMatches | intentium-core/src/main/java/io/hearthwarrio/intentium/core/heuristics/AttributeContainsHeuristic.java:145-148 | an attribute whose trimmed value is empty never matches, whatever the needles |
| AttributeContainsHeuristic.NeedleCaseIgnored | intentium-core/src/main/java/io/hearthwarrio/intentium/core/heuristics/AttributeContainsHeuristic.java:145-157 | a needle given in any case matches a test value containing its lower-cased form |
| ElementHeuristics.CleanMembers | intentium-core/src/main/java/io/hearthwarrio/intentium/core/ElementHeuristics.java:33-38 | the cleaned list holds exactly the non-null entries of the input |
| ElementHeuristics.StringLessTransitive | intentium-core/src/main/java/io/hearthwarrio/intentium/core/ElementHeuristics.java:39 | the `String.compareTo` order on ids is transitive |
| ElementHeuristics.StringLessTotal | intentium-core/src/main/java/io/hearthwarrio/intentium/core/ElementHeuristics.java:39 | distinct ids are always ordered one way or the other |
| ElementHeuristics.KeyLeTransitive | intentium-core/src/main/java/io/hearthwarrio/intentium/core/ElementHeuristics.java:39 | the (order, id) comparator is transitive |
| ElementHeuristics.KeyLeDistinctIds | intentium-core/src/main/java/io/hearthwarrio/intentium/core/ElementHeuristics.java:39 | between heuristics with different ids the comparator is strict |
| ElementHeuristics.SortPermutation | intentium-core/src/main/java/io/hearthwarrio/intentium/core/ElementHeuristics.java:39 | the sort is a permutation of its input |
| ElementHeuristics.SortSorted | intentium-core/src/main/java/io/hearthwarrio/intentium/core/ElementHeuristics.java:39 | the sorted list is ordered by order, then id |
| ElementHeuristics.SortOfSorted | intentium-core/src/main/java/io/hearthwarrio/intentium/core/ElementHeuristics.java:39 | an already sorted list is left as it is |
| ElementHeuristics.SortStable | intentium-core/src/main/java/io/hearthwarrio/intentium/core/ElementHeuristics.java:39 | `List.sort` is stable: heuristics with the same (order, id) keep their input order |
| ElementHeuristics.DedupeShape | intentium-core/src/main/java/io/hearthwarrio/intentium/core/ElementHeuristics.java:41-47 | the first-wins map keeps a subsequence of the sorted list with the same set of ids |
| ElementHeuristics.DedupeDistinct | intentium-core/src/main/java/io/hearthwarrio/intentium/core/ElementHeuristics.java:41-47 | the kept heuristics have pairwise distinct ids |
| ElementHeuristics.DedupeKeepsFirst | intentium-core/src/main/java/io/hearthwarrio/intentium/core/ElementHeuristics.java:41-47 | every kept heuristic is the first in the sorted list with its id |
| ElementHeuristics.DedupeSorted | intentium-core/src/main/java/io/hearthwarrio/intentium/core/ElementHeuristics.java:39-47 | deduplicating a sorted list keeps it sorted |
| ElementHeuristics.DedupeOfDistinct | intentium-core/src/main/java/io/hearthwarrio/intentium/core/ElementHeuristics.java:41-47 | a list with distinct ids is left as it is |
| ElementHeuristics.Normalize | intentium-core/src/main/java/io/hearthwarrio/intentium/core/ElementHeuristics.java:28-50 | a null or empty input gives an empty list; otherwise drop nulls, sort by (order, id), keep the first of each id |
| ElementHeuristics.CleanList | intentium-core/src/main/java/io/hearthwarrio/intentium/core/ElementHeuristics.java:33-38 | the loop keeps exactly the non-null entries, in order |
| ElementHeuristics.FirstOfEachId | intentium-core/src/main/java/io/hearthwarrio/intentium/core/ElementHeuristics.java:41-49 | the `LinkedHashMap` loop keeps the first heuristic of each id, in list order |
| ElementHeuristics.NormalizeFromInput | intentium-core/src/main/java/io/hearthwarrio/intentium/core/ElementHeuristics.java:28-50 | every result is a non-null input entry; every id of the input appears, and exactly once |
| ElementHeuristics.NormalizeStrictlySorted | intentium-core/src/main/java/io/hearthwarrio/intentium/core/ElementHeuristics.java:39-49 | the result is strictly increasing by order, then id |
| ElementHeuristics.NormalizeSurvivor | intentium-core/src/main/java/io/hearthwarrio/intentium/core/ElementHeuristics.java:39-47 | for a duplicated id the survivor has the lowest order and is the earliest input entry with that (order, id) |
| ElementHeuristics.CleanEntries | intentium-core/src/main/java/io/hearthwarrio/intentium/core/ElementHeuristics.java:33-38 | cleaning a list with no nulls gives it back |
| ElementHeuristics.NormalizeIdempotent | intentium-core/src/main/java/io/hearthwarrio/intentium/core/ElementHeuristics.java:28-50 | normalising a normalised list changes nothing |
| HeuristicElementScorer.AsScoreFn | intentium-core/src/main/java/io/hearthwarrio/intentium/core/HeuristicElementScorer.java:41-53 | the scorer handed to a selector answers every (role, element) with the scorer's own `score` |
| HeuristicElementScorer.ScoreSpec | intentium-core/src/main/java/io/hearthwarrio/intentium/core/HeuristicElementScorer.java:41-53 | the default scorer's score, or the base score plus the sum of all stored adjustments |
| HeuristicElementScorer.SumAdjustmentsAppend | intentium-core/src/main/java/io/hearthwarrio/intentium/core/HeuristicElementScorer.java:48-51 | accumulating one more heuristic adds exactly its adjustment |
| HeuristicElementScorer.Score | intentium-core/src/main/java/io/hearthwarrio/intentium/core/HeuristicElementScorer.java:41-53 | the loop computes the base score plus every stored heuristic's adjustment, `supports` not asked; no heuristics gives the base score |
| HeuristicElementScorer.NormalizeKeepingDuplicates | intentium-core/src/main/java/io/hearthwarrio/intentium/core/HeuristicElementScorer.java:55-68 | a null or empty list gives none; otherwise nulls are dropped and the rest sorted by (order, id), duplicates kept |
| HeuristicElementScorer.New | intentium-core/src/main/java/io/hearthwarrio/intentium/core/HeuristicElementScorer.java:27-30 | a null base is refused with its message; otherwise the base is kept and the heuristics stored normalised |
| HeuristicElementScorer.Heuristics | intentium-core/src/main/java/io/hearthwarrio/intentium/core/HeuristicElementScorer.java:37-39 | `heuristics()` returns the stored, normalised list |
| HeuristicElementScorer.StoredHeuristicsSorted | intentium-core/src/main/java/io/hearthwarrio/intentium/core/HeuristicElementScorer.java:55-68 | the stored list is sorted by (order, id) and is a permutation of the non-null inputs |
| HeuristicElementScorer.SumAdjustmentsSort | intentium-core/src/main/java/io/hearthwarrio/intentium/core/HeuristicElementScorer.java:48-66 | sorting does not change the sum of adjustments |
| HeuristicElementScorer.CompositeScore | intentium-core/src/main/java/io/hearthwarrio/intentium/core/HeuristicElementScorer.java:41-68 | the composite score is the base score plus the adjustment of every non-null heuristic given, whatever their order |
| HeuristicElementScorer.NoHeuristicsScoresAsBase | intentium-core/src/main/java/io/hearthwarrio/intentium/core/HeuristicElementScorer.java:44-46 | with no non-null heuristics the composite scores exactly like its base |
| HeuristicElementScorer.DuplicatesKept | intentium-core/src/main/java/io/hearthwarrio/intentium/core/HeuristicElementScorer.java:55-68 | a heuristic given twice is stored twice and adds its adjustment twice, where `ElementHeuristics.normalize` keeps one |
| Selection.MaxScore | intentium-core/src/main/java/io/hearthwarrio/intentium/core/DefaultElementSelector.java:64-81 | the top score is reached by some candidate and bounds every candidate's score |
| Selection.CountScorePositive | intentium-core/src/main/java/io/hearthwarrio/intentium/core/DefaultElementSelector.java:64-81 | a score that a candidate has is counted at least once |
| Selection.CountScoreOne | intentium-core/src/main/java/io/hearthwarrio/intentium/core/DefaultElementSelector.java:87-91 | a score reached by only one candidate belongs to no other candidate |
| Selection.StepOk | intentium-core/src/main/java/io/hearthwarrio/intentium/core/DefaultElementSelector.java:71-80 | one best/second-best update keeps the pass invariant: best holds the maximum, and the runner-up ties it exactly when two candidates share it |
| Selection.SweepInvariant | intentium-core/src/main/java/io/hearthwarrio/intentium/core/DefaultElementSelector.java:64-81 | after the loop, best holds a candidate with the maximum score and second-best equals it exactly when the maximum is shared |
| Selection.CountScoreExactlyOne | intentium-core/src/main/java/io/hearthwarrio/intentium/core/DefaultElementSelector.java:87-91 | when every other candidate scores differently, exactly one candidate reaches the score |
| Selection.NoMatchIff | intentium-core/src/main/java/io/hearthwarrio/intentium/core/DefaultElementSelector.java:83-85 | a pass returns no match exactly when every candidate scores at most 0 |
| Selection.AmbiguousIff | intentium-core/src/main/java/io/hearthwarrio/intentium/core/DefaultElementSelector.java:87-91 | a pass fails as ambiguous exactly when the positive top score is shared by two or more candidates |
| Selection.SelectedIsUniqueMaximum | intentium-core/src/main/java/io/hearthwarrio/intentium/core/DefaultElementSelector.java:93 | a match carries the role, a candidate of the list and its positive score, which every other candidate falls strictly below |
| Selection.UniqueMaximumSelected | intentium-core/src/main/java/io/hearthwarrio/intentium/core/DefaultElementSelector.java:58-94 | a unique positive maximum is always elected |
| DefaultElementSelector.New | intentium-core/src/main/java/io/hearthwarrio/intentium/core/DefaultElementSelector.java:25-27 | a null scorer is refused with its message; otherwise the selector scores with it |
| DefaultElementSelector.DefaultScorer | intentium-core/src/main/java/io/hearthwarrio/intentium/core/DefaultElementSelector.java:29-31 | the no-argument constructor scores with the default role scorer |
| DefaultElementSelector.JoinNonBlank | intentium-core/src/main/java/io/hearthwarrio/intentium/core/DefaultElementSelector.java:211-222 | every non-blank part occurs in the joined text |
| DefaultElementSelector.NonNullWhereMembers | intentium-core/src/main/java/io/hearthwarrio/intentium/core/DefaultElementSelector.java:100-106 | the filtering loop keeps exactly the non-null candidates that satisfy its test |
| DefaultElementSelector.PreferredMembers | intentium-core/src/main/java/io/hearthwarrio/intentium/core/DefaultElementSelector.java:100-175 | the preferred list holds exactly the non-null candidates the role's rule keeps |
| DefaultElementSelector.FilterPreferred | intentium-core/src/main/java/io/hearthwarrio/intentium/core/DefaultElementSelector.java:100-175 | the `filterPreferred` loop builds the preferred list, in input order, nulls skipped |
| DefaultElementSelector.ScoredListMembers | intentium-core/src/main/java/io/hearthwarrio/intentium/core/DefaultElementSelector.java:64-69 | the pass scores exactly the non-null candidates, each with the scorer's score |
| DefaultElementSelector.TrySelectBest | intentium-core/src/main/java/io/hearthwarrio/intentium/core/DefaultElementSelector.java:58-94 | the best/second-best sweep returns the pass outcome: no match, ambiguity, or the unique positive best |
| DefaultElementSelector.SelectBest | intentium-core/src/main/java/io/hearthwarrio/intentium/core/DefaultElementSelector.java:34-56 | empty input is an error; the preferred subset is tried first and the full list only when it yields no match; an ambiguity in either aborts; otherwise "no suitable match" |
| DefaultElementSelector.HiddenNeverPreferred | intentium-core/src/main/java/io/hearthwarrio/intentium/core/DefaultElementSelector.java:111-113 | hidden inputs are never in the preferred set, for any role |
| DefaultElementSelector.MatchIsUniqueBest | intentium-core/src/main/java/io/hearthwarrio/intentium/core/DefaultElementSelector.java:42-93 | a returned match carries the role, a non-null candidate of the input (same reference) and its own positive score |
| DefaultElementSelector.EmptyIsError | intentium-core/src/main/java/io/hearthwarrio/intentium/core/DefaultElementSelector.java:38-40 | an empty candidate list raises the selection error |
| DefaultElementSelector.PreferredFirst | intentium-core/src/main/java/io/hearthwarrio/intentium/core/DefaultElementSelector.java:42-48 | a preferred subset with a unique positive best wins even when the full list would elect another candidate |
| DefaultElementSelector.PreferredTieIsFatal | intentium-core/src/main/java/io/hearthwarrio/intentium/core/DefaultElementSelector.java:44-91 | a positive tie at the top of the preferred pass is fatal; the full list is not tried |
| DefaultElementSelector.FullPassNoMatchIff | intentium-core/src/main/java/io/hearthwarrio/intentium/core/DefaultElementSelector.java:83-85 | the full pass finds nothing exactly when no non-null candidate scores above 0 |
| DefaultElementSelector.NoSuitableMatchIff | intentium-core/src/main/java/io/hearthwarrio/intentium/core/DefaultElementSelector.java:42-55 | for a non-empty list, "No suitable match" is raised exactly when no non-null candidate scores above 0 |
| ExtensibleElementSelector.FilterShape | intentium-core/src/main/java/io/hearthwarrio/intentium/core/ExtensibleElementSelector.java:225-253 | each test-tier filter keeps, in order, exactly the candidates that pass its test |
| ExtensibleElementSelector.IntersectShape | intentium-core/src/main/java/io/hearthwarrio/intentium/core/ExtensibleElementSelector.java:186-199 | `intersectPreserveOrder` keeps, in base order, exactly the base entries that are `equals` to some subset entry |
| ExtensibleElementSelector.IntersectNothing | intentium-core/src/main/java/io/hearthwarrio/intentium/core/ExtensibleElementSelector.java:187-189 | intersecting with an empty subset gives nothing |
| ExtensibleElementSelector.DedupeByValueShape | intentium-core/src/main/java/io/hearthwarrio/intentium/core/ExtensibleElementSelector.java:169-184 | `dedupePreserveOrder` keeps a subsequence that still holds a value-equal entry for every input |
| ExtensibleElementSelector.DedupeByValueDistinct | intentium-core/src/main/java/io/hearthwarrio/intentium/core/ExtensibleElementSelector.java:169-184 | no two kept entries are `equals` |
| ExtensibleElementSelector.Scores | intentium-core/src/main/java/io/hearthwarrio/intentium/core/ExtensibleElementSelector.java:281-304 | every candidate of the pass is scored, in list order |
| ExtensibleElementSelector.ScoresAt | intentium-core/src/main/java/io/hearthwarrio/intentium/core/ExtensibleElementSelector.java:320-335 | each candidate's entry carries the base score plus the adjustments of the heuristics that support the role |
| ExtensibleElementSelector.RestrictStepShape | intentium-core/src/main/java/io/hearthwarrio/intentium/core/ExtensibleElementSelector.java:128-143 | one restriction step keeps a subsequence of the current list and never empties a non-empty one |
| ExtensibleElementSelector.RestrictionsShape | intentium-core/src/main/java/io/hearthwarrio/intentium/core/ExtensibleElementSelector.java:122-146 | `applyRestrictions` returns a subsequence of the candidates, non-empty when they are |
| ExtensibleElementSelector.HeuristicPreferredFromInput | intentium-core/src/main/java/io/hearthwarrio/intentium/core/ExtensibleElementSelector.java:155-163 | what the heuristics add to the preferred list are entries of the candidates |
| ExtensibleElementSelector.PreferredFromInput | intentium-core/src/main/java/io/hearthwarrio/intentium/core/ExtensibleElementSelector.java:148-167 | every preferred candidate is an entry of the input (the same reference) |
| ExtensibleElementSelector.PassOnFromList | intentium-core/src/main/java/io/hearthwarrio/intentium/core/ExtensibleElementSelector.java:281-318 | a pass elects an entry of its list with the role and its positive score |
| ExtensibleElementSelector.TierPassFromList | intentium-core/src/main/java/io/hearthwarrio/intentium/core/ExtensibleElementSelector.java:201-223 | the three test sub-tiers elect an entry of the tier list with its positive score |
| ExtensibleElementSelector.ElectedFromInput | intentium-core/src/main/java/io/hearthwarrio/intentium/core/ExtensibleElementSelector.java:84-119 | the elected candidate is always an entry of the input list, the same reference, with the role asked for and its positive score |
| ExtensibleElementSelector.AllNonPositiveNoSuitable | intentium-core/src/main/java/io/hearthwarrio/intentium/core/ExtensibleElementSelector.java:92-119 | when no candidate scores above 0, every tier finds nothing and "No suitable match" is raised |
| ExtensibleElementSelector.NoSuitableAllNonPositive | intentium-core/src/main/java/io/hearthwarrio/intentium/core/ExtensibleElementSelector.java:114-119 | since the last tier is the whole list, "No suitable match" means no candidate scores above 0 |
| ExtensibleElementSelector.NoSuitableMatchIff | intentium-core/src/main/java/io/hearthwarrio/intentium/core/ExtensibleElementSelector.java:84-119 | for a non-empty list, "No suitable match" is raised exactly when no candidate scores above 0 |
| ExtensibleElementSelector.UnsupportedAddNothing | intentium-core/src/main/java/io/hearthwarrio/intentium/core/ExtensibleElementSelector.java:326-333 | heuristics that do not support the role add nothing |
| ExtensibleElementSelector.ScoreWithoutSupport | intentium-core/src/main/java/io/hearthwarrio/intentium/core/ExtensibleElementSelector.java:320-335 | with no supporting heuristic the score is the base score |
| ExtensibleElementSelector.SupportsConsultedOnlyHere | intentium-core/src/main/java/io/hearthwarrio/intentium/core/ExtensibleElementSelector.java:326-333 | an attribute rule for another role leaves this selector's score at the base, while the composite scorer adds its boost |
| ExtensibleElementSelector.TwoEqualAmbiguous | intentium-core/src/main/java/io/hearthwarrio/intentium/core/ExtensibleElementSelector.java:306-311 | two entries sharing a positive score make a pass ambiguous |
| ExtensibleElementSelector.SingletonElected | intentium-core/src/main/java/io/hearthwarrio/intentium/core/ExtensibleElementSelector.java:201-223 | a one-entry tier with a positive score elects that entry |
| ExtensibleElementSelector.TwinsTie | intentium-core/src/main/java/io/hearthwarrio/intentium/core/ExtensibleElementSelector.java:201-223 | a tier made of two value-equal entries with a positive score is ambiguous, whichever sub-tier they fall in |
| ExtensibleElementSelector.DefaultTwinsAmbiguous | intentium-core/src/main/java/io/hearthwarrio/intentium/core/DefaultElementSelector.java:34-94 | the default selector on two value-equal entries with a positive score always fails as ambiguous |
| ExtensibleElementSelector.DedupeTwins | intentium-core/src/main/java/io/hearthwarrio/intentium/core/ExtensibleElementSelector.java:169-184 | deduplicating two value-equal entries keeps the first |
| ExtensibleElementSelector.PreferredTwins | intentium-core/src/main/java/io/hearthwarrio/intentium/core/ExtensibleElementSelector.java:148-167 | two value-equal preferred entries collapse to the first in the preferred list |
| ExtensibleElementSelector.ValueTwinsElectFirst | intentium-core/src/main/java/io/hearthwarrio/intentium/core/ExtensibleElementSelector.java:169-184 | two distinct but value-equal preferred candidates: this selector elects the first, while the default selector fails as ambiguous |
| ExtensibleElementSelector.ExtensibleSelector.constructor | intentium-core/src/main/java/io/hearthwarrio/intentium/core/ExtensibleElementSelector.java:53-57 | once the base scorer is known to be non-null, it is kept and the heuristics are normalised; none given means none |
| ExtensibleElementSelector.ExtensibleSelector.Create | intentium-core/src/main/java/io/hearthwarrio/intentium/core/ExtensibleElementSelector.java:35-57 | a null base scorer is refused with "baseScorer must not be null"; otherwise a fresh selector holds that scorer and the normalised heuristics, none given meaning none |
| ExtensibleElementSelector.ExtensibleSelector.GetHeuristics | intentium-core/src/main/java/io/hearthwarrio/intentium/core/ExtensibleElementSelector.java:65-67 | `getHeuristics` returns the stored normalised list |
| ExtensibleElementSelector.ExtensibleSelector.WithHeuristics | intentium-core/src/main/java/io/hearthwarrio/intentium/core/ExtensibleElementSelector.java:78-81 | `withHeuristics` replaces the heuristics by the normalised list and returns this selector |
| ExtensibleElementSelector.ExtensibleSelector.Score | intentium-core/src/main/java/io/hearthwarrio/intentium/core/ExtensibleElementSelector.java:320-335 | the loop computes the base score plus the adjustments of the supporting heuristics |
| ExtensibleElementSelector.ExtensibleSelector.TrySelectBest | intentium-core/src/main/java/io/hearthwarrio/intentium/core/ExtensibleElementSelector.java:281-318 | the best/second-best sweep returns the pass outcome |
| ExtensibleElementSelector.ExtensibleSelector.FilterWith | intentium-core/src/main/java/io/hearthwarrio/intentium/core/ExtensibleElementSelector.java:225-253 | the filter loops append the passing candidates in order |
| ExtensibleElementSelector.ExtensibleSelector.TrySelectWithTestTiers | intentium-core/src/main/java/io/hearthwarrio/intentium/core/ExtensibleElementSelector.java:201-223 | test-tier matches first, then any non-blank test value, then the whole tier; an ambiguity aborts |
| ExtensibleElementSelector.ExtensibleSelector.IntersectPreserveOrder | intentium-core/src/main/java/io/hearthwarrio/intentium/core/ExtensibleElementSelector.java:186-199 | the loop computes the value-based intersection |
| ExtensibleElementSelector.ExtensibleSelector.DedupePreserveOrder | intentium-core/src/main/java/io/hearthwarrio/intentium/core/ExtensibleElementSelector.java:169-184 | the `HashSet` loop computes the value-based dedupe |
| ExtensibleElementSelector.ExtensibleSelector.ApplyRestrictions | intentium-core/src/main/java/io/hearthwarrio/intentium/core/ExtensibleElementSelector.java:122-146 | the loop applies each supporting heuristic's step in list order |
| ExtensibleElementSelector.ExtensibleSelector.PreferredOf | intentium-core/src/main/java/io/hearthwarrio/intentium/core/ExtensibleElementSelector.java:155-162 | one supporting heuristic's non-empty preferred list, intersected with the candidates |
| ExtensibleElementSelector.ExtensibleSelector.BuildPreferred | intentium-core/src/main/java/io/hearthwarrio/intentium/core/ExtensibleElementSelector.java:148-167 | the role's own preferred candidates, then the heuristics', deduplicated by value |
| ExtensibleElementSelector.ExtensibleSelector.CollectPreferred | intentium-core/src/main/java/io/hearthwarrio/intentium/core/ExtensibleElementSelector.java:153-165 | the loop concatenates each supporting heuristic's contribution in list order |
| ExtensibleElementSelector.ExtensibleSelector.SelectBest | intentium-core/src/main/java/io/hearthwarrio/intentium/core/ExtensibleElementSelector.java:84-119 | empty input is an error; tiers preferred∩restricted, restricted, preferred, all are tried in that order and the first match wins; an ambiguity aborts; otherwise "No suitable match" |
| DefaultIntentResolver.BlankMessageNamesTheRule | intentium-core/src/main/java/io/hearthwarrio/intentium/core/DefaultIntentResolver.java:17-19 | the blank-phrase message contains "must not be null or blank" |
| DefaultIntentResolver.BlankCheckedFirst | intentium-core/src/main/java/io/hearthwarrio/intentium/core/DefaultIntentResolver.java:17-22 | a null or blank phrase fails with the blank-phrase message whatever the language, a null language included |
| DefaultIntentResolver.NullLanguageRejected | intentium-core/src/main/java/io/hearthwarrio/intentium/core/DefaultIntentResolver.java:20-22 | a non-blank phrase with a null language fails with a message starting with "Language" |
| DefaultIntentResolver.UnsupportedLanguageRejected | intentium-core/src/main/java/io/hearthwarrio/intentium/core/DefaultIntentResolver.java:25-29 | a language without a dictionary fails with "Language not supported", whatever the phrase |
| DefaultIntentResolver.UnknownIntentTextMentions | intentium-core/src/main/java/io/hearthwarrio/intentium/core/DefaultIntentResolver.java:33-35 | the unknown-intent message contains "Unknown intent", the language and the raw phrase |
| DefaultIntentResolver.UnknownIntentMessage | intentium-core/src/main/java/io/hearthwarrio/intentium/core/DefaultIntentResolver.java:31-36 | a phrase missing from the language's map fails with "Unknown intent", naming the language and the raw, unnormalised phrase |
| DefaultIntentResolver.ResolvedIffInDictionary | intentium-core/src/main/java/io/hearthwarrio/intentium/core/DefaultIntentResolver.java:16-39 | a resolution succeeds with a role exactly when the phrase is non-blank, the language supported, and the trimmed lower-case phrase is mapped to that role |
| DefaultIntentResolver.ResolveIgnoresCaseAndPadding | intentium-core/src/main/java/io/hearthwarrio/intentium/core/DefaultIntentResolver.java:24-45 | non-blank phrases with the same trimmed lower-case form resolve to the same role or both fail |
| DefaultIntentResolver.LowerOfLowerCase | intentium-core/src/main/java/io/hearthwarrio/intentium/core/DefaultIntentResolver.java:41-45 | a phrase of spaces and lower-case letters is its own lower-case form |
| DefaultIntentResolver.PhraseIsOwnKey | intentium-core/src/main/java/io/hearthwarrio/intentium/core/DefaultIntentResolver.java:41-45 | a phrase in dictionary form normalises to itself and is not blank |
| DefaultIntentResolver.EnglishPhrasesWellFormed | intentium-core/src/main/java/io/hearthwarrio/intentium/core/DefaultIntentResolver.java:50-66 | every English key is in dictionary form |
| DefaultIntentResolver.RussianPhrasesWellFormed | intentium-core/src/main/java/io/hearthwarrio/intentium/core/DefaultIntentResolver.java:70-85 | every Russian key is in dictionary form |
| DefaultIntentResolver.EveryEntryResolves | intentium-core/src/main/java/io/hearthwarrio/intentium/core/DefaultIntentResolver.java:47-90 | every stored phrase, given as stored, resolves to its stored role: no entry is shadowed by normalisation |
| DefaultIntentResolver.TestedPhrases | intentium-core/src/test/java/io/hearthwarrio/intentium/core/DefaultIntentResolverTest.java:11-45 | the tested phrases ("login field", "password", "sign in", and the three Russian ones) map to LOGIN_FIELD, PASSWORD_FIELD and LOGIN_BUTTON |
| DefaultIntentResolver.DictionariesPerLanguage | intentium-core/src/main/java/io/hearthwarrio/intentium/core/DefaultIntentResolver.java:56-77 | EN "login" is the button, RU "логин" the field, "email" the field in both, and neither "login" nor "логин" crosses languages |
| Literals.InterleaveWellFormed | intentium-webdriver/src/main/java/io/hearthwarrio/intentium/webdriver/IntentiumWebDriver.java:1840-1846 | the `concat` arguments for n parts are 2n-1 quoted literals, each free of its own delimiter |
| Literals.InterleaveRender | intentium-webdriver/src/main/java/io/hearthwarrio/intentium/webdriver/IntentiumWebDriver.java:1840-1846 | rendering the interleaved arguments gives exactly what the append loop writes between `concat(` and `)` |
| Literals.InterleaveValue | intentium-webdriver/src/main/java/io/hearthwarrio/intentium/webdriver/IntentiumWebDriver.java:1839-1846 | the interleaved arguments evaluate to the parts joined back with `'` |
| Literals.XPathLiteralRoundTrip | intentium-webdriver/src/main/java/io/hearthwarrio/intentium/webdriver/IntentiumWebDriver.java:1828-1849 | for every value the encoder emits a well-formed XPath string expression whose value is the original string |
| Literals.BuildXPathLiteral | intentium-webdriver/src/main/java/io/hearthwarrio/intentium/webdriver/IntentiumWebDriver.java:1828-1849 | the StringBuilder loop returns the encoder's literal, `''` for null |
| Literals.CssStringBodyIsOnePass | intentium-webdriver/src/main/java/io/hearthwarrio/intentium/webdriver/IntentiumWebDriver.java:1851-1855 | doubling backslashes and then escaping `'` equals one pass escaping both, so the second replace never sees the added backslashes |
| Literals.EscapeBothRoundTrip | intentium-webdriver/src/main/java/io/hearthwarrio/intentium/webdriver/IntentiumWebDriver.java:1851-1855 | the escaped body has no bare quote or dangling backslash and unescapes to the value |
| Literals.CssAttrLiteralRoundTrip | intentium-webdriver/src/main/java/io/hearthwarrio/intentium/webdriver/IntentiumWebDriver.java:1851-1855 | the literal is single-quoted, its body ends only at the closing quote and reads back as the value (empty for null) |
| Literals.EscapeIdentifierRoundTrip | intentium-webdriver/src/main/java/io/hearthwarrio/intentium/webdriver/IntentiumWebDriver.java:1857-1872 | every character other than a letter, digit, `-` or `_` gets one backslash, and the escapes read back as the value |
| Literals.BuildCssEscapeIdentifier | intentium-webdriver/src/main/java/io/hearthwarrio/intentium/webdriver/IntentiumWebDriver.java:1857-1872 | the StringBuilder loop returns the escaped identifier, empty for null |
| HashedTokens.LastIndexFrom | intentium-webdriver/src/main/java/io/hearthwarrio/intentium/webdriver/IntentiumWebDriver.java:1674 | the result is -1 or a start of the pattern at or before `from`, and no later start up to `from` exists |
| HashedTokens.LooksHashTailScan | intentium-webdriver/src/main/java/io/hearthwarrio/intentium/webdriver/IntentiumWebDriver.java:1704-1727 | the counting loop with its early exit answers exactly "trimmed tail of five or more letters or digits, at least two of each" |
| HashedTokens.IsAlphaNumOnlyScan | intentium-webdriver/src/main/java/io/hearthwarrio/intentium/webdriver/IntentiumWebDriver.java:1730-1741 | the loop answers exactly "non-empty and letters or digits only" |
| HashedTokens.ContainsDigitScan | intentium-webdriver/src/main/java/io/hearthwarrio/intentium/webdriver/IntentiumWebDriver.java:1743-1753 | the loop answers exactly "some character is a digit" |
| HashedTokens.IsHexLikeScan | intentium-webdriver/src/main/java/io/hearthwarrio/intentium/webdriver/IntentiumWebDriver.java:1688-1702 | the loop answers exactly "trimmed text of six or more characters, all hex digits after lower-casing" |
| HashedTokens.ScTailScan | intentium-webdriver/src/main/java/io/hearthwarrio/intentium/webdriver/IntentiumWebDriver.java:1655-1672 | the `sc-` counting loop answers exactly "5 to 12 letters or digits with both cases or at least two digits" |
| HashedTokens.IsProbablyHashedCheck | intentium-webdriver/src/main/java/io/hearthwarrio/intentium/webdriver/IntentiumWebDriver.java:1643-1686 | the detector calling the scans agrees with the rule-by-rule definition for every token, null included |
| HashedTokens.ShortTokensNeverHashed | intentium-webdriver/src/main/java/io/hearthwarrio/intentium/webdriver/IntentiumWebDriver.java:1647-1650 | a token shorter than five characters after trimming is never hashed |
| HashedTokens.CssPrefixRule | intentium-webdriver/src/main/java/io/hearthwarrio/intentium/webdriver/IntentiumWebDriver.java:1651-1654 | a `css-` token is hashed if and only if its tail has five or more characters, all letters or digits |
| HashedTokens.ScPrefixRule | intentium-webdriver/src/main/java/io/hearthwarrio/intentium/webdriver/IntentiumWebDriver.java:1655-1673 | an `sc-` token is hashed if and only if its tail has 5 to 12 letters or digits and mixes cases or has two digits |
| HashedTokens.LongHexRule | intentium-webdriver/src/main/java/io/hearthwarrio/intentium/webdriver/IntentiumWebDriver.java:1685 | a hex-like token of eight or more characters containing a digit is hashed |
| HashedTokens.SeparatorTailRule | intentium-webdriver/src/main/java/io/hearthwarrio/intentium/webdriver/IntentiumWebDriver.java:1674-1680 | a hash-like tail after the last `__` or `--` makes the token hashed |
| HashedTokens.HashTailExample | intentium-webdriver/src/main/java/io/hearthwarrio/intentium/webdriver/IntentiumWebDriver.java:1704-1727 | `3x9aF` is a hash tail |
| HashedTokens.ModulesSeparator | intentium-webdriver/src/main/java/io/hearthwarrio/intentium/webdriver/IntentiumWebDriver.java:1674 | the last separator of `Button_root__3x9aF` is at position 11 |
| HashedTokens.ModulesExample | intentium-webdriver/src/main/java/io/hearthwarrio/intentium/webdriver/IntentiumWebDriver.java:1674-1680 | the CSS-Modules class `Button_root__3x9aF` is detected as hashed |
| HashedTokens.UnderscoreTailRule | intentium-webdriver/src/main/java/io/hearthwarrio/intentium/webdriver/IntentiumWebDriver.java:1681-1683 | a token of at least five characters that starts with `_` and whose remainder looks like a hash tail is hashed |
| HashedTokens.UnderscoreExample | intentium-webdriver/src/main/java/io/hearthwarrio/intentium/webdriver/IntentiumWebDriver.java:1681-1683 | the underscore-prefixed `_3x9aF` is detected as hashed |
| StableLocators.UniqueInContextScan | intentium-webdriver/src/main/java/io/hearthwarrio/intentium/webdriver/IntentiumWebDriver.java:1459-1534 | the counting loop with its early exit at a second hit answers exactly the uniqueness predicate (one or two getters; the class-token check at 1755-1796 is the same loop) |
| StableLocators.CountZeroIffNone | intentium-webdriver/src/main/java/io/hearthwarrio/intentium/webdriver/IntentiumWebDriver.java:1472-1490 | the count is zero if and only if no candidate has the tag (ignoring case), the form key and the values |
| StableLocators.CountOneIffSingle | intentium-webdriver/src/main/java/io/hearthwarrio/intentium/webdriver/IntentiumWebDriver.java:1472-1490 | the count is one if and only if exactly one candidate, at one position, is counted |
| StableLocators.UniqueIffExactlyOne | intentium-webdriver/src/main/java/io/hearthwarrio/intentium/webdriver/IntentiumWebDriver.java:1459-1534 | a uniqueness check holds if and only if the values are non-blank and exactly one candidate in context carries them |
| StableLocators.OrdinalNamesTarget | intentium-webdriver/src/main/java/io/hearthwarrio/intentium/webdriver/IntentiumWebDriver.java:1536-1571 | a positive ordinal n is the position of the target object among the numbered candidates and no earlier one is the target; -1 exactly when the target is null or absent |
| StableLocators.OrdinalScan | intentium-webdriver/src/main/java/io/hearthwarrio/intentium/webdriver/IntentiumWebDriver.java:1536-1571 | the source's counting loop, which stops at the target by identity, returns the ordinal |
| StableLocators.FirstUniqueTokenMeaning | intentium-webdriver/src/main/java/io/hearthwarrio/intentium/webdriver/IntentiumWebDriver.java:1593-1619 | one pass picks the first non-blank token of the requested hashedness that is unique in context, and returns none only when no token qualifies |
| StableLocators.FirstUniqueTokenScan | intentium-webdriver/src/main/java/io/hearthwarrio/intentium/webdriver/IntentiumWebDriver.java:1593-1603 | the loop over the tokens returns the pass's pick |
| StableLocators.PickUniqueClassTokenScan | intentium-webdriver/src/main/java/io/hearthwarrio/intentium/webdriver/IntentiumWebDriver.java:1577-1622 | the two passes, the second only when hashed tokens are allowed, return the pick |
| StableLocators.PickedTokenMeaning | intentium-webdriver/src/main/java/io/hearthwarrio/intentium/webdriver/IntentiumWebDriver.java:1577-1622 | a picked token is a non-blank word of the class attribute, unique in context; a hashed pick implies hashed tokens are allowed and no non-hashed word qualifies; no pick means no word qualifies |
| StableLocators.ResolveFormContext | intentium-webdriver/src/main/java/io/hearthwarrio/intentium/webdriver/IntentiumWebDriver.java:1376-1388 | the form context is NONE or has a non-blank id or name |
| StableLocators.FormKeyBlankIffNoForm | intentium-webdriver/src/main/java/io/hearthwarrio/intentium/webdriver/IntentiumWebDriver.java:1390-1411 | the form key is blank if and only if neither the descriptor's form identifier nor the form's id or name is non-blank |
| StableLocators.DoubleSlashMeaning | intentium-webdriver/src/main/java/io/hearthwarrio/intentium/webdriver/IntentiumWebDriver.java:1439-1450 | a blank path becomes empty; any other path comes back starting with `//` and ending with the original; applying it twice changes nothing |
| StableLocators.XPathScopedByForm | intentium-webdriver/src/main/java/io/hearthwarrio/intentium/webdriver/IntentiumWebDriver.java:1413-1424 | no form leaves the path unchanged; a form id (else name) puts a `//form[@id=…]` (`//form[@name=…]`) step before the descendant path |
| StableLocators.CssScopedByForm | intentium-webdriver/src/main/java/io/hearthwarrio/intentium/webdriver/IntentiumWebDriver.java:1426-1437 | no form leaves the selector unchanged; a form id (else name) puts `form#…` (`form[name=…]`) and a descendant combinator before it |
| StableLocators.NatToStringRoundTrip | intentium-webdriver/src/main/java/io/hearthwarrio/intentium/webdriver/IntentiumWebDriver.java:1236-1240 | the printed ordinal is made of decimal digits and reads back as the ordinal |
| StableLocators.FirstUniqueStep | intentium-webdriver/src/main/java/io/hearthwarrio/intentium/webdriver/IntentiumWebDriver.java:1170-1217 | the attribute steps only give test-attribute or attribute anchors |
| StableLocators.FirstUniqueStepMeaning | intentium-webdriver/src/main/java/io/hearthwarrio/intentium/webdriver/IntentiumWebDriver.java:1170-1217 | the attribute steps give the anchor of the first step whose uniqueness check passes, and nothing only when no check passes |
| StableLocators.CommonAnchor | intentium-webdriver/src/main/java/io/hearthwarrio/intentium/webdriver/IntentiumWebDriver.java:1165-1224 | the steps shared by both builders give an id, attribute or class anchor, or nothing |
| StableLocators.IdShortCircuits | intentium-webdriver/src/main/java/io/hearthwarrio/intentium/webdriver/IntentiumWebDriver.java:1165-1168 | a non-blank id gives `//*[@id=…]` and `#id` whatever the snapshot or form: no uniqueness check and no form scoping |
| StableLocators.StepAnchorVouched | intentium-webdriver/src/main/java/io/hearthwarrio/intentium/webdriver/IntentiumWebDriver.java:1170-1217 | the anchor the attribute steps give passed its own uniqueness check and carries the element's own values |
| StableLocators.StepOrder | intentium-webdriver/src/main/java/io/hearthwarrio/intentium/webdriver/IntentiumWebDriver.java:1170-1217 | the attribute anchor is the first of the nine steps (test attribute; name, aria-label, placeholder, title alone; then with type) whose check passes |
| StableLocators.PickedTokenIsOwnAndUnique | intentium-webdriver/src/main/java/io/hearthwarrio/intentium/webdriver/IntentiumWebDriver.java:1219-1224 | a picked class token is one of the element's own class words and is unique in context |
| StableLocators.CommonAnchorIsUnique | intentium-webdriver/src/main/java/io/hearthwarrio/intentium/webdriver/IntentiumWebDriver.java:1165-1224 | every claimed anchor of the common steps passed its check and names the element's own values |
| StableLocators.XPathAnchorCases | intentium-webdriver/src/main/java/io/hearthwarrio/intentium/webdriver/IntentiumWebDriver.java:1226-1249 | once the common steps fail the XPath builder anchors on the label, the ordinal, the hashed token the last-resort pick gives, or the tag |
| StableLocators.CssAnchorCases | intentium-webdriver/src/main/java/io/hearthwarrio/intentium/webdriver/IntentiumWebDriver.java:1343-1352 | once the common steps fail the CSS builder anchors on a type unique in context, the hashed token of the last-resort pick, or the tag |
| StableLocators.XPathAnchorsAreUnique | intentium-webdriver/src/main/java/io/hearthwarrio/intentium/webdriver/IntentiumWebDriver.java:1159-1250 | every attribute or class anchor of `buildStableXPath` passed its uniqueness check and names the element's own values |
| StableLocators.CssAnchorsAreUnique | intentium-webdriver/src/main/java/io/hearthwarrio/intentium/webdriver/IntentiumWebDriver.java:1279-1353 | every attribute, class or type anchor of `buildStableCssSelector` passed its uniqueness check and names the element's own values |
| StableLocators.CommonClassNotHashed | intentium-webdriver/src/main/java/io/hearthwarrio/intentium/webdriver/IntentiumWebDriver.java:1219-1224 | the class anchor of the common steps is never a hashed token |
| StableLocators.LastResortTokenHashed | intentium-webdriver/src/main/java/io/hearthwarrio/intentium/webdriver/IntentiumWebDriver.java:1242-1247 | after the non-hashed pass found nothing, a last-resort pick is hashed and happens only when allowed |
| StableLocators.HashedTokensOnlyWhenAllowed | intentium-webdriver/src/main/java/io/hearthwarrio/intentium/webdriver/IntentiumWebDriver.java:1242-1247 | in both builders a class anchor is non-hashed, and a hashed-class anchor appears only when hashed tokens are allowed |
| StableLocators.CommonOrder | intentium-webdriver/src/main/java/io/hearthwarrio/intentium/webdriver/IntentiumWebDriver.java:1165-1224 | the common anchor is the first of steps 0-10 that applies, and nothing means none applies |
| StableLocators.ClassStepIff | intentium-webdriver/src/main/java/io/hearthwarrio/intentium/webdriver/IntentiumWebDriver.java:1219-1224 | the non-hashed class step picks if and only if some non-hashed word is unique in context |
| StableLocators.LastResortPickIff | intentium-webdriver/src/main/java/io/hearthwarrio/intentium/webdriver/IntentiumWebDriver.java:1605-1619 | after the non-hashed pass failed, the last-resort pass picks if and only if hashed tokens are allowed and some hashed word is unique in context |
| StableLocators.XPathPreferenceOrder | intentium-webdriver/src/main/java/io/hearthwarrio/intentium/webdriver/IntentiumWebDriver.java:1159-1250 | the XPath anchor is the first step of the documented order that applies, and no earlier step applies |
| StableLocators.XPathFallbackOrder | intentium-webdriver/src/main/java/io/hearthwarrio/intentium/webdriver/IntentiumWebDriver.java:1226-1249 | after the common steps the XPath builder takes label, ordinal, hashed class word, tag, the first that applies |
| StableLocators.CssPreferenceOrder | intentium-webdriver/src/main/java/io/hearthwarrio/intentium/webdriver/IntentiumWebDriver.java:1279-1353 | the CSS anchor is the first step of the documented order that applies, and no earlier step applies |
| StableLocators.OrdinalAnchorNamesTarget | intentium-webdriver/src/main/java/io/hearthwarrio/intentium/webdriver/IntentiumWebDriver.java:1231-1240 | the n of `(base)[n]` is the position of the target object among the candidates numbered in its context |
| StableLocators.XPathFormScoped | intentium-webdriver/src/main/java/io/hearthwarrio/intentium/webdriver/IntentiumWebDriver.java:1176-1249 | every XPath but the id one begins with the enclosing form's step (inside the parentheses of an ordinal) |
| StableLocators.OrdinalFormScoped | intentium-webdriver/src/main/java/io/hearthwarrio/intentium/webdriver/IntentiumWebDriver.java:1237-1240 | the ordinal XPath begins with `(` and the enclosing form's step |
| StableLocators.CssFormScoped | intentium-webdriver/src/main/java/io/hearthwarrio/intentium/webdriver/IntentiumWebDriver.java:1296-1352 | every CSS selector but the id one begins with the enclosing form's compound |
| DomMapper.Attr | intentium-webdriver/src/main/java/io/hearthwarrio/intentium/webdriver/WebDriverDomMapper.java:207-214 | an attribute read is trimmed, and an absent attribute reads as "" |
| DomMapper.ResolveTestAttribute | intentium-webdriver/src/main/java/io/hearthwarrio/intentium/webdriver/WebDriverDomMapper.java:190-201 | the loop over the whitelist with its early return gives the first-hit pick |
| DomMapper.TestAttributeMeaning | intentium-webdriver/src/main/java/io/hearthwarrio/intentium/webdriver/WebDriverDomMapper.java:182-201 | a pair is present if and only if some whitelist entry names a non-blank attribute; then it is the first such entry with its trimmed value; otherwise ("", "") |
| DomMapper.DefaultWhitelistWellFormed | intentium-webdriver/src/main/java/io/hearthwarrio/intentium/webdriver/WebDriverDomMapper.java:29-37 | the default whitelist names seven distinct non-blank attributes |
| DomMapper.IndexOf | intentium-webdriver/src/main/java/io/hearthwarrio/intentium/webdriver/WebDriverDomMapper.java:282-311 | the first position of a character, or none when it does not occur |
| DomMapper.RenderParseRoundTrip | intentium-webdriver/src/main/java/io/hearthwarrio/intentium/webdriver/WebDriverDomMapper.java:282-311 | hint tokens rendered from pairs with no `=` in the key and no `]` in the value parse back to those pairs |
| DomMapper.HintPairsReadable | intentium-webdriver/src/main/java/io/hearthwarrio/intentium/webdriver/WebDriverDomMapper.java:285-308 | with trimmed attribute values free of `]`, every emitted hint pair is readable |
| DomMapper.HintsRoundTrip | intentium-webdriver/src/main/java/io/hearthwarrio/intentium/webdriver/WebDriverDomMapper.java:282-311 | the built hints read back to exactly the role, contenteditable, aria-haspopup, aria-expanded and aria-controls pairs, in order |
| DomMapper.RenderedHintsBlankIffNone | intentium-webdriver/src/main/java/io/hearthwarrio/intentium/webdriver/WebDriverDomMapper.java:271-275 | the hints are blank if and only if no hint pair is emitted |
| DomMapper.AppendHintsSplit | intentium-webdriver/src/main/java/io/hearthwarrio/intentium/webdriver/WebDriverDomMapper.java:271-280 | the result is blank only when both parts are; otherwise a non-blank text and one space come before the hints |
| DomMapper.SurroundingTextCarriesHints | intentium-webdriver/src/main/java/io/hearthwarrio/intentium/webdriver/WebDriverDomMapper.java:254-255 | the stored surrounding text is the normalised text (when not blank) and a space, followed by hints that read back to the element's hint pairs |
| DomMapper.FormKeyRoundTrip | intentium-webdriver/src/main/java/io/hearthwarrio/intentium/webdriver/WebDriverDomMapper.java:313-342 | the `id:`, `name:`, `action:` prefixes and `form` keep the kinds apart: every form key reads back as itself |
| DomMapper.FormIdentifierMeaning | intentium-webdriver/src/main/java/io/hearthwarrio/intentium/webdriver/WebDriverDomMapper.java:313-342 | the identifier is blank if and only if there is no enclosing form, and reads back to the attribute that named the form |
| DomMapper.DriverFormKeyAgrees | intentium-webdriver/src/main/java/io/hearthwarrio/intentium/webdriver/IntentiumWebDriver.java:1390-1411 | for a form named by a trimmed id or name, the driver's fallback form key equals the mapper's form identifier |
| DomMapper.NormalizeTextAgreesWithDriver | intentium-webdriver/src/main/java/io/hearthwarrio/intentium/webdriver/WebDriverDomMapper.java:344-349 | collapsing then trimming equals the driver's trimming then collapsing; the result is a fixed point and single-spaced |
| DomMapper.LabelForSelectorQuotesId | intentium-webdriver/src/main/java/io/hearthwarrio/intentium/webdriver/WebDriverDomMapper.java:216-220 | the `label[for='…']` selector quotes the id exactly as `cssAttrLiteral` does, and the body reads back as the id |
| IntentiumDriver.FirstOffer | intentium-webdriver/src/main/java/io/hearthwarrio/intentium/webdriver/IntentiumWebDriver.java:268-279 | the first position at which the input offers a name, with no earlier offer |
| IntentiumDriver.NormalizedWhitelistMeaning | intentium-webdriver/src/main/java/io/hearthwarrio/intentium/webdriver/IntentiumWebDriver.java:265-281 | the whitelist holds exactly the offered names, each once, trimmed and non-empty, in the order of first occurrence |
| IntentiumDriver.NormalizedWhitelistIdempotent | intentium-webdriver/src/main/java/io/hearthwarrio/intentium/webdriver/IntentiumWebDriver.java:265-281 | setting an already normalised whitelist keeps it unchanged |
| IntentiumDriver.DefaultWhitelistIsNormal | intentium-webdriver/src/main/java/io/hearthwarrio/intentium/webdriver/IntentiumWebDriver.java:38 | the default whitelist the driver starts from is already in normal form |
| IntentiumDriver.ManualByRoundTrip | intentium-webdriver/src/main/java/io/hearthwarrio/intentium/webdriver/IntentiumWebDriver.java:994-1003 | the kind and expression of an XPath or CSS `By` are recovered from its printed form; any other locator stays OTHER with its whole text |
| IntentiumDriver.ManualLocators | intentium-webdriver/src/main/java/io/hearthwarrio/intentium/webdriver/IntentiumWebDriver.java:961-979 | an XPath is reported exactly when needed, and a CSS selector exactly when needed |
| IntentiumDriver.ManualExpressionKept | intentium-webdriver/src/main/java/io/hearthwarrio/intentium/webdriver/IntentiumWebDriver.java:961-979 | a target given by XPath reports its own XPath; one given by CSS selector reports its own selector |
| IntentiumDriver.Driver.constructor | intentium-webdriver/src/main/java/io/hearthwarrio/intentium/webdriver/IntentiumWebDriver.java:38-55 | a new driver has the default whitelist, the given logger, both flags off and an empty last-locators cache |
| IntentiumDriver.Driver.WithTestAttributeWhitelist | intentium-webdriver/src/main/java/io/hearthwarrio/intentium/webdriver/IntentiumWebDriver.java:265-281 | the clear-then-append loop leaves the normalised whitelist and changes no other field |
| IntentiumDriver.Driver.CurrentLogDetail | intentium-webdriver/src/main/java/io/hearthwarrio/intentium/webdriver/IntentiumWebDriver.java:391-410 | the detail is never the deprecated synonym, and is NONE if and only if there is no logger or the logger says NONE |
| IntentiumDriver.Driver.NeedLocatorsMeaning | intentium-webdriver/src/main/java/io/hearthwarrio/intentium/webdriver/IntentiumWebDriver.java:794-800 | an XPath (a CSS selector) is built if and only if it is forced, the consistency check is on, or a logger asks for it, where a null or deprecated answer asks for both |
| IntentiumDriver.Driver.TryGetLastLocators | intentium-webdriver/src/main/java/io/hearthwarrio/intentium/webdriver/IntentiumWebDriver.java:836-862 | a cache hit returns the stored result, which has both locators, and only when URL, phrase, logger object, consistency flag and hashed flag all match |
| IntentiumDriver.Driver.StoreLastLocators | intentium-webdriver/src/main/java/io/hearthwarrio/intentium/webdriver/IntentiumWebDriver.java:864-871 | the cache records the result with the URL, phrase and settings in force, and the settings are unchanged |
| IntentiumDriver.Driver.ResolveIntent | intentium-webdriver/src/main/java/io/hearthwarrio/intentium/webdriver/IntentiumWebDriver.java:748-768 | only the forced path reads or writes the cache; a forced hit is returned as is; no candidates fails; otherwise the result carries the phrase, element and the needed locators, and a forced result is served from the cache next time |
| Chains.CacheKeyInjective | intentium-webdriver/src/main/java/io/hearthwarrio/intentium/webdriver/ActionsChain.java:208 | equal memo keys come from the same phrase and the same force flag |
| Chains.ExecutionContext.constructor | intentium-webdriver/src/main/java/io/hearthwarrio/intentium/webdriver/ActionsChain.java:196-199 | a context is only built over a page with candidates (an empty page is refused by `Perform` with "No DOM candidates found – cannot execute chain."); it holds that URL and snapshot with an empty memo |
| Chains.ExecutionContext.RefreshSnapshot | intentium-webdriver/src/main/java/io/hearthwarrio/intentium/webdriver/ActionsChain.java:228-236 | records the URL and the new candidates, fails if and only if there are none, and clears the memo only on success |
| Chains.ExecutionContext.Resolve | intentium-webdriver/src/main/java/io/hearthwarrio/intentium/webdriver/ActionsChain.java:205-226 | the memoised resolution: a changed URL refreshes the snapshot and empties the memo first; a memo hit is answered; otherwise a success is memoised |
| Chains.ExecutionContext.RunAll | intentium-webdriver/src/main/java/io/hearthwarrio/intentium/webdriver/ActionsChain.java:155-157 | the steps run in order against one context and the first failure ends the run |
| Chains.ResolveTwiceSameAnswer | intentium-webdriver/src/main/java/io/hearthwarrio/intentium/webdriver/ActionsChain.java:205-219 | on an unchanged page, asking again for a key that resolved gives the same object and the same state |
| Chains.ContextResolveFaithful | intentium-webdriver/src/main/java/io/hearthwarrio/intentium/webdriver/ActionsChain.java:205-236 | every success equals what the resolver gives on the snapshot now in force, and the memo stays faithful; a changed URL is served from the new page's snapshot |
| Chains.ResolvedPhrase | intentium-webdriver/src/main/java/io/hearthwarrio/intentium/webdriver/ActionsChain.java:205-219 | a successful resolution reports the requested phrase and keeps the memo faithful |
| Chains.RunStepsMeaning | intentium-webdriver/src/main/java/io/hearthwarrio/intentium/webdriver/ActionsChain.java:155-157 | a successful run gives one resolution per remaining step, in order, each for its step's intent |
| Chains.ChainMeaning | intentium-webdriver/src/main/java/io/hearthwarrio/intentium/webdriver/ActionsChain.java:141-166 | perform fails when the first page has no candidates; a success resolves every step, in insertion order, for the intent it captured |
| Chains.ActionsChain.constructor | intentium-webdriver/src/main/java/io/hearthwarrio/intentium/webdriver/ActionsChain.java:18-36 | a new chain has no intent, no steps and no overrides |
| Chains.ActionsChain.WithLogger | intentium-webdriver/src/main/java/io/hearthwarrio/intentium/webdriver/ActionsChain.java:41-45 | the logger override is set and nothing else changes |
| Chains.ActionsChain.WithConsistencyCheck | intentium-webdriver/src/main/java/io/hearthwarrio/intentium/webdriver/ActionsChain.java:71-74 | the consistency override is set and nothing else changes |
| Chains.ActionsChain.Into | intentium-webdriver/src/main/java/io/hearthwarrio/intentium/webdriver/ActionsChain.java:93-96 | selects the intent; steps already added keep theirs |
| Chains.ActionsChain.RequireCurrentIntent | intentium-webdriver/src/main/java/io/hearthwarrio/intentium/webdriver/ActionsChain.java:176-181 | succeeds if and only if an intent is selected and not blank, returning it |
| Chains.ActionsChain.AddStep | intentium-webdriver/src/main/java/io/hearthwarrio/intentium/webdriver/ActionsChain.java:108-121 | appends one step capturing the current intent if and only if there is one, and otherwise adds nothing |
| Chains.ActionsChain.Perform | intentium-webdriver/src/main/java/io/hearthwarrio/intentium/webdriver/ActionsChain.java:141-166 | runs the kept steps with the overridden settings and puts the driver's logger and consistency flag back on success and on failure, leaving every other driver field unchanged |
| SingleTarget.ResolutionsBounded | intentium-webdriver/src/main/java/io/hearthwarrio/intentium/webdriver/SingleTargetAction.java:123-134 | with a resolver whose forced results have both locators, a sequence of calls resolves at most twice, at most once with no forced call, and never again once both locators are cached |
| SingleTarget.RepeatsWhileLocatorMissing | intentium-webdriver/src/main/java/io/hearthwarrio/intentium/webdriver/SingleTargetAction.java:129-131 | forced calls re-resolve every time while the forced result lacks a locator |
| SingleTarget.ForcedCallSettles | intentium-webdriver/src/main/java/io/hearthwarrio/intentium/webdriver/SingleTargetAction.java:123-134 | a successful forced call caches a result with both locators, and no later call resolves |
| SingleTarget.SingleTargetAction.ForBy | intentium-webdriver/src/main/java/io/hearthwarrio/intentium/webdriver/SingleTargetAction.java:42-46 | the action targets the locator and has no cached resolution |
| SingleTarget.SingleTargetAction.ForElement | intentium-webdriver/src/main/java/io/hearthwarrio/intentium/webdriver/SingleTargetAction.java:54-58 | the action targets the element and has no cached resolution |
| SingleTarget.SingleTargetAction.Resolve | intentium-webdriver/src/main/java/io/hearthwarrio/intentium/webdriver/SingleTargetAction.java:123-141 | resolve on first call, re-resolve with force only when a locator is missing, otherwise return the cache; the cache is replaced only by a success |
| SingleTarget.SingleTargetAction.Element | intentium-webdriver/src/main/java/io/hearthwarrio/intentium/webdriver/SingleTargetAction.java:89-91 | returns the cached element without touching the cache when one is cached, otherwise the first unforced resolution's element |
| SingleTarget.SingleTargetAction.XPath | intentium-webdriver/src/main/java/io/hearthwarrio/intentium/webdriver/SingleTargetAction.java:104-106 | the XPath of a forced resolution |
| SingleTarget.SingleTargetAction.CssSelector | intentium-webdriver/src/main/java/io/hearthwarrio/intentium/webdriver/SingleTargetAction.java:119-121 | the CSS selector of a forced resolution |

## Left out

- Selenium I/O is not modelled. This covers `findElement(s)`, `executeScript`, `collectDomCandidates`, `mapElement`, label and surrounding-text lookups, `currentUrl` and `resolveFormContext`'s ancestor lookup. Their results are parameters: a candidate sequence, an attribute map, a URL string, an optional (id, name) pair for the enclosing form, and opaque element references.
- `buildQuickXPath` and `buildQuickCssSelector` are not modelled: their uniqueness is decided by live `findElements` calls. They arrive as plain strings, so the model cannot represent a quick locator that is null.
- SingleTarget.ResolutionsBounded: the bound holds only under the hypothesis that a forced resolution yields both locators. In the source this depends on the quick locators above.
- `runConsistencyCheck` and `isGenericLocator` re-execute locators against the live page and are not modelled. The consistency flag is modelled only as a setting that forces both locators and as part of the cache key.
- IntentiumDriver.Driver.ResolveIntent: the elected element and its stable locators are parameters. Its contract does not tie them to the selectors or to `StableLocators`, which are proved on their own. The errors of `resolveRole` and `selectBest`, and the internal error for an unmapped element, are not representable in this method; only "No candidates found on page" is.
- `resolveBy` and `resolveWebElement` (element lookup and logging) are not modelled; only the choice of reported locators is (`ManualLocators`).
- The logger is an opaque value compared by reference. `detail()` is a stored answer; a `detail()` that throws is modelled like a null answer, since both mean BOTH.
- The log calls themselves are not modelled.
- The driver's `withLogger`, `withConsistencyCheck` and `withAllowHashedLastResort` setters are plain field writes. `Chains.ActionsChain.Perform` writes the fields directly.
- The mapper holds the driver's whitelist list object, and that aliasing is not modelled. The driver's `whitelist` field is the one list both read.
- Step actions (`sendKeys`, `click`) and their exceptions are not modelled. A step is the intent it resolves plus a tag naming the action.
- `SingleTargetAction.send` and `click` act on the element that `Element` returns, so they are modelled by it.
- `refreshSnapshot` reads `currentUrl` separately from `ensureSnapshotIsValid`. The model uses one URL per resolution (`urlAt`), so a page that changes between the two reads is not modelled.
- `resolveFormContext` passes the form's id and name on untrimmed, while the mapper's `attr` trims them. DomMapper.DriverFormKeyAgrees is therefore stated for trimmed values only.
- `cssAttrLiteral` does not escape newlines, and `cssEscapeIdentifier` does not hex-escape a leading digit. Both are modelled as written. Their round-trip lemmas hold for the backslash reading those encoders rely on, not for every CSS 2.1 edge case.
- DomMapper.HintsRoundTrip: the hints read back only when no copied value contains `]`. The source gives no promise for such values.
- ExtensibleElementSelector.ExtensibleSelector.SelectBest: candidate lists hold no null entries. The source accepts nulls: its test-tier filters, `filterPreferred` and `dedupePreserveOrder` skip them, `applyRestrictions` and `prefer` pass them to the heuristics, and the full pass scores a null candidate and returns no match when it comes out best. None of that is modelled; the default selector's model (`DefaultElementSelector.TrySelectBest`) does carry nulls.
- Unicode beyond ASCII and basic Cyrillic letters, ASCII digits and basic Cyrillic case mapping is not modelled: `Character.isLetter`, `isDigit`, `toLowerCase(Locale.ROOT)` and `equalsIgnoreCase` are restricted to that range.
- IEEE-754 doubles are modelled as `real`. The `NEGATIVE_INFINITY` sentinel becomes `Option`.
- `List.sort` is modelled as an insertion sort on values. Its result is what is proved (a stable, sorted permutation), not the in-place algorithm of the library.
- The intent dictionary built by `HashMap.put` calls is a constant map. `Language.java` is not part of this model: a language is EN, RU or any other constant.
- Only two kinds of heuristic are modelled: one keeping every default (with its id as a plain value) and the attribute-contains rule. User-written heuristics and the `getClass().getSimpleName()` default of `id()` are not.
- The concrete scenarios of the default selector's tests (login, password and button elections on sample pages) are not modelled as examples. The rules they exercise are proved in general, for example `DefaultElementScorer.PasswordFieldScore` and `DefaultElementSelector.MatchIsUniqueBest`.
- Not modelled: PageFactory extraction, the logger implementations, factories and thin delegating classes, `toString` and message text beyond the substrings the tests check, and `volatile` on the heuristics field (there is no concurrency).
