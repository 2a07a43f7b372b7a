/**
 * The immutable DOM element descriptor that scorers and selectors work on, and the small
 * enumerations shared by the core: intent roles and element matches.
 */
module DomElement {
  import opened Wrappers

  /** The thirteen attributes of a candidate element; absent attributes are empty strings. */
  datatype DomElementInfo = DomElementInfo(
    tagName: string,
    typeAttr: string,
    id: string,
    name: string,
    cssClasses: string,
    testAttributeName: string,
    testAttributeValue: string,
    labelText: string,
    placeholder: string,
    ariaLabel: string,
    title: string,
    surroundingText: string,
    formIdentifier: string)

  /**
   * A descriptor together with the identity of the Java object that holds it. Lists of
   * candidates are lists of references: `ref` stands for reference identity (`==`,
   * `IdentityHashMap`), `info` for the value that `equals` and `HashSet` compare.
   */
  datatype Candidate = Candidate(ref: nat, info: DomElementInfo)

  /** The three intents the library can resolve. */
  datatype IntentRole = LoginField | PasswordField | LoginButton

  /** A selection result: the role, the elected candidate (the same reference as in the input list) and its score. */
  datatype ElementMatch = ElementMatch(role: IntentRole, element: Candidate, score: real)

  /** The `ElementScorer` interface as a selector sees it: the score of an element for a role. */
  type ScoreFn = (IntentRole, DomElementInfo) -> real

  /** A Java `String` argument that may be `null` is stored as the empty string. */
  function NormalizeNull(s: Option<string>): (r: string)
    ensures s.None? ==> r == ""
    ensures s.Some? ==> r == s.value
  {
    if s.None? then "" else s.value
  }

  /** The thirteen-argument constructor, with the source's parameter order. */
  function New(tagName: Option<string>, typeAttr: Option<string>, id: Option<string>, name: Option<string>,
               cssClasses: Option<string>, labelText: Option<string>, placeholder: Option<string>,
               ariaLabel: Option<string>, title: Option<string>, surroundingText: Option<string>,
               formIdentifier: Option<string>, testAttributeName: Option<string>,
               testAttributeValue: Option<string>): (r: DomElementInfo)
    ensures r.tagName == NormalizeNull(tagName) && r.typeAttr == NormalizeNull(typeAttr)
    ensures r.id == NormalizeNull(id) && r.name == NormalizeNull(name)
    ensures r.cssClasses == NormalizeNull(cssClasses) && r.labelText == NormalizeNull(labelText)
    ensures r.placeholder == NormalizeNull(placeholder) && r.ariaLabel == NormalizeNull(ariaLabel)
    ensures r.title == NormalizeNull(title) && r.surroundingText == NormalizeNull(surroundingText)
    ensures r.formIdentifier == NormalizeNull(formIdentifier)
    ensures r.testAttributeName == NormalizeNull(testAttributeName)
    ensures r.testAttributeValue == NormalizeNull(testAttributeValue)
  {
    DomElementInfo(NormalizeNull(tagName), NormalizeNull(typeAttr), NormalizeNull(id), NormalizeNull(name),
                   NormalizeNull(cssClasses), NormalizeNull(testAttributeName), NormalizeNull(testAttributeValue),
                   NormalizeNull(labelText), NormalizeNull(placeholder), NormalizeNull(ariaLabel),
                   NormalizeNull(title), NormalizeNull(surroundingText), NormalizeNull(formIdentifier))
  }

  /** The eleven-argument constructor: no test attribute. */
  function NewWithoutTestAttribute(tagName: Option<string>, typeAttr: Option<string>, id: Option<string>,
                                   name: Option<string>, cssClasses: Option<string>, labelText: Option<string>,
                                   placeholder: Option<string>, ariaLabel: Option<string>, title: Option<string>,
                                   surroundingText: Option<string>, formIdentifier: Option<string>): (r: DomElementInfo)
    ensures r.testAttributeName == "" && r.testAttributeValue == ""
    ensures r == New(tagName, typeAttr, id, name, cssClasses, labelText, placeholder, ariaLabel, title,
                     surroundingText, formIdentifier, Some(""), Some(""))
  {
    New(tagName, typeAttr, id, name, cssClasses, labelText, placeholder, ariaLabel, title,
        surroundingText, formIdentifier, Some(""), Some(""))
  }

  /** `equals`: the conjunction of the thirteen field comparisons. */
  predicate Equals(a: DomElementInfo, b: DomElementInfo) {
    a.tagName == b.tagName && a.typeAttr == b.typeAttr && a.id == b.id && a.name == b.name
    && a.cssClasses == b.cssClasses && a.testAttributeName == b.testAttributeName
    && a.testAttributeValue == b.testAttributeValue && a.labelText == b.labelText
    && a.placeholder == b.placeholder && a.ariaLabel == b.ariaLabel && a.title == b.title
    && a.surroundingText == b.surroundingText && a.formIdentifier == b.formIdentifier
  }

  /**
   * `equals` is value equality of the record: two descriptors of distinct DOM nodes with the
   * same attributes are equal.
   */
  lemma EqualsIsValueEquality(a: DomElementInfo, b: DomElementInfo)
    ensures Equals(a, b) <==> a == b
  {
  }

  const TwoTo32: int := 0x1_0000_0000
  const TwoTo31: int := 0x8000_0000

  /** Java `int` arithmetic: the value of `x` wrapped to a signed 32-bit integer. */
  function Wrap32(x: int): (r: int)
    ensures -TwoTo31 <= r < TwoTo31
    ensures (x - r) % TwoTo32 == 0
  {
    var m := x % TwoTo32;
    if m >= TwoTo31 then m - TwoTo32 else m
  }

  /** `String.hashCode()`: `h = 31 * h + c` over the characters, in 32-bit arithmetic. */
  function StringHash(s: string): (h: int)
    ensures -TwoTo31 <= h < TwoTo31
    decreases |s|
  {
    if s == [] then 0 else Wrap32(31 * StringHash(s[..|s| - 1]) + s[|s| - 1] as int)
  }

  /** `Objects.hash(...)`: `h = 31 * h + hashCode(field)` starting from 1, in 32-bit arithmetic. */
  function CombineHashes(hs: seq<int>): (h: int)
    ensures -TwoTo31 <= h < TwoTo31
  {
    if hs == [] then 1 else Wrap32(31 * CombineHashes(hs[..|hs| - 1]) + hs[|hs| - 1])
  }

  function FieldsInHashOrder(e: DomElementInfo): seq<string> {
    [e.tagName, e.typeAttr, e.id, e.name, e.cssClasses, e.testAttributeName, e.testAttributeValue,
     e.labelText, e.placeholder, e.ariaLabel, e.title, e.surroundingText, e.formIdentifier]
  }

  function HashCode(e: DomElementInfo): (h: int)
    ensures -TwoTo31 <= h < TwoTo31
  {
    var f := FieldsInHashOrder(e);
    CombineHashes(seq(13, i requires 0 <= i < 13 => StringHash(f[i])))
  }

  /** Equal descriptors have equal hash codes. */
  lemma EqualsImpliesEqualHash(a: DomElementInfo, b: DomElementInfo)
    requires Equals(a, b)
    ensures HashCode(a) == HashCode(b)
  {
  }
}
