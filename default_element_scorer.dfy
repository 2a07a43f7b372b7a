/**
 * The heuristic scorer for the three authentication intents. Each role score is a sum of
 * guarded constant contributions: a test-attribute signal, a tag/type signal and keyword
 * signals over the joined text fields.
 */
module DefaultElementScorer {
  import opened Wrappers
  import opened Text
  import opened DomElement

  /** The scorer's `containsAny`: some non-empty needle, lowered, occurs in the lowered haystack. */
  predicate ContainsAny(haystack: string, needles: seq<string>) {
    exists k :: 0 <= k < |needles| && needles[k] != [] && Contains(TrimLower(haystack), TrimLower(needles[k]))
  }

  /** Lowering the haystack first does not change the outcome, so callers may pass either form. */
  lemma ContainsAnyOfLowered(haystack: string, needles: seq<string>)
    ensures ContainsAny(TrimLower(haystack), needles) == ContainsAny(haystack, needles)
  {
    TrimLowerIdempotent(haystack);
  }

  /**
   * The scorer's `join`: the trimmed, non-empty parts separated by one space, built left to
   * right. The result never starts or ends with a trimmable character.
   */
  function Join(parts: seq<string>): (r: string)
    ensures r == [] || (!IsTrimmable(r[0]) && !IsTrimmable(r[|r| - 1]))
    ensures forall k :: 0 <= k < |parts| && Trim(parts[k]) != [] ==> Contains(r, Trim(parts[k]))
  {
    if parts == [] then ""
    else
      var n := |parts| - 1;
      var init := Join(parts[..n]);
      assert forall k :: 0 <= k < n ==> parts[..n][k] == parts[k];
      var t := Trim(parts[n]);
      var r := if t == [] then init else if init == [] then t else init + " " + t;
      forall k | 0 <= k < |parts| && Trim(parts[k]) != [] ensures Contains(r, Trim(parts[k])) {
        if k == n {
          if init != [] { ContainsInMiddle(init + " ", t, [], t); assert init + " " + t + [] == r; }
          else { ContainsInMiddle([], t, [], t); assert [] + t + [] == r; }
        } else if t != [] && init != [] {
          ContainsInMiddle([], init, " " + t, Trim(parts[k]));
          assert [] + init + (" " + t) == r;
        }
      }
      r
  }

  const LoginTestKeywords: seq<string> :=
    ["login", "user", "username", "email", "e-mail", "mail", "логин", "польз", "почт", "email"]
  const LoginFieldTypes: seq<string> := ["text", "email", "tel", "number", "search"]
  const LoginTextKeywords: seq<string> :=
    ["login", "user", "username", "email", "e-mail", "mail", "phone", "tel", "логин", "польз", "почт", "тел"]
  const LoginConflictKeywords: seq<string> := ["password", "пароль"]
  const PasswordKeywords: seq<string> := ["password", "pass", "pwd", "secret", "пароль", "пасс"]
  const ButtonTestKeywords: seq<string> :=
    ["login", "signin", "sign-in", "sign in", "submit", "enter", "войти", "вход", "логин", "авториз"]
  const ButtonTypes: seq<string> := ["submit", "button"]
  const ButtonTextKeywords: seq<string> :=
    ["login", "sign in", "signin", "submit", "enter", "continue", "войти", "вход", "логин", "авториз", "продолж"]
  const ButtonConflictKeywords: seq<string> := ["register", "signup", "sign up", "регист"]
  const GenericContainerTags: seq<string> := ["div", "span"]

  /**
   * What a role scorer reads of a descriptor: the trimmed lower-case test value, tag and type,
   * and the trimmed lower-case join of the role's text fields.
   */
  datatype Signals = Signals(testValue: string, tag: string, typeAttr: string, text: string)

  /** The text fields the two field roles join, in the source's order. */
  function FieldParts(e: DomElementInfo): seq<string> {
    [e.labelText, e.placeholder, e.ariaLabel, e.title, e.surroundingText, e.name, e.id,
     e.testAttributeValue, e.testAttributeName]
  }

  /** The text fields LOGIN_BUTTON joins: no placeholder, and id before name. */
  function ButtonParts(e: DomElementInfo): seq<string> {
    [e.labelText, e.ariaLabel, e.title, e.surroundingText, e.id, e.name,
     e.testAttributeValue, e.testAttributeName]
  }

  function FieldText(e: DomElementInfo): string { Join(FieldParts(e)) }

  function ButtonText(e: DomElementInfo): string { Join(ButtonParts(e)) }

  function SignalsOf(e: DomElementInfo, text: string): Signals {
    Signals(TrimLower(e.testAttributeValue), TrimLower(e.tagName), TrimLower(e.typeAttr), TrimLower(text))
  }

  /** 0.5 for a non-empty test value, 2.0 more when it mentions one of the role's keywords. */
  function TestValueSignal(testValue: string, keywords: seq<string>): (r: real)
    ensures testValue == [] ==> r == 0.0
    ensures testValue != [] ==> r == 0.5 || r == 2.5
  {
    if testValue == [] then 0.0
    else 0.5 + (if ContainsAny(testValue, keywords) then 2.0 else 0.0)
  }

  /** The extra 2.0 of the test-attribute signal is granted exactly when a role keyword occurs. */
  lemma TestValueKeywordBonus(testValue: string, keywords: seq<string>)
    requires testValue != []
    ensures TestValueSignal(testValue, keywords) == 2.5 <==> ContainsAny(testValue, keywords)
  {
  }

  predicate IsHiddenInput(e: DomElementInfo) {
    TrimLower(e.tagName) == "input" && TrimLower(e.typeAttr) == "hidden"
  }

  function LoginFieldScore(s: Signals): (r: real)
    ensures s.tag == "input" && s.typeAttr == "hidden" ==> r == 0.0
    ensures -2.0 <= r <= 9.5
    ensures r < 0.0 ==> ContainsAny(s.text, LoginConflictKeywords)
  {
    var test := TestValueSignal(s.testValue, LoginTestKeywords);
    if s.tag == "input" && s.typeAttr == "hidden" then 0.0
    else
      var tagSignal :=
        if s.tag == "input" then (if s.typeAttr == [] || ContainsAny(s.typeAttr, LoginFieldTypes) then 5.0 else 2.0)
        else if s.tag == "textarea" then 3.0
        else if ContainsAny(s.tag, GenericContainerTags) then 0.1
        else 0.0;
      var keyword := if ContainsAny(s.text, LoginTextKeywords) then 2.0 else 0.0;
      var conflict := if ContainsAny(s.text, LoginConflictKeywords) then 2.0 else 0.0;
      test + tagSignal + keyword - conflict
  }

  function PasswordFieldScore(s: Signals): (r: real)
    ensures s.tag == "input" && s.typeAttr == "hidden" ==> r == 0.0
    ensures 0.0 <= r <= 11.5
    ensures s.tag == "input" && s.typeAttr == "password" ==> r >= 7.0
  {
    var test := TestValueSignal(s.testValue, PasswordKeywords);
    if s.tag == "input" && s.typeAttr == "hidden" then 0.0
    else
      var tagSignal :=
        if s.tag == "input" then 3.0 + (if s.typeAttr == "password" then 4.0 else 0.0)
        else if ContainsAny(s.tag, GenericContainerTags) then 0.1
        else 0.0;
      var keyword := if ContainsAny(s.text, PasswordKeywords) then 2.0 else 0.0;
      test + tagSignal + keyword
  }

  function LoginButtonScore(s: Signals): (r: real)
    ensures -1.5 <= r <= 8.5
    ensures r < 0.0 ==> ContainsAny(s.text, ButtonConflictKeywords)
  {
    var test := TestValueSignal(s.testValue, ButtonTestKeywords);
    var tagSignal :=
      if s.tag == "button" then 3.0
      else if s.tag == "input" && ContainsAny(s.typeAttr, ButtonTypes) then 3.0
      else if s.tag == "a" then 1.0
      else if ContainsAny(s.tag, GenericContainerTags) then 0.1
      else 0.0;
    var keyword := if ContainsAny(s.text, ButtonTextKeywords) then 3.0 else 0.0;
    var conflict := if ContainsAny(s.text, ButtonConflictKeywords) then 1.5 else 0.0;
    test + tagSignal + keyword - conflict
  }

  /** LOGIN_FIELD: hidden inputs score exactly 0; every other score lies in [-2, 9.5]. */
  function ScoreLoginField(e: DomElementInfo): (r: real)
    ensures IsHiddenInput(e) ==> r == 0.0
    ensures -2.0 <= r <= 9.5
  {
    LoginFieldScore(SignalsOf(e, FieldText(e)))
  }

  /** PASSWORD_FIELD: hidden inputs score exactly 0; the score is never negative and at most 11.5. */
  function ScorePasswordField(e: DomElementInfo): (r: real)
    ensures IsHiddenInput(e) ==> r == 0.0
    ensures 0.0 <= r <= 11.5
  {
    PasswordFieldScore(SignalsOf(e, FieldText(e)))
  }

  /** LOGIN_BUTTON: no hidden-input rule; the score lies in [-1.5, 8.5]. */
  function ScoreLoginButton(e: DomElementInfo): (r: real)
    ensures -1.5 <= r <= 8.5
  {
    LoginButtonScore(SignalsOf(e, ButtonText(e)))
  }

  /** `score(role, element)` for non-null arguments. */
  function Score(role: IntentRole, e: DomElementInfo): (r: real)
    ensures role != LoginButton && IsHiddenInput(e) ==> r == 0.0
    ensures role == PasswordField ==> 0.0 <= r
    ensures -2.0 <= r <= 11.5
  {
    match role
    case LoginField => ScoreLoginField(e)
    case PasswordField => ScorePasswordField(e)
    case LoginButton => ScoreLoginButton(e)
  }

  /** `score` with Java's nullable arguments: a missing role or element scores 0. */
  function ScoreNullable(role: Option<IntentRole>, e: Option<DomElementInfo>): (r: real)
    ensures role.None? || e.None? ==> r == 0.0
    ensures role.Some? && e.Some? ==> r == Score(role.value, e.value)
  {
    if role.None? || e.None? then 0.0 else Score(role.value, e.value)
  }

  /** Every field reduced to the form the scorer reads it through. */
  function Normalized(e: DomElementInfo): DomElementInfo {
    DomElementInfo(TrimLower(e.tagName), TrimLower(e.typeAttr), TrimLower(e.id), TrimLower(e.name),
                   TrimLower(e.cssClasses), TrimLower(e.testAttributeName), TrimLower(e.testAttributeValue),
                   TrimLower(e.labelText), TrimLower(e.placeholder), TrimLower(e.ariaLabel), TrimLower(e.title),
                   TrimLower(e.surroundingText), TrimLower(e.formIdentifier))
  }

  /** Lower-casing the joined text only depends on the lowered, trimmed parts. */
  lemma {:induction false} LowerJoinCongruence(ps: seq<string>, qs: seq<string>)
    requires |ps| == |qs|
    requires forall i :: 0 <= i < |ps| ==> TrimLower(ps[i]) == TrimLower(qs[i])
    ensures Lower(Join(ps)) == Lower(Join(qs))
  {
    if ps != [] {
      var n := |ps| - 1;
      LowerJoinCongruence(ps[..n], qs[..n]);
      var ti, tq := Trim(ps[n]), Trim(qs[n]);
      assert Lower(ti) == Lower(tq);
      assert |ti| == |tq|;
      var ip, iq := Join(ps[..n]), Join(qs[..n]);
      assert |ip| == |Lower(ip)| == |Lower(iq)| == |iq|;
      if ti != [] && ip != [] {
        LowerAppend(ip + " ", ti);
        LowerAppend(ip, " ");
        LowerAppend(iq + " ", tq);
        LowerAppend(iq, " ");
      }
    }
  }

  lemma LoweredJoinCongruence(ps: seq<string>, qs: seq<string>)
    requires |ps| == |qs|
    requires forall i :: 0 <= i < |ps| ==> TrimLower(ps[i]) == TrimLower(qs[i])
    ensures TrimLower(Join(ps)) == TrimLower(Join(qs))
  {
    LowerJoinCongruence(ps, qs);
    TrimOfTrimmed(Join(ps));
    TrimOfTrimmed(Join(qs));
  }

  /** Descriptors with one normalized form agree on every trimmed, lower-cased field. */
  lemma NormalizedFields(e: DomElementInfo, f: DomElementInfo)
    requires Normalized(e) == Normalized(f)
    ensures TrimLower(e.id) == TrimLower(f.id) && TrimLower(e.name) == TrimLower(f.name)
    ensures TrimLower(e.testAttributeName) == TrimLower(f.testAttributeName)
    ensures TrimLower(e.testAttributeValue) == TrimLower(f.testAttributeValue)
    ensures TrimLower(e.labelText) == TrimLower(f.labelText) && TrimLower(e.placeholder) == TrimLower(f.placeholder)
    ensures TrimLower(e.ariaLabel) == TrimLower(f.ariaLabel) && TrimLower(e.title) == TrimLower(f.title)
    ensures TrimLower(e.surroundingText) == TrimLower(f.surroundingText)
  {
    var ne, nf := Normalized(e), Normalized(f);
    assert ne.id == nf.id && ne.name == nf.name && ne.testAttributeName == nf.testAttributeName;
    assert ne.testAttributeValue == nf.testAttributeValue && ne.labelText == nf.labelText;
    assert ne.placeholder == nf.placeholder && ne.ariaLabel == nf.ariaLabel && ne.title == nf.title;
    assert ne.surroundingText == nf.surroundingText;
  }

  lemma FieldPartsCongruence(e: DomElementInfo, f: DomElementInfo)
    requires TrimLower(e.id) == TrimLower(f.id) && TrimLower(e.name) == TrimLower(f.name)
    requires TrimLower(e.testAttributeName) == TrimLower(f.testAttributeName)
    requires TrimLower(e.testAttributeValue) == TrimLower(f.testAttributeValue)
    requires TrimLower(e.labelText) == TrimLower(f.labelText) && TrimLower(e.placeholder) == TrimLower(f.placeholder)
    requires TrimLower(e.ariaLabel) == TrimLower(f.ariaLabel) && TrimLower(e.title) == TrimLower(f.title)
    requires TrimLower(e.surroundingText) == TrimLower(f.surroundingText)
    ensures forall i :: 0 <= i < |FieldParts(e)| ==> TrimLower(FieldParts(e)[i]) == TrimLower(FieldParts(f)[i])
  {
  }

  lemma ButtonPartsCongruence(e: DomElementInfo, f: DomElementInfo)
    requires TrimLower(e.id) == TrimLower(f.id) && TrimLower(e.name) == TrimLower(f.name)
    requires TrimLower(e.testAttributeName) == TrimLower(f.testAttributeName)
    requires TrimLower(e.testAttributeValue) == TrimLower(f.testAttributeValue)
    requires TrimLower(e.labelText) == TrimLower(f.labelText)
    requires TrimLower(e.ariaLabel) == TrimLower(f.ariaLabel) && TrimLower(e.title) == TrimLower(f.title)
    requires TrimLower(e.surroundingText) == TrimLower(f.surroundingText)
    ensures forall i :: 0 <= i < |ButtonParts(e)| ==> TrimLower(ButtonParts(e)[i]) == TrimLower(ButtonParts(f)[i])
  {
  }

  lemma FieldTextCongruence(e: DomElementInfo, f: DomElementInfo)
    requires Normalized(e) == Normalized(f)
    ensures TrimLower(FieldText(e)) == TrimLower(FieldText(f))
  {
    NormalizedFields(e, f);
    FieldPartsCongruence(e, f);
    LoweredJoinCongruence(FieldParts(e), FieldParts(f));
  }

  lemma ButtonTextCongruence(e: DomElementInfo, f: DomElementInfo)
    requires Normalized(e) == Normalized(f)
    ensures TrimLower(ButtonText(e)) == TrimLower(ButtonText(f))
  {
    NormalizedFields(e, f);
    ButtonPartsCongruence(e, f);
    LoweredJoinCongruence(ButtonParts(e), ButtonParts(f));
  }

  /**
   * The score reads every field only through its trimmed lower-case form: descriptors that
   * agree after trimming and lower-casing score the same for every role.
   */
  lemma ScoreIgnoresCaseAndPadding(role: IntentRole, e: DomElementInfo, f: DomElementInfo)
    requires Normalized(e) == Normalized(f)
    ensures Score(role, e) == Score(role, f)
  {
    FieldTextCongruence(e, f);
    ButtonTextCongruence(e, f);
    assert SignalsOf(e, FieldText(e)) == SignalsOf(f, FieldText(f));
    assert SignalsOf(e, ButtonText(e)) == SignalsOf(f, ButtonText(f));
  }
}
