/**
 * `DefaultIntentResolver`: an exact-match phrase dictionary per language, consulted with the
 * trimmed, lower-cased phrase after three ordered guards (blank phrase, missing language,
 * unsupported language).
 */
module DefaultIntentResolver {
  import opened Wrappers
  import opened Text
  import opened DomElement

  /** The languages the caller can name; `Other` stands for any further constant of the enum. */
  datatype Language = EN | RU | Other(name: string)

  /** `Language.toString()`, as the error messages print it. */
  function LanguageName(language: Language): string {
    match language
    case EN => "EN"
    case RU => "RU"
    case Other(name) => name
  }

  const English: map<string, IntentRole> := map[
    "login field" := LoginField, "username field" := LoginField, "username" := LoginField,
    "user name" := LoginField, "email" := LoginField, "email field" := LoginField,
    "password field" := PasswordField, "password" := PasswordField, "pass field" := PasswordField,
    "login button" := LoginButton, "login" := LoginButton, "log in" := LoginButton,
    "sign in" := LoginButton]

  const Russian: map<string, IntentRole> := map[
    "поле логина" := LoginField, "логин" := LoginField, "имя пользователя" := LoginField,
    "юзернейм" := LoginField, "почта" := LoginField, "email" := LoginField,
    "поле пароля" := PasswordField, "пароль" := PasswordField, "пасс" := PasswordField,
    "кнопка входа" := LoginButton, "войти" := LoginButton, "вход" := LoginButton]

  /** The dictionary the constructor builds: one phrase map per supported language. */
  const Dictionary: map<Language, map<string, IntentRole>> := map[EN := English, RU := Russian]

  const BlankMessage: string := "Intent phrase must not be null or blank"
  const NullLanguageMessage: string := "Language must not be null"

  /** The phrase key: `raw.trim().toLowerCase(Locale.ROOT)`. */
  function Normalize(raw: string): string { TrimLower(raw) }

  /**
   * `resolveRole(rawIntent, language)`: `None` stands for a Java `null`; an `Err` carries the
   * message of the `IntentResolutionException`.
   */
  function ResolveRole(rawIntent: Option<string>, language: Option<Language>): Result<IntentRole> {
    if rawIntent.None? || IsBlank(rawIntent.value) then Err(BlankMessage)
    else if language.None? then Err(NullLanguageMessage)
    else
      var key := Normalize(rawIntent.value);
      if language.value !in Dictionary then Err("Language not supported: " + LanguageName(language.value))
      else if key !in Dictionary[language.value] then
        Err(UnknownIntentText(LanguageName(language.value), rawIntent.value))
      else Ok(Dictionary[language.value][key])
  }

  /** An occurrence of a part in a concatenation. */
  lemma ContainsPart(a: string, b: string, c: string)
    ensures Contains(a + b + c, b)
  {
    assert StartsWith(b, b);
    ContainsInMiddle(a, b, c, b);
  }

  lemma BlankMessageNamesTheRule()
    ensures OccursAt(BlankMessage, "must not be null or blank", 14)
  {
    var phrase := "must not be null or blank";
    assert BlankMessage == "Intent phrase " + phrase;
    assert BlankMessage[14..14 + |phrase|] == phrase;
  }

  /** A null or blank phrase fails with the blank-phrase message whatever the language, even a null one. */
  lemma BlankCheckedFirst(rawIntent: Option<string>, language: Option<Language>)
    requires rawIntent.None? || IsBlank(rawIntent.value)
    ensures ResolveRole(rawIntent, language) == ResolveRole(rawIntent, None) == Err(BlankMessage)
    ensures OccursAt(ResolveRole(rawIntent, language).error, "must not be null or blank", 14)
  {
    BlankMessageNamesTheRule();
  }

  /** A non-blank phrase with a null language fails with a message naming the language parameter. */
  lemma NullLanguageRejected(raw: string)
    requires !IsBlank(raw)
    ensures ResolveRole(Some(raw), None).Err?
    ensures OccursAt(ResolveRole(Some(raw), None).error, "Language", 0)
  {
  }

  /** A language outside the dictionary fails with "Language not supported", whatever the phrase. */
  lemma UnsupportedLanguageRejected(raw: string, language: Language)
    requires !IsBlank(raw)
    requires language.Other?
    ensures ResolveRole(Some(raw), Some(language)).Err?
    ensures StartsWith(ResolveRole(Some(raw), Some(language)).error, "Language not supported")
  {
    var msg := "Language not supported: " + LanguageName(language);
    assert msg[..|"Language not supported"|] == "Language not supported";
  }

  /** The unknown-intent message text for a language name and a raw phrase. */
  function UnknownIntentText(name: string, raw: string): string {
    "Unknown intent for language " + name + ": '" + raw + "'"
  }

  lemma UnknownIntentTextMentions(name: string, raw: string)
    ensures Contains(UnknownIntentText(name, raw), "Unknown intent")
    ensures Contains(UnknownIntentText(name, raw), name)
    ensures Contains(UnknownIntentText(name, raw), raw)
  {
    var head := "Unknown intent for language ";
    var msg := UnknownIntentText(name, raw);
    assert head == "Unknown intent" + " for language ";
    assert msg == "" + "Unknown intent" + (" for language " + name + ": '" + raw + "'");
    ContainsPart("", "Unknown intent", " for language " + name + ": '" + raw + "'");
    assert msg == head + name + (": '" + raw + "'");
    ContainsPart(head, name, ": '" + raw + "'");
    assert msg == (head + name + ": '") + raw + "'";
    ContainsPart(head + name + ": '", raw, "'");
  }

  /** A phrase missing from the language's map fails with "Unknown intent", naming the language and the raw phrase. */
  lemma UnknownIntentMessage(raw: string, language: Language)
    requires !IsBlank(raw)
    requires language in Dictionary && Normalize(raw) !in Dictionary[language]
    ensures ResolveRole(Some(raw), Some(language)).Err?
    ensures Contains(ResolveRole(Some(raw), Some(language)).error, "Unknown intent")
    ensures Contains(ResolveRole(Some(raw), Some(language)).error, LanguageName(language))
    ensures Contains(ResolveRole(Some(raw), Some(language)).error, raw)
  {
    UnknownIntentTextMentions(LanguageName(language), raw);
  }

  /**
   * A successful resolution is exactly a dictionary hit: the language is supported, the
   * phrase is non-blank, and its trimmed lower-case form is a key of that language's map.
   */
  lemma ResolvedIffInDictionary(raw: string, language: Language, role: IntentRole)
    ensures ResolveRole(Some(raw), Some(language)) == Ok(role) <==>
      !IsBlank(raw) && language in Dictionary && Normalize(raw) in Dictionary[language]
      && Dictionary[language][Normalize(raw)] == role
  {
  }

  /**
   * Case and surrounding padding are ignored: two non-blank phrases with the same trimmed
   * lower-case form resolve to the same role or both fail.
   */
  lemma ResolveIgnoresCaseAndPadding(a: string, b: string, language: Option<Language>)
    requires !IsBlank(a) && !IsBlank(b)
    requires TrimLower(a) == TrimLower(b)
    ensures ResolveRole(Some(a), language).Ok? <==> ResolveRole(Some(b), language).Ok?
    ensures ResolveRole(Some(a), language).Ok? ==> ResolveRole(Some(a), language) == ResolveRole(Some(b), language)
  {
  }

  /** The characters dictionary phrases are written with: a space, or a lower-case ASCII or Cyrillic letter. */
  predicate PhraseChar(c: char) { c == ' ' || ('a' <= c <= 'z') || ('\U{430}' <= c <= '\U{44F}') }

  /** A dictionary phrase: non-empty, lower-case, with no space at either end. */
  predicate PhraseForm(k: string) {
    k != [] && k[0] != ' ' && k[|k| - 1] != ' ' && forall i :: 0 <= i < |k| ==> PhraseChar(k[i])
  }

  lemma {:induction false} LowerOfLowerCase(k: string)
    requires forall i :: 0 <= i < |k| ==> PhraseChar(k[i])
    ensures Lower(k) == k
  {
    if k != [] {
      LowerOfLowerCase(k[1..]);
      assert k == [k[0]] + k[1..];
    }
  }

  /** A phrase in dictionary form is its own key and is not blank. */
  lemma PhraseIsOwnKey(k: string)
    requires PhraseForm(k)
    ensures Normalize(k) == k && !IsBlank(k)
  {
    assert PhraseChar(k[0]) && PhraseChar(k[|k| - 1]);
    TrimOfTrimmed(k);
    LowerOfLowerCase(k);
  }

  lemma EnglishPhrasesWellFormed()
    ensures forall k | k in English :: PhraseForm(k)
  {
  }

  lemma RussianPhrasesWellFormed()
    ensures forall k | k in Russian :: PhraseForm(k)
  {
  }

  /**
   * Every dictionary entry is reachable: resolving a phrase exactly as stored yields the role
   * stored for it, so no entry is shadowed by normalisation.
   */
  lemma EveryEntryResolves(language: Language, phrase: string)
    requires language in Dictionary && phrase in Dictionary[language]
    ensures ResolveRole(Some(phrase), Some(language)) == Ok(Dictionary[language][phrase])
  {
    EnglishPhrasesWellFormed();
    RussianPhrasesWellFormed();
    PhraseIsOwnKey(phrase);
  }

  /**
   * The tested phrases, one per role and language, are stored entries; with
   * `EveryEntryResolves` each resolves to its role.
   */
  lemma TestedPhrases()
    ensures "login field" in Dictionary[EN] && Dictionary[EN]["login field"] == LoginField
    ensures "password" in Dictionary[EN] && Dictionary[EN]["password"] == PasswordField
    ensures "sign in" in Dictionary[EN] && Dictionary[EN]["sign in"] == LoginButton
    ensures "поле логина" in Dictionary[RU] && Dictionary[RU]["поле логина"] == LoginField
    ensures "пароль" in Dictionary[RU] && Dictionary[RU]["пароль"] == PasswordField
    ensures "войти" in Dictionary[RU] && Dictionary[RU]["войти"] == LoginButton
  {
  }

  /** The maps are per language: EN "login" is the button, RU "логин" the field, "email" the field in both. */
  lemma DictionariesPerLanguage()
    ensures Dictionary[EN]["login"] == LoginButton && "login" !in Dictionary[RU]
    ensures Dictionary[RU]["логин"] == LoginField && "логин" !in Dictionary[EN]
    ensures Dictionary[EN]["email"] == LoginField && Dictionary[RU]["email"] == LoginField
  {
  }
}
