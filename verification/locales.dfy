/**
 * Choosing the interface language on start-up: a valid stored choice wins,
 * then a Russian browser language, then English. Storage and the browser are
 * read by the caller and passed in.
 */
module Locales {
  import opened Common

  datatype Locale = En | Ru

  const SupportedLocales: seq<Locale> := [En, Ru]
  const DefaultLocale: Locale := En

  function Code(l: Locale): string {
    match l
    case En => "en"
    case Ru => "ru"
  }

  /** The stored-value schema: exactly the literal 'en' or 'ru'. */
  function ParseStoredLocale(stored: Option<string>): (r: Option<Locale>)
    ensures r.Some? <==> stored.Some? && stored.value in {"en", "ru"}
    ensures r.Some? ==> Code(r.value) == stored.value
  {
    match stored
    case None => None
    case Some(s) => if s == "en" then Some(En) else if s == "ru" then Some(Ru) else None
  }

  /**
   * `toLowerCase().startsWith('ru')`. The only characters whose lower case
   * is 'r' or 'u' are the two cases of each letter, and a lower-cased
   * prefix of two characters comes from the first two characters, so the
   * test reads the first two characters.
   */
  predicate StartsWithRu(language: string) {
    |language| >= 2 && language[0] in "rR" && language[1] in "uU"
  }

  /** `detectInitialLocale`, with the stored value and the browser language as parameters. */
  function DetectInitialLocale(stored: Option<string>, browserLanguage: string): (r: Locale)
    ensures r in SupportedLocales
    ensures r == Ru <==> stored == Some("ru") || (stored != Some("en") && StartsWithRu(browserLanguage))
  {
    match ParseStoredLocale(stored)
    case Some(l) => l
    case None => if StartsWithRu(browserLanguage) then Ru else DefaultLocale
  }

  /** A valid stored value is returned whatever the browser language. */
  lemma StoredLocaleWins(l: Locale, language: string)
    ensures DetectInitialLocale(Some(Code(l)), language) == l
  {
  }

  /** Any other stored value counts as nothing stored. */
  lemma InvalidStoredIgnored(stored: Option<string>, language: string)
    requires stored.None? || stored.value !in {"en", "ru"}
    ensures DetectInitialLocale(stored, language) == DetectInitialLocale(None, language)
    ensures DetectInitialLocale(stored, language) == (if StartsWithRu(language) then Ru else En)
  {
  }

  /** Saving the detected locale and detecting again gives the same locale (a fixed point). */
  lemma DetectAfterSave(stored: Option<string>, language: string)
    ensures var l := DetectInitialLocale(stored, language);
            DetectInitialLocale(Some(Code(l)), language) == l
  {
  }
}
