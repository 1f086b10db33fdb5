/**
 * Best-effort translation of news text from English to Russian.
 * The translation service itself is an uninterpreted, partial function:
 * it is given the text and the language pair, and answers None when the
 * call raises (network error, quota, malformed response).
 */
module Translation {
  import opened Wrappers

  const SourceLang := "en"
  const DestLang := "ru"

  /** The external translator: (text, source language, destination language). */
  type Translator = (string, string, string) -> Option<string>

  /** Translates `text`, or hands it back unchanged when the translator fails. */
  function TranslateText(translate: Translator, text: string): (r: string)
    ensures translate(text, SourceLang, DestLang).None? ==> r == text
    ensures translate(text, SourceLang, DestLang).Some? ==> r == translate(text, SourceLang, DestLang).value
  {
    match translate(text, SourceLang, DestLang)
    case Some(translated) => translated
    case None => text
  }

  /** A translator that is down for every text. */
  function Outage(): Translator
  {
    (text: string, src: string, dst: string) => None
  }

  /** Under a complete outage translation is the identity, and so idempotent. */
  lemma OutageKeepsText(text: string)
    ensures TranslateText(Outage(), text) == text
    ensures TranslateText(Outage(), TranslateText(Outage(), text)) == text
  {
  }
}
