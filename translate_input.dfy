/** What the two translate screens (frontend/src/pages/TranslationApp.tsx and
    frontend/src/App.tsx) share: the input check run before any request, the
    request they send, and how they read the reply. */
module TranslateInput {
  import opened Optional
  import opened JsText
  import opened Client

  const TEXT_REQUIRED: string := "翻訳する文章を入力してください"
  const LANGUAGE_REQUIRED: string := "翻訳する言語を選択してください"

  /** Shown in place of a translation when the request rejects. */
  const TRANSLATION_FAILED: string := "翻訳に失敗しました"

  /** The body of a `/translate` request and its `Authorization` header,
      if one is sent. */
  datatype TranslateCall = TranslateCall(text: string, targetLang: string, authorization: Option<string>)

  /** The reply as these screens read it: they never look at `response.ok`,
      only at the `translated_text` field of the parsed body, which may be
      missing; or the request (or the parsing) rejects. */
  datatype TranslateReply =
    | Parsed(translatedText: Option<string>)
    | Rejected(thrown: Thrown)

  /** The checks at the top of `handleTranslate`, in their order: the text
      first, then the language. `None` lets the request go out. */
  function Validate(text: string, targetLang: string): (error: Option<string>)
    ensures error == Some(TEXT_REQUIRED) <==> IsBlank(text)
    ensures error == Some(LANGUAGE_REQUIRED) <==> !IsBlank(text) && targetLang == ""
    ensures error.None? <==> !IsBlank(text) && targetLang != ""
  {
    if IsBlank(text) then Some(TEXT_REQUIRED)
    else if targetLang == "" then Some(LANGUAGE_REQUIRED)
    else None
  }

  /** The value `translated` takes once the request settles: the reply's
      `translated_text` (a missing field is `undefined`, which renders as
      nothing), or the fixed failure text when the request rejects. */
  function ShownTranslation(reply: TranslateReply): (shown: string)
    ensures reply.Parsed? && reply.translatedText.Some? ==> shown == reply.translatedText.value
    ensures reply.Parsed? && reply.translatedText.None? ==> shown == ""
    ensures reply.Rejected? ==> shown == TRANSLATION_FAILED
  {
    match reply
    case Parsed(t) => if t.Some? then t.value else ""
    case Rejected(_) => TRANSLATION_FAILED
  }
}
