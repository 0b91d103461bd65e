/** The stand-alone translate form (frontend/src/components/TranslateForm.tsx):
    it refuses to send a request without a stored token and checks
    `response.ok` before reading the translation. */
module TranslateForm {
  import opened Optional
  import opened Client
  import opened TranslateInput

  const LOGIN_REQUIRED: string := "ログインが必要です"
  const REQUEST_FAILED: string := "翻訳リクエストに失敗しました"

  /** Language selected when the form first renders. */
  const INITIAL_TARGET_LANG: string := "ja"

  /** `if (!token)`: no token slot, or an empty one. */
  predicate HasToken(token: Option<string>)
  {
    token.Some? && token.value != ""
  }

  class TranslateFormView {
    var text: string
    var targetLang: string
    var result: string
    var error: string

    constructor ()
      ensures text == "" && targetLang == INITIAL_TARGET_LANG
      ensures result == "" && error == ""
    {
      text, targetLang := "", INITIAL_TARGET_LANG;
      result, error := "", "";
    }

    /** The text area's `onChange`. */
    method SetText(value: string)
      modifies this
      ensures text == value
      ensures targetLang == old(targetLang) && result == old(result) && error == old(error)
    {
      text := value;
    }

    /** The language selector's `onChange`. */
    method SetTargetLang(value: string)
      modifies this
      ensures targetLang == value
      ensures text == old(text) && result == old(result) && error == old(error)
    {
      targetLang := value;
    }

    /** `handleTranslate`, run to completion with the request's outcome
      `response` (whose body is `translated_text`). `sent` is the request it
      issues, if any. */
    method HandleTranslate(storage: LocalStorage, response: Response<string>)
      returns (sent: Option<TranslateCall>)
      modifies this
      ensures text == old(text) && targetLang == old(targetLang)
      // no token: the login message, no request, no result
      ensures !HasToken(storage.GetItem(TOKEN_KEY)) ==>
        sent.None? && error == LOGIN_REQUIRED && result == ""
      // a token: the text and language go out with it; exactly one of
      // `result` and `error` is filled in
      ensures HasToken(storage.GetItem(TOKEN_KEY)) ==>
        && sent.Some? && sent.value.text == text && sent.value.targetLang == targetLang
        && sent.value.authorization == Some(BearerHeader(storage.GetItem(TOKEN_KEY)))
        && (response.Ok? ==> result == response.body && error == "")
        && (response.NotOk? ==> result == "" && error == REQUEST_FAILED)
        && (response.Threw? ==> result == "" && error == MessageOf(response.thrown))
    {
      error := "";
      result := "";
      var token := storage.GetItem(TOKEN_KEY);
      if !HasToken(token) {
        error := LOGIN_REQUIRED;
        return None;
      }
      sent := Some(TranslateCall(text, targetLang, Some(BearerHeader(token))));
      match response {
        case Ok(translatedText) =>
          result := translatedText;
        case NotOk(_) =>
          error := REQUEST_FAILED;
        case Threw(thrown) =>
          error := MessageOf(thrown);
      }
    }
  }
}
