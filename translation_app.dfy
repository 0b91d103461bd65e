/** The signed-in translate screen (frontend/src/pages/TranslationApp.tsx):
    its state and its `handleTranslate`, which sends the stored token. */
module TranslationApp {
  import opened Optional
  import opened JsText
  import opened Client
  import opened TranslateInput

  class TranslationAppView {
    var text: string
    var translated: string
    var targetLang: string
    var loading: bool
    var error: string

    constructor ()
      ensures text == "" && translated == "" && targetLang == ""
      ensures !loading && error == ""
    {
      text, translated, targetLang := "", "", "";
      loading, error := false, "";
    }

    /** The text area's `onChange`. */
    method SetText(value: string)
      modifies this
      ensures text == value
      ensures translated == old(translated) && targetLang == old(targetLang)
      ensures loading == old(loading) && error == old(error)
    {
      text := value;
    }

    /** The language selector's `onChange`. */
    method SetTargetLang(value: string)
      modifies this
      ensures targetLang == value
      ensures text == old(text) && translated == old(translated)
      ensures loading == old(loading) && error == old(error)
    {
      targetLang := value;
    }

    /** The translate button's `disabled`. */
    predicate ButtonDisabled()
      reads this
    {
      loading || targetLang == ""
    }

    /** `handleTranslate`, run to completion with the request's outcome
      `reply`. `sent` is the request it issues, if any. */
    method HandleTranslate(storage: LocalStorage, reply: TranslateReply)
      returns (sent: Option<TranslateCall>)
      modifies this
      ensures text == old(text) && targetLang == old(targetLang)
      // refused input: the message, no request, nothing else changes
      ensures Validate(old(text), old(targetLang)).Some? ==>
        && sent.None?
        && error == Validate(old(text), old(targetLang)).value
        && loading == old(loading) && translated == old(translated)
      // accepted input: the untrimmed text, the language and the stored token go out
      ensures Validate(old(text), old(targetLang)).None? ==>
        && sent.Some? && sent.value.text == text && sent.value.targetLang == targetLang
        && sent.value.authorization == Some(BearerHeader(old(storage.GetItem(TOKEN_KEY))))
        && error == ""
        && translated == ShownTranslation(reply)
        && !loading
        && !ButtonDisabled()
    {
      var token := storage.GetItem(TOKEN_KEY);
      var invalid := Validate(text, targetLang);
      if invalid.Some? {
        error := invalid.value;
        return None;
      }
      error := "";
      loading := true;
      sent := Some(TranslateCall(text, targetLang, Some(BearerHeader(token))));
      match reply {
        case Parsed(t) =>
          translated := if t.Some? then t.value else "";
        case Rejected(_) =>
          translated := TRANSLATION_FAILED;
      }
      loading := false;
    }
  }
}
