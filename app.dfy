/** The first, unauthenticated translate screen (frontend/src/App.tsx): the
    same state and `handleTranslate` as the signed-in screen, except that the
    request carries no `Authorization` header. */
module App {
  import opened Optional
  import opened JsText
  import opened TranslateInput

  class AppView {
    var text: string
    var translated: string
    var targetLang: string
    var loading: bool
    var error: string

    constructor ()
      ensures text == "" && translated == "" && targetLang == ""
      ensures !loading && error == ""
    {
      text, translated, targetLang := "", "", "";
      loading, error := false, "";
    }

    /** The text area's `onChange`. */
    method SetText(value: string)
      modifies this
      ensures text == value
      ensures translated == old(translated) && targetLang == old(targetLang)
      ensures loading == old(loading) && error == old(error)
    {
      text := value;
    }

    /** The language selector's `onChange`. */
    method SetTargetLang(value: string)
      modifies this
      ensures targetLang == value
      ensures text == old(text) && translated == old(translated)
      ensures loading == old(loading) && error == old(error)
    {
      targetLang := value;
    }

    /** The translate button's `disabled`. */
    predicate ButtonDisabled()
      reads this
    {
      loading || targetLang == ""
    }

    /** `handleTranslate`, run to completion with the request's outcome
      `reply`. `sent` is the request it issues, if any. */
    method HandleTranslate(reply: TranslateReply)
      returns (sent: Option<TranslateCall>)
      modifies this
      ensures text == old(text) && targetLang == old(targetLang)
      // refused input: the message, no request, nothing else changes
      ensures Validate(old(text), old(targetLang)).Some? ==>
        && sent.None?
        && error == Validate(old(text), old(targetLang)).value
        && loading == old(loading) && translated == old(translated)
      // accepted input: the untrimmed text and the language go out, with no token
      ensures Validate(old(text), old(targetLang)).None? ==>
        && sent == Some(TranslateCall(text, targetLang, None))
        && error == ""
        && translated == ShownTranslation(reply)
        && !loading
        && !ButtonDisabled()
    {
      var invalid := Validate(text, targetLang);
      if invalid.Some? {
        error := invalid.value;
        return None;
      }
      error := "";
      loading := true;
      sent := Some(TranslateCall(text, targetLang, None));
      match reply {
        case Parsed(t) =>
          translated := if t.Some? then t.value else "";
        case Rejected(_) =>
          translated := TRANSLATION_FAILED;
      }
      loading := false;
    }
  }
}
