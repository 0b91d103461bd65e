/** The translation-history dialog
    (frontend/src/components/TranslationHistory.tsx): the list it shows, its
    loading flag and error text, and the handlers that fetch the list, delete
    one entry and delete them all. */
module History {
  import opened Optional
  import opened Client
  import opened Languages

  /** One record of `/translations/history`, as the dialog receives it. */
  datatype HistoryItem = HistoryItem(
    id: int,
    sourceText: string,
    translatedText: string,
    sourceLang: Option<string>,
    targetLang: string,
    createdAt: string)

  /** A request the dialog sends, with its `Authorization` header. */
  datatype HistoryRequest =
    | ListHistory(authorization: string)              // GET /translations/history
    | DeleteOne(id: int, authorization: string)       // DELETE /translations/history/{id}
    | DeleteAll(authorization: string)                // DELETE /translations/history

  const FETCH_FAILED: string := "履歴の取得に失敗しました"
  const DELETE_FAILED: string := "削除に失敗しました"
  const CLEAR_FAILED: string := "履歴の削除に失敗しました"

  /** The error text a failed request leaves: the handler's own message when
      the response is not ok, the thrown value's message otherwise. */
  function FailureText<T>(response: Response<T>, notOkMessage: string): (text: string)
    requires !response.Ok?
    ensures response.NotOk? ==> text == notOkMessage
    ensures response.Threw? ==> text == MessageOf(response.thrown)
  {
    if response.NotOk? then notOkMessage else MessageOf(response.thrown)
  }

  /** The heading line of one entry: its languages, source then target. */
  function LanguageLine(item: HistoryItem): (line: (string, string))
    ensures item.targetLang in LANGUAGE_NAMES ==> line.1 == LANGUAGE_NAMES[item.targetLang]
    ensures item.targetLang !in LANGUAGE_NAMES ==> line.1 == item.targetLang
    ensures item.sourceLang.None? || item.sourceLang.value == "" ==> line.0 == "auto"
    ensures item.sourceLang.Some? && item.sourceLang.value in LANGUAGE_NAMES ==>
      line.0 == LANGUAGE_NAMES[item.sourceLang.value]
    ensures item.sourceLang.Some? && item.sourceLang.value != "" && item.sourceLang.value !in LANGUAGE_NAMES ==>
      line.0 == item.sourceLang.value
  {
    (SourceLanguageLabel(item.sourceLang), LanguageName(item.targetLang))
  }

  class HistoryView {
    var history: seq<HistoryItem>
    var loading: bool
    var error: string

    constructor ()
      ensures history == [] && !loading && error == ""
    {
      history, loading, error := [], false, "";
    }

    /** The "delete all" button is shown only when there is something to delete. */
    predicate ClearAllOffered()
      reads this
    {
      |history| > 0
    }

    /** `fetchHistory`, run to completion with the outcome of the GET. */
    method FetchHistory(storage: LocalStorage, response: Response<seq<HistoryItem>>)
      returns (sent: seq<HistoryRequest>)
      modifies this
      ensures sent == [ListHistory(BearerHeader(storage.GetItem(TOKEN_KEY)))]
      ensures !loading
      // the list is replaced wholesale, and the error cleared, on success only
      ensures response.Ok? ==> history == response.body && error == ""
      ensures !response.Ok? ==> history == old(history) && error == FailureText(response, FETCH_FAILED)
    {
      loading := true;
      error := "";
      var token := storage.GetItem(TOKEN_KEY);
      sent := [ListHistory(BearerHeader(token))];
      match response {
        case Ok(data) =>
          history := data;
        case NotOk(_) =>
          error := FETCH_FAILED;
        case Threw(thrown) =>
          error := MessageOf(thrown);
      }
      loading := false;
    }

    /** `deleteTranslation(id)` with the outcome of the DELETE and, when that
      succeeds, of the fetch it then starts. The list is never edited here:
      only the refetch changes it. */
    method DeleteTranslation(storage: LocalStorage, id: int, response: Response<()>,
                             refetch: Response<seq<HistoryItem>>)
      returns (sent: seq<HistoryRequest>)
      modifies this
      ensures |sent| >= 1 && sent[0] == DeleteOne(id, BearerHeader(storage.GetItem(TOKEN_KEY)))
      // failed delete: one request, the error set, the list and the flag kept
      ensures !response.Ok? ==>
        && |sent| == 1
        && history == old(history) && loading == old(loading)
        && error == FailureText(response, DELETE_FAILED)
      // successful delete: the refetch follows and decides the new state
      ensures response.Ok? ==>
        && sent == [DeleteOne(id, BearerHeader(storage.GetItem(TOKEN_KEY))),
                    ListHistory(BearerHeader(storage.GetItem(TOKEN_KEY)))]
        && !loading
        && (refetch.Ok? ==> history == refetch.body && error == "")
        && (!refetch.Ok? ==> history == old(history) && error == FailureText(refetch, FETCH_FAILED))
    {
      var token := storage.GetItem(TOKEN_KEY);
      sent := [DeleteOne(id, BearerHeader(token))];
      match response {
        case Ok(_) =>
          var again := FetchHistory(storage, refetch);
          sent := sent + again;
        case NotOk(_) =>
          error := DELETE_FAILED;
        case Threw(thrown) =>
          error := MessageOf(thrown);
      }
    }

    /** `clearAllHistory`: `confirmed` is the user's answer to the
      confirmation prompt, `response` the outcome of the DELETE. */
    method ClearAllHistory(storage: LocalStorage, confirmed: bool, response: Response<()>)
      returns (sent: seq<HistoryRequest>)
      modifies this
      // declined: no request and no change at all
      ensures !confirmed ==>
        sent == [] && history == old(history) && loading == old(loading) && error == old(error)
      ensures confirmed ==> sent == [DeleteAll(BearerHeader(storage.GetItem(TOKEN_KEY)))]
      ensures loading == old(loading)
      // success empties the list (so the button goes away) and leaves the error text
      ensures confirmed && response.Ok? ==> history == [] && !ClearAllOffered() && error == old(error)
      ensures confirmed && !response.Ok? ==>
        history == old(history) && error == FailureText(response, CLEAR_FAILED)
    {
      if !confirmed {
        return [];
      }
      var token := storage.GetItem(TOKEN_KEY);
      sent := [DeleteAll(BearerHeader(token))];
      match response {
        case Ok(_) =>
          history := [];
        case NotOk(_) =>
          error := CLEAR_FAILED;
        case Threw(thrown) =>
          error := MessageOf(thrown);
      }
    }

    /** The effect on `isVisible`: the list is fetched when the dialog is
      shown, and nothing happens when it is hidden. */
    method OnVisibilityChange(storage: LocalStorage, isVisible: bool,
                              response: Response<seq<HistoryItem>>)
      returns (sent: seq<HistoryRequest>)
      modifies this
      ensures !isVisible ==>
        sent == [] && history == old(history) && loading == old(loading) && error == old(error)
      ensures isVisible ==>
        && sent == [ListHistory(BearerHeader(storage.GetItem(TOKEN_KEY)))]
        && !loading
        && (response.Ok? ==> history == response.body && error == "")
        && (!response.Ok? ==> history == old(history) && error == FailureText(response, FETCH_FAILED))
    {
      sent := [];
      if isVisible {
        sent := FetchHistory(storage, response);
      }
    }
  }
}
