/** What the front-end handlers see of the outside world: the outcome of one
    `fetch` (reduced to "ok with a body", "not ok with an error body", or
    "threw"), and the browser's local storage, where the bearer token lives. */
module Client {
  import opened Optional

  /** The value a rejected promise carries into a `catch` block. */
  datatype Thrown =
    | ErrorValue(message: string)   // an `Error` (what `fetch`, `json()` and `throw new Error` produce)
    | NonErrorValue                 // anything else that was thrown

  /** The outcome of one request, as the handler's code can tell it apart:
      `response.ok` with the parsed body, a response that is not ok with the
      `detail` field of its JSON error body (absent or not), or a rejection. */
  datatype Response<T> =
    | Ok(body: T)
    | NotOk(detail: Option<string>)
    | Threw(thrown: Thrown)

  /** `err.message` shown as the error text. A non-`Error` value has no
      message; `undefined` renders as nothing, the same as the empty text. */
  function MessageOf(thrown: Thrown): (msg: string)
    ensures thrown.ErrorValue? ==> msg == thrown.message
    ensures thrown.NonErrorValue? ==> msg == ""
  {
    match thrown
    case ErrorValue(m) => m
    case NonErrorValue => ""
  }

  /** `data.detail || fallback`: the server's reason when it gave a non-empty
      one, the fallback otherwise. */
  function DetailOr(detail: Option<string>, fallback: string): (msg: string)
    ensures detail.Some? && detail.value != "" ==> msg == detail.value
    ensures detail.None? || detail.value == "" ==> msg == fallback
    ensures fallback != "" ==> msg != ""
  {
    if detail.Some? && detail.value != "" then detail.value else fallback
  }

  /** The text a sign-in or registration form shows for a failed request:
      a response that is not ok is turned into `new Error(detail || fallback)`,
      and the `catch` shows an `Error`'s message and `unexpected` for any
      other thrown value. */
  function CaughtMessage<T>(response: Response<T>, fallback: string, unexpected: string): (msg: string)
    requires !response.Ok?
    ensures response.NotOk? ==> msg == DetailOr(response.detail, fallback)
    ensures response.Threw? && response.thrown.ErrorValue? ==> msg == response.thrown.message
    ensures response.Threw? && response.thrown.NonErrorValue? ==> msg == unexpected
    ensures response.NotOk? && fallback != "" ==> msg != ""
  {
    match response
    case NotOk(detail) => DetailOr(detail, fallback)
    case Threw(thrown) =>
      match thrown
      case ErrorValue(m) => m
      case NonErrorValue => unexpected
  }

  /** The body of a successful `/login`. */
  datatype TokenBody = TokenBody(accessToken: string, tokenType: string)

  /** The local-storage slot that holds the bearer token. */
  const TOKEN_KEY: string := "token"

  /** The value of `Authorization: Bearer ${token}` for a token read with
      `localStorage.getItem`; a missing token interpolates as `null`. */
  function BearerHeader(token: Option<string>): (header: string)
    ensures token.Some? ==> header == "Bearer " + token.value
    ensures token.None? ==> header == "Bearer null"
  {
    "Bearer " + if token.Some? then token.value else "null"
  }

  /** The browser's `localStorage`: a string-to-string map shared by every
      component of the page. */
  class LocalStorage {
    var entries: map<string, string>

    constructor (initial: map<string, string>)
      ensures entries == initial
    {
      entries := initial;
    }

    /** `localStorage.getItem(key)`: `null` (here `None`) for a missing key. */
    function GetItem(key: string): (value: Option<string>)
      reads this
      ensures key in entries <==> value.Some?
      ensures value.Some? ==> value.value == entries[key]
    {
      if key in entries then Some(entries[key]) else None
    }

    /** `localStorage.setItem(key, value)`: writes one slot, leaves the others. */
    method SetItem(key: string, value: string)
      modifies this
      ensures entries == old(entries)[key := value]
      ensures GetItem(key) == Some(value)
      ensures forall k :: k != key ==> GetItem(k) == old(GetItem(k))
    {
      entries := entries[key := value];
    }
  }
}
