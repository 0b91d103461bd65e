# Translation app: a verified model of its request logic

The repository is a small translation web application. A FastAPI backend
exposes `/translate`, which cuts the posted text into slices of at most 500
characters, translates each slice with googletrans and joins the results. A
React front end has sign-in and registration forms, three translate screens,
and a dialog that lists, deletes and clears the user's translation history.

This project models, in Dafny:

- the backend's chunked translation (`ChunkedTranslation`): the slicing
  comprehension as a function, the translate-and-join loop as a method with
  loop invariants, and the round trip "the slices join back to the text";
- the history dialog (`History`): a class with the dialog's `history`,
  `loading` and `error` state and its three handlers, plus the language-name
  lookup (`Languages`);
- the three translate handlers (`TranslationApp`, `App`, `TranslateForm`),
  with the input check they share (`TranslateInput`) and JavaScript's
  `trim` (`JsText`);
- the sign-in and registration handlers (`LoginPage`, `LegacyLogin`,
  `RegisterForm`), writing the token into a model of the browser's local
  storage (`Client.LocalStorage`).

Every network call is replaced by an abstract outcome that the handler gets
as a parameter, and each handler runs to completion on it. The history
dialog, the stand-alone translate form and the three sign-in and
registration forms take a `Client.Response`: ok with a body, not ok with an
optional `detail`, or a thrown value. The translate screens of
`pages/TranslationApp.tsx` and `App.tsx`, which never look at `response.ok`,
take a `TranslateInput.TranslateReply` instead: a parsed body whose
`translated_text` may be missing, or a rejection. The
googletrans translator is a function parameter of type
`(string, string) -> Option<string>`, `None` standing for a raised exception.
A handler's out-parameter `sent` records the requests it issues, with their
bodies and the `Authorization` header the code builds, so "no request" is
`sent == None` or `sent == []`.

Some things the code does not do, and the model therefore does not either:

- there is no generation counter: overlapping translate calls are not
  guarded, and the model treats each call as atomic;
- no handler logs out on an authentication failure, and the history
  handlers send `Authorization: Bearer null` when no token is stored
  (`Client.BearerHeader`) rather than failing locally;
- the history dialog formats dates with `toLocaleString`; it has no
  relative-time buckets;
- the translate screens of `pages/TranslationApp.tsx` and `App.tsx` never
  look at `response.ok`: a response that is not ok but still carries a JSON
  body without `translated_text` shows an empty translation and no error,
  while a request that rejects (the `fetch` itself fails, or the body does
  not parse as JSON) shows the fixed failure text `"翻訳に失敗しました"`,
  again with no error;
- deleting an entry never edits the list locally; only the refetch that
  follows a successful delete changes it.

## Model

| member | source | states |
|---|---|---|
| ChunkedTranslation.NewRequest | backend/main.py:18-20 | the request keeps its text; an omitted `target_lang` becomes `"en"`, a given one is kept |
| ChunkedTranslation.ChunkCountBounds | backend/main.py:27 | the number of slices is the ceiling of length/500: enough slices to cover the text, one fewer would not, zero exactly for empty text |
| ChunkedTranslation.Chunks | backend/main.py:22-27 | slice k is `text[500k .. min(500k+500, len)]`; there are ⌈len/500⌉ slices, none for empty text; every slice is non-empty and at most 500 long, and every slice but the last is exactly 500 long |
| ChunkedTranslation.ConcatChunksPrefix | backend/main.py:27 | joining the first k slices gives the first min(500k, len) characters of the text |
| ChunkedTranslation.ChunksRoundTrip | backend/main.py:27 | the slices joined in order are exactly the input text |
| ChunkedTranslation.Outputs | backend/main.py:29-31 | when no call raises, one output per slice, each the translator's result for that slice and the target language |
| ChunkedTranslation.FirstFailure | backend/main.py:29-33 | when some call raises, the index of the first slice whose call raises; every earlier call succeeds |
| ChunkedTranslation.TranslatedStep | backend/main.py:31 | one more successful slice appends its translation to the output built so far |
| ChunkedTranslation.FailureAt | backend/main.py:30-33 | a raising call right after a run of successful ones is the first failure |
| ChunkedTranslation.TranslateChunks | backend/main.py:28-34 | the loop calls the translator on the slices in order, each with `dest` equal to the target language; with no failure it makes one call per slice and replies with the outputs joined in order; on a failure it stops right after the first raising call and replies with the fixed failure text, dropping partial output |
| ChunkedTranslation.Translate | backend/main.py:24-34 | the endpoint: the loop's guarantees over the request's slices and target language; empty text makes no call and replies `""` |
| ChunkedTranslation.IdentityTranslationRoundTrip | backend/main.py:27-34 | with a translator that returns each slice unchanged, every call succeeds and the reply is the request text: nothing is lost or repeated at the seams |
| JsText.TrimStart | frontend/src/pages/TranslationApp.tsx:22 | the result is a suffix of the input, starts with no white space, and everything dropped is white space; it is empty exactly when the input is all white space |
| JsText.TrimEnd | frontend/src/pages/TranslationApp.tsx:22 | the result is a prefix of the input, ends with no white space, and everything dropped is white space; it is empty exactly when the input is all white space |
| JsText.TrimEmptyIffBlank | frontend/src/pages/TranslationApp.tsx:22 | `text.trim()` is empty exactly when every character of the text is JavaScript white space |
| Client.MessageOf | frontend/src/components/TranslationHistory.tsx:41-42 | the shown error is the thrown `Error`'s message, and nothing for a value without one |
| Client.DetailOr | frontend/src/pages/LoginForm.tsx:35-38 | the server's `detail` when present and non-empty, the fallback otherwise; never empty when the fallback is not |
| Client.CaughtMessage | frontend/src/pages/LoginForm.tsx:35-49 | a non-ok response shows `detail` or the default; a thrown `Error` shows its message; any other thrown value shows the unexpected-error text |
| Client.BearerHeader | frontend/src/pages/TranslationApp.tsx:33-38 | the header is `Bearer ` followed by the stored token, or `Bearer null` when none is stored |
| Client.LocalStorage.GetItem | frontend/src/pages/TranslationApp.tsx:33 | a stored key yields its value, a missing key yields nothing |
| Client.LocalStorage.SetItem | frontend/src/pages/LoginForm.tsx:41 | writes one slot and leaves every other slot as it was |
| Languages.SupportedCodes | frontend/src/types.ts:5-15 | the set of codes the selector lists, no more and no fewer |
| Languages.TablesHaveSameCodes | frontend/src/components/TranslationHistory.tsx:105-115 | the history dialog's name table has an entry for exactly the nine selectable codes |
| Languages.TablesHaveSameNames | frontend/src/components/TranslationHistory.tsx:105-115 | each selectable language is named in the history dialog by the selector's own label |
| Languages.LanguageName | frontend/src/components/TranslationHistory.tsx:104-117 | a listed code shows its table label, any other code shows itself unchanged; the result is empty only for the empty code |
| Languages.SourceLanguageLabel | frontend/src/components/TranslationHistory.tsx:239 | a missing or empty source language shows as `"auto"`, a given one through the name table |
| History.FailureText | frontend/src/components/TranslationHistory.tsx:35-42 | a non-ok response leaves the handler's own message, a thrown value its message |
| History.LanguageLine | frontend/src/components/TranslationHistory.tsx:239 | an entry's heading shows a listed target language by its table label and any other target code as itself; a missing or empty source language shows as `"auto"`, a listed one by its label and any other as itself |
| History.HistoryView.constructor | frontend/src/components/TranslationHistory.tsx:19-21 | the dialog starts with an empty list, not loading, no error |
| History.HistoryView.FetchHistory | frontend/src/components/TranslationHistory.tsx:23-46 | one GET with the stored token; success replaces the list wholesale and clears the error; failure keeps the list and sets the error; not loading afterwards |
| History.HistoryView.DeleteTranslation | frontend/src/components/TranslationHistory.tsx:48-67 | one DELETE for the id; failure keeps the list and the loading flag and sets the error; success is followed by a GET whose outcome alone decides the new list |
| History.HistoryView.ClearAllHistory | frontend/src/components/TranslationHistory.tsx:69-91 | declined: no request and nothing changes; confirmed: one DELETE; success empties the list (so "delete all" is no longer offered) and keeps the error text; failure keeps the list and sets the error |
| History.HistoryView.OnVisibilityChange | frontend/src/components/TranslationHistory.tsx:119-123 | a hidden dialog fetches nothing and changes nothing; a shown one fetches as `FetchHistory` does |
| TranslateInput.Validate | frontend/src/pages/TranslationApp.tsx:22-29 | blank text gives the enter-text message whatever the language; otherwise an empty language gives the choose-language message; both checks passing, and only then, lets the request go |
| TranslateInput.ShownTranslation | frontend/src/pages/TranslationApp.tsx:42-46 | a parsed reply shows its `translated_text` (nothing when the field is missing); a rejection shows the fixed failure text |
| TranslationApp.TranslationAppView.constructor | frontend/src/pages/TranslationApp.tsx:14-18 | empty text, translation, language and error; not loading |
| TranslationApp.TranslationAppView.SetText | frontend/src/pages/TranslationApp.tsx:90 | sets the text only |
| TranslationApp.TranslationAppView.SetTargetLang | frontend/src/pages/TranslationApp.tsx:94 | sets the language only |
| TranslationApp.TranslationAppView.HandleTranslate | frontend/src/pages/TranslationApp.tsx:20-50 | refused input sets the validation message and sends nothing, keeping the translation and loading flag; accepted input clears the error, sends the untrimmed text, the language and the stored token, sets the translation from the reply (the failure text on a rejection, the error staying empty), and ends not loading with the button enabled |
| App.AppView.constructor | frontend/src/App.tsx:9-13 | empty text, translation, language and error; not loading |
| App.AppView.SetText | frontend/src/App.tsx:76 | sets the text only |
| App.AppView.SetTargetLang | frontend/src/App.tsx:80 | sets the language only |
| App.AppView.HandleTranslate | frontend/src/App.tsx:15-41 | as the signed-in screen, except that the request carries no `Authorization` header |
| TranslateForm.TranslateFormView.constructor | frontend/src/components/TranslateForm.tsx:4-7 | the language starts as `"ja"`; text, result and error empty |
| TranslateForm.TranslateFormView.SetText | frontend/src/components/TranslateForm.tsx:48 | sets the text only |
| TranslateForm.TranslateFormView.SetTargetLang | frontend/src/components/TranslateForm.tsx:54 | sets the language only |
| TranslateForm.TranslateFormView.HandleTranslate | frontend/src/components/TranslateForm.tsx:9-41 | error and result are reset first; no (or an empty) token gives the login-required message and no request; otherwise the request carries the token, an ok response fills the result with the error empty, a non-ok one sets the request-failed message with the result empty, a thrown value sets its message |
| LoginPage.LoginPageForm.constructor | frontend/src/pages/LoginForm.tsx:9-12 | empty fields and error; not loading |
| LoginPage.LoginPageForm.HandleLogin | frontend/src/pages/LoginForm.tsx:15-54 | posts username and password; success writes the `token` slot with the access token, leaves the error empty, calls `onLogin` and goes to `/`; failure leaves storage unchanged and shows `detail`, the default message, or the unexpected-error text; not loading afterwards |
| RegisterForm.RegistrationView.constructor | frontend/src/components/RegisterForm.tsx:5-9 | empty fields and error; not loading |
| RegisterForm.RegistrationView.HandleRegister | frontend/src/components/RegisterForm.tsx:12-40 | posts username, password and email; never touches storage, so registering does not sign in; success goes to `/login` with the error empty; failure shows `detail`, the default message, or the unexpected-error text; not loading afterwards |
| LegacyLogin.LegacyLoginForm.constructor | frontend/src/components/LoginForm.tsx:4-6 | empty fields and error |
| LegacyLogin.LegacyLoginForm.HandleLogin | frontend/src/components/LoginForm.tsx:8-24 | posts the fields unchecked; success writes the `token` slot and calls `onLogin` but keeps any earlier error; a non-ok response sets the fixed `"ログイン失敗"` and leaves storage unchanged; a thrown value sets its message |

## Left out

- Transport: URLs, HTTP methods' wire format, headers other than
  `Authorization`, JSON encoding and parsing. Each request is a parameter
  outcome; a body that fails to parse is a thrown value.
- The googletrans translator: an uninterpreted function parameter. It is
  taken to be deterministic, so two calls on the same slice agree.
- Python's slicing by code points versus anything else: text is `seq<char>`.
- Overlapping asynchronous calls. Each handler is atomic over its outcome, so
  the intermediate state (`loading` true while a request is in flight) is not
  observable in the model, and the refetch that `deleteTranslation` starts
  without awaiting is taken to finish right away.
- `formatDate`: locale- and clock-dependent formatting, nothing to prove.
- Rendering, styling, routing and `navigate` (recorded only as the route a
  handler moves to), `window.confirm` (a boolean parameter), console logging,
  the presentational components, `reportWebVitals`, and the thin axios
  wrappers of `frontend/src/api.ts`.
- The ORM and pydantic declarations (`backend/models.py`,
  `backend/schemas.py`) and the server-side history, login and registration
  endpoints: they are not part of this model.
- JavaScript's object-prototype lookups in `languages[code]` (for example
  `"constructor"`): the table is a Dafny map.
- `undefined`: a missing `translated_text` is modelled as the empty text,
  which renders the same.
- Client.MessageOf: over-approximates what a `catch` can see. It gives the
  empty text for every thrown non-`Error` value, but in JavaScript a thrown
  `null` or `undefined` makes `err.message` itself throw, so the error text
  stays as it was, and a non-`Error` object with a `message` property shows
  that message. In the history and translate-form handlers only `Error`
  values (from `fetch`, `json()` and `throw new Error`) can reach the
  `catch`, so these cases do not arise there.
- `onSelectTranslation`, the history dialog's callback to its parent: the
  parent is not part of this model.
- `TranslationApp.TranslationAppView.ButtonDisabled`,
  `App.AppView.ButtonDisabled` (`disabled={loading || !targetLang}`),
  `History.HistoryView.ClearAllOffered`, `TranslateForm.HasToken`
  (`if (!token)`) and `JsText.Trim` (`text.trim()`) carry no contract of their
  own. What they mean is stated elsewhere: the buttons in the contracts of
  the `HandleTranslate` methods and of `ClearAllHistory`, the token check in
  the contract of `TranslateForm.TranslateFormView.HandleTranslate`, and
  `trim` by `JsText.TrimStart`, `JsText.TrimEnd` and
  `JsText.TrimEmptyIffBlank`.
