/** The sign-in page (frontend/src/pages/LoginForm.tsx): `handleLogin` posts
    the credentials as a form, stores the returned token, tells the app and
    moves to the home route; on failure it shows the server's reason. */
module LoginPage {
  import opened Optional
  import opened Client

  const LOGIN_FAILED: string := "ログインに失敗しました。"
  const LOGIN_UNEXPECTED: string := "ログイン中に予期せぬエラーが発生しました。"

  /** Where a successful sign-in navigates. */
  const HOME_ROUTE: string := "/"

  /** The `application/x-www-form-urlencoded` body of `/login`. */
  datatype LoginRequest = LoginRequest(username: string, password: string)

  class LoginPageForm {
    var username: string
    var password: string
    var error: string
    var loading: bool

    constructor ()
      ensures username == "" && password == "" && error == "" && !loading
    {
      username, password, error, loading := "", "", "", false;
    }

    /** `handleLogin`, run to completion with the outcome of the POST.
      `loggedIn` says whether `onLogin` was called, `navigatedTo` where the
      page navigated. */
    method HandleLogin(storage: LocalStorage, response: Response<TokenBody>)
      returns (sent: LoginRequest, loggedIn: bool, navigatedTo: Option<string>)
      modifies this, storage
      ensures username == old(username) && password == old(password)
      ensures sent == LoginRequest(username, password)
      ensures !loading
      // success: the token slot is written, the app told, home reached
      ensures response.Ok? ==>
        && storage.entries == old(storage.entries)[TOKEN_KEY := response.body.accessToken]
        && error == "" && loggedIn && navigatedTo == Some(HOME_ROUTE)
      // failure: storage untouched, the reason (or a default) shown
      ensures !response.Ok? ==>
        && storage.entries == old(storage.entries)
        && error == CaughtMessage(response, LOGIN_FAILED, LOGIN_UNEXPECTED)
        && !loggedIn && navigatedTo.None?
    {
      error := "";
      loading := true;
      sent := LoginRequest(username, password);
      loggedIn, navigatedTo := false, None;
      match response {
        case Ok(body) =>
          storage.SetItem(TOKEN_KEY, body.accessToken);
          loggedIn := true;
          navigatedTo := Some(HOME_ROUTE);
        case NotOk(detail) =>
          error := DetailOr(detail, LOGIN_FAILED);
        case Threw(thrown) =>
          error := if thrown.ErrorValue? then thrown.message else LOGIN_UNEXPECTED;
      }
      loading := false;
    }
  }
}
