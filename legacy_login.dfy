/** The older sign-in form (frontend/src/components/LoginForm.tsx): it posts
    the credentials as JSON with no check on them, shows one fixed message
    for a refused sign-in, and never clears an earlier error. */
module LegacyLogin {
  import opened Client

  const LOGIN_FAILED: string := "ログイン失敗"

  /** The JSON body of its `/login` request. */
  datatype LoginRequest = LoginRequest(username: string, password: string)

  class LegacyLoginForm {
    var username: string
    var password: string
    var error: string

    constructor ()
      ensures username == "" && password == "" && error == ""
    {
      username, password, error := "", "", "";
    }

    /** `handleLogin`, run to completion with the outcome of the POST.
      `loggedIn` says whether `onLogin` was called. */
    method HandleLogin(storage: LocalStorage, response: Response<TokenBody>)
      returns (sent: LoginRequest, loggedIn: bool)
      modifies this, storage
      ensures username == old(username) && password == old(password)
      ensures sent == LoginRequest(username, password)
      // success: the token slot is written and the app told; an earlier error stays
      ensures response.Ok? ==>
        && storage.entries == old(storage.entries)[TOKEN_KEY := response.body.accessToken]
        && loggedIn && error == old(error)
      // failure: storage untouched, the fixed message (or what was thrown)
      ensures !response.Ok? ==> storage.entries == old(storage.entries) && !loggedIn
      ensures response.NotOk? ==> error == LOGIN_FAILED
      ensures response.Threw? ==> error == MessageOf(response.thrown)
    {
      sent := LoginRequest(username, password);
      loggedIn := false;
      match response {
        case Ok(body) =>
          storage.SetItem(TOKEN_KEY, body.accessToken);
          loggedIn := true;
        case NotOk(_) =>
          error := LOGIN_FAILED;
        case Threw(thrown) =>
          error := MessageOf(thrown);
      }
    }
  }
}
