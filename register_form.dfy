/** The registration form (frontend/src/components/RegisterForm.tsx):
    `handleRegister` posts the new account and, on success, moves to the
    sign-in route without signing in. */
module RegisterForm {
  import opened Optional
  import opened Client

  const REGISTER_FAILED: string := "新規登録に失敗しました。"
  const REGISTER_UNEXPECTED: string := "新規登録中に予期せぬエラーが発生しました。"

  /** Where a successful registration navigates. */
  const LOGIN_ROUTE: string := "/login"

  /** The JSON body of `/register`. */
  datatype RegisterRequest = RegisterRequest(username: string, password: string, email: string)

  class RegistrationView {
    var username: string
    var password: string
    var email: string
    var error: string
    var loading: bool

    constructor ()
      ensures username == "" && password == "" && email == "" && error == "" && !loading
    {
      username, password, email, error, loading := "", "", "", "", false;
    }

    /** `handleRegister`, run to completion with the outcome of the POST.
      `storage` is the page's local storage, which registration never
      writes. */
    method HandleRegister(storage: LocalStorage, response: Response<()>)
      returns (sent: RegisterRequest, navigatedTo: Option<string>)
      modifies this
      ensures username == old(username) && password == old(password) && email == old(email)
      ensures sent == RegisterRequest(username, password, email)
      ensures !loading
      ensures storage.entries == old(storage.entries)
      ensures response.Ok? ==> error == "" && navigatedTo == Some(LOGIN_ROUTE)
      ensures !response.Ok? ==>
        error == CaughtMessage(response, REGISTER_FAILED, REGISTER_UNEXPECTED) && navigatedTo.None?
    {
      error := "";
      loading := true;
      sent := RegisterRequest(username, password, email);
      navigatedTo := None;
      match response {
        case Ok(_) =>
          navigatedTo := Some(LOGIN_ROUTE);
        case NotOk(detail) =>
          error := DetailOr(detail, REGISTER_FAILED);
        case Threw(thrown) =>
          error := if thrown.ErrorValue? then thrown.message else REGISTER_UNEXPECTED;
      }
      loading := false;
    }
  }
}
