/**
 * The registration page's client logic (`handleRegister`): local checks
 * (matching confirmation first, then a minimum length of six), the request
 * body, what is saved on success, and how a failure is classified.
 */
module RegisterPage {
  import opened Base
  import opened AuthStore
  import opened Storage

  const MinPasswordLength: int := 6

  datatype RegisterForm = RegisterForm(username: string, email: string, password: string, confirmPassword: string)

  /** The body of `POST /auth/register`: the confirmation is not sent. */
  datatype RegisterBody = RegisterBody(username: string, email: string, password: string)

  datatype RegisterState = RegisterState(error: string, serverError: string, loading: bool)

  const MsgMismatch: string := "兩次輸入的密碼不一致"
  const MsgTooShort: string := "密碼至少需要 6 個字符"
  const MsgRegisterFailed: string := "註冊失敗，請稍後重試"
  const MsgServerDown: string := "無法連接到服務器。請確保後端服務運行在 http://localhost:5000"

  /** The local decision: an error message, or the body to send. */
  datatype Check = Reject(message: string) | Send(body: RegisterBody)

  /** The local checks, in the page's order. */
  function Validate(f: RegisterForm): (c: Check)
    ensures f.password != f.confirmPassword ==> c == Reject(MsgMismatch)
    ensures f.password == f.confirmPassword && |f.password| < MinPasswordLength ==> c == Reject(MsgTooShort)
    ensures c.Send? <==> f.password == f.confirmPassword && |f.password| >= MinPasswordLength
    ensures c.Send? ==> c.body == RegisterBody(f.username, f.email, f.password)
  {
    if f.password != f.confirmPassword then Reject(MsgMismatch)
    else if |f.password| < MinPasswordLength then Reject(MsgTooShort)
    else Send(RegisterBody(f.username, f.email, f.password))
  }

  /** The boundary is inclusive: six characters pass, five do not. */
  lemma SixCharactersPass(u: string, e: string)
    ensures Validate(RegisterForm(u, e, "abcdef", "abcdef")).Send?
    ensures Validate(RegisterForm(u, e, "abcde", "abcde")) == Reject(MsgTooShort)
  {
  }

  /** The user object in a successful answer. */
  datatype AnswerUser = AnswerUser(id: int, username: string, email: string, avatar: Option<string>)

  /** How the request ended: success, or an error with the server's message (if any) and the error's own message. */
  datatype RegisterAnswer =
    | Registered(token: string, user: AnswerUser)
    | Failed(serverMessage: Option<string>, errorMessage: string)

  /** The user record saved on success: exactly id, username and email. */
  function SavedUser(u: AnswerUser): (r: User)
    ensures r.id == Some(u.id) && r.username == u.username && r.email == u.email && r.avatar.None?
  {
    User(Some(u.id), u.username, u.email, None)
  }

  /**
   * `handleRegister`: the state, browser storage and auth store after a
   * press. Only when the local checks pass is a request made; its answer is
   * `answer`.
   */
  function HandleRegister(f: RegisterForm, store: Store, auth: AuthState, answer: RegisterAnswer)
    : (res: (RegisterState, Store, AuthState, Option<RegisterBody>))
    ensures !res.0.loading
    ensures Validate(f).Reject? ==>
      res == (RegisterState(Validate(f).message, "", false), store, auth, None)
    ensures Validate(f).Send? ==> res.3 == Some(Validate(f).body)
    ensures Validate(f).Send? && answer.Registered? ==>
      && res.1 == Store(Some(answer.token), Some(SavedUser(answer.user)))
      && res.2 == SetUser(auth, Some(SavedUser(answer.user)))
      && res.0 == RegisterState("", "", false)
    ensures Validate(f).Send? && answer.Failed? ==> res.1 == store && res.2 == auth
    ensures Validate(f).Send? && answer.Failed? && Truthy(answer.serverMessage) ==>
      res.0 == RegisterState(answer.serverMessage.value, "", false)
    ensures Validate(f).Send? && answer.Failed? && !Truthy(answer.serverMessage) && answer.errorMessage == "Network Error" ==>
      res.0 == RegisterState("", MsgServerDown, false)
    ensures Validate(f).Send? && answer.Failed? && !Truthy(answer.serverMessage) && answer.errorMessage != "Network Error" ==>
      res.0 == RegisterState(MsgRegisterFailed, "", false)
  {
    match Validate(f)
    case Reject(m) => (RegisterState(m, "", false), store, auth, None)
    case Send(body) =>
      match answer
      case Registered(token, u) =>
        (RegisterState("", "", false), Store(Some(token), Some(SavedUser(u))), SetUser(auth, Some(SavedUser(u))), Some(body))
      case Failed(serverMessage, errorMessage) =>
        var st :=
          if Truthy(serverMessage) then RegisterState(serverMessage.value, "", false)
          else if errorMessage == "Network Error" then RegisterState("", MsgServerDown, false)
          else RegisterState(MsgRegisterFailed, "", false);
        (st, store, auth, Some(body))
  }

  /** After a successful registration the auth store is logged in as the saved user, consistently. */
  lemma RegisteredIsLoggedIn(f: RegisterForm, store: Store, auth: AuthState, token: string, u: AnswerUser)
    requires Validate(f).Send?
    ensures var res := HandleRegister(f, store, auth, Registered(token, u));
      res.2.isLoggedIn && res.2.user == res.1.user && Consistent(res.2)
  {
  }
}
