/** The auth slice of src/redux/authReducer.ts: its synchronous reducers
    and the three settlement cases of the `login` thunk. Token storage and
    the network request are outside the model: the stored token is a
    parameter of the initial state and the request's outcome is an input. */
module Auth {
  import opened Wrappers
  import opened ErrorMessage

  /** The login response: the user record plus its access token. */
  datatype AuthResponse = AuthResponse(
    id: int, name: string, email: string,
    phone: Option<string>, username: Option<string>,
    accessToken: string)

  datatype AuthState = AuthState(
    user: Option<AuthResponse>,
    accessToken: Option<string>,
    loading: bool,
    error: Option<string>,
    errorVisible: bool)

  /** The initial state, with whatever token storage held at start-up. */
  function InitialAuth(storedToken: Option<string>): (s: AuthState)
    ensures s.user == None && s.accessToken == storedToken
    ensures !s.loading && s.error == None && !s.errorVisible
  {
    AuthState(None, storedToken, false, None, false)
  }

  /** `logoutUser`: every field back to empty, whatever the token store held. */
  function LogoutUser(s: AuthState): (r: AuthState)
    ensures r == InitialAuth(None)
  {
    AuthState(None, None, false, None, false)
  }

  lemma LogoutIdempotent(s: AuthState)
    ensures LogoutUser(LogoutUser(s)) == LogoutUser(s)
  {
  }

  /** `setUserFromStorage`: only the token changes. */
  function SetUserFromStorage(s: AuthState, token: string): (r: AuthState)
    ensures r.accessToken == Some(token)
    ensures r.user == s.user && r.loading == s.loading && r.error == s.error && r.errorVisible == s.errorVisible
  {
    s.(accessToken := Some(token))
  }

  /** `showError`: only the visibility flag changes. */
  function ShowError(s: AuthState): (r: AuthState)
    ensures r.errorVisible
    ensures r.user == s.user && r.accessToken == s.accessToken && r.loading == s.loading && r.error == s.error
  {
    s.(errorVisible := true)
  }

  /** `clearError`: the message is dropped and hidden. */
  function ClearError(s: AuthState): (r: AuthState)
    ensures r.error == None && !r.errorVisible
    ensures r.user == s.user && r.accessToken == s.accessToken && r.loading == s.loading
  {
    s.(error := None, errorVisible := false)
  }

  /** `login.pending`. */
  function LoginPending(s: AuthState): (r: AuthState)
    ensures r.loading && r.error == None
    ensures r.user == s.user && r.accessToken == s.accessToken && r.errorVisible == s.errorVisible
  {
    s.(loading := true, error := None)
  }

  /** `login.fulfilled`: the response becomes the user and its token the
      session token; a previous error message is left in place. */
  function LoginFulfilled(s: AuthState, response: AuthResponse): (r: AuthState)
    ensures !r.loading && r.user == Some(response) && r.accessToken == Some(response.accessToken)
    ensures r.error == s.error && r.errorVisible == s.errorVisible
  {
    s.(loading := false, user := Some(response), accessToken := Some(response.accessToken))
  }

  /** `login.rejected`: the token is dropped and the message recorded; the
      user record is left in place. */
  function LoginRejected(s: AuthState, message: string): (r: AuthState)
    ensures !r.loading && r.accessToken == None && r.error == Some(message)
    ensures r.user == s.user && r.errorVisible == s.errorVisible
  {
    s.(accessToken := None, loading := false, error := Some(message))
  }

  datatype AuthAction =
    | Logout
    | SetToken(token: string)
    | Show
    | Clear
    | Pending
    | Fulfilled(response: AuthResponse)
    | Rejected(message: string)

  function Reduce(s: AuthState, a: AuthAction): AuthState {
    match a
    case Logout => LogoutUser(s)
    case SetToken(token) => SetUserFromStorage(s, token)
    case Show => ShowError(s)
    case Clear => ClearError(s)
    case Pending => LoginPending(s)
    case Fulfilled(response) => LoginFulfilled(s, response)
    case Rejected(message) => LoginRejected(s, message)
  }

  /** Only `login.pending` starts loading: after any other action that
      settles or resets, loading is off. */
  lemma LoadingOnlyWhilePending(s: AuthState, a: AuthAction)
    ensures a.Logout? || a.Fulfilled? || a.Rejected? ==> !Reduce(s, a).loading
    ensures a.Pending? ==> Reduce(s, a).loading
  {
  }

  /** What the request behind the thunk produced. */
  datatype LoginOutcome = Succeeded(response: AuthResponse) | Failed(error: Thrown)

  /** The settlement action of the thunk: the response, or the rejection
      value `getErrorMessage(error)`. */
  function Settle(outcome: LoginOutcome): (a: AuthAction)
    ensures a.Fulfilled? || a.Rejected?
  {
    match outcome
    case Succeeded(response) => Fulfilled(response)
    case Failed(error) => Rejected(GetErrorMessage(error))
  }

  /** A full login round (pending, then its settlement) from any state. */
  function LoginRound(s: AuthState, outcome: LoginOutcome): AuthState {
    Reduce(LoginPending(s), Settle(outcome))
  }

  /** A successful round stores the response and its token and leaves no
      error message; a failed one stores the extracted message and no
      token. Either way loading ends. */
  lemma LoginRoundOutcome(s: AuthState, outcome: LoginOutcome)
    ensures !LoginRound(s, outcome).loading
    ensures outcome.Succeeded? ==>
      LoginRound(s, outcome).user == Some(outcome.response) &&
      LoginRound(s, outcome).accessToken == Some(outcome.response.accessToken) &&
      LoginRound(s, outcome).error == None
    ensures outcome.Failed? ==>
      LoginRound(s, outcome).accessToken == None &&
      LoginRound(s, outcome).error == Some(GetErrorMessage(outcome.error)) &&
      LoginRound(s, outcome).user == s.user
  {
  }

  /** A failure whose cause is not an Error or a string reports the fixed
      fallback message. */
  lemma UnknownFailure(s: AuthState)
    ensures LoginRound(s, Failed(OtherValue)).error == Some("An unknown error occurred")
  {
  }
}
