/** The sign-up screen's validation chain (`view/SignUp.swift`). */
module SignUpForm {
  import opened Common
  import opened Store
  import opened AuthManager

  /** The screen's fields and whether it has been dismissed. */
  datatype Form = Form(email: string, username: string, password: string, errorMessage: Option<string>, dismissed: bool)

  const MissingFields := "Please enter all the required fields"
  const ShortUsername := "Username must be at least 3 characters"
  const InvalidEmail := "Please enter a valid email."

  /** The first failing check's message: emptiness, then length, then "@". */
  function SignUpError(email: string, username: string, password: string): (e: Option<string>)
    ensures (email == [] || username == [] || password == []) ==> e == Some(MissingFields)
    ensures email != [] && username != [] && password != [] && |username| < 3 ==> e == Some(ShortUsername)
    ensures email != [] && username != [] && password != [] && |username| >= 3 && !Contains(email, "@") ==> e == Some(InvalidEmail)
  {
    if email == [] || username == [] || password == [] then Some(MissingFields)
    else if |username| < 3 then Some(ShortUsername)
    else if !Contains(email, "@") then Some(InvalidEmail)
    else None
  }

  /** The form passes exactly when every field is filled, the username has
      at least three characters and the email contains "@"; a three-character
      username is enough. */
  lemma ValidSignUp(email: string, username: string, password: string)
    ensures SignUpError(email, username, password).None? <==>
      email != [] && username != [] && password != [] && |username| >= 3 && Contains(email, "@")
    ensures |username| == 3 && password != [] && Contains(email, "@") ==> SignUpError(email, username, password).None?
  {
  }

  /** `handleSignUp()`. A failed check sets its message and registers
      nothing. Otherwise the message is cleared and `register` runs with the
      fields as typed; success dismisses the screen, a failure shows its
      description. */
  function HandleSignUp(f: Form, s: AuthState, availability: Reply, provider: ProviderReply, docReply: Reply): (r: (Form, AuthState))
    ensures SignUpError(f.email, f.username, f.password).Some? ==>
      r == (f.(errorMessage := SignUpError(f.email, f.username, f.password)), s)
    ensures SignUpError(f.email, f.username, f.password).None? ==>
      var reg := Register(s, f.email, f.username, availability, provider, docReply);
      && r.1 == reg.state
      && r.0.email == f.email && r.0.username == f.username && r.0.password == f.password
      && (reg.completion.None? ==> r.0 == f.(errorMessage := None))
      && (reg.completion.Some? && reg.completion.value.Succeeded? ==> r.0 == f.(errorMessage := None, dismissed := true))
      && (reg.completion.Some? && reg.completion.value.FailedWith? ==>
            r.0 == f.(errorMessage := Some(Describe(reg.completion.value.failure))))
  {
    match SignUpError(f.email, f.username, f.password)
    case Some(message) => (f.(errorMessage := Some(message)), s)
    case None =>
      var cleared := f.(errorMessage := None);
      var reg := Register(s, f.email, f.username, availability, provider, docReply);
      match reg.completion
      case None => (cleared, reg.state)
      case Some(Succeeded(_)) => (cleared.(dismissed := true), reg.state)
      case Some(FailedWith(failure)) => (cleared.(errorMessage := Some(Describe(failure))), reg.state)
  }

  /** A form the screen rejects never creates an account or a document. */
  lemma RejectedFormTouchesNothing(f: Form, s: AuthState, availability: Reply, provider: ProviderReply, docReply: Reply)
    requires SignUpError(f.email, f.username, f.password).Some?
    ensures HandleSignUp(f, s, availability, provider, docReply).1 == s
    ensures !HandleSignUp(f, s, availability, provider, docReply).0.dismissed || f.dismissed
  {
  }
}

/** The login screen's validation and state update (`view/LoginView.swift`). */
module LoginForm {
  import opened Common
  import opened AuthManager

  datatype Form = Form(email: string, password: string, errorMessage: Option<string>, isLoggedIn: bool)

  const MissingCredentials := "Please fill in Email and Password"

  /** `handleLogin()`. An empty email or password sets the message and
      attempts no login. Otherwise the message is cleared and the login is
      attempted: success sets `isLoggedIn`, a failure shows its description
      and leaves `isLoggedIn` as it was. */
  function HandleLogin(f: Form, s: AuthState, provider: ProviderReply): (r: (Form, AuthState))
    ensures f.email == [] || f.password == [] ==> r == (f.(errorMessage := Some(MissingCredentials)), s)
    ensures f.email != [] && f.password != [] ==>
      var login := Login(s, provider);
      && r.1 == login.state
      && (provider.SignedIn? ==> r.0 == f.(errorMessage := None, isLoggedIn := true) && r.1.user == Some(provider.uid))
      && (provider.Refused? ==> r.0 == f.(errorMessage := Some(provider.description)) && r.1 == s)
      && (provider.NoResult? ==> r.0 == f.(errorMessage := None) && r.1 == s)
  {
    if f.email == [] || f.password == [] then (f.(errorMessage := Some(MissingCredentials)), s)
    else
      var cleared := f.(errorMessage := None);
      var login := Login(s, provider);
      match login.completion
      case None => (cleared, login.state)
      case Some(Succeeded(_)) => (cleared.(isLoggedIn := true), login.state)
      case Some(FailedWith(failure)) => (cleared.(errorMessage := Some(Describe(failure))), login.state)
  }

  /** Starting logged out, the screen reports a signed-in user exactly when
      the login it ran succeeded. */
  lemma LoggedInIffSignedIn(f: Form, s: AuthState, provider: ProviderReply)
    requires !f.isLoggedIn
    ensures HandleLogin(f, s, provider).0.isLoggedIn <==> f.email != [] && f.password != [] && provider.SignedIn?
  {
  }
}
