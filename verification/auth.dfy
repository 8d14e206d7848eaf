/** `AuthManager` of `view/AuthManager.swift`: registration with a
    case-insensitive username-uniqueness check, login, logout and the profile
    picture update. The identity provider's answers and the document writes'
    fates are parameters. */
module AuthManager {
  import opened Common
  import opened Store

  /** `AuthError`. */
  datatype AuthError = UsernameAlreadyExists | EmptyFields | UsernameTooShort

  /** `errorDescription` of each `AuthError`. */
  function ErrorDescription(e: AuthError): string
  {
    match e
    case UsernameAlreadyExists => "This username is already taken"
    case EmptyFields => "Please fill in all fields"
    case UsernameTooShort => "Username must be at least 3 characters"
  }

  /** Each error has its fixed message, and no two errors share one. */
  lemma ErrorDescriptions(a: AuthError, b: AuthError)
    ensures ErrorDescription(UsernameAlreadyExists) == "This username is already taken"
    ensures ErrorDescription(EmptyFields) == "Please fill in all fields"
    ensures ErrorDescription(UsernameTooShort) == "Username must be at least 3 characters"
    ensures ErrorDescription(a) == ErrorDescription(b) <==> a == b
  {
  }

  /** An error passed to a completion: one of the app's own, or one raised by
      the identity provider or the database, known by its description. */
  datatype Failure = App(error: AuthError) | Provider(description: string)

  /** `localizedDescription`. */
  function Describe(f: Failure): string
  {
    match f
    case App(e) => ErrorDescription(e)
    case Provider(d) => d
  }

  /** The signed-in user (`user`), the provider's accounts and the `users`
      documents. */
  datatype AuthState = AuthState(user: Option<string>, accounts: set<string>, users: map<string, UserDoc>)

  /** How `createUser`/`signIn` answered: an error, a user id, or neither
      (then the completion handler is never called). */
  datatype ProviderReply = Refused(description: string) | SignedIn(uid: string) | NoResult

  /** What a completion handler received. */
  datatype AuthResult = Succeeded(uid: string) | FailedWith(failure: Failure)

  /** A new state and the completion's argument, `None` when it is never
      called. */
  datatype AuthOutcome = AuthOutcome(state: AuthState, completion: Option<AuthResult>)

  /** No `users` document holds this (already lower-cased) username. */
  predicate NameFree(users: map<string, UserDoc>, lowered: string)
  {
    forall id :: id in users ==> users[id].username != lowered
  }

  /** `checkUsernameAvailable(_:)`: the query for the lower-cased username
      finds no document; a query error counts as "taken". */
  function CheckUsernameAvailable(users: map<string, UserDoc>, username: string, reply: Reply): (available: bool)
    ensures available <==> reply.Done? && NameFree(users, Lower(username))
  {
    var found := set id | id in users && users[id].username == Lower(username);
    assert !NameFree(users, Lower(username)) ==> found != {} by {
      if !NameFree(users, Lower(username)) {
        var id :| id in users && users[id].username == Lower(username);
        assert id in found;
      }
    }
    reply.Done? && |found| == 0
  }

  /** `createUserDocument(...)`: `users/{userId}` is set to the user id, the
      email, the lower-cased username and the default picture "tcgpfp". */
  function CreateUserDocument(users: map<string, UserDoc>, userId: string, email: string, username: string, reply: Reply): (r: (map<string, UserDoc>, Option<string>))
    ensures r.1.None? <==> reply.Done?
    ensures reply.Done? ==> userId in r.0 && r.0[userId] == UserDoc(userId, email, Lower(username), "tcgpfp")
    ensures reply.Done? ==> forall id :: id != userId ==> (id in r.0 <==> id in users) && (id in users ==> r.0[id] == users[id])
    ensures reply.Failed? ==> r.0 == users
  {
    match reply
    case Failed(d) => (users, Some(d))
    case Done => (users[userId := UserDoc(userId, email, Lower(username), "tcgpfp")], None)
  }

  /** `register(email:username:password:)`. A taken (or unverifiable)
      username fails with `usernameAlreadyExists` before any account exists.
      Otherwise the provider creates the account, then the user document is
      written; `user` is set only when both succeed, and any error is passed
      on. The password is the provider's concern and is not modelled. */
  function Register(s: AuthState, email: string, username: string, availability: Reply, provider: ProviderReply, docReply: Reply): (r: AuthOutcome)
    ensures !CheckUsernameAvailable(s.users, username, availability) ==>
      r == AuthOutcome(s, Some(FailedWith(App(UsernameAlreadyExists))))
    ensures CheckUsernameAvailable(s.users, username, availability) && provider.Refused? ==>
      r == AuthOutcome(s, Some(FailedWith(Provider(provider.description))))
    ensures CheckUsernameAvailable(s.users, username, availability) && provider.NoResult? ==> r == AuthOutcome(s, None)
    ensures CheckUsernameAvailable(s.users, username, availability) && provider.SignedIn? ==>
      && r.state.accounts == s.accounts + {provider.uid}
      && r.state.users == CreateUserDocument(s.users, provider.uid, email, username, docReply).0
      && (docReply.Failed? ==> r.state.user == s.user && r.completion == Some(FailedWith(Provider(docReply.description))))
      && (docReply.Done? ==> r.state.user == Some(provider.uid) && r.completion == Some(Succeeded(provider.uid)))
    ensures r.state.user != s.user ==> r.completion == Some(Succeeded(r.state.user.value))
    ensures r.state.accounts != s.accounts ==> CheckUsernameAvailable(s.users, username, availability)
  {
    if !CheckUsernameAvailable(s.users, username, availability) then
      AuthOutcome(s, Some(FailedWith(App(UsernameAlreadyExists))))
    else
      match provider
      case Refused(d) => AuthOutcome(s, Some(FailedWith(Provider(d))))
      case NoResult => AuthOutcome(s, None)
      case SignedIn(uid) =>
        var created := s.(accounts := s.accounts + {uid});
        var (users, err) := CreateUserDocument(s.users, uid, email, username, docReply);
        match err
        case Some(d) => AuthOutcome(created.(users := users), Some(FailedWith(Provider(d))))
        case None => AuthOutcome(created.(users := users, user := Some(uid)), Some(Succeeded(uid)))
  }

  /** Once a username is registered, every spelling of it that lower-cases
      to the same text is reported taken. */
  lemma RegisteredNameTaken(s: AuthState, email: string, username: string, availability: Reply, provider: ProviderReply, docReply: Reply, variant: string, reply: Reply)
    requires Register(s, email, username, availability, provider, docReply).completion.Some?
    requires Register(s, email, username, availability, provider, docReply).completion.value.Succeeded?
    requires Lower(variant) == Lower(username)
    ensures !CheckUsernameAvailable(Register(s, email, username, availability, provider, docReply).state.users, variant, reply)
  {
    var r := Register(s, email, username, availability, provider, docReply);
    assert provider.SignedIn? && docReply.Done?;
    assert provider.uid in r.state.users && r.state.users[provider.uid].username == Lower(variant);
  }

  /** Registration never lets two documents share a username: if the names
      were distinct before, they are after. */
  lemma RegisterKeepsNamesUnique(s: AuthState, email: string, username: string, availability: Reply, provider: ProviderReply, docReply: Reply)
    requires forall a, b :: a in s.users && b in s.users && a != b ==> s.users[a].username != s.users[b].username
    ensures
      var users := Register(s, email, username, availability, provider, docReply).state.users;
      forall a, b :: a in users && b in users && a != b ==> users[a].username != users[b].username
  {
  }

  /** Changing a profile picture never touches a username: the same users
      keep the same names, so every name is exactly as available as before. */
  lemma PfpUpdateKeepsNames(s: AuthState, pfpName: string, reply: Reply, name: string, check: Reply)
    ensures
      var users := UpdateProfilePfp(s, pfpName, reply).0.users;
      && (forall id :: id in users <==> id in s.users)
      && (forall id :: id in users ==> users[id].username == s.users[id].username)
      && CheckUsernameAvailable(users, name, check) == CheckUsernameAvailable(s.users, name, check)
  {
  }

  /** Usernames that were distinct stay distinct across a picture update. */
  lemma PfpUpdateKeepsNamesUnique(s: AuthState, pfpName: string, reply: Reply)
    requires forall a, b :: a in s.users && b in s.users && a != b ==> s.users[a].username != s.users[b].username
    ensures
      var users := UpdateProfilePfp(s, pfpName, reply).0.users;
      forall a, b :: a in users && b in users && a != b ==> users[a].username != users[b].username
  {
  }

  /** `login(email:password:)`: success signs the user in, an error leaves
      `user` as it was, no answer calls nothing. */
  function Login(s: AuthState, provider: ProviderReply): (r: AuthOutcome)
    ensures provider.SignedIn? ==> r == AuthOutcome(s.(user := Some(provider.uid)), Some(Succeeded(provider.uid)))
    ensures provider.Refused? ==> r == AuthOutcome(s, Some(FailedWith(Provider(provider.description))))
    ensures provider.NoResult? ==> r == AuthOutcome(s, None)
  {
    match provider
    case Refused(d) => AuthOutcome(s, Some(FailedWith(Provider(d))))
    case SignedIn(uid) => AuthOutcome(s.(user := Some(uid)), Some(Succeeded(uid)))
    case NoResult => AuthOutcome(s, None)
  }

  /** `logout()`: a successful sign-out clears `user`; a thrown error is only
      logged. */
  function Logout(s: AuthState, signOutOk: bool): (r: AuthState)
    ensures signOutOk ==> r.user.None?
    ensures !signOutOk ==> r == s
    ensures r.accounts == s.accounts && r.users == s.users
  {
    if signOutOk then s.(user := None) else s
  }

  /** Logging in and then out leaves nobody signed in and nothing else
      changed. */
  lemma LoginThenLogout(s: AuthState, uid: string)
    ensures Logout(Login(s, SignedIn(uid)).state, true) == s.(user := None)
  {
  }

  /** `updateProfilePfp(_:)`: with nobody signed in the error is
      `emptyFields` and nothing is written; otherwise `pfp` of the user's
      document is updated, which fails when that document does not exist. */
  function UpdateProfilePfp(s: AuthState, pfpName: string, reply: Reply): (r: (AuthState, Option<Failure>))
    ensures s.user.None? ==> r == (s, Some(App(EmptyFields)))
    ensures s.user.Some? ==> (r.1.None? <==> reply.Done? && s.user.value in s.users)
    ensures s.user.Some? && reply.Failed? ==> r.1 == Some(Provider(reply.description))
    ensures s.user.Some? && reply.Done? && s.user.value !in s.users ==> r.1 == Some(Provider(NoDocumentToUpdate))
    ensures r.1.None? ==> r.0 == s.(users := s.users[s.user.value := s.users[s.user.value].(pfp := pfpName)])
    ensures r.1.Some? ==> r.0 == s
  {
    if s.user.None? then (s, Some(App(EmptyFields)))
    else if reply.Failed? then (s, Some(Provider(reply.description)))
    else if s.user.value !in s.users then (s, Some(Provider(NoDocumentToUpdate)))
    else
      var uid := s.user.value;
      (s.(users := s.users[uid := s.users[uid].(pfp := pfpName)]), None)
  }
}
