/** The client-side session manager (`AuthProvider`): the in-memory current
    user and loading flag over the persisted token and demo e-mail, the
    one-time startup restoration, and the login, register, logout and
    profile-refresh transitions. Every remote call is abstracted as the
    outcome it settles with, passed in as a parameter. A transition that
    talks to the backend returns the new session together with the request
    it dispatched (after the interceptor ran) and, when it has a caller,
    what the caller's promise settles with; logout returns the session
    alone. */
module Auth {
  import opened Js
  import opened Text
  import opened Storage
  import opened Api

  /** A JSON object with string fields (credentials, registration data,
      profile fields). */
  type Fields = map<string, string>

  /** The current user: e-mail, display name and whatever other profile
      fields the backend returned. */
  datatype User = User(email: string, name: string, profile: Fields)

  /** Body of a login or registration response. `user` is `None` when the
      response carries no user object. */
  datatype AuthData = AuthData(accessToken: string, user: Option<User>, demo: bool)

  /** Why a promise rejects: a failed request, with an HTTP status when the
      backend answered and the error detail, or the `TypeError` thrown
      when a successful response has a `null` body whose fields are read. */
  datatype ApiError = ApiError(status: Option<int>, detail: string) | NullResponse

  /** How a promise settles. */
  datatype Outcome<+T> = Resolved(value: T) | Rejected(error: ApiError)

  /** The provider's state: the shared client, the persisted store, the
      current user and the loading flag. */
  datatype Session = Session(api: Client, store: Store, user: Option<User>, loading: bool)

  /** One transition: the new session, the request dispatched (`None` when
      no remote call was made) and how the caller's promise settles. */
  datatype Step<+T> = Step(session: Session, sent: Option<Config>, result: Outcome<T>)

  /** The outcome of startup restoration, which returns nothing to a caller. */
  datatype Restored = Restored(session: Session, sent: Option<Config>)

  /** The states a session moves through. */
  datatype Phase = Unresolved | Anonymous | Authenticated | AuthenticatedDemo

  /** The token value that marks a locally synthesized demo session. */
  const DemoToken: string := "demo-token"
  /** The address used when no e-mail is known. */
  const DefaultEmail: string := "demo@example.com"

  const LoginPath: string := "/auth/login"
  const RegisterPath: string := "/auth/register"
  const ProfilePath: string := "/user/profile"

  function PhaseOf(s: Session): Phase {
    if s.loading then Unresolved
    else if s.user.None? then Anonymous
    else if GetItem(s.store, TokenKey) == Some(DemoToken) then AuthenticatedDemo
    else Authenticated
  }

  /** A demo session keeps a usable e-mail beside the demo token. */
  predicate DemoCacheConsistent(st: Store) {
    GetItem(st, TokenKey) == Some(DemoToken) ==> Truthy(GetItem(st, DemoEmailKey))
  }

  /** The user synthesized for a demo session: the e-mail and its local
      part as display name, no other profile fields. */
  function DemoUser(email: string): User {
    User(email, LocalPart(email), map[])
  }

  /** `credentials?.email`: the e-mail field of a possibly null object. */
  function CredentialEmail(credentials: Option<Fields>): Option<string> {
    if credentials.Some? && "email" in credentials.value then Some(credentials.value["email"]) else None
  }

  /** The store after entering demo mode: the demo token and the e-mail
      written, every other key as before. */
  function DemoStore(st: Store, email: string): (r: Store)
    ensures GetItem(r, TokenKey) == Some(DemoToken)
    ensures GetItem(r, DemoEmailKey) == Some(email)
    ensures r - {TokenKey, DemoEmailKey} == st - {TokenKey, DemoEmailKey}
  {
    SetItem(SetItem(st, TokenKey, DemoToken), DemoEmailKey, email)
  }

  /** The state the provider mounts with. */
  function Mount(api: Client, st: Store): Session {
    Session(api, st, None, true)
  }

  /** Startup restoration, run once when the provider mounts.
      - No token, or an empty one: anonymous; no request, store untouched.
      - The demo token: the demo user is rebuilt from the cached e-mail
        (the default address when it is missing or empty); no request.
      - Any other token: the profile is fetched with that token. On success
        the body becomes the user (a `null` body leaves it null); on
        failure the token is removed, the user stays null and the cached
        demo e-mail stays.
      Every branch ends with loading cleared. The profile body is `None`
      when the response body is `null`. */
  function Startup(api: Client, st: Store, profile: Outcome<Option<User>>): (r: Restored)
    ensures r.session.api == api && !r.session.loading
    ensures !Truthy(GetItem(st, TokenKey)) ==>
              r.session.user == None && r.session.store == st && r.sent == None
    ensures GetItem(st, TokenKey) == Some(DemoToken) ==>
              var email := Or(GetItem(st, DemoEmailKey), DefaultEmail);
              && r.sent == None && r.session.store == st
              && r.session.user.Some?
              && r.session.user.value.email == email
              && r.session.user.value.name == LocalPart(email)
              && r.session.user.value.profile == map[]
    ensures Truthy(GetItem(st, TokenKey)) && st[TokenKey] != DemoToken ==>
              && r.sent == Some(Dispatch(api, st, Get, ProfilePath, None))
              && r.sent.value.baseURL == api.baseURL
              && r.sent.value.verb == Get && r.sent.value.url == ProfilePath
              && AuthorizationHeader in r.sent.value.headers
              && BearerToken(r.sent.value.headers[AuthorizationHeader]) == Some(st[TokenKey])
              && (profile.Resolved? ==> r.session.user == profile.value && r.session.store == st)
              && (profile.Rejected? ==>
                    && r.session.user == None
                    && GetItem(r.session.store, TokenKey) == None
                    && GetItem(r.session.store, DemoEmailKey) == GetItem(st, DemoEmailKey)
                    && r.session.store == st - {TokenKey})
  {
    var s := Mount(api, st);
    var token := GetItem(st, TokenKey);
    if !Truthy(token) then
      Restored(s.(loading := false), None)
    else if token.value == DemoToken then
      var email := Or(GetItem(st, DemoEmailKey), DefaultEmail);
      Restored(s.(user := Some(DemoUser(email)), loading := false), None)
    else
      var request := Dispatch(api, st, Get, ProfilePath, None);
      match profile
      case Resolved(body) =>
        Restored(s.(user := body, loading := false), Some(request))
      case Rejected(_) =>
        Restored(s.(store := RemoveItem(st, TokenKey), loading := false), Some(request))
  }

  /** `login(credentials)`. It never rejects. When the backend accepts with
      a body, the issued token is stored, the response's user becomes the
      current user and the body is returned. On any failure it falls back
      to a demo session: the demo token and the e-mail (the default address
      when the credentials carry none, or an empty one) are stored, the
      user is that e-mail with its local part as name, and a body tagged
      `demo` is returned. A success with a `null` body is such a failure:
      reading its token throws inside the same `try`, before anything is
      stored. The loading flag is not touched. */
  function Login(s: Session, credentials: Option<Fields>, remote: Outcome<Option<AuthData>>): (r: Step<AuthData>)
    ensures r.result.Resolved?
    ensures r.session.api == s.api && r.session.loading == s.loading
    ensures r.sent.Some? && r.sent.value.verb == Post && r.sent.value.url == LoginPath
    ensures r.sent.Some? ==> r.sent.value.data == credentials
    ensures r.sent == Some(Dispatch(s.api, s.store, Post, LoginPath, credentials))
    ensures remote.Resolved? && remote.value.Some? ==>
              && GetItem(r.session.store, TokenKey) == Some(remote.value.value.accessToken)
              && r.session.store - {TokenKey} == s.store - {TokenKey}
              && r.session.user == remote.value.value.user
              && r.result.value == remote.value.value
    ensures remote.Rejected? || remote.value.None? ==>
              var email := Or(CredentialEmail(credentials), DefaultEmail);
              && email != ""
              && GetItem(r.session.store, TokenKey) == Some(DemoToken)
              && GetItem(r.session.store, DemoEmailKey) == Some(email)
              && r.session.store - {TokenKey, DemoEmailKey} == s.store - {TokenKey, DemoEmailKey}
              && r.session.user == Some(User(email, LocalPart(email), map[]))
              && r.result.value == AuthData(DemoToken, r.session.user, true)
  {
    var request := Dispatch(s.api, s.store, Post, LoginPath, credentials);
    if remote.Resolved? && remote.value.Some? then
      var body := remote.value.value;
      var st := SetItem(s.store, TokenKey, body.accessToken);
      Step(s.(store := st, user := body.user), Some(request), Resolved(body))
    else
      var email := Or(CredentialEmail(credentials), DefaultEmail);
      var demo := DemoUser(email);
      Step(s.(store := DemoStore(s.store, email), user := Some(demo)), Some(request),
           Resolved(AuthData(DemoToken, Some(demo), true)))
  }

  /** `register(userData)`. On success the issued token is stored and the
      response's user becomes the current user. On failure the error is
      passed on unchanged and nothing changes: there is no demo fallback.
      A success with a `null` body rejects with the `TypeError` raised by
      reading its token, again before anything changes. */
  function Register(s: Session, userData: Option<Fields>, remote: Outcome<Option<AuthData>>): (r: Step<AuthData>)
    ensures r.sent.Some? && r.sent.value.verb == Post && r.sent.value.url == RegisterPath
    ensures r.sent.Some? ==> r.sent.value.data == userData
    ensures r.sent == Some(Dispatch(s.api, s.store, Post, RegisterPath, userData))
    ensures remote.Rejected? ==> r.session == s && r.result == Rejected(remote.error)
    ensures remote == Resolved(None) ==> r.session == s && r.result == Rejected(NullResponse)
    ensures remote.Resolved? && remote.value.Some? ==>
              && r.session.api == s.api && r.session.loading == s.loading
              && GetItem(r.session.store, TokenKey) == Some(remote.value.value.accessToken)
              && r.session.store - {TokenKey} == s.store - {TokenKey}
              && r.session.user == remote.value.value.user
              && r.result == Resolved(remote.value.value)
  {
    var request := Dispatch(s.api, s.store, Post, RegisterPath, userData);
    match remote
    case Resolved(Some(body)) =>
      var st := SetItem(s.store, TokenKey, body.accessToken);
      Step(s.(store := st, user := body.user), Some(request), Resolved(body))
    case Resolved(None) =>
      Step(s, Some(request), Rejected(NullResponse))
    case Rejected(e) =>
      Step(s, Some(request), Rejected(e))
  }

  /** `logout()`: removes the token and clears the user, whatever the
      state. The cached demo e-mail and the loading flag stay. */
  function Logout(s: Session): (r: Session)
    ensures r.user == None
    ensures GetItem(r.store, TokenKey) == None
    ensures r.store == s.store - {TokenKey}
    ensures GetItem(r.store, DemoEmailKey) == GetItem(s.store, DemoEmailKey)
    ensures r.api == s.api && r.loading == s.loading
  {
    s.(store := RemoveItem(s.store, TokenKey), user := None)
  }

  /** `refreshProfile()`. On success the body replaces the current user and
      is returned; a `null` body clears the user. On failure the error is
      passed on and the session is left exactly as it was; in particular
      the user is not cleared. */
  function RefreshProfile(s: Session, remote: Outcome<Option<User>>): (r: Step<Option<User>>)
    ensures r.sent.Some? && r.sent.value.verb == Get && r.sent.value.url == ProfilePath
    ensures r.sent == Some(Dispatch(s.api, s.store, Get, ProfilePath, None))
    ensures Truthy(GetItem(s.store, TokenKey)) ==>
              && AuthorizationHeader in r.sent.value.headers
              && BearerToken(r.sent.value.headers[AuthorizationHeader]) == Some(s.store[TokenKey])
    ensures r.session.store == s.store && r.session.api == s.api && r.session.loading == s.loading
    ensures remote.Rejected? ==> r.session == s && r.result == Rejected(remote.error)
    ensures remote.Resolved? ==> r.session.user == remote.value && r.result == Resolved(remote.value)
  {
    var request := Dispatch(s.api, s.store, Get, ProfilePath, None);
    match remote
    case Resolved(body) => Step(s.(user := body), Some(request), Resolved(body))
    case Rejected(e) => Step(s, Some(request), Rejected(e))
  }
}
