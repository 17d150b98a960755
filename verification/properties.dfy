/** Properties that relate several transitions of the session manager to
    each other, to the request interceptor and to the route guard. */
module SessionProperties {
  import opened Js
  import opened Text
  import opened Storage
  import opened Api
  import opened Auth
  import opened Guard

  /** Before restoration settles the guard shows the spinner, whatever is
      stored; afterwards it never does. */
  lemma MountShowsSpinner<T>(api: Client, st: Store, profile: Outcome<Option<User>>, page: T)
    ensures PhaseOf(Mount(api, st)) == Unresolved
    ensures ProtectedRoute(Mount(api, st).loading, Mount(api, st).user, page).Spinner?
    ensures var s := Startup(api, st, profile).session;
            PhaseOf(s) != Unresolved && !ProtectedRoute(s.loading, s.user, page).Spinner?
  {
  }

  /** The guard's three outcomes are the session's phases: spinner while
      unresolved, redirect when anonymous, the page when signed in (for
      real or in demo mode). */
  lemma GuardFollowsPhase<T>(s: Session, page: T)
    ensures ProtectedRoute(s.loading, s.user, page).Spinner? <==> PhaseOf(s) == Unresolved
    ensures ProtectedRoute(s.loading, s.user, page).Redirect? <==> PhaseOf(s) == Anonymous
    ensures ProtectedRoute(s.loading, s.user, page).Render? <==>
              PhaseOf(s) == Authenticated || PhaseOf(s) == AuthenticatedDemo
  {
  }

  /** A login against an unavailable backend, followed by a reload, gives
      back the same user without any request: the demo session survives a
      restart, and once loading has settled both sit in the demo phase. */
  lemma FallbackLoginSurvivesRestart(s: Session, credentials: Option<Fields>, err: ApiError,
                                     profile: Outcome<Option<User>>)
    ensures var after := Login(s, credentials, Rejected(err)).session;
            var restored := Startup(after.api, after.store, profile);
            && restored.sent == None
            && restored.session.user == after.user
            && restored.session.store == after.store
            && PhaseOf(restored.session) == AuthenticatedDemo
            && (!s.loading ==> PhaseOf(after) == AuthenticatedDemo)
  {
  }

  /** For example, signing in as `a@b.com` while the backend is down,
      then reloading, yields the user `a@b.com` named `a`. */
  lemma FallbackLoginExample(s: Session, err: ApiError, profile: Outcome<Option<User>>)
    ensures var credentials := Some(map["email" := "a@b.com", "password" := "x"]);
            var after := Login(s, credentials, Rejected(err)).session;
            Startup(after.api, after.store, profile).session.user == Some(User("a@b.com", "a", map[]))
  {
    var credentials: Option<Fields> := Some(map["email" := "a@b.com", "password" := "x"]);
    assert CredentialEmail(credentials) == Some("a@b.com");
    LocalPartOfAddress("a", "b.com");
    assert "a" + [At] + "b.com" == "a@b.com";
    var after := Login(s, credentials, Rejected(err)).session;
    assert after.user == Some(User("a@b.com", "a", map[]));
    FallbackLoginSurvivesRestart(s, credentials, err, profile);
  }

  /** With no e-mail in the credentials, or an empty one, the fallback
      signs in as the default address, named `demo`. */
  lemma FallbackLoginDefaultEmail(s: Session, credentials: Option<Fields>, err: ApiError)
    requires !Truthy(CredentialEmail(credentials))
    ensures Login(s, credentials, Rejected(err)).session.user == Some(User(DefaultEmail, "demo", map[]))
  {
    assert Or(CredentialEmail(credentials), DefaultEmail) == DefaultEmail;
    assert "demo" + [At] + "example.com" == DefaultEmail;
    LocalPartOfAddress("demo", "example.com");
    assert LocalPart(DefaultEmail) == "demo";
    assert Login(s, credentials, Rejected(err)).session.user == Some(User(DefaultEmail, LocalPart(DefaultEmail), map[]));
  }

  /** A login the backend answers with a `null` body ends exactly like a
      login the backend rejects: the demo fallback. */
  lemma LoginNullBodyFallsBack(s: Session, credentials: Option<Fields>, err: ApiError)
    ensures Login(s, credentials, Resolved(None)) == Login(s, credentials, Rejected(err))
    ensures PhaseOf(s) != Unresolved ==>
              PhaseOf(Login(s, credentials, Resolved(None)).session) == AuthenticatedDemo
  {
  }

  /** After a fallback login, and after restoring that demo session, every
      request the client sends carries the client's default headers with
      `Authorization` set to `Bearer demo-token`. */
  lemma FallbackLoginAuthorizesRequests(s: Session, credentials: Option<Fields>, err: ApiError,
                                        profile: Outcome<Option<User>>, m: Method, url: string,
                                        data: Option<Fields>)
    ensures var after := Login(s, credentials, Rejected(err)).session;
            var restored := Startup(after.api, after.store, profile).session;
            && Dispatch(after.api, after.store, m, url, data).headers
                 == s.api.defaults[AuthorizationHeader := "Bearer demo-token"]
            && Dispatch(restored.api, restored.store, m, url, data).headers
                 == s.api.defaults[AuthorizationHeader := "Bearer demo-token"]
  {
    var after := Login(s, credentials, Rejected(err)).session;
    DemoTokenHeaders(after.api, after.store, m, url, data);
    var restored := Startup(after.api, after.store, profile).session;
    assert restored.api == after.api && restored.store == after.store;
  }

  /** A store holding the demo token makes the client send its default
      headers with `Authorization` set to `Bearer demo-token`, whatever
      the defaults held under that name. */
  lemma DemoTokenHeaders(client: Client, st: Store, m: Method, url: string, data: Option<Fields>)
    requires GetItem(st, TokenKey) == Some(DemoToken)
    ensures Dispatch(client, st, m, url, data).headers
              == client.defaults[AuthorizationHeader := "Bearer demo-token"]
  {
    assert BearerPrefix + DemoToken == "Bearer demo-token";
    var h := Dispatch(client, st, m, url, data).headers;
    var expected := client.defaults[AuthorizationHeader := "Bearer demo-token"];
    assert h.Keys == expected.Keys;
    assert forall k | k in h :: h[k] == expected[k];
  }

  /** After a successful login every request carries the issued token, as
      long as that token is non-empty. */
  lemma LoginAuthorizesRequests(s: Session, credentials: Option<Fields>, body: AuthData,
                                m: Method, url: string, data: Option<Fields>)
    requires body.accessToken != ""
    ensures var after := Login(s, credentials, Resolved(Some(body))).session;
            var request := Dispatch(after.api, after.store, m, url, data);
            AuthorizationHeader in request.headers
            && BearerToken(request.headers[AuthorizationHeader]) == Some(body.accessToken)
  {
  }

  /** A successful login with a real token and a user object lands in the
      authenticated (non-demo) phase. */
  lemma LoginSuccessAuthenticates(s: Session, credentials: Option<Fields>, body: AuthData)
    requires !s.loading && body.user.Some? && body.accessToken != DemoToken
    ensures PhaseOf(Login(s, credentials, Resolved(Some(body))).session) == Authenticated
  {
  }

  /** Logging out twice is the same as once, always ends anonymous once
      loading has settled, and a reload afterwards stays anonymous without
      a request. */
  lemma LogoutIdempotent(s: Session, profile: Outcome<Option<User>>)
    ensures Logout(Logout(s)) == Logout(s)
    ensures !s.loading ==> PhaseOf(Logout(s)) == Anonymous
    ensures var r := Startup(s.api, Logout(s).store, profile);
            r.session.user == None && r.sent == None
  {
  }

  /** A restoration whose profile fetch fails forgets the token, so the
      next reload is anonymous and makes no request. */
  lemma FailedRestoreIsForgotten(api: Client, st: Store, err: ApiError, profile: Outcome<Option<User>>)
    requires Truthy(GetItem(st, TokenKey)) && st[TokenKey] != DemoToken
    ensures var first := Startup(api, st, Rejected(err)).session;
            var second := Startup(api, first.store, profile);
            && PhaseOf(first) == Anonymous
            && second.sent == None
            && second.session == first
  {
  }

  /** A failed profile refresh leaves the phase as it was. A refresh that
      returns a user keeps a signed-in session signed in, in the same
      mode; one that returns a `null` body signs a settled session out of
      the guard's view, although the token stays stored. */
  lemma RefreshKeepsPhase(s: Session, remote: Outcome<Option<User>>)
    ensures remote.Rejected? ==> PhaseOf(RefreshProfile(s, remote).session) == PhaseOf(s)
    ensures remote.Resolved? && remote.value.Some? &&
            (PhaseOf(s) == Authenticated || PhaseOf(s) == AuthenticatedDemo) ==>
              PhaseOf(RefreshProfile(s, remote).session) == PhaseOf(s)
    ensures remote == Resolved(None) && !s.loading ==>
              PhaseOf(RefreshProfile(s, remote).session) == Anonymous
              && RefreshProfile(s, remote).session.store == s.store
  {
  }

  /** A registration the backend rejects (a duplicate e-mail, say) from an
      anonymous session passes the error on verbatim, stores no token and
      leaves the user null. */
  lemma RejectedRegistrationStaysAnonymous(s: Session, userData: Option<Fields>, err: ApiError)
    requires s.user == None && GetItem(s.store, TokenKey) == None
    ensures var r := Register(s, userData, Rejected(err));
            && r.result == Rejected(err)
            && r.session.user == None
            && GetItem(r.session.store, TokenKey) == None
  {
  }

  /** Login and register differ only in failure: login always resolves,
      register rejects, with the backend's error or the `TypeError` of a
      `null` body. On a success with a body they agree. */
  lemma LoginRegisterAsymmetry(s: Session, fields: Option<Fields>, remote: Outcome<Option<AuthData>>)
    ensures Login(s, fields, remote).result.Resolved?
    ensures remote.Rejected? || remote.value.None? ==>
              Register(s, fields, remote).result.Rejected? && Register(s, fields, remote).session == s
    ensures remote.Resolved? && remote.value.Some? ==>
              Login(s, fields, remote).session == Register(s, fields, remote).session
              && Login(s, fields, remote).result == Register(s, fields, remote).result
  {
  }

  /** The demo token is always accompanied by a usable cached e-mail: the
      fallback login establishes this, and every other transition keeps
      it, provided the backend never issues the demo token itself. */
  lemma DemoCacheConsistentPreserved(s: Session, credentials: Option<Fields>,
                                     login: Outcome<Option<AuthData>>, register: Outcome<Option<AuthData>>,
                                     refresh: Outcome<Option<User>>, profile: Outcome<Option<User>>)
    requires DemoCacheConsistent(s.store)
    requires login.Resolved? && login.value.Some? ==> login.value.value.accessToken != DemoToken
    requires register.Resolved? && register.value.Some? ==> register.value.value.accessToken != DemoToken
    ensures DemoCacheConsistent(Login(s, credentials, login).session.store)
    ensures DemoCacheConsistent(Register(s, credentials, register).session.store)
    ensures DemoCacheConsistent(Logout(s).store)
    ensures DemoCacheConsistent(RefreshProfile(s, refresh).session.store)
    ensures DemoCacheConsistent(Startup(s.api, s.store, profile).session.store)
  {
  }
}
