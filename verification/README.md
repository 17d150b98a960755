# Client session manager of the medical-report explainer, in Dafny

This project models the browser client's authentication and session logic.
That logic is the `AuthProvider` context together with its two collaborators:

- the shared HTTP client, whose request interceptor adds the bearer credential;
- the `ProtectedRoute` guard.

The model is functional. A session is an immutable value with four parts:

- the shared client, which holds the base URL and the HTTP library's default headers;
- the persisted store, `localStorage` as a `map<string, string>` with the keys `token` and `demo_email`;
- the current user, an `Option<User>`;
- the `loading` flag.

Each remote call is a parameter: the outcome it settles with, `Resolved(body)` or `Rejected(error)`.
A body is `None` when the response body is `null`.
The operations return:

- `Login`, `Register` and `RefreshProfile`: a `Step` holding the new session, the request dispatched after the interceptor ran, and how the caller's promise settles;
- `Startup`: a `Restored` holding the new session and the request dispatched, or `None` when no call was made (the startup effect returns nothing to a caller);
- `Logout`: the new session alone (it makes no call and returns nothing).

JavaScript truthiness is explicit: a stored string counts as present only when it is set and non-empty (`Js.Truthy`).
`x || d` is `Js.Or`.
`email.split('@')[0]` is modelled through a full JavaScript-style `Split` and `Join` on one separator (`Text`).

Modules, one file each:

- `Js` (`js.dfy`): optional values and truthiness.
- `Text` (`text.dfy`): split and join, and the e-mail local part.
- `Storage` (`storage.dfy`): the key-value store.
- `Api` (`api.dfy`): the base URL, the interceptor and request dispatch.
- `Auth` (`auth.dfy`): the session state and its transitions.
- `Guard` (`guard.dfy`): the route guard.
- `SessionProperties` (`properties.dfy`): properties that span several transitions.

## Model

| member | source | states |
|---|---|---|
| Text.Split | frontend/src/contexts/AuthContext.jsx:15 | `split` on one separator always yields at least one piece, and no piece contains the separator. Joining the pieces with the separator gives the input back. |
| Text.SplitJoin | frontend/src/contexts/AuthContext.jsx:42 | The reverse round trip: splitting the join of separator-free pieces gives back exactly those pieces. |
| Text.LocalPart | frontend/src/contexts/AuthContext.jsx:14-15 | `split('@')[0]` is a prefix of the address and contains no `@`. It stops either at the first `@` or at the end of the string. |
| Text.LocalPartUnique | frontend/src/contexts/AuthContext.jsx:42 | Those three facts determine the local part: any prefix that has them equals it. |
| Text.LocalPartWhole | frontend/src/contexts/AuthContext.jsx:42 | An address is its own local part exactly when it contains no `@`. |
| Text.LocalPartLeadingAt | frontend/src/contexts/AuthContext.jsx:15 | An address that starts with `@` has an empty local part. |
| Text.LocalPartOfAddress | frontend/src/contexts/AuthContext.jsx:42 | The local part of `a@b` is `a` whenever `a` contains no `@`. |
| Api.ApiBase | frontend/src/services/api.js:4 | The base URL is the configured URL when it is set and non-empty. Otherwise it is the empty string. |
| Api.CreateClient | frontend/src/services/api.js:7-9 | The client's base URL is the configured URL when it is set and non-empty, and empty (same-origin paths) exactly when it is not. The client keeps the HTTP library's default headers as given. |
| Api.BearerToken | frontend/src/services/api.js:15 | Reads back the header that line builds. A value starting with `Bearer ` always yields the text after it. Whatever is read back, prefixed with `Bearer `, gives the value again. |
| Api.Intercept | frontend/src/services/api.js:12-17 | A truthy stored token sets `Authorization` to exactly `Bearer <token>`, and that value reads back as the token. An absent or empty token returns the configuration unchanged. No other header and no other field ever changes. |
| Api.Dispatch | frontend/src/services/api.js:12-17 | A dispatched request keeps its method, path, body and base URL, and carries the client's default headers. With a truthy stored token it also carries `Authorization`, which reads back as the token. Without one its headers are exactly the defaults. No default header other than `Authorization` is ever changed. |
| Auth.Startup | frontend/src/contexts/AuthContext.jsx:10-31 | Restoration always ends with loading cleared. With no token or an empty one: user null, store untouched, no request. With the demo token: the user is rebuilt from the cached e-mail, or from the default address when the cache is missing or empty; no request is made. With any other token: the profile is fetched through the shared client, so the request carries its base URL, its default headers and the token as bearer credential. On success the user is the response body, and a `null` body leaves the user null. On failure only the token is removed, and the user stays null. |
| Auth.Login | frontend/src/contexts/AuthContext.jsx:33-49 | Login never rejects. It always posts the credentials to `/auth/login` through the shared client, so the interceptor adds the stored token. On a success with a body it stores the issued token, takes the response's user and returns the body. On any failure, a success with a `null` body included, it stores the demo token and the e-mail, using the default address for a missing or empty e-mail. It sets the user to that e-mail named by its local part, and returns a body tagged `demo`. It changes no other store key, and leaves loading as it was. |
| Auth.Register | frontend/src/contexts/AuthContext.jsx:51-56 | Register posts the registration data to `/auth/register` through the shared client. On a success with a body, register stores the token and the user and returns the body. On failure it rejects with the same error and leaves the session unchanged. A success with a `null` body also rejects and leaves the session unchanged, with the `TypeError` of reading its token. |
| Auth.Logout | frontend/src/contexts/AuthContext.jsx:58-61 | Logout removes only the token and clears the user. The cached demo e-mail and the loading flag stay. |
| Auth.RefreshProfile | frontend/src/contexts/AuthContext.jsx:63-72 | It fetches `/user/profile` through the shared client, with a truthy stored token as its bearer credential. On success the body replaces the user and is returned; a `null` body clears the user. On failure the same error is passed on and the session is unchanged. The store is never touched. |
| Guard.ProtectedRoute | frontend/src/routes/ProtectedRoute.jsx:6-24 | The spinner shows exactly while loading. A redirect to `/login` with `replace` happens exactly when loading is over and there is no user. The page itself renders, unchanged, exactly when loading is over and there is a user. |
| SessionProperties.MountShowsSpinner | frontend/src/contexts/AuthContext.jsx:7-8 | The mounted state is unresolved and the guard shows the spinner. After restoration the guard never shows it. |
| SessionProperties.GuardFollowsPhase | frontend/src/routes/ProtectedRoute.jsx:9-24 | The guard's three outcomes correspond one-to-one to the phases: unresolved, anonymous, and signed in (real or demo). |
| SessionProperties.FallbackLoginSurvivesRestart | frontend/src/contexts/AuthContext.jsx:13-16 | A failed login followed by a reload restores the same user, keeps the store and makes no request. The restored session is in demo mode. |
| SessionProperties.FallbackLoginExample | frontend/src/contexts/AuthContext.jsx:41-45 | Signing in as `a@b.com` against a backend that is down, then reloading, gives the user `a@b.com` named `a`. |
| SessionProperties.FallbackLoginDefaultEmail | frontend/src/contexts/AuthContext.jsx:41 | If the e-mail is missing or empty, the fallback signs in as `demo@example.com`, named `demo`. |
| SessionProperties.LoginNullBodyFallsBack | frontend/src/contexts/AuthContext.jsx:35-47 | A login answered with a `null` body ends exactly like a rejected one: it produces the same session, request and result, in demo mode. |
| SessionProperties.FallbackLoginAuthorizesRequests | frontend/src/services/api.js:12-17 | After a fallback login, and after reloading that session, every request carries the client's default headers, with `Authorization` set to exactly `Bearer demo-token`. |
| SessionProperties.DemoTokenHeaders | frontend/src/services/api.js:13-15 | With the demo token stored, every request's headers are exactly the client's defaults with `Authorization` set to `Bearer demo-token`. |
| SessionProperties.LoginAuthorizesRequests | frontend/src/contexts/AuthContext.jsx:36 | After a successful login with a non-empty token, every request carries that token as its bearer credential. |
| SessionProperties.LoginSuccessAuthenticates | frontend/src/contexts/AuthContext.jsx:35-38 | From a settled session, a successful login that returns a user and a real token puts the session in the authenticated, non-demo phase. |
| SessionProperties.LogoutIdempotent | frontend/src/contexts/AuthContext.jsx:58-61 | Logging out twice equals logging out once. Once loading is over, logout always ends anonymous. A reload after logout is anonymous and makes no request. |
| SessionProperties.FailedRestoreIsForgotten | frontend/src/contexts/AuthContext.jsx:23-25 | After a restoration with a failed profile fetch the session is anonymous. The next reload makes no request and yields the same state. |
| SessionProperties.RefreshKeepsPhase | frontend/src/contexts/AuthContext.jsx:63-72 | A failed refresh never changes the phase. A refresh that returns a user keeps a signed-in session in the same mode. A refresh that returns a `null` body leaves a settled session anonymous, so the guard redirects, yet the token stays stored. |
| SessionProperties.RejectedRegistrationStaysAnonymous | frontend/src/contexts/AuthContext.jsx:51-56 | A rejected registration from an anonymous session passes the error on verbatim. It stores no token and leaves the user null. |
| SessionProperties.LoginRegisterAsymmetry | frontend/src/contexts/AuthContext.jsx:33-56 | Login always resolves. Register rejects, leaving the session unchanged, on a backend failure or a `null` body. On a success with a body the two give the same session and the same result. |
| SessionProperties.DemoCacheConsistentPreserved | frontend/src/contexts/AuthContext.jsx:43-44 | Whenever the demo token is stored, a non-empty cached e-mail is stored too. Every transition keeps this, provided the backend never issues the literal demo token. |

## Left out

- Rendering (the spinner markup, `Navigate`, the context provider): the guard's result is a three-way decision value.
- Async scheduling and interleaving: each operation is one atomic transition. Two overlapping operations are not modelled, and neither is a login issued before restoration settles.
- React's state batching: the model does not represent the window between the `setUser` and `setLoading` calls.
- `console.error` in `refreshProfile`: it is a logging side effect only.
- The axios transport, `baseURL`/`url` joining, and axios's case-insensitive header object: the model passes a request's configuration to the transport and stops there.
- Api.CreateClient: the default headers axios adds to every request (such as `Accept`), and the `Content-Type` it infers per body, are not modelled as values. They are a parameter of the client. The model promises only that the interceptor leaves them alone and sets `Authorization`.
- Values that are not strings in the store or in JSON bodies. The model omits JavaScript coercion, such as `setItem('token', undefined)` storing the string `"undefined"`. It also omits an `email` field that is not a string. The backend's access token is taken to be a string.
- Auth.Startup: models only the first mount. The effect runs once, and the model builds its starting state from the store rather than accepting an arbitrary session.
- The rest of the application (pages, forms, upload checks, the `/` redirect in `App.js`, date formatting): none of it is part of the session logic.
- The `useAuth` hook: it is not part of this model, and the guard is taken to read the provider's `user` and `loading` directly.
- SessionProperties.DemoCacheConsistentPreserved: assumes the backend never issues the literal token `demo-token`. A successful login or registration stores whatever token the backend returns without checking it. The stronger invariant, that a demo e-mail is always present beside the demo token, therefore holds only under that assumption.
