/** The shared HTTP client: its base URL, chosen once from the build
    environment, and the request interceptor that turns the stored token
    into a bearer credential on every outgoing request. The transport
    itself is not modelled; a request is the configuration handed to it. */
module Api {
  import opened Js
  import opened Storage

  datatype Method = Get | Post | Put

  /** A request configuration as the interceptor sees it. `data` is the
      JSON body, `None` when there is none (or it is `null`). */
  datatype Config = Config(
    baseURL: string,
    verb: Method,
    url: string,
    headers: map<string, string>,
    data: Option<map<string, string>>)

  /** The one client instance every module shares: its base URL and the
      default headers the HTTP library puts on every request before the
      interceptor runs. */
  datatype Client = Client(baseURL: string, defaults: map<string, string>)

  const AuthorizationHeader: string := "Authorization"
  const BearerPrefix: string := "Bearer "

  /** `process.env.REACT_APP_API_URL || ''`: the configured URL when it is
      set and non-empty, otherwise the empty string (same-origin paths). */
  function ApiBase(env: Option<string>): (r: string)
    ensures Truthy(env) ==> r == env.value
    ensures !Truthy(env) ==> r == ""
    ensures r == "" ==> !Truthy(env)
  {
    Or(env, "")
  }

  /** `axios.create({ baseURL: API_BASE })`. The library's own default
      headers are a parameter; the call adds none of its own. */
  function CreateClient(env: Option<string>, defaults: map<string, string>): (c: Client)
    ensures Truthy(env) ==> c.baseURL == env.value
    ensures c.baseURL == "" <==> !Truthy(env)
    ensures c.defaults == defaults
  {
    Client(ApiBase(env), defaults)
  }

  /** Reads the credential back out of an `Authorization` value: the text
      after `Bearer `, or nothing when the value has another form. */
  function BearerToken(h: string): (r: Option<string>)
    ensures r.Some? ==> h == BearerPrefix + r.value
    ensures BearerPrefix <= h ==> r == Some(h[|BearerPrefix|..])
  {
    if BearerPrefix <= h then Some(h[|BearerPrefix|..]) else None
  }

  /** The request interceptor. A truthy stored token sets the
      `Authorization` header to a bearer credential carrying exactly that
      token; an absent or empty token leaves the configuration as it was.
      No other header and no other field changes. */
  function Intercept(c: Config, st: Store): (r: Config)
    ensures r.baseURL == c.baseURL && r.verb == c.verb && r.url == c.url && r.data == c.data
    ensures r.headers - {AuthorizationHeader} == c.headers - {AuthorizationHeader}
    ensures !Truthy(GetItem(st, TokenKey)) ==> r == c
    ensures Truthy(GetItem(st, TokenKey)) ==>
              AuthorizationHeader in r.headers
              && r.headers[AuthorizationHeader] == BearerPrefix + st[TokenKey]
              && BearerToken(r.headers[AuthorizationHeader]) == Some(st[TokenKey])
  {
    var token := GetItem(st, TokenKey);
    if Truthy(token) then
      var h := BearerPrefix + token.value;
      assert h[|BearerPrefix|..] == token.value;
      c.(headers := c.headers[AuthorizationHeader := h])
    else
      c
  }

  /** What the client hands to the transport for `api.<method>(url, data)`:
      a fresh configuration carrying the client's default headers, passed
      through the interceptor with the store as it is at dispatch time. */
  function Dispatch(client: Client, st: Store, m: Method, url: string, data: Option<map<string, string>>): (r: Config)
    ensures r.baseURL == client.baseURL && r.verb == m && r.url == url && r.data == data
    ensures Truthy(GetItem(st, TokenKey)) ==>
              AuthorizationHeader in r.headers
              && BearerToken(r.headers[AuthorizationHeader]) == GetItem(st, TokenKey)
    ensures r.headers - {AuthorizationHeader} == client.defaults - {AuthorizationHeader}
    ensures !Truthy(GetItem(st, TokenKey)) ==> r.headers == client.defaults
  {
    Intercept(Config(client.baseURL, m, url, client.defaults, data), st)
  }
}
