/**
 * `HTTP`: authenticated GETs with one token refresh and one retry on a 401.
 *
 * The network is an input: a `Server` script holding the replies to
 * successive GETs and the outcome of the login POST. Each operation returns
 * its result together with the store it leaves behind and the calls it made,
 * in order.
 */
module Http {
  import opened Wrappers

  /**
   * The settings and credentials preferences, seen as one store:
   * `Settings.isAnonymous()`, the `access_token` that `refresh` writes and
   * `Settings.getAccessToken()` reads, and the stored username and password.
   */
  datatype Store = Store(anonymous: bool, accessToken: string, username: string, password: string)

  /** A `FuelError`: either the wrapped `RefreshError` or any other transport or decoding failure. */
  datatype FuelError = RefreshError | Other(cause: string)

  /** One reply to a GET: its status code and what decoding it produced. */
  datatype Response<T> = Response(statusCode: int, result: Result<T, FuelError>)

  /** The outcome of the login POST: decoded credentials carrying a token, or a failure. */
  datatype Login = Credentials(token: string) | LoginFailed

  /** The network, as a script: replies to successive GETs, and the login outcome. */
  datatype Server<T> = Server(responses: seq<Response<T>>, login: Login)

  datatype Header = Header(name: string, value: string)

  /** A call put on the network: a GET with its headers, or a form POST. */
  datatype Call = HttpGet(url: string, headers: seq<Header>) | HttpPost(url: string, form: seq<(string, string)>)

  /** What `refresh` returns, with the store and calls it leaves behind. */
  datatype Refreshed = Refreshed(ok: bool, store: Store, calls: seq<Call>)

  /** What `get` or `retryGet` returns, with the store and calls it leaves behind. */
  datatype Exchange<T> = Exchange(result: Result<T, FuelError>, store: Store, calls: seq<Call>)

  const TokenPath: string := "/api/v1/token"
  const Unauthorized: int := 401

  /** The bearer header a GET built against `store` carries. */
  function AuthHeaders(store: Store): (hs: seq<Header>)
    ensures hs == [] <==> store.anonymous
    ensures |hs| <= 1
    ensures !store.anonymous ==> hs[0] == Header("Authorization", "Bearer " + store.accessToken)
  {
    if store.anonymous then [] else [Header("Authorization", "Bearer " + store.accessToken)]
  }

  /** `Fuel.get(url)` built against `store`: the token is read when the request is built. */
  function Request(store: Store, url: string): Call
  {
    HttpGet(url, AuthHeaders(store))
  }

  /** The POST `refresh` makes: the stored username and password as form fields. */
  function LoginCall(store: Store): Call
  {
    HttpPost(TokenPath, [("username", store.username), ("password", store.password)])
  }

  /** The number of GETs in a trace. */
  function CountGets(calls: seq<Call>): nat
  {
    if calls == [] then 0 else (if calls[0].HttpGet? then 1 else 0) + CountGets(calls[1..])
  }

  /** The number of POSTs in a trace. */
  function CountPosts(calls: seq<Call>): nat
  {
    if calls == [] then 0 else (if calls[0].HttpPost? then 1 else 0) + CountPosts(calls[1..])
  }

  /** Counting GETs and POSTs distributes over concatenating traces. */
  lemma {:induction false} CountsOfConcat(a: seq<Call>, b: seq<Call>)
    ensures CountGets(a + b) == CountGets(a) + CountGets(b)
    ensures CountPosts(a + b) == CountPosts(a) + CountPosts(b)
    decreases |a|
  {
    if a != [] {
      assert (a + b)[1..] == a[1..] + b;
      CountsOfConcat(a[1..], b);
    } else {
      assert a + b == b;
    }
  }

  /** Every GET in `calls` targets `url` and carries a bearer header exactly when `anonymous` is false. */
  predicate HeadersFollowMode(calls: seq<Call>, url: string, anonymous: bool)
  {
    forall i | 0 <= i < |calls| && calls[i].HttpGet? ::
      calls[i].url == url && (calls[i].headers != [] <==> !anonymous)
  }

  /**
   * `HTTP.refresh`: posts the stored credentials once. It succeeds exactly
   * when the reply decodes, and only then stores the new token; on failure
   * the store is untouched.
   */
  function Refresh(store: Store, login: Login): (r: Refreshed)
    ensures r.calls == [LoginCall(store)]
    ensures r.ok <==> login.Credentials?
    ensures r.ok ==> r.store.accessToken == login.token
    ensures r.store.anonymous == store.anonymous
    ensures r.store.username == store.username && r.store.password == store.password
    ensures !r.ok ==> r.store == store
  {
    match login
    case Credentials(token) => Refreshed(true, store.(accessToken := token), [LoginCall(store)])
    case LoginFailed => Refreshed(false, store, [LoginCall(store)])
  }

  /**
   * `HTTP.retryGet`: refreshes once; on failure returns `RefreshError`
   * without a GET, otherwise issues one GET built with the freshly stored
   * token and returns its result verbatim, whatever its status.
   */
  function RetryGet<T>(store: Store, url: string, login: Login, reply: Response<T>): (r: Exchange<T>)
    ensures CountPosts(r.calls) == 1 && CountGets(r.calls) <= 1
    ensures r.calls[0] == LoginCall(store)
    ensures login.LoginFailed? ==>
      r.result == Failure(RefreshError) && r.store == store && r.calls == [LoginCall(store)]
    ensures login.Credentials? ==>
      && r.result == reply.result
      && r.store == store.(accessToken := login.token)
      && r.calls == [LoginCall(store), Request(r.store, url)]
    ensures r.store.anonymous == store.anonymous
    ensures HeadersFollowMode(r.calls, url, store.anonymous)
  {
    var refreshed := Refresh(store, login);
    if refreshed.ok then
      var calls := refreshed.calls + [Request(refreshed.store, url)];
      CountsOfConcat(refreshed.calls, [Request(refreshed.store, url)]);
      Exchange(reply.result, refreshed.store, calls)
    else
      Exchange(Failure(RefreshError), refreshed.store, refreshed.calls)
  }

  /**
   * `HTTP.get`: one GET; on a 401 its result is dropped and `retryGet`
   * decides. At most two GETs and at most one refresh are ever made.
   */
  function Get<T>(store: Store, url: string, server: Server<T>): (r: Exchange<T>)
    requires |server.responses| >= 2
    ensures 1 <= CountGets(r.calls) <= 2 && CountPosts(r.calls) <= 1
    ensures r.calls[0] == Request(store, url)
    ensures HeadersFollowMode(r.calls, url, store.anonymous)
    ensures server.responses[0].statusCode != Unauthorized ==>
      r == Exchange(server.responses[0].result, store, [Request(store, url)])
    ensures server.responses[0].statusCode == Unauthorized && server.login.LoginFailed? ==>
      && r.result == Failure(RefreshError)
      && r.store == store
      && r.calls == [Request(store, url), LoginCall(store)]
    ensures server.responses[0].statusCode == Unauthorized && server.login.Credentials? ==>
      && r.result == server.responses[1].result
      && r.store == store.(accessToken := server.login.token)
      && r.calls == [Request(store, url), LoginCall(store), Request(r.store, url)]
  {
    var first := server.responses[0];
    if first.statusCode == Unauthorized then
      var retried := RetryGet(store, url, server.login, server.responses[1]);
      Exchange(retried.result, retried.store, [Request(store, url)] + retried.calls)
    else
      Exchange(first.result, store, [Request(store, url)])
  }

  /**
   * `RefreshError` is distinguishable: when no reply from the server is
   * itself that error, `get` returns it exactly when the first GET drew a
   * 401 and the refresh failed.
   */
  lemma RefreshErrorMeansRefreshFailed<T>(store: Store, url: string, server: Server<T>)
    requires |server.responses| >= 2
    requires forall i | 0 <= i < |server.responses| :: server.responses[i].result != Failure(RefreshError)
    ensures Get(store, url, server).result == Failure(RefreshError) <==>
      server.responses[0].statusCode == Unauthorized && server.login.LoginFailed?
  {
    assert server.responses[0].result != Failure(RefreshError);
    assert server.responses[1].result != Failure(RefreshError);
  }

  /**
   * The retry carries the token `refresh` has just stored, not the stale one
   * the first GET carried (unless anonymous mode suppresses both headers).
   */
  lemma RetryCarriesFreshToken<T>(store: Store, url: string, server: Server<T>)
    requires |server.responses| >= 2
    requires server.responses[0].statusCode == Unauthorized && server.login.Credentials?
    requires !store.anonymous
    ensures var calls := Get(store, url, server).calls;
      && calls[0].headers == [Header("Authorization", "Bearer " + store.accessToken)]
      && calls[2].headers == [Header("Authorization", "Bearer " + server.login.token)]
  {
  }

  /** In anonymous mode no GET carries any header, whatever token is stored. */
  lemma AnonymousSendsNoToken<T>(store: Store, url: string, server: Server<T>)
    requires |server.responses| >= 2
    requires store.anonymous
    ensures forall i | 0 <= i < |Get(store, url, server).calls| ::
      Get(store, url, server).calls[i].HttpGet? ==> Get(store, url, server).calls[i].headers == []
  {
  }
}
