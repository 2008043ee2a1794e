/**
 * `MovieBoxClient`: the one-shot session bootstrap, the mirror-host fallback
 * loop of `getWithCookies`, `get`, `post` and the calls built on them, and the
 * endpoint wrappers. Each method is proved against a function of the state it
 * starts from; the properties of the client are lemmas about those functions.
 */
module ApiClient {
  import opened Wrappers
  import opened Text
  import opened JsValue
  import Urls
  import Cookies
  import opened Upstream

  // ------------------------------------------------------------- network

  /** What one call of `fetch` did: the request, and how it settled. */
  datatype Step = Step(request: Request, outcome: FetchOutcome)

  /**
   * The network as the client sees it: the requests handed to `fetch` so far,
   * and a server whose answer depends on the request and on how many requests
   * came before it. A URL `fetch` refuses is one the server answers with a
   * rejection.
   */
  class Network {
    var log: seq<Request>
    const server: (nat, Request) -> FetchOutcome

    constructor (server: (nat, Request) -> FetchOutcome)
      ensures this.server == server && log == []
    {
      this.server := server;
      log := [];
    }

    method Fetch(req: Request) returns (o: FetchOutcome)
      modifies this
      ensures o == server(|old(log)|, req)
      ensures log == old(log) + [req]
    {
      o := server(|log|, req);
      log := log + [req];
    }
  }

  // --------------------------------------------------------------- state

  /** What does not change while a client runs: its host, the server, and `JSON.parse`. */
  datatype Context = Context(selected: string, server: (nat, Request) -> FetchOutcome, parse: string -> Option<Value>)

  /** The bootstrap flag, the process-wide cookie store, and the requests sent so far. */
  datatype State = State(fetched: bool, cookies: seq<(string, string)>, log: seq<Request>)

  /** `fetch(req)` from state `st`. */
  function Send(ctx: Context, st: State, req: Request): Step
  {
    Step(req, ctx.server(|st.log|, req))
  }

  /** `if (sc) parseAndStoreSetCookie(sc)`. */
  function Merge(cookies: seq<(string, string)>, setCookie: Option<string>): seq<(string, string)>
  {
    Cookies.StoreAll(cookies, Cookies.SetCookiePairs(setCookie))
  }

  /** The state after a step whose response's cookies are stored whatever its status. */
  function Apply(st: State, s: Step): State
  {
    st.(log := st.log + [s.request],
        cookies := if s.outcome.Responded? then Merge(st.cookies, s.outcome.response.setCookie) else st.cookies)
  }

  /** The state after a step whose cookies are not stored. */
  function Record(st: State, s: Step): State
  {
    st.(log := st.log + [s.request])
  }

  const AppInfoPath: string := "/wefeed-h5-bff/app/get-latest-app-pkgs?app_name=moviebox"

  /**
   * `fetchAppInfo()`: one GET with the default headers; its cookies are stored
   * whatever the status, and every error, the body and its JSON are dropped.
   */
  function AppInfo(ctx: Context, st: State): State
  {
    match AppInfoRequest(ctx.selected)
    case None => st
    case Some(req) => Apply(st, Send(ctx, st, req))
  }

  /** The request of `fetchAppInfo`, unless its URL cannot be built. */
  function AppInfoRequest(selected: string): Option<Request>
  {
    match GetAbsoluteUrl(selected, AppInfoPath)
    case Failure(_) => None
    case Success(url) => Some(Request(GET, url, DefaultHeaders(HostUrl(selected)), None))
  }

  /** `ensureCookiesAssigned()`. */
  function Ensure(ctx: Context, st: State): State
  {
    if st.fetched then st else AppInfo(ctx, st).(fetched := true)
  }

  /**
   * The bootstrap runs at most once: afterwards the flag is set, whatever the
   * outcome, and a second call changes nothing; it sends at most one request.
   */
  lemma EnsureOnce(ctx: Context, st: State)
    ensures Ensure(ctx, st).fetched
    ensures Ensure(ctx, Ensure(ctx, st)) == Ensure(ctx, st)
    ensures st.fetched ==> Ensure(ctx, st) == st
    ensures |st.log| <= |Ensure(ctx, st).log| <= |st.log| + 1
    ensures Ensure(ctx, st).log[..|st.log|] == st.log
  {
  }

  // ------------------------------------------------------ getWithCookies

  /** The request of one attempt against `host`. */
  function AttemptRequest(selected: string, url: string, custom: Option<Headers>, cookies: seq<(string, string)>, host: string): Request
  {
    Request(GET, ReplaceHostInUrl(url, host), AttemptHeaders(selected, host, custom, cookies), None)
  }

  /** One attempt of the loop against `host` from state `st`, for the URL and custom headers of the call. */
  function Attempter(ctx: Context, url: string, custom: Option<Headers>): (State, string) -> Step
  {
    (st: State, host: string) => Send(ctx, st, AttemptRequest(ctx.selected, url, custom, st.cookies, host))
  }

  datatype Verdict = Got(response: Response) | Failed(error: Error)

  /** An ok response ends the loop; anything else is recorded as `lastError`. */
  function VerdictOf(host: string, s: Step): Verdict
  {
    match s.outcome
    case Rejected(e) => Failed(FetchFailed(e))
    case Responded(resp) =>
      if Ok(resp) then Got(resp) else Failed(HostFailed(host, resp.status, SafeText(resp.body)))
  }

  /** The `for (const host of hostsToTry)` loop over `hosts`, with `lastError` so far. */
  function TryHosts(attempt: (State, string) -> Step, st: State, hosts: seq<string>,
                    lastError: Option<Error>, all: seq<string>): (Result<Response, Error>, State)
    decreases |hosts|
  {
    if hosts == [] then (Failure(if lastError.Some? then lastError.value else AllAttempted(all)), st)
    else
      var s := attempt(st, hosts[0]);
      match VerdictOf(hosts[0], s)
      case Got(resp) => (Success(resp), Apply(st, s))
      case Failed(e) => TryHosts(attempt, Apply(st, s), hosts[1..], Some(e), all)
  }

  /** The attempts the loop makes: up to and including the first ok one. */
  function Trace(attempt: (State, string) -> Step, st: State, hosts: seq<string>): (tr: seq<Step>)
    ensures |tr| <= |hosts|
    decreases |hosts|
  {
    if hosts == [] then []
    else
      var s := attempt(st, hosts[0]);
      if VerdictOf(hosts[0], s).Got? then [s] else [s] + Trace(attempt, Apply(st, s), hosts[1..])
  }

  /** The state after the steps `tr`, one after another. */
  function Replay(st: State, tr: seq<Step>): State
    decreases |tr|
  {
    if tr == [] then st else Replay(Apply(st, tr[0]), tr[1..])
  }

  /** The requests of the steps `tr`, in order. */
  function Requests(tr: seq<Step>): (r: seq<Request>)
    ensures |r| == |tr| && forall j :: 0 <= j < |tr| ==> r[j] == tr[j].request
  {
    seq(|tr|, j requires 0 <= j < |tr| => tr[j].request)
  }

  lemma {:induction false} ReplayLog(st: State, tr: seq<Step>)
    ensures Replay(st, tr).log == st.log + Requests(tr)
    ensures Replay(st, tr).fetched == st.fetched
    decreases |tr|
  {
    if tr != [] {
      ReplayLog(Apply(st, tr[0]), tr[1..]);
      assert [tr[0].request] + Requests(tr[1..]) == Requests(tr);
    }
  }

  lemma {:induction false} ReplaySnoc(st: State, tr: seq<Step>, s: Step)
    ensures Replay(st, tr + [s]) == Apply(Replay(st, tr), s)
    decreases |tr|
  {
    if tr == [] {
      assert tr + [s] == [s];
    } else {
      assert (tr + [s])[1..] == tr[1..] + [s];
      ReplaySnoc(Apply(st, tr[0]), tr[1..], s);
    }
  }

  /**
   * The result of the loop: it stopped early only at an ok response, which it
   * returns; when every host failed, the error thrown is the one recorded for
   * the last host, so the "All MovieBox hosts attempted" error is never thrown;
   * and the state is that left by the attempts made, failed ones included.
   * (That every attempt before the last failed is `TraceFailedBefore`.)
   */
  lemma {:induction false} TryHostsOutcome(attempt: (State, string) -> Step, st: State, hosts: seq<string>,
                                           lastError: Option<Error>, all: seq<string>)
    requires hosts != []
    ensures var (r, after) := TryHosts(attempt, st, hosts, lastError, all);
            var tr := Trace(attempt, st, hosts);
            var n := |tr|;
            && 1 <= n <= |hosts|
            && (n < |hosts| ==> VerdictOf(hosts[n - 1], tr[n - 1]).Got?)
            && (r.Success? ==> VerdictOf(hosts[n - 1], tr[n - 1]) == Got(r.value))
            && (r.Failure? ==> n == |hosts| && VerdictOf(hosts[n - 1], tr[n - 1]) == Failed(r.error))
            && after == Replay(st, tr)
    decreases |hosts|
  {
    TraceLength(attempt, st, hosts);
    TryHostsState(attempt, st, hosts, lastError, all);
    TryHostsResult(attempt, st, hosts, lastError, all);
  }

  /** The loop makes one attempt at least, and stops early only at an ok response. */
  lemma {:induction false} TraceLength(attempt: (State, string) -> Step, st: State, hosts: seq<string>)
    requires hosts != []
    ensures var tr := Trace(attempt, st, hosts);
            && 1 <= |tr| <= |hosts|
            && (|tr| < |hosts| ==> VerdictOf(hosts[|tr| - 1], tr[|tr| - 1]).Got?)
    decreases |hosts|
  {
    var s := attempt(st, hosts[0]);
    if !VerdictOf(hosts[0], s).Got? && |hosts| > 1 {
      var rest := Trace(attempt, Apply(st, s), hosts[1..]);
      TraceLength(attempt, Apply(st, s), hosts[1..]);
      assert Trace(attempt, st, hosts) == [s] + rest;
      assert hosts[1..][|rest| - 1] == hosts[|rest|];
    }
  }

  /** The state the loop leaves is the one its attempts leave. */
  lemma {:induction false} TryHostsState(attempt: (State, string) -> Step, st: State, hosts: seq<string>,
                                         lastError: Option<Error>, all: seq<string>)
    ensures TryHosts(attempt, st, hosts, lastError, all).1 == Replay(st, Trace(attempt, st, hosts))
    decreases |hosts|
  {
    if hosts != [] {
      var s := attempt(st, hosts[0]);
      var st1 := Apply(st, s);
      if VerdictOf(hosts[0], s).Got? {
        assert Trace(attempt, st, hosts) == [s];
        assert Replay(st, [s]) == Replay(st1, []);
      } else {
        var rest := Trace(attempt, st1, hosts[1..]);
        TryHostsState(attempt, st1, hosts[1..], Some(VerdictOf(hosts[0], s).error), all);
        assert Trace(attempt, st, hosts) == [s] + rest;
        assert ([s] + rest)[1..] == rest;
      }
    }
  }

  /** The loop returns the last attempt's response when it is ok, and otherwise that attempt's error. */
  lemma {:induction false} TryHostsResult(attempt: (State, string) -> Step, st: State, hosts: seq<string>,
                                          lastError: Option<Error>, all: seq<string>)
    requires hosts != []
    ensures var r := TryHosts(attempt, st, hosts, lastError, all).0;
            var tr := Trace(attempt, st, hosts);
            && |tr| >= 1
            && (r.Success? ==> VerdictOf(hosts[|tr| - 1], tr[|tr| - 1]) == Got(r.value))
            && (r.Failure? ==> |tr| == |hosts| && VerdictOf(hosts[|tr| - 1], tr[|tr| - 1]) == Failed(r.error))
    decreases |hosts|
  {
    var s := attempt(st, hosts[0]);
    var st1 := Apply(st, s);
    var v := VerdictOf(hosts[0], s);
    if v.Got? {
      assert Trace(attempt, st, hosts) == [s];
    } else if |hosts| == 1 {
      assert Trace(attempt, st, hosts) == [s];
      assert TryHosts(attempt, st1, [], Some(v.error), all).0 == Failure(v.error);
    } else {
      var rest := Trace(attempt, st1, hosts[1..]);
      TryHostsResult(attempt, st1, hosts[1..], Some(v.error), all);
      assert Trace(attempt, st, hosts) == [s] + rest;
      assert hosts[1..][|rest| - 1] == hosts[|rest|];
    }
  }

  /** Attempt `j` is the attempt against `hosts[j]` from the state the earlier attempts left. */
  lemma {:induction false} TraceSteps(attempt: (State, string) -> Step, st: State, hosts: seq<string>)
    ensures var tr := Trace(attempt, st, hosts);
            forall j :: 0 <= j < |tr| ==> tr[j] == attempt(Replay(st, tr[..j]), hosts[j])
    decreases |hosts|
  {
    var tr := Trace(attempt, st, hosts);
    if hosts != [] {
      var s := attempt(st, hosts[0]);
      var st1 := Apply(st, s);
      if !VerdictOf(hosts[0], s).Got? {
        TraceSteps(attempt, st1, hosts[1..]);
        var rest := Trace(attempt, st1, hosts[1..]);
        assert tr == [s] + rest;
        forall j | 0 <= j < |tr| ensures tr[j] == attempt(Replay(st, tr[..j]), hosts[j]) {
          if j > 0 {
            assert tr[..j] == [s] + rest[..j - 1];
            assert ([s] + rest[..j - 1])[1..] == rest[..j - 1];
            assert Replay(st, tr[..j]) == Replay(st1, rest[..j - 1]);
            assert tr[j] == rest[j - 1] && hosts[j] == hosts[1..][j - 1];
          } else {
            assert tr[..0] == [];
          }
        }
      } else {
        assert tr == [s] && tr[..0] == [];
      }
    }
  }

  /**
   * Attempt `j + 1` starts from the state attempt `j` left, whatever its
   * verdict: the cookies a failed host set are in the store the next attempt
   * reads.
   */
  lemma FailedHostCookiesPersist(attempt: (State, string) -> Step, st: State, hosts: seq<string>, j: nat)
    requires j + 1 < |Trace(attempt, st, hosts)|
    ensures var tr := Trace(attempt, st, hosts);
            VerdictOf(hosts[j], tr[j]).Failed? &&
            tr[j + 1] == attempt(Apply(Replay(st, tr[..j]), tr[j]), hosts[j + 1])
  {
    var tr := Trace(attempt, st, hosts);
    TraceSteps(attempt, st, hosts);
    TraceFailedBefore(attempt, st, hosts, j);
    assert tr[..j + 1] == tr[..j] + [tr[j]];
    ReplaySnoc(st, tr[..j], tr[j]);
  }

  /** Every attempt of the trace but the last failed. */
  lemma {:induction false} TraceFailedBefore(attempt: (State, string) -> Step, st: State, hosts: seq<string>, j: nat)
    requires j + 1 < |Trace(attempt, st, hosts)|
    ensures VerdictOf(hosts[j], Trace(attempt, st, hosts)[j]).Failed?
    decreases |hosts|
  {
    var s := attempt(st, hosts[0]);
    var rest := Trace(attempt, Apply(st, s), hosts[1..]);
    assert Trace(attempt, st, hosts) == [s] + rest;
    if j > 0 {
      TraceFailedBefore(attempt, Apply(st, s), hosts[1..], j - 1);
      assert hosts[1..][j - 1] == hosts[j];
    }
  }

  /** An attempt of `getWithCookies` sends the store's cookies of the moment, with the URL moved to its host. */
  lemma AttemptSendsStore(ctx: Context, url: string, custom: Option<Headers>, st: State, host: string)
    ensures var req := Attempter(ctx, url, custom)(st, host).request;
            && req == AttemptRequest(ctx.selected, url, custom, st.cookies, host)
            && req.url == ReplaceHostInUrl(url, host)
            && Cookies.Get(req.headers, "Cookie") ==
                 (var ch := Cookies.BuildCookieHeader(st.cookies);
                  if ch != "" then Some(ch) else Cookies.LastValue(CustomOf(custom), "Cookie"))
  {
    AttemptHeadersFacts(ctx.selected, host, custom, st.cookies);
  }

  /** The log grows by one request per attempt made: no host after the first ok one is asked. */
  lemma TryHostsLog(attempt: (State, string) -> Step, st: State, hosts: seq<string>,
                    lastError: Option<Error>, all: seq<string>)
    requires hosts != []
    ensures TryHosts(attempt, st, hosts, lastError, all).1.log == st.log + Requests(Trace(attempt, st, hosts))
    ensures TryHosts(attempt, st, hosts, lastError, all).1.fetched == st.fetched
  {
    TryHostsOutcome(attempt, st, hosts, lastError, all);
    ReplayLog(st, Trace(attempt, st, hosts));
  }

  /**
   * The URL `getWithCookies` works on: a path is made absolute against the
   * selected host, and the parameters are set on it one after another.
   */
  function PrepareUrl(selected: string, url: string, params: Option<Params>): Result<string, Error>
  {
    var absolute := if StartsWith(url, "/") then GetAbsoluteUrl(selected, url) else Success(url);
    match absolute
    case Failure(e) => Failure(e)
    case Success(a) =>
      if params.None? then Success(a)
      else match Urls.Parse(a)
        case None => Failure(InvalidUrl(a))
        case Some(u) => Success(Urls.Serialize(SetAll(u, params.value)))
  }

  /** `getWithCookies(url, params, customHeaders)`. */
  function GetWithCookiesSpec(ctx: Context, st: State, url: string, params: Option<Params>, custom: Option<Headers>): (Result<Response, Error>, State)
  {
    var st1 := Ensure(ctx, st);
    match PrepareUrl(ctx.selected, url, params)
    case Failure(e) => (Failure(e), st1)
    case Success(u) => TryHosts(Attempter(ctx, u, custom), st1, HostsToTry(ctx.selected), None, HostsToTry(ctx.selected))
  }

  /**
   * `getWithCookies` always leaves the bootstrap done, and never throws the
   * "All MovieBox hosts attempted" error: a failure is the URL's, or the error
   * of the last host tried after every host failed.
   */
  lemma GetWithCookiesFailure(ctx: Context, st: State, url: string, params: Option<Params>, custom: Option<Headers>)
    ensures var (r, _) := GetWithCookiesSpec(ctx, st, url, params, custom);
            var hosts := HostsToTry(ctx.selected);
            r.Failure? ==>
              PrepareUrl(ctx.selected, url, params).Failure? ||
              (var tr := Trace(Attempter(ctx, PrepareUrl(ctx.selected, url, params).value, custom), Ensure(ctx, st), hosts);
               |tr| == |hosts| && VerdictOf(hosts[|hosts| - 1], tr[|hosts| - 1]) == Failed(r.error))
    ensures GetWithCookiesSpec(ctx, st, url, params, custom).1.fetched
  {
    var st1 := Ensure(ctx, st);
    if PrepareUrl(ctx.selected, url, params).Success? {
      var hosts := HostsToTry(ctx.selected);
      var attempt := Attempter(ctx, PrepareUrl(ctx.selected, url, params).value, custom);
      TryHostsOutcome(attempt, st1, hosts, None, hosts);
      TryHostsLog(attempt, st1, hosts, None, hosts);
    }
  }

  /** `getWithCookiesFromApi(url, params, customHeaders)`. */
  function FromApiSpec(ctx: Context, st: State, url: string, params: Option<Params>, custom: Option<Headers>): (Result<Value, Error>, State)
  {
    var (r, st1) := GetWithCookiesSpec(ctx, st, url, params, custom);
    match r
    case Failure(e) => (Failure(e), st1)
    case Success(resp) => (ClassifyApiBody(ctx.parse, resp.status, SafeText(resp.body)), st1)
  }

  // ------------------------------------------------------------ post, get

  /** How `get` and `post` read their one answer: a rejection, an HTTP error, or the response. */
  function Answer(s: Step): (r: Result<Response, Error>)
  {
    match s.outcome
    case Rejected(e) => Failure(FetchFailed(e))
    case Responded(resp) =>
      if Ok(resp) then Success(resp) else Failure(HttpFailed(resp.status, SafeText(resp.body)))
  }

  /** The request of `post`: the body is the data given, the cookies those of the store. */
  function PostRequest(selected: string, url: string, data: Value, custom: Option<Headers>, cookies: seq<(string, string)>): Request
  {
    Request(POST, url, PostHeaders(selected, custom, cookies), Some(data))
  }

  /** `post(url, data, customHeaders)`: the cookies of the answer are stored only when it is ok. */
  function PostSpec(ctx: Context, st: State, url: string, data: Value, custom: Option<Headers>): (Result<Response, Error>, State)
  {
    var st1 := Ensure(ctx, st);
    var s := Send(ctx, st1, PostRequest(ctx.selected, url, data, custom, st1.cookies));
    (Answer(s), if Answer(s).Success? then Apply(st1, s) else Record(st1, s))
  }

  /**
   * `post` runs the bootstrap, then sends exactly one request; a failed `post`
   * leaves the cookie store as the bootstrap left it, and an ok one stores the
   * answer's cookies.
   */
  lemma PostCookies(ctx: Context, st: State, url: string, data: Value, custom: Option<Headers>)
    ensures var (r, after) := PostSpec(ctx, st, url, data, custom);
            var st1 := Ensure(ctx, st);
            && after.fetched
            && after.log == st1.log + [PostRequest(ctx.selected, url, data, custom, st1.cookies)]
            && (r.Failure? ==> after.cookies == st1.cookies)
            && (r.Success? ==> after.cookies == Merge(st1.cookies, r.value.setCookie))
  {
    EnsureOnce(ctx, st);
  }

  /** `postToApi(url, data, customHeaders)`. */
  function PostToApiSpec(ctx: Context, st: State, url: string, data: Value, custom: Option<Headers>): (Result<Value, Error>, State)
  {
    var (r, st1) := PostSpec(ctx, st, url, data, custom);
    match r
    case Failure(e) => (Failure(e), st1)
    case Success(resp) =>
      match ResponseJson(resp.body, ctx.parse)
      case Failure(e) => (Failure(e), st1)
      case Success(json) => (ProcessApiResponse(json), st1)
  }

  /** The request of `get`: the URL with the parameters appended, and the default headers under the custom ones. */
  function GetRequest(selected: string, url: string, params: Option<Params>, custom: Option<Headers>): Result<Request, Error>
  {
    match Urls.Parse(url)
    case None => Failure(InvalidUrl(url))
    case Some(u) =>
      Success(Request(GET, Urls.Serialize(AppendAll(u, if params.Some? then params.value else [])), PlainHeaders(selected, custom), None))
  }

  /** `get(url, params, customHeaders)`: no bootstrap, no cookies. */
  function GetSpec(ctx: Context, st: State, url: string, params: Option<Params>, custom: Option<Headers>): (Result<Response, Error>, State)
  {
    match GetRequest(ctx.selected, url, params, custom)
    case Failure(e) => (Failure(e), st)
    case Success(req) =>
      var s := Send(ctx, st, req);
      (Answer(s), Record(st, s))
  }

  /** `get` touches neither the bootstrap flag nor the cookie store, and sends at most one request. */
  lemma GetLeavesSession(ctx: Context, st: State, url: string, params: Option<Params>, custom: Option<Headers>)
    ensures var after := GetSpec(ctx, st, url, params, custom).1;
            && after.fetched == st.fetched && after.cookies == st.cookies
            && (GetRequest(ctx.selected, url, params, custom).Failure? ==> after.log == st.log)
            && (GetRequest(ctx.selected, url, params, custom).Success? ==>
                  after.log == st.log + [GetRequest(ctx.selected, url, params, custom).value])
  {
  }

  /** `getFromApi(url, params)`. */
  function GetFromApiSpec(ctx: Context, st: State, url: string, params: Option<Params>): (Result<Value, Error>, State)
  {
    var (r, st1) := GetSpec(ctx, st, url, params, None);
    match r
    case Failure(e) => (Failure(e), st1)
    case Success(resp) =>
      match ResponseJson(resp.body, ctx.parse)
      case Failure(e) => (Failure(e), st1)
      case Success(json) => (ProcessApiResponse(json), st1)
  }

  // ------------------------------------------------------------ endpoints

  /** An endpoint wrapper: resolve its path, then run its plan. */
  function CallSpec(ctx: Context, st: State, e: Endpoint): (Result<Value, Error>, State)
  {
    match PlanOf(e)
    case FromApi(path, params) =>
      (match GetAbsoluteUrl(ctx.selected, path)
       case Failure(err) => (Failure(err), st)
       case Success(url) => FromApiSpec(ctx, st, url, params, None))
    case PostApi(path, payload) =>
      (match GetAbsoluteUrl(ctx.selected, path)
       case Failure(err) => (Failure(err), st)
       case Success(url) => PostToApiSpec(ctx, st, url, payload, None))
    case RawJson(path, args, refererPath, what) =>
      (match GetAbsoluteUrl(ctx.selected, path)
       case Failure(err) => (Failure(err), st)
       case Success(url) =>
         match GetAbsoluteUrl(ctx.selected, refererPath)
         case Failure(err) => (Failure(err), st)
         case Success(referer) =>
           var (r, st1) := GetWithCookiesSpec(ctx, st, url, Some(args), Some([("Referer", referer)]));
           match r
           case Failure(err) => (Failure(err), st1)
           case Success(resp) => (ClassifyRawJson(ctx.parse, what, resp.status, SafeText(resp.body)), st1))
    case PageText(path) =>
      (match GetAbsoluteUrl(ctx.selected, path)
       case Failure(err) => (Failure(err), st)
       case Success(url) =>
         var (r, st1) := GetWithCookiesSpec(ctx, st, url, Some([]), Some([("Referer", url)]));
         match r
         case Failure(err) => (Failure(err), st1)
         case Success(resp) => (ResponseText(resp.body), st1))
  }

  // --------------------------------------------------------------- client

  class Client {
    const selected: string
    /** The process-wide cookie store, shared by every client. */
    const jar: Cookies.CookieJar
    const net: Network
    const parse: string -> Option<Value>
    var appInfoFetched: bool

    ghost predicate Valid()
      reads this, jar
    {
      jar.Valid()
    }

    function Ctx(): Context
    {
      Context(selected, net.server, parse)
    }

    function Snapshot(): State
      reads this, jar, net
    {
      State(appInfoFetched, jar.entries, net.log)
    }

    /** `new MovieBoxClient()`, with `MOVIEBOX_API_HOST` given as `env`. */
    constructor (env: Option<string>, jar: Cookies.CookieJar, net: Network, parse: string -> Option<Value>)
      requires jar.Valid()
      ensures Valid()
      ensures selected == SelectedHost(env) && this.jar == jar && this.net == net && this.parse == parse
      ensures !appInfoFetched
    {
      selected := SelectedHost(env);
      this.jar := jar;
      this.net := net;
      this.parse := parse;
      appInfoFetched := false;
    }

    /** Stores the cookies of a response, as `if (sc) parseAndStoreSetCookie(sc)`. */
    method StoreCookies(sc: Option<string>)
      requires Valid()
      modifies jar
      ensures Valid()
      ensures jar.entries == Merge(old(jar.entries), sc)
    {
      if sc.Some? && sc.value != "" {
        jar.ParseAndStoreSetCookie(sc);
      } else {
        assert Cookies.StoreAll(jar.entries, []) == jar.entries;
      }
    }

    /** Sends `req` and stores the cookies of the answer, whatever its status. */
    method Exchange(req: Request) returns (o: FetchOutcome)
      requires Valid()
      modifies jar, net
      ensures Valid()
      ensures Send(Ctx(), old(Snapshot()), req) == Step(req, o)
      ensures Snapshot() == Apply(old(Snapshot()), Step(req, o))
    {
      o := net.Fetch(req);
      if o.Responded? {
        StoreCookies(o.response.setCookie);
      }
    }

    /** `fetchAppInfo()`: one GET whose cookies are kept; everything else it does has no effect. */
    method FetchAppInfo()
      requires Valid()
      modifies jar, net
      ensures Valid()
      ensures Snapshot() == AppInfo(Ctx(), old(Snapshot()))
    {
      var req := AppInfoRequest(selected);
      if req.None? {
        return;
      }
      var _ := Exchange(req.value);
    }

    method EnsureCookiesAssigned()
      requires Valid()
      modifies this, jar, net
      ensures Valid()
      ensures Snapshot() == Ensure(Ctx(), old(Snapshot()))
    {
      if !appInfoFetched {
        FetchAppInfo();
        appInfoFetched := true;
      }
    }

    /** The `searchParams.set` loop of `getWithCookies`. */
    method SetParams(u0: Urls.Url, ps: Params) returns (u: Urls.Url)
      ensures u == SetAll(u0, ps)
    {
      u := u0;
      var i := 0;
      while i < |ps|
        invariant 0 <= i <= |ps|
        invariant u == SetAll(u0, ps[..i])
      {
        assert ps[..i + 1][..i] == ps[..i];
        u := Urls.SetSearchParam(u, ps[i].0, ToString(ps[i].1));
        i := i + 1;
      }
      assert ps[..|ps|] == ps;
    }

    /** The `searchParams.append` loop of `get`. */
    method AppendParams(u0: Urls.Url, ps: Params) returns (u: Urls.Url)
      ensures u == AppendAll(u0, ps)
    {
      u := u0;
      var i := 0;
      while i < |ps|
        invariant 0 <= i <= |ps|
        invariant u == AppendAll(u0, ps[..i])
      {
        assert ps[..i + 1][..i] == ps[..i];
        u := Urls.AppendSearchParam(u, ps[i].0, ToString(ps[i].1));
        i := i + 1;
      }
      assert ps[..|ps|] == ps;
    }

    /** The URL preparation of `getWithCookies`. */
    method ResolveUrl(url: string, params: Option<Params>) returns (r: Result<string, Error>)
      ensures r == PrepareUrl(selected, url, params)
    {
      var absolute := url;
      if StartsWith(url, "/") {
        var a := GetAbsoluteUrl(selected, url);
        if a.Failure? {
          return Failure(a.error);
        }
        absolute := a.value;
      }
      if params.None? {
        return Success(absolute);
      }
      var parsed := Urls.Parse(absolute);
      if parsed.None? {
        return Failure(InvalidUrl(absolute));
      }
      var u := SetParams(parsed.value, params.value);
      return Success(Urls.Serialize(u));
    }

    /** One pass of the loop of `getWithCookies`: fetch from `host`, store the cookies, judge the answer. */
    method TryHost(url: string, custom: Option<Headers>, host: string) returns (v: Verdict)
      requires Valid()
      modifies jar, net
      ensures Valid()
      ensures var s := Attempter(Ctx(), url, custom)(old(Snapshot()), host);
              v == VerdictOf(host, s) && Snapshot() == Apply(old(Snapshot()), s)
    {
      var request := AttemptRequest(selected, url, custom, jar.entries, host);
      var o := Exchange(request);
      match o {
        case Rejected(e) =>
          v := Failed(FetchFailed(e));
        case Responded(resp) =>
          if Ok(resp) {
            v := Got(resp);
          } else {
            var body := SafeText(resp.body);
            v := Failed(HostFailed(host, resp.status, body));
          }
      }
    }

    /** The `for (const host of hostsToTry)` loop of `getWithCookies`, on the prepared URL. */
    method TryAll(target: string, custom: Option<Headers>, hosts: seq<string>) returns (r: Result<Response, Error>)
      requires Valid()
      modifies jar, net
      ensures Valid()
      ensures (r, Snapshot()) == TryHosts(Attempter(Ctx(), target, custom), old(Snapshot()), hosts, None, hosts)
    {
      ghost var st0 := Snapshot();
      ghost var attempt := Attempter(Ctx(), target, custom);
      var lastError: Option<Error> := None;
      var i := 0;
      while i < |hosts|
        invariant 0 <= i <= |hosts|
        invariant Valid()
        invariant TryHosts(attempt, st0, hosts, None, hosts) == TryHosts(attempt, Snapshot(), hosts[i..], lastError, hosts)
      {
        assert hosts[i..][0] == hosts[i] && hosts[i..][1..] == hosts[i + 1..];
        var v := TryHost(target, custom, hosts[i]);
        if v.Got? {
          return Success(v.response);
        }
        lastError := Some(v.error);
        i := i + 1;
      }
      if lastError.Some? {
        return Failure(lastError.value);
      }
      return Failure(AllAttempted(hosts));
    }

    method GetWithCookies(url: string, params: Option<Params>, custom: Option<Headers>) returns (r: Result<Response, Error>)
      requires Valid()
      modifies this, jar, net
      ensures Valid()
      ensures (r, Snapshot()) == GetWithCookiesSpec(Ctx(), old(Snapshot()), url, params, custom)
    {
      EnsureCookiesAssigned();
      var prepared := ResolveUrl(url, params);
      if prepared.Failure? {
        return Failure(prepared.error);
      }
      r := TryAll(prepared.value, custom, HostsToTry(selected));
    }

    method GetWithCookiesFromApi(url: string, params: Option<Params>, custom: Option<Headers>) returns (r: Result<Value, Error>)
      requires Valid()
      modifies this, jar, net
      ensures Valid()
      ensures (r, Snapshot()) == FromApiSpec(Ctx(), old(Snapshot()), url, params, custom)
    {
      var response := GetWithCookies(url, params, custom);
      if response.Failure? {
        return Failure(response.error);
      }
      var text := SafeText(response.value.body);
      r := ClassifyApiBody(parse, response.value.status, text);
    }

    method Post(url: string, data: Value, custom: Option<Headers>) returns (r: Result<Response, Error>)
      requires Valid()
      modifies this, jar, net
      ensures Valid()
      ensures (r, Snapshot()) == PostSpec(Ctx(), old(Snapshot()), url, data, custom)
    {
      EnsureCookiesAssigned();
      r := Deliver(PostRequest(selected, url, data, custom, jar.entries));
    }

    /** One `fetch` whose cookies are kept only when the status is ok; any other status is thrown. */
    method Deliver(req: Request) returns (r: Result<Response, Error>)
      requires Valid()
      modifies jar, net
      ensures Valid()
      ensures var s := Send(Ctx(), old(Snapshot()), req);
              r == Answer(s) && Snapshot() == if r.Success? then Apply(old(Snapshot()), s) else Record(old(Snapshot()), s)
    {
      var o := net.Fetch(req);
      match o {
        case Rejected(e) =>
          return Failure(FetchFailed(e));
        case Responded(resp) =>
          if !Ok(resp) {
            var body := SafeText(resp.body);
            return Failure(HttpFailed(resp.status, body));
          }
          StoreCookies(resp.setCookie);
          return Success(resp);
      }
    }

    method PostToApi(url: string, data: Value, custom: Option<Headers>) returns (r: Result<Value, Error>)
      requires Valid()
      modifies this, jar, net
      ensures Valid()
      ensures (r, Snapshot()) == PostToApiSpec(Ctx(), old(Snapshot()), url, data, custom)
    {
      var response := Post(url, data, custom);
      if response.Failure? {
        return Failure(response.error);
      }
      var json := ResponseJson(response.value.body, parse);
      if json.Failure? {
        return Failure(json.error);
      }
      r := ProcessApiResponse(json.value);
    }

    method Get(url: string, params: Option<Params>, custom: Option<Headers>) returns (r: Result<Response, Error>)
      modifies net
      ensures (r, Snapshot()) == GetSpec(Ctx(), old(Snapshot()), url, params, custom)
    {
      var req := BuildGetRequest(url, params, custom);
      if req.Failure? {
        return Failure(req.error);
      }
      r := Transmit(req.value);
    }

    /** One `fetch` whose cookies are not kept; a status other than ok is thrown as an HTTP error. */
    method Transmit(req: Request) returns (r: Result<Response, Error>)
      modifies net
      ensures var s := Send(Ctx(), old(Snapshot()), req);
              r == Answer(s) && Snapshot() == Record(old(Snapshot()), s)
    {
      var o := net.Fetch(req);
      match o {
        case Rejected(e) =>
          return Failure(FetchFailed(e));
        case Responded(resp) =>
          if !Ok(resp) {
            var body := SafeText(resp.body);
            return Failure(HttpFailed(resp.status, body));
          }
          return Success(resp);
      }
    }

    /** The URL of `get`, with its parameters appended, and its plain headers. */
    method BuildGetRequest(url: string, params: Option<Params>, custom: Option<Headers>) returns (r: Result<Request, Error>)
      ensures r == GetRequest(selected, url, params, custom)
    {
      var parsed := Urls.Parse(url);
      if parsed.None? {
        return Failure(InvalidUrl(url));
      }
      var u := parsed.value;
      if params.Some? {
        u := AppendParams(u, params.value);
      } else {
        assert AppendAll(u, []) == u;
      }
      return Success(Request(GET, Urls.Serialize(u), PlainHeaders(selected, custom), None));
    }

    method GetFromApi(url: string, params: Option<Params>) returns (r: Result<Value, Error>)
      modifies net
      ensures (r, Snapshot()) == GetFromApiSpec(Ctx(), old(Snapshot()), url, params)
    {
      var response := Get(url, params, None);
      if response.Failure? {
        return Failure(response.error);
      }
      var json := ResponseJson(response.value.body, parse);
      if json.Failure? {
        return Failure(json.error);
      }
      r := ProcessApiResponse(json.value);
    }

    /** Every endpoint wrapper: `getHomepage`, `search`, ..., `getRecommendations`. */
    method Call(e: Endpoint) returns (r: Result<Value, Error>)
      requires Valid()
      modifies this, jar, net
      ensures Valid()
      ensures (r, Snapshot()) == CallSpec(Ctx(), old(Snapshot()), e)
    {
      var plan := PlanOf(e);
      var url := GetAbsoluteUrl(selected, plan.path);
      if url.Failure? {
        return Failure(url.error);
      }
      match plan {
        case FromApi(_, params) =>
          r := GetWithCookiesFromApi(url.value, params, None);
        case PostApi(_, payload) =>
          r := PostToApi(url.value, payload, None);
        case RawJson(_, args, refererPath, what) =>
          var referer := GetAbsoluteUrl(selected, refererPath);
          if referer.Failure? {
            return Failure(referer.error);
          }
          var response := GetWithCookies(url.value, Some(args), Some([("Referer", referer.value)]));
          if response.Failure? {
            return Failure(response.error);
          }
          var text := SafeText(response.value.body);
          r := ClassifyRawJson(parse, what, response.value.status, text);
        case PageText(_) =>
          var response := GetWithCookies(url.value, Some([]), Some([("Referer", url.value)]));
          if response.Failure? {
            return Failure(response.error);
          }
          r := ResponseText(response.value.body);
      }
    }
  }
}
