/**
 * The pure part of the MovieBox upstream client: the mirror hosts, the request
 * headers, the `{code, message, data}` envelope, the URL helpers, the way a
 * response body is classified, and the fixed path and parameters of every
 * endpoint wrapper.
 */
module Upstream {
  import opened Wrappers
  import opened Text
  import opened JsValue
  import Urls
  import Percent
  import Cookies
  import HtmlSnippet

  // ---------------------------------------------------------------- hosts

  const MirrorHosts: seq<string> := [
    "h5.aoneroom.com",
    "movieboxapp.in",
    "moviebox.pk",
    "moviebox.ph",
    "moviebox.id",
    "v.moviebox.ph",
    "netnaija.video"
  ]

  const HostProtocol: string := "https"

  predicate Distinct(hs: seq<string>)
  {
    forall i, j :: 0 <= i < j < |hs| ==> hs[i] != hs[j]
  }

  lemma MirrorHostsDistinct()
    ensures Distinct(MirrorHosts)
  {
    var m := MirrorHosts;
    assert |m[0]| == 15 && |m[1]| == 14 && |m[2]| == 11 && |m[3]| == 11 && |m[4]| == 11 && |m[5]| == 13 && |m[6]| == 14;
    assert m[2][10] == 'k' && m[3][10] == 'h' && m[4][10] == 'd';
    assert m[1][0] == 'm' && m[6][0] == 'n';
  }

  /** A name of lower-case letters, digits and dots. */
  predicate PlainHost(h: string)
  {
    h != [] && forall i :: 0 <= i < |h| ==> ('a' <= h[i] <= 'z') || ('0' <= h[i] <= '9') || h[i] == '.'
  }

  lemma PlainHostValid(h: string)
    requires PlainHost(h)
    ensures Urls.ValidHost(h) && LowerAscii(h) == h
  {
    assert forall i :: 0 <= i < |h| ==> Urls.HostChar(h[i]);
  }

  /** Every mirror is a host name the URL parser accepts, already in lower case. */
  lemma MirrorHostsValid()
    ensures forall i :: 0 <= i < |MirrorHosts| ==> Urls.ValidHost(MirrorHosts[i]) && LowerAscii(MirrorHosts[i]) == MirrorHosts[i]
  {
    var m := MirrorHosts;
    forall i | 0 <= i < |m| ensures Urls.ValidHost(m[i]) && LowerAscii(m[i]) == m[i] {
      if i < 4 {
        FirstMirrorsPlain(i);
      } else {
        LastMirrorsPlain(i);
      }
      PlainHostValid(m[i]);
    }
  }

  lemma FirstMirrorsPlain(i: nat)
    requires i < 4
    ensures PlainHost(MirrorHosts[i])
  {
    if i == 0 { assert PlainHost("h5.aoneroom.com"); }
    else if i == 1 { assert PlainHost("movieboxapp.in"); }
    else if i == 2 { assert PlainHost("moviebox.pk"); }
    else { assert PlainHost("moviebox.ph"); }
  }

  lemma LastMirrorsPlain(i: nat)
    requires 4 <= i < 7
    ensures PlainHost(MirrorHosts[i])
  {
    if i == 4 { assert PlainHost("moviebox.id"); }
    else if i == 5 { assert PlainHost("v.moviebox.ph"); }
    else { assert PlainHost("netnaija.video"); }
  }

  /** `MOVIEBOX_API_HOST || MIRROR_HOSTS[0]`: an empty setting counts as absent. */
  function SelectedHost(env: Option<string>): (r: string)
    ensures r != ""
    ensures env.Some? && env.value != "" ==> r == env.value
  {
    if env.Some? && env.value != "" then env.value else MirrorHosts[0]
  }

  /** `HOST_URL`: the root of the selected host. */
  function HostUrl(selected: string): string
  {
    HostProtocol + "://" + selected + "/"
  }

  /** The hosts other than `x`, in the order given. */
  function Filter(hs: seq<string>, x: string): (r: seq<string>)
    ensures forall h :: h in r <==> h in hs && h != x
  {
    if hs == [] then []
    else (if hs[0] == x then [] else [hs[0]]) + Filter(hs[1..], x)
  }

  lemma {:induction false} FilterDistinct(hs: seq<string>, x: string)
    requires Distinct(hs)
    ensures Distinct(Filter(hs, x))
  {
    if hs != [] {
      assert Distinct(hs[1..]) by {
        forall i, j | 0 <= i < j < |hs[1..]| ensures hs[1..][i] != hs[1..][j] {
          assert hs[1..][i] == hs[i + 1] && hs[1..][j] == hs[j + 1];
        }
      }
      FilterDistinct(hs[1..], x);
      var f := Filter(hs[1..], x);
      assert hs[0] !in hs[1..];
      assert hs[0] !in f;
    }
  }

  lemma {:induction false} FilterAbsent(hs: seq<string>, x: string)
    requires x !in hs
    ensures Filter(hs, x) == hs
  {
    if hs != [] {
      FilterAbsent(hs[1..], x);
      assert [hs[0]] + hs[1..] == hs;
    }
  }

  lemma {:induction false} FilterAt(hs: seq<string>, k: nat, x: string)
    requires Distinct(hs) && k < |hs| && hs[k] == x
    ensures Filter(hs, x) == hs[..k] + hs[k + 1..]
  {
    if k == 0 {
      FilterAbsent(hs[1..], x);
    } else {
      assert Distinct(hs[1..]) by {
        forall i, j | 0 <= i < j < |hs[1..]| ensures hs[1..][i] != hs[1..][j] {
          assert hs[1..][i] == hs[i + 1] && hs[1..][j] == hs[j + 1];
        }
      }
      FilterAt(hs[1..], k - 1, x);
      assert hs[1..][..k - 1] == hs[1..k];
      assert hs[1..][k..] == hs[k + 1..];
      assert [hs[0]] + hs[1..k] == hs[..k];
    }
  }

  /** `[SELECTED_HOST, ...MIRROR_HOSTS.filter((h) => h !== SELECTED_HOST)]`. */
  function HostsToTry(selected: string): (r: seq<string>)
    ensures |r| >= 1 && r[0] == selected
    ensures forall h :: h in r <==> h == selected || h in MirrorHosts
  {
    [selected] + Filter(MirrorHosts, selected)
  }

  lemma CandidatesOrder(selected: string, hs: seq<string>)
    requires Distinct(hs)
    ensures Distinct([selected] + Filter(hs, selected))
    ensures selected !in hs ==> [selected] + Filter(hs, selected) == [selected] + hs
    ensures forall k :: 0 <= k < |hs| && hs[k] == selected ==>
      [selected] + Filter(hs, selected) == [selected] + hs[..k] + hs[k + 1..]
  {
    var f := Filter(hs, selected);
    var r := [selected] + f;
    FilterDistinct(hs, selected);
    assert Distinct(r) by {
      forall i, j | 0 <= i < j < |r| ensures r[i] != r[j] {
        assert r[j] == f[j - 1];
        if i == 0 {
          assert r[j] in f;
        } else {
          assert r[i] == f[i - 1];
        }
      }
    }
    if selected !in hs {
      FilterAbsent(hs, selected);
    }
    forall k | 0 <= k < |hs| && hs[k] == selected
      ensures r == [selected] + hs[..k] + hs[k + 1..]
    {
      FilterAt(hs, k, selected);
    }
  }

  /**
   * The selected host comes first and is tried once; the mirrors follow in
   * their listed order, without the selected one.
   */
  lemma HostsToTryOrder(selected: string)
    ensures Distinct(HostsToTry(selected))
    ensures selected !in MirrorHosts ==> HostsToTry(selected) == [selected] + MirrorHosts
    ensures forall k :: 0 <= k < |MirrorHosts| && MirrorHosts[k] == selected ==>
      HostsToTry(selected) == [selected] + MirrorHosts[..k] + MirrorHosts[k + 1..]
  {
    MirrorHostsDistinct();
    CandidatesOrder(selected, MirrorHosts);
  }

  /** Without `MOVIEBOX_API_HOST` the hosts are exactly the mirror list. */
  lemma DefaultHostsAreMirrors()
    ensures HostsToTry(SelectedHost(None)) == MirrorHosts
  {
    MirrorHostsDistinct();
    FirstHostKeepsOrder(MirrorHosts);
  }

  /** Putting a list's first element first changes nothing. */
  lemma FirstHostKeepsOrder(hs: seq<string>)
    requires Distinct(hs) && hs != []
    ensures [hs[0]] + Filter(hs, hs[0]) == hs
  {
    FilterAt(hs, 0, hs[0]);
    assert hs[..0] + hs[1..] == hs[1..];
  }

  // -------------------------------------------------------------- headers

  /** A headers object: names and values, in insertion order. */
  type Headers = seq<(string, string)>

  /**
   * Defining one property of an object literal: an existing name keeps its
   * place and takes the value, a new name is appended.
   */
  function SetHeader(h: Headers, name: string, value: string): (r: Headers)
    ensures Cookies.Get(h, name).None? ==> r == h + [(name, value)]
    ensures Cookies.Get(h, name).Some? ==>
      |r| == |h| && forall i :: 0 <= i < |h| ==> r[i].0 == h[i].0 && (r[i] == h[i] || r[i] == (name, value))
  {
    if h == [] then [(name, value)]
    else if h[0].0 == name then [(name, value)] + h[1..]
    else [h[0]] + SetHeader(h[1..], name, value)
  }

  lemma SetHeaderGet(h: Headers, name: string, value: string, k: string)
    requires Cookies.DistinctKeys(h)
    ensures Cookies.DistinctKeys(SetHeader(h, name, value))
    ensures Cookies.Get(SetHeader(h, name, value), k) == if k == name then Some(value) else Cookies.Get(h, k)
  {
    SetHeaderDistinct(h, name, value);
    SetHeaderLookup(h, name, value, k);
  }

  /** Setting a header keeps the names distinct. */
  lemma SetHeaderDistinct(h: Headers, name: string, value: string)
    requires Cookies.DistinctKeys(h)
    ensures Cookies.DistinctKeys(SetHeader(h, name, value))
  {
    if Cookies.Get(h, name).None? {
      Cookies.AppendNewKeyDistinct(h, (name, value));
    } else {
      Cookies.SameKeysDistinct(h, SetHeader(h, name, value));
    }
  }


  /** After setting, the name reads the new value and every other name what it read before. */
  lemma {:induction false} SetHeaderLookup(h: Headers, name: string, value: string, k: string)
    ensures Cookies.Get(SetHeader(h, name, value), k) == if k == name then Some(value) else Cookies.Get(h, k)
  {
    if h != [] {
      if h[0].0 != name {
        SetHeaderLookup(h[1..], name, value, k);
        var rest := SetHeader(h[1..], name, value);
        assert ([h[0]] + rest)[1..] == rest;
      } else {
        assert ([(name, value)] + h[1..])[1..] == h[1..];
      }
    }
  }

  /** `{ ...h, ...extra }`: the pairs of `extra` defined one after another. */
  function Spread(h: Headers, extra: Headers): Headers
  {
    if extra == [] then h
    else SetHeader(Spread(h, extra[..|extra| - 1]), extra[|extra| - 1].0, extra[|extra| - 1].1)
  }

  /** After a spread a name holds the last value `extra` gives it, or else what it held. */
  lemma {:induction false} SpreadGet(h: Headers, extra: Headers, k: string)
    requires Cookies.DistinctKeys(h)
    ensures Cookies.DistinctKeys(Spread(h, extra))
    ensures Cookies.Get(Spread(h, extra), k) ==
      if Cookies.LastValue(extra, k).Some? then Cookies.LastValue(extra, k) else Cookies.Get(h, k)
  {
    if extra != [] {
      var init := extra[..|extra| - 1];
      SpreadGet(h, init, k);
      SetHeaderGet(Spread(h, init), extra[|extra| - 1].0, extra[|extra| - 1].1, k);
    }
  }

  /** `DEFAULT_REQUEST_HEADERS`. */
  function DefaultHeaders(hostUrl: string): Headers
  {
    [ ("X-Client-Info", "{\"timezone\":\"Africa/Nairobi\"}"),
      ("Accept-Language", "en-US,en;q=0.5"),
      ("Accept", "application/json, text/plain, */*"),
      ("User-Agent", "Mozilla/5.0 (X11; Linux x86_64; rv:137.0) Gecko/20100101 Firefox/137.0"),
      ("Referer", hostUrl),
      ("Origin", hostUrl) ]
  }

  /** The default headers name each header once, and name neither `Cookie` nor `Content-Type`. */
  lemma DefaultHeadersFacts(hostUrl: string)
    ensures var d := DefaultHeaders(hostUrl);
            && Cookies.DistinctKeys(d)
            && Cookies.Get(d, "Cookie").None? && Cookies.Get(d, "Content-Type").None?
            && Cookies.Get(d, "Referer") == Some(hostUrl)
  {
    var d := DefaultHeaders(hostUrl);
    assert d[0].0[0] == 'X' && d[1].0[1] == 'c' && d[2].0 == "Accept" && d[3].0[0] == 'U' && d[4].0[0] == 'R' && d[5].0[0] == 'O';
    assert |d[1].0| == 15 && |d[2].0| == 6;
    assert "Cookie"[0] == 'C' && "Content-Type"[0] == 'C';
  }

  function CustomOf(custom: Option<Headers>): Headers
  {
    if custom.Some? then custom.value else []
  }

  /** `customHeaders?.Referer || DEFAULT_REQUEST_HEADERS.Referer`. */
  function RefererOf(custom: Option<Headers>, hostUrl: string): string
  {
    var given := Cookies.Get(CustomOf(custom), "Referer");
    if given.Some? && given.value != "" then given.value else hostUrl
  }

  /** A non-empty cookie header is attached as `Cookie`; an empty one is not. */
  function WithCookie(h: Headers, cookieHeader: string): Headers
  {
    if cookieHeader != "" then SetHeader(h, "Cookie", cookieHeader) else h
  }

  lemma WithCookieGet(h: Headers, cookieHeader: string, k: string)
    requires Cookies.DistinctKeys(h)
    ensures Cookies.DistinctKeys(WithCookie(h, cookieHeader))
    ensures Cookies.Get(WithCookie(h, cookieHeader), k) ==
      if k == "Cookie" && cookieHeader != "" then Some(cookieHeader) else Cookies.Get(h, k)
  {
    if cookieHeader != "" {
      SetHeaderGet(h, "Cookie", cookieHeader, k);
    }
  }

  /** `{ ...DEFAULT_REQUEST_HEADERS, Referer: ..., Origin: hostBase }`. */
  function AttemptBase(selected: string, host: string, custom: Option<Headers>): Headers
  {
    SetHeader(SetHeader(DefaultHeaders(HostUrl(selected)), "Referer", RefererOf(custom, HostUrl(selected))),
              "Origin", HostProtocol + "://" + host)
  }

  lemma AttemptBaseFacts(selected: string, host: string, custom: Option<Headers>)
    ensures var b := AttemptBase(selected, host, custom);
            && Cookies.DistinctKeys(b)
            && Cookies.Get(b, "Origin") == Some(HostProtocol + "://" + host)
            && Cookies.Get(b, "Referer") == Some(RefererOf(custom, HostUrl(selected)))
            && Cookies.Get(b, "Cookie").None?
  {
    var d := DefaultHeaders(HostUrl(selected));
    DefaultHeadersFacts(HostUrl(selected));
    var ref := RefererOf(custom, HostUrl(selected));
    var origin := HostProtocol + "://" + host;
    var b1 := SetHeader(d, "Referer", ref);
    SetHeaderGet(d, "Referer", ref, "Referer");
    SetHeaderGet(d, "Referer", ref, "Cookie");
    SetHeaderGet(b1, "Origin", origin, "Origin");
    SetHeaderGet(b1, "Origin", origin, "Referer");
    SetHeaderGet(b1, "Origin", origin, "Cookie");
  }

  /** The headers of one attempt of `getWithCookies` against `host`. */
  function AttemptHeaders(selected: string, host: string, custom: Option<Headers>, cookies: seq<(string, string)>): Headers
  {
    WithCookie(Spread(AttemptBase(selected, host, custom), CustomOf(custom)), Cookies.BuildCookieHeader(cookies))
  }

  /** The headers of `post`. */
  function PostHeaders(selected: string, custom: Option<Headers>, cookies: seq<(string, string)>): Headers
  {
    var base := SetHeader(DefaultHeaders(HostUrl(selected)), "Content-Type", "application/json");
    WithCookie(Spread(base, CustomOf(custom)), Cookies.BuildCookieHeader(cookies))
  }

  /** The headers of `get`: the defaults overridden by the custom ones, and no cookie. */
  function PlainHeaders(selected: string, custom: Option<Headers>): Headers
  {
    Spread(DefaultHeaders(HostUrl(selected)), CustomOf(custom))
  }

  /** A name `LastValue` does not find is not there at all. */
  lemma {:induction false} LastValueNoneGet(ps: seq<(string, string)>, k: string)
    requires Cookies.LastValue(ps, k).None?
    ensures Cookies.Get(ps, k).None?
  {
    if ps != [] {
      LastValueNoneGet(ps[..|ps| - 1], k);
      assert forall i :: 0 <= i < |ps| - 1 ==> ps[..|ps| - 1][i] == ps[i];
    }
  }

  /** The value a spread of `c` over `b` leaves for `k`, given what `b` holds. */
  function Overridden(c: Headers, k: string, underneath: Option<string>): Option<string>
  {
    if Cookies.LastValue(c, k).Some? then Cookies.LastValue(c, k) else underneath
  }

  /**
   * What an attempt sends: `Origin` is the attempted host unless the caller
   * gives one; `Referer` is the caller's (even an empty one, since the spread
   * comes last) or the selected host's root; `Cookie` is the rendered store
   * when that is non-empty and otherwise only what the caller gives.
   */
  lemma AttemptHeadersFacts(selected: string, host: string, custom: Option<Headers>, cookies: seq<(string, string)>)
    ensures var h := AttemptHeaders(selected, host, custom, cookies);
            var c := CustomOf(custom);
            var ch := Cookies.BuildCookieHeader(cookies);
            && Cookies.DistinctKeys(h)
            && Cookies.Get(h, "Origin") == Overridden(c, "Origin", Some(HostProtocol + "://" + host))
            && Cookies.Get(h, "Referer") == Overridden(c, "Referer", Some(HostUrl(selected)))
            && Cookies.Get(h, "Cookie") == (if ch != "" then Some(ch) else Cookies.LastValue(c, "Cookie"))
  {
    var c := CustomOf(custom);
    var b := AttemptBase(selected, host, custom);
    var ch := Cookies.BuildCookieHeader(cookies);
    AttemptBaseFacts(selected, host, custom);
    SpreadGet(b, c, "Origin");
    SpreadGet(b, c, "Referer");
    SpreadGet(b, c, "Cookie");
    var s := Spread(b, c);
    WithCookieGet(s, ch, "Origin");
    WithCookieGet(s, ch, "Referer");
    WithCookieGet(s, ch, "Cookie");
    if Cookies.LastValue(c, "Referer").None? {
      LastValueNoneGet(c, "Referer");
    }
  }

  /** `post` sends JSON unless the caller overrides it, and the cookie the same way as an attempt. */
  lemma PostHeadersFacts(selected: string, custom: Option<Headers>, cookies: seq<(string, string)>)
    ensures var h := PostHeaders(selected, custom, cookies);
            var c := CustomOf(custom);
            var ch := Cookies.BuildCookieHeader(cookies);
            && Cookies.DistinctKeys(h)
            && Cookies.Get(h, "Content-Type") == Overridden(c, "Content-Type", Some("application/json"))
            && Cookies.Get(h, "Cookie") == (if ch != "" then Some(ch) else Cookies.LastValue(c, "Cookie"))
  {
    var d := DefaultHeaders(HostUrl(selected));
    var c := CustomOf(custom);
    DefaultHeadersFacts(HostUrl(selected));
    var b := SetHeader(d, "Content-Type", "application/json");
    var ch := Cookies.BuildCookieHeader(cookies);
    SetHeaderGet(d, "Content-Type", "application/json", "Content-Type");
    SetHeaderGet(d, "Content-Type", "application/json", "Cookie");
    SpreadGet(b, c, "Content-Type");
    SpreadGet(b, c, "Cookie");
    var s := Spread(b, c);
    WithCookieGet(s, ch, "Content-Type");
    WithCookieGet(s, ch, "Cookie");
  }

  // ------------------------------------------------------ network values

  datatype Method = GET | POST

  /** What `fetch` is asked for; the POST body is the value before `JSON.stringify`. */
  datatype Request = Request(verb: Method, url: string, headers: Headers, body: Option<Value>)

  /** A response body: its text, or the error reading it raises. */
  datatype Body = Text(text: string) | Unreadable(reason: string)

  /** A response: its status, its `Set-Cookie` header if any, and its body. */
  datatype Response = Response(status: int, setCookie: Option<string>, body: Body)

  /** `response.ok`. */
  predicate Ok(r: Response)
  {
    200 <= r.status <= 299
  }

  /** What `fetch` settles with. */
  datatype FetchOutcome = Responded(response: Response) | Rejected(reason: string)

  /**
   * What the client throws. The errors it raises itself keep what their
   * message is built from (`Message` renders it): a rejected envelope, a host
   * that answered with a non-ok status, a body that is not the JSON expected,
   * an HTTP error of `get`/`post`, and the error after every host. The others
   * come from the runtime: a rejection of `fetch`, an invalid URL, reading a
   * property of `null`/`undefined`, a body that is not JSON, or a body that
   * could not be read.
   */
  datatype Error =
    | Thrown(message: string)
    | HostFailed(host: string, status: int, body: string)
    | BadJson(what: string, status: int, text: string)
    | HttpFailed(status: int, body: string)
    | AllAttempted(hosts: seq<string>)
    | FetchFailed(reason: string)
    | InvalidUrl(input: string)
    | TypeErr
    | SyntaxErr
    | BodyReadFailed(reason: string)

  /** `safeText(res)`: the text, or a marker naming the read error. */
  function SafeText(b: Body): (r: string)
    ensures b.Text? ==> r == b.text
    ensures b.Unreadable? ==> StartsWith(r, "<failed to read body: ")
  {
    match b
    case Text(t) => t
    case Unreadable(e) => "<failed to read body: " + e + ">"
  }

  /** `response.json()`. */
  function ResponseJson(b: Body, parse: string -> Option<Value>): (r: Result<Value, Error>)
    ensures r.Success? <==> b.Text? && parse(b.text).Some?
    ensures r.Success? ==> r.value == parse(b.text).value
  {
    match b
    case Unreadable(e) => Failure(BodyReadFailed(e))
    case Text(t) => if parse(t).Some? then Success(parse(t).value) else Failure(SyntaxErr)
  }

  /** `response.text()`, for `getItemDetails`. */
  function ResponseText(b: Body): (r: Result<Value, Error>)
    ensures r.Success? <==> b.Text?
    ensures b.Text? ==> r == Success(Str(b.text))
  {
    match b
    case Unreadable(e) => Failure(BodyReadFailed(e))
    case Text(t) => Success(Str(t))
  }

  // ------------------------------------------------------------- envelope

  const UnsuccessfulPrefix: string := "Unsuccessful response from server: "

  predicate EnvelopeOk(json: Value)
  {
    Read(json, "code") == Some(Num(0)) && Read(json, "message") == Some(Str("ok"))
  }

  /** `${json.message || "Unknown error"}`. */
  function ReasonOf(message: Value): (r: string)
    ensures Falsy(message) ==> r == "Unknown error"
    ensures message.Str? && message.s != "" ==> r == message.s
  {
    if Falsy(message) then "Unknown error" else ToString(message)
  }

  /**
   * `processApiResponse(json)`: the `data` field exactly when `code` is 0 and
   * `message` is "ok"; reading a field of `null` or `undefined` is a TypeError;
   * any other envelope throws the server's message, or "Unknown error" when
   * that is falsy.
   */
  function ProcessApiResponse(json: Value): (r: Result<Value, Error>)
    ensures r.Success? <==> EnvelopeOk(json)
    ensures r.Success? ==> Read(json, "data") == Some(r.value)
    ensures (json.Undefined? || json.Null?) ==> r == Failure(TypeErr)
    ensures !json.Undefined? && !json.Null? && !EnvelopeOk(json) ==>
      r == Failure(Thrown(UnsuccessfulPrefix + ReasonOf(Read(json, "message").value)))
  {
    match Read(json, "code")
    case None => Failure(TypeErr)
    case Some(code) =>
      var message := Read(json, "message").value;
      if code == Num(0) && message == Str("ok") then Success(Read(json, "data").value)
      else Failure(Thrown(UnsuccessfulPrefix + ReasonOf(message)))
  }

  /** The message of a rejected envelope starts with the fixed prefix and, for a non-empty string message, is exactly that message after it. */
  lemma UnsuccessfulMessage(json: Value)
    requires !json.Undefined? && !json.Null? && !EnvelopeOk(json)
    ensures ProcessApiResponse(json).error.Thrown?
    ensures StartsWith(ProcessApiResponse(json).error.message, UnsuccessfulPrefix)
    ensures Read(json, "message") == Some(Str("")) ==>
      ProcessApiResponse(json).error.message == UnsuccessfulPrefix + "Unknown error"
  {
    var m := ProcessApiResponse(json).error.message;
    assert m[..|UnsuccessfulPrefix|] == UnsuccessfulPrefix;
  }

  // ----------------------------------------------------------------- URLs

  /** `new URL(relativePath, HOST_URL).toString()`; the constructor's TypeError is `InvalidUrl`. */
  function GetAbsoluteUrl(selected: string, rel: string): (r: Result<string, Error>)
    ensures r.Success? ==> Urls.Parse(r.value).Some?
  {
    match Urls.Parse(HostUrl(selected))
    case None => Failure(InvalidUrl(HostUrl(selected)))
    case Some(base) =>
      match Urls.ResolveAgainstRoot(base, rel)
      case None => Failure(InvalidUrl(rel))
      case Some(u) => Urls.ParseSerialize(u); Success(Urls.Serialize(u))
  }

  /** The URL `https://<selected>/` parses to the host's root. */
  lemma HostUrlParses(selected: string)
    requires Urls.ValidHost(selected) && LowerAscii(selected) == selected
    ensures Urls.Parse(HostUrl(selected)) == Some(Urls.Url(HostProtocol, selected, "", "/", None, None))
  {
    var u := Urls.Url(HostProtocol, selected, "", "/", None, None);
    assert Urls.WellFormed(u);
    assert Urls.Serialize(u) == HostUrl(selected);
    Urls.ParseSerialize(u);
  }

  /** A piece that starts with `/` is never an absolute URL on its own. */
  lemma SlashIsNotAbsolute(rel: string)
    requires rel != [] && rel[0] == '/'
    requires forall i :: 0 <= i < |rel| ==> !Urls.C0OrSpace(rel[i])
    ensures Urls.Parse(rel).None?
  {
    assert Urls.TrimC0(rel) == rel;
    assert Urls.RemoveTabNewline(rel) == rel;
    var colon := IndexOf(rel, ':');
    if colon > 0 {
      assert LowerAscii(rel[..colon])[0] == LowerAsciiChar(rel[0]) == '/';
    }
  }

  /** The tail of a well-formed URL is printable and starts with its path's `/`. */
  lemma TailPrintable(u: Urls.Url)
    requires Urls.WellFormed(u)
    ensures var t := Urls.TailText(u);
            t != [] && t[0] == '/' && forall i :: 0 <= i < |t| ==> !Urls.C0OrSpace(t[i])
  {
    var t := Urls.TailText(u);
    Urls.SerializeParts(u);
    Urls.SerializePrintable(u);
    var pre := u.scheme + "://" + Urls.AuthorityText(u);
    assert Urls.Serialize(u) == pre + t;
    assert forall i :: 0 <= i < |t| ==> t[i] == Urls.Serialize(u)[|pre| + i];
  }

  lemma TailNotDoubleSlash(u: Urls.Url)
    requires Urls.WellFormed(u) && !StartsWith(u.path, "//")
    ensures !StartsWith(Urls.TailText(u), "//")
  {
    var t := Urls.TailText(u);
    assert t[..|u.path|] == u.path;
    if |t| >= 2 {
      if |u.path| >= 2 {
        assert t[1] == u.path[1];
        assert u.path[..2] != "//";
        assert u.path[1] != '/';
      } else {
        assert t[1] == '?' || t[1] == '#';
      }
      assert t[..2] != "//";
    }
  }

  /**
   * Resolving a path (with its query and fragment) against the selected host
   * gives that host's URL with exactly that path, query and fragment.
   */
  lemma GetAbsoluteUrlOfPath(selected: string, u: Urls.Url)
    requires Urls.WellFormed(u) && u.scheme == HostProtocol && u.host == selected && u.port == ""
    requires !StartsWith(u.path, "//")
    ensures GetAbsoluteUrl(selected, Urls.TailText(u)) == Success(Urls.Serialize(u))
  {
    HostUrlParses(selected);
    var base := Urls.Url(HostProtocol, selected, "", "/", None, None);
    var rel := Urls.TailText(u);
    TailPrintable(u);
    TailNotDoubleSlash(u);
    SlashIsNotAbsolute(rel);
    assert Urls.RemoveTabNewline(Urls.TrimC0(rel)) == rel;
    Urls.SplitTailOfWellFormed(u);
    assert Urls.ResolveAgainstRoot(base, rel) == Some(u);
  }

  /**
   * `replaceHostInUrl(fullUrl, host)`: never throws. A URL that parses gets the
   * host (when the host parser accepts it) and loses its port; an unparseable
   * input starting with `/` is put under `https://<host>`; anything else is
   * returned as it came.
   */
  function ReplaceHostInUrl(fullUrl: string, host: string): (r: string)
    ensures Urls.Parse(fullUrl).None? && StartsWith(fullUrl, "/") ==> r == HostProtocol + "://" + host + fullUrl
    ensures Urls.Parse(fullUrl).None? && !StartsWith(fullUrl, "/") ==> r == fullUrl
  {
    match Urls.Parse(fullUrl)
    case Some(u) => Urls.Serialize(Urls.ClearPort(Urls.SetHostname(u, host)))
    case None => if StartsWith(fullUrl, "/") then HostProtocol + "://" + host + fullUrl else fullUrl
  }

  /** Replacing the host keeps scheme, path, query and fragment, and clears the port. */
  lemma ReplaceHostKeepsRest(fullUrl: string, host: string)
    requires Urls.Parse(fullUrl).Some?
    ensures var u := Urls.Parse(fullUrl).value;
            Urls.Parse(ReplaceHostInUrl(fullUrl, host)) ==
              Some(u.(host := if Urls.ValidHost(host) then LowerAscii(host) else u.host, port := ""))
  {
    var u := Urls.Parse(fullUrl).value;
    Urls.ParseSerialize(Urls.ClearPort(Urls.SetHostname(u, host)));
  }

  /** For a mirror host the new URL names exactly that host. */
  lemma ReplaceHostWithMirror(fullUrl: string, k: nat)
    requires Urls.Parse(fullUrl).Some? && k < |MirrorHosts|
    ensures Urls.Parse(ReplaceHostInUrl(fullUrl, MirrorHosts[k])) ==
      Some(Urls.Parse(fullUrl).value.(host := MirrorHosts[k], port := ""))
  {
    MirrorHostsValid();
    ReplaceHostKeepsRest(fullUrl, MirrorHosts[k]);
  }

  /** Request parameters, as the entries of the object passed. */
  type Params = seq<(string, Value)>

  /** `u.searchParams.set(key, String(value))` for each entry, in order. */
  function SetAll(u: Urls.Url, ps: Params): (r: Urls.Url)
    ensures r.(query := u.query) == u
    ensures ps != [] ==> r.query.Some?
  {
    if ps == [] then u
    else Urls.SetSearchParam(SetAll(u, ps[..|ps| - 1]), ps[|ps| - 1].0, ToString(ps[|ps| - 1].1))
  }

  /** `urlObj.searchParams.append(key, String(value))` for each entry, in order. */
  function AppendAll(u: Urls.Url, ps: Params): (r: Urls.Url)
    ensures r.(query := u.query) == u
    ensures ps != [] ==> r.query.Some?
  {
    if ps == [] then u
    else Urls.AppendSearchParam(AppendAll(u, ps[..|ps| - 1]), ps[|ps| - 1].0, ToString(ps[|ps| - 1].1))
  }

  /** A form-encoded text holds no `&` and no `=`. */
  lemma FormEncodeClean(t: string)
    ensures '&' !in Percent.FormEncode(t) && '=' !in Percent.FormEncode(t)
  {
  }

  /** The value of the last parameter whose form-encoded name is `n`. */
  function LastNamed(ps: Params, n: string): (r: Option<Value>)
    ensures r.Some? ==> exists j :: 0 <= j < |ps| && Percent.FormEncode(ps[j].0) == n && ps[j].1 == r.value
    ensures r.None? ==> forall j :: 0 <= j < |ps| ==> Percent.FormEncode(ps[j].0) != n
  {
    if ps == [] then None
    else if Percent.FormEncode(ps[|ps| - 1].0) == n then Some(ps[|ps| - 1].1)
    else
      var r := LastNamed(ps[..|ps| - 1], n);
      if r.Some? then
        var j :| 0 <= j < |ps| - 1 && Percent.FormEncode(ps[..|ps| - 1][j].0) == n && ps[..|ps| - 1][j].1 == r.value;
        assert ps[j] == ps[..|ps| - 1][j];
        r
      else
        assert forall j :: 0 <= j < |ps| - 1 ==> ps[j] == ps[..|ps| - 1][j];
        r
  }

  /** One parameter as the pair `searchParams` stores: name and `String(value)`, form-encoded. */
  function EncodedPair(p: (string, Value)): (string, string)
  {
    (Percent.FormEncode(p.0), Percent.FormEncode(ToString(p.1)))
  }

  function EncodedPairs(ps: Params): (r: seq<(string, string)>)
    ensures |r| == |ps|
    ensures forall i :: 0 <= i < |ps| ==> r[i] == EncodedPair(ps[i])
  {
    seq(|ps|, i requires 0 <= i < |ps| => EncodedPair(ps[i]))
  }


  /**
   * After the loop of `getWithCookies`, the query read back holds, for a name
   * that some parameter has (once form-encoded), exactly one pair: the
   * form-encoded `String` of the last such parameter's value; a name no
   * parameter has keeps the pairs the URL already had.
   */
  lemma {:induction false} SetAllNamed(u: Urls.Url, ps: Params, n: string)
    ensures Urls.Named(Urls.QueryPairs(SetAll(u, ps).query), n) ==
      if LastNamed(ps, n).Some? then [(n, Percent.FormEncode(ToString(LastNamed(ps, n).value)))]
      else Urls.Named(Urls.QueryPairs(u.query), n)
    decreases |ps|
  {
    if ps != [] {
      var init := ps[..|ps| - 1];
      var (k, v) := ps[|ps| - 1];
      var w := SetAll(u, init);
      var before := Urls.QueryPairs(w.query);
      var name := Percent.FormEncode(k);
      var value := Percent.FormEncode(ToString(v));
      var after := Urls.SetPair(before, name, value);
      Urls.QueryPairsClean(w.query);
      FormEncodeClean(k);
      FormEncodeClean(ToString(v));
      Urls.SetPairClean(before, name, value);
      Urls.QueryPairsSerialize(after);
      assert Urls.QueryPairs(SetAll(u, ps).query) == after;
      Urls.SetPairNamed(before, name, value, n);
      SetAllNamed(u, init, n);
    }
  }

  /** After the loop of `get`, the query read back is the URL's pairs followed by every parameter's pair, in order. */
  lemma {:induction false} AppendAllPairs(u: Urls.Url, ps: Params)
    ensures Urls.QueryPairs(AppendAll(u, ps).query) == Urls.QueryPairs(u.query) + EncodedPairs(ps)
    decreases |ps|
  {
    if ps == [] {
      assert Urls.QueryPairs(u.query) + EncodedPairs(ps) == Urls.QueryPairs(u.query);
    } else {
      var init := ps[..|ps| - 1];
      var last := ps[|ps| - 1];
      var w := AppendAll(u, init);
      var a := Urls.QueryPairs(u.query);
      assert AppendAll(u, ps) == Urls.AppendSearchParam(w, last.0, ToString(last.1));
      AppendStep(w, last);
      AppendAllPairs(u, init);
      EncodedPairsSnoc(ps);
      assert (a + EncodedPairs(init)) + [EncodedPair(last)] == a + (EncodedPairs(init) + [EncodedPair(last)]);
    }
  }

  lemma EncodedPairsSnoc(ps: Params)
    requires ps != []
    ensures EncodedPairs(ps) == EncodedPairs(ps[..|ps| - 1]) + [EncodedPair(ps[|ps| - 1])]
  {
  }

  lemma AppendStep(w: Urls.Url, p: (string, Value))
    ensures Urls.QueryPairs(Urls.AppendSearchParam(w, p.0, ToString(p.1)).query) == Urls.QueryPairs(w.query) + [EncodedPair(p)]
  {
    var after := Urls.QueryPairs(w.query) + [EncodedPair(p)];
    Urls.QueryPairsClean(w.query);
    FormEncodeClean(p.0);
    FormEncodeClean(ToString(p.1));
    assert Urls.PairsClean(after);
    Urls.QueryPairsSerialize(after);
  }

  // ------------------------------------------------------------- bodies

  const MaxPreview: nat := 300

  /** `extractHtmlSnippet(text) || text.slice(0, 300)`. */
  function SnippetOr(text: string): (r: string)
    ensures text != "" ==> r != ""
    ensures HtmlSnippet.ExtractHtmlSnippet(text) == "" ==> r == Take(text, MaxPreview)
  {
    var s := HtmlSnippet.ExtractHtmlSnippet(text);
    if s != "" then s else Take(text, MaxPreview)
  }

  /** Both `json.code` and `json.message` are defined. */
  predicate EnvelopePresent(json: Value)
    requires !json.Undefined? && !json.Null?
  {
    Read(json, "code") != Some(Undefined) && Read(json, "message") != Some(Undefined)
  }

  /**
   * The `try` of `getWithCookiesFromApi`: a body that does not parse, JSON
   * `null`, or an envelope that is present and not ok all end in the same
   * invalid-JSON error; a present ok envelope gives its `data`; JSON without an
   * envelope is returned whole.
   */
  function ClassifyApiBody(parse: string -> Option<Value>, status: int, text: string): (r: Result<Value, Error>)
    ensures r.Failure? ==> r.error == BadJson("", status, text)
    ensures r.Success? <==>
      parse(text).Some? && !parse(text).value.Undefined? && !parse(text).value.Null? &&
      (EnvelopePresent(parse(text).value) ==> EnvelopeOk(parse(text).value))
    ensures r.Success? && EnvelopePresent(parse(text).value) ==> Read(parse(text).value, "data") == Some(r.value)
    ensures r.Success? && !EnvelopePresent(parse(text).value) ==> r.value == parse(text).value
  {
    match parse(text)
    case None => Failure(BadJson("", status, text))
    case Some(json) =>
      if json.Undefined? || json.Null? then Failure(BadJson("", status, text))
      else if EnvelopePresent(json) then
        match ProcessApiResponse(json)
        case Success(data) => Success(data)
        case Failure(_) => Failure(BadJson("", status, text))
      else Success(json)
  }

  /** The inner `try` of `getDownloads`, `getSubtitles` and `getStream`: the parsed JSON, whatever it holds. */
  function ClassifyRawJson(parse: string -> Option<Value>, what: string, status: int, text: string): (r: Result<Value, Error>)
    ensures r.Success? <==> parse(text).Some?
    ensures r.Success? ==> r.value == parse(text).value
    ensures r.Failure? ==> r.error == BadJson(" for " + what, status, text)
  {
    if parse(text).Some? then Success(parse(text).value) else Failure(BadJson(" for " + what, status, text))
  }

  /**
   * The message of an error the client raises itself; the runtime's own
   * errors have none here.
   */
  function Message(e: Error): (m: Option<string>)
    ensures m.Some? <==> e.Thrown? || e.HostFailed? || e.BadJson? || e.HttpFailed? || e.AllAttempted?
  {
    match e
    case Thrown(message) => Some(message)
    case HostFailed(host, status, body) =>
      Some("Host " + host + " returned " + IntToString(status) + ": " + SnippetOr(body))
    case BadJson(what, status, text) =>
      Some("MovieBox API invalid JSON response" + what + " (status " + IntToString(status) + "): " + SnippetOr(text))
    case HttpFailed(status, body) =>
      Some("HTTP error! status: " + IntToString(status) + " body: " + Take(body, 200))
    case AllAttempted(hosts) => Some("All MovieBox hosts attempted and failed: " + Join(hosts, ", "))
    case _ => None
  }

  /**
   * A host's error names the host and ends in the body's diagnostic, which is
   * never empty for a non-empty body; the invalid-JSON error ends in that
   * diagnostic too; the HTTP error quotes at most 200 characters of the body.
   */
  lemma MessageParts(e: Error)
    ensures e.HostFailed? ==>
      var p := "Host " + e.host + " returned " + IntToString(e.status) + ": ";
      StartsWith(Message(e).value, p) && Message(e).value[|p|..] == SnippetOr(e.body) &&
      (e.body != "" ==> |Message(e).value| > |p|)
    ensures e.BadJson? ==>
      var p := "MovieBox API invalid JSON response" + e.what + " (status " + IntToString(e.status) + "): ";
      StartsWith(Message(e).value, p) && Message(e).value[|p|..] == SnippetOr(e.text) &&
      (e.text != "" ==> |Message(e).value| > |p|)
    ensures e.HttpFailed? ==>
      var p := "HTTP error! status: " + IntToString(e.status) + " body: ";
      StartsWith(Message(e).value, p) && |Message(e).value| <= |p| + 200
  {
    if e.HostFailed? {
      var p := "Host " + e.host + " returned " + IntToString(e.status) + ": ";
      assert Message(e).value == p + SnippetOr(e.body);
      assert Message(e).value[..|p|] == p;
    } else if e.BadJson? {
      var p := "MovieBox API invalid JSON response" + e.what + " (status " + IntToString(e.status) + "): ";
      assert Message(e).value == p + SnippetOr(e.text);
      assert Message(e).value[..|p|] == p;
    } else if e.HttpFailed? {
      var p := "HTTP error! status: " + IntToString(e.status) + " body: ";
      assert Message(e).value == p + Take(e.body, 200);
      assert Message(e).value[..|p|] == p;
    }
  }

  // ------------------------------------------------------------ endpoints

  datatype SubjectType = All | Movies | TvSeries | Music

  function SubjectCode(t: SubjectType): int
  {
    match t
    case All => 0
    case Movies => 1
    case TvSeries => 2
    case Music => 6
  }

  /** The public calls of the client, with their default arguments. */
  datatype Endpoint =
    | Homepage
    | Search(query: string, subjectType: SubjectType := All, page: int := 1, perPage: int := 24)
    | Trending(page: int := 0, perPage: int := 18)
    | PopularSearches
    | SearchSuggestions(query: string, perPage: int := 10)
    | HotMoviesAndTvSeries
    | Downloads(subjectId: string, detailPath: string, season: int := 0, episode: int := 0)
    | Subtitles(subjectId: string, detailPath: string, season: int := 0, episode: int := 0)
    | Stream(subjectId: string, detailPath: string, season: int := 0, episode: int := 0)
    | ItemDetails(detailPath: string)
    | MovieDetails(detailPath: string)
    | TvSeriesDetails(detailPath: string)
    | Recommendations(subjectId: string, page: int := 1, perPage: int := 24)

  /**
   * How an endpoint reaches the server: `getWithCookiesFromApi` of a path,
   * `postToApi` of a path and payload, a raw-JSON read with a `Referer` under
   * `/movies/`, or the text of a page.
   */
  datatype Plan =
    | FromApi(path: string, params: Option<Params>)
    | PostApi(path: string, payload: Value)
    | RawJson(path: string, args: Params, refererPath: string, what: string)
    | PageText(path: string)

  const ApiRoot: string := "/wefeed-h5-bff/web"

  function EpisodeParams(subjectId: string, season: int, episode: int): Params
  {
    [("subjectId", Str(subjectId)), ("se", Num(season)), ("ep", Num(episode))]
  }

  /** A path under the BFF web root. */
  function ApiPath(tail: string): string
  {
    ApiRoot + "/" + tail
  }

  /** The fixed path and the parameter map of each endpoint wrapper. */
  function PlanOf(e: Endpoint): Plan
  {
    match e
    case Homepage => FromApi(ApiPath("home"), None)
    case Search(q, t, page, perPage) =>
      PostApi(ApiPath("subject/search"),
              Obj([("keyword", Str(q)), ("page", Num(page)), ("perPage", Num(perPage)), ("subjectType", Num(SubjectCode(t)))]))
    case Trending(page, perPage) => FromApi(ApiPath("subject/trending"), Some([("page", Num(page)), ("perPage", Num(perPage))]))
    case PopularSearches => FromApi(ApiPath("subject/everyone-search"), None)
    case SearchSuggestions(q, perPage) =>
      PostApi(ApiPath("subject/search-suggest"), Obj([("keyword", Str(q)), ("per_page", Num(perPage))]))
    case HotMoviesAndTvSeries => FromApi(ApiPath("subject/search-rank"), None)
    case Downloads(id, dp, se, ep) => RawJson(ApiPath("subject/download"), EpisodeParams(id, se, ep), "/movies/" + dp, "downloads")
    case Subtitles(id, dp, se, ep) => RawJson(ApiPath("subject/download"), EpisodeParams(id, se, ep), "/movies/" + dp, "subtitles")
    case Stream(id, dp, se, ep) => RawJson(ApiPath("subject/play"), EpisodeParams(id, se, ep), "/movies/" + dp, "stream")
    case ItemDetails(dp) => PageText("/movies/" + dp)
    case MovieDetails(dp) => PageText("/movies/" + dp)
    case TvSeriesDetails(dp) => PageText("/movies/" + dp)
    case Recommendations(id, page, perPage) =>
      FromApi(ApiPath("subject/detail-rec"), Some([("subjectId", Str(id)), ("page", Num(page)), ("perPage", Num(perPage))]))
  }

  /**
   * Subtitles are fetched from the downloads endpoint: the two wrappers send the
   * same request and differ only in the what of their error; movie and TV
   * series details are the item details.
   */
  lemma SharedRequests(id: string, dp: string, se: int, ep: int)
    ensures PlanOf(Subtitles(id, dp, se, ep)) == RawJson(ApiPath("subject/download"), EpisodeParams(id, se, ep), "/movies/" + dp, "subtitles")
    ensures PlanOf(Downloads(id, dp, se, ep)) == RawJson(ApiPath("subject/download"), EpisodeParams(id, se, ep), "/movies/" + dp, "downloads")
    ensures PlanOf(MovieDetails(dp)) == PlanOf(ItemDetails(dp)) == PlanOf(TvSeriesDetails(dp))
  {
  }

  /** Every API endpoint lives under the BFF web root; details pages under `/movies/`. */
  lemma PlanPaths(e: Endpoint)
    ensures PlanOf(e).PageText? ==> StartsWith(PlanOf(e).path, "/movies/")
    ensures PlanOf(e).RawJson? ==> StartsWith(PlanOf(e).refererPath, "/movies/")
    ensures !PlanOf(e).PageText? ==> StartsWith(PlanOf(e).path, ApiRoot + "/")
  {
    match e {
      case Homepage => StartsWithConcat(ApiRoot + "/", "home");
      case Search(_, _, _, _) => StartsWithConcat(ApiRoot + "/", "subject/search");
      case Trending(_, _) => StartsWithConcat(ApiRoot + "/", "subject/trending");
      case PopularSearches => StartsWithConcat(ApiRoot + "/", "subject/everyone-search");
      case SearchSuggestions(_, _) => StartsWithConcat(ApiRoot + "/", "subject/search-suggest");
      case HotMoviesAndTvSeries => StartsWithConcat(ApiRoot + "/", "subject/search-rank");
      case Downloads(_, dp, _, _) =>
        StartsWithConcat(ApiRoot + "/", "subject/download");
        StartsWithConcat("/movies/", dp);
      case Subtitles(_, dp, _, _) =>
        StartsWithConcat(ApiRoot + "/", "subject/download");
        StartsWithConcat("/movies/", dp);
      case Stream(_, dp, _, _) =>
        StartsWithConcat(ApiRoot + "/", "subject/play");
        StartsWithConcat("/movies/", dp);
      case ItemDetails(dp) => StartsWithConcat("/movies/", dp);
      case MovieDetails(dp) => StartsWithConcat("/movies/", dp);
      case TvSeriesDetails(dp) => StartsWithConcat("/movies/", dp);
      case Recommendations(_, _, _) => StartsWithConcat(ApiRoot + "/", "subject/detail-rec");
    }
  }

  /** The defaults of the wrappers' optional arguments. */
  lemma DefaultArguments(q: string, id: string, dp: string)
    ensures PlanOf(Search(q)) == PlanOf(Search(q, All, 1, 24))
    ensures PlanOf(Search(q)).payload == Obj([("keyword", Str(q)), ("page", Num(1)), ("perPage", Num(24)), ("subjectType", Num(0))])
    ensures PlanOf(Trending()).params == Some([("page", Num(0)), ("perPage", Num(18))])
    ensures PlanOf(SearchSuggestions(q)).payload == Obj([("keyword", Str(q)), ("per_page", Num(10))])
    ensures PlanOf(Downloads(id, dp)).args == [("subjectId", Str(id)), ("se", Num(0)), ("ep", Num(0))]
    ensures PlanOf(Recommendations(id)).params == Some([("subjectId", Str(id)), ("page", Num(1)), ("perPage", Num(24))])
  {
  }
}
