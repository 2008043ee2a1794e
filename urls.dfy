/**
 * What the client needs of the WHATWG `URL` class, on a record
 * {scheme, host, port, path, query, fragment}: parsing an absolute URL,
 * serializing it (`toString()`), the `hostname` and `port` setters, resolving
 * a reference against a base (`new URL(rel, base)`), and `searchParams.set`
 * and `searchParams.append`.
 */
module Urls {
  import opened Wrappers
  import opened Text
  import JsValue
  import Percent

  datatype Url = Url(scheme: string, host: string, port: string, path: string,
                     query: Option<string>, fragment: Option<string>)

  predicate IsAsciiLetter(c: char)
  {
    ('a' <= c <= 'z') || ('A' <= c <= 'Z')
  }

  predicate SchemeChar(c: char)
  {
    IsAsciiLetter(c) || ('0' <= c <= '9') || c == '+' || c == '-' || c == '.'
  }

  predicate ValidScheme(s: string)
  {
    s != [] && IsAsciiLetter(s[0]) && forall i :: 0 <= i < |s| ==> SchemeChar(s[i])
  }

  /** The printable ASCII characters the host parser accepts in a domain. */
  predicate HostChar(c: char)
  {
    && ' ' < c < '\U{007F}'
    && c != '#' && c != '%' && c != '/' && c != ':' && c != '<' && c != '>' && c != '?'
    && c != '@' && c != '[' && c != '\\' && c != ']' && c != '^' && c != '|'
  }

  predicate ValidHost(h: string)
  {
    h != [] && forall i :: 0 <= i < |h| ==> HostChar(h[i])
  }

  /** The default port of the special schemes, which the parser drops. */
  function DefaultPort(scheme: string): string
  {
    if scheme == "http" || scheme == "ws" then "80"
    else if scheme == "https" || scheme == "wss" then "443"
    else if scheme == "ftp" then "21"
    else ""
  }

  /** A port as the serializer writes it: absent, or a canonical numeral up to 65535 that is not the default. */
  predicate CanonicalPort(scheme: string, port: string)
  {
    port == "" ||
    (JsValue.AllDigits(port) && JsValue.DecimalValue(port) <= 65535 &&
     JsValue.NatToDecimal(JsValue.DecimalValue(port)) == port && port != DefaultPort(scheme))
  }

  /** The URLs the parser can produce: the invariant of the record. */
  predicate WellFormed(u: Url)
  {
    && ValidScheme(u.scheme) && LowerAscii(u.scheme) == u.scheme
    && ValidHost(u.host) && LowerAscii(u.host) == u.host
    && CanonicalPort(u.scheme, u.port)
    && u.path != [] && u.path[0] == '/' && Percent.FreeOf(u.path, Percent.PathSet)
    && (u.query.Some? ==> Percent.FreeOf(u.query.value, Percent.QuerySet))
    && (u.fragment.Some? ==> Percent.FreeOf(u.fragment.value, Percent.FragmentSet))
  }

  /** `u.toString()`. */
  function Serialize(u: Url): string
  {
    u.scheme + "://" + u.host + (if u.port == "" then "" else ":" + u.port) + u.path
    + (if u.query.Some? then "?" + u.query.value else "")
    + (if u.fragment.Some? then "#" + u.fragment.value else "")
  }

  predicate C0OrSpace(c: char)
  {
    c <= ' '
  }

  /** Drops leading and trailing C0 controls and spaces, as the parser does first. */
  function TrimC0(s: string): (r: string)
    ensures Printable(s) ==> r == s
    decreases |s|
  {
    if s != [] && C0OrSpace(s[0]) then TrimC0(s[1..])
    else if s != [] && C0OrSpace(s[|s| - 1]) then TrimC0(s[..|s| - 1])
    else s
  }

  /** Removes every tab and newline, as the parser does next. */
  function RemoveTabNewline(s: string): (r: string)
    ensures Printable(s) ==> r == s
  {
    if s == [] then ""
    else (if s[0] == '\t' || s[0] == '\n' || s[0] == '\r' then "" else [s[0]]) + RemoveTabNewline(s[1..])
  }

  /** Where the authority ends: the first `/`, `?` or `#`, or the end. */
  function AuthorityEnd(s: string): (e: nat)
    ensures e <= |s|
    ensures e < |s| ==> s[e] == '/' || s[e] == '?' || s[e] == '#'
    ensures forall i :: 0 <= i < e ==> s[i] != '/' && s[i] != '?' && s[i] != '#'
  {
    if s == [] || s[0] == '/' || s[0] == '?' || s[0] == '#' then 0 else 1 + AuthorityEnd(s[1..])
  }

  /** Percent-encodes the text of a present component. */
  function EncodeOption(o: Option<string>, which: Percent.EncodeSet): (r: Option<string>)
    ensures r.Some? <==> o.Some?
    ensures r.Some? ==> Percent.FreeOf(r.value, which)
    ensures o.Some? && Percent.FreeOf(o.value, which) ==> r == o
  {
    if o.Some? then Some(Percent.EncodeWith(o.value, which)) else None
  }

  /** Splits what follows the authority into path, query and fragment, and percent-encodes each. */
  function SplitTail(t: string): (r: (string, Option<string>, Option<string>))
    requires t == [] || t[0] == '/' || t[0] == '?' || t[0] == '#'
    ensures r.0 != [] && r.0[0] == '/' && Percent.FreeOf(r.0, Percent.PathSet)
    ensures r.1.Some? ==> Percent.FreeOf(r.1.value, Percent.QuerySet)
    ensures r.2.Some? ==> Percent.FreeOf(r.2.value, Percent.FragmentSet)
  {
    var (before, fragment) := CutAt(t, '#');
    var (rawPath, query) := CutAt(before, '?');
    (Percent.EncodeWith(if rawPath == "" then "/" else rawPath, Percent.PathSet),
     EncodeOption(query, Percent.QuerySet), EncodeOption(fragment, Percent.FragmentSet))
  }

  /** The port the parser keeps for `text`, or None when `text` is not a port. */
  function ParsePort(scheme: string, text: string): (r: Option<string>)
    ensures r.Some? ==> CanonicalPort(scheme, r.value)
  {
    if text == [] then Some("")
    else if !JsValue.AllDigits(text) || JsValue.DecimalValue(text) > 65535 then None
    else
      var p := JsValue.NatToDecimal(JsValue.DecimalValue(text));
      JsValue.DecimalRoundTrip(JsValue.DecimalValue(text));
      if p == DefaultPort(scheme) then Some("") else Some(p)
  }

  /** The host and port written in an authority, or None when it is not `host[:port]`. */
  function ParseAuthority(scheme: string, authority: string): (r: Option<(string, string)>)
    ensures r.Some? ==> ValidHost(r.value.0) && LowerAscii(r.value.0) == r.value.0
    ensures r.Some? ==> CanonicalPort(scheme, r.value.1)
  {
    var pc := IndexOf(authority, ':');
    var rawHost := if pc < 0 then authority else authority[..pc];
    var host := LowerAscii(rawHost);
    var port := ParsePort(scheme, if pc < 0 then "" else authority[pc + 1..]);
    if !ValidHost(host) || port.None? then None
    else
      LowerAsciiIdempotent(rawHost);
      Some((host, port.value))
  }

  /**
   * `new URL(s)` for an absolute URL written `scheme://host[:port][path][?query][#fragment]`;
   * None is the TypeError for anything else.
   */
  function Parse(input: string): (r: Option<Url>)
    ensures r.Some? ==> WellFormed(r.value)
  {
    ParseClean(RemoveTabNewline(TrimC0(input)))
  }

  /** Parsing once leading, trailing and embedded white space has been dealt with. */
  function ParseClean(s: string): (r: Option<Url>)
    ensures r.Some? ==> WellFormed(r.value)
  {
    var colon := IndexOf(s, ':');
    if colon <= 0 then None
    else
      var scheme := LowerAscii(s[..colon]);
      LowerAsciiIdempotent(s[..colon]);
      if !ValidScheme(scheme) || !StartsWith(s[colon..], "://") then None
      else ParseAfterScheme(scheme, s[colon + 3..])
  }

  /** Parsing what follows `scheme://`. */
  function ParseAfterScheme(scheme: string, rest: string): (r: Option<Url>)
    requires ValidScheme(scheme) && LowerAscii(scheme) == scheme
    ensures r.Some? ==> WellFormed(r.value) && r.value.scheme == scheme
  {
    var e := AuthorityEnd(rest);
    match ParseAuthority(scheme, rest[..e])
    case None => None
    case Some((host, port)) =>
      var (path, query, fragment) := SplitTail(rest[e..]);
      Some(Url(scheme, host, port, path, query, fragment))
  }

  lemma LowerAsciiIdempotent(s: string)
    ensures LowerAscii(LowerAscii(s)) == LowerAscii(s)
  {
  }

  /** The authority as `Serialize` writes it. */
  function AuthorityText(u: Url): string
  {
    u.host + (if u.port == "" then "" else ":" + u.port)
  }

  /** Path, query and fragment as `Serialize` writes them. */
  function TailText(u: Url): string
  {
    u.path + (if u.query.Some? then "?" + u.query.value else "")
    + (if u.fragment.Some? then "#" + u.fragment.value else "")
  }

  lemma SerializeParts(u: Url)
    ensures Serialize(u) == u.scheme + "://" + AuthorityText(u) + TailText(u)
  {
  }

  lemma {:induction false} AuthorityEndConcat(a: string, b: string)
    requires forall i :: 0 <= i < |a| ==> a[i] != '/' && a[i] != '?' && a[i] != '#'
    requires b == [] || b[0] == '/' || b[0] == '?' || b[0] == '#'
    ensures AuthorityEnd(a + b) == |a|
    decreases |a|
  {
    if a == [] {
      assert a + b == b;
    } else {
      assert (a + b)[1..] == a[1..] + b;
      AuthorityEndConcat(a[1..], b);
    }
  }

  /** No character of `s` is a C0 control or a space. */
  predicate Printable(s: string)
  {
    forall i :: 0 <= i < |s| ==> !C0OrSpace(s[i])
  }

  lemma PrintableConcat(a: string, b: string)
    requires Printable(a) && Printable(b)
    ensures Printable(a + b)
  {
    forall i | 0 <= i < |a + b| ensures !C0OrSpace((a + b)[i]) {
      if i < |a| {
        assert (a + b)[i] == a[i];
      } else {
        assert (a + b)[i] == b[i - |a|];
      }
    }
  }

  /** Every character of a serialized URL is printable, so the parser's first two steps keep it. */
  lemma SerializePrintable(u: Url)
    requires WellFormed(u)
    ensures Printable(Serialize(u))
  {
    var q := if u.query.Some? then "?" + u.query.value else "";
    var f := if u.fragment.Some? then "#" + u.fragment.value else "";
    var p := if u.port == "" then "" else ":" + u.port;
    assert Printable(u.scheme) by {
      forall i | 0 <= i < |u.scheme| ensures !C0OrSpace(u.scheme[i]) {
        assert SchemeChar(u.scheme[i]);
      }
    }
    assert Printable(u.host) by {
      forall i | 0 <= i < |u.host| ensures !C0OrSpace(u.host[i]) {
        assert HostChar(u.host[i]);
      }
    }
    assert Printable(p) by {
      forall i | 0 <= i < |p| ensures !C0OrSpace(p[i]) {
        if i > 0 {
          assert p[i] == u.port[i - 1];
        }
      }
    }
    assert Printable(u.path) by {
      forall i | 0 <= i < |u.path| ensures !C0OrSpace(u.path[i]) {
        assert !Percent.InEncodeSet(u.path[i], Percent.PathSet);
      }
    }
    assert Printable(q) by {
      forall i | 0 <= i < |q| ensures !C0OrSpace(q[i]) {
        if i > 0 {
          assert q[i] == u.query.value[i - 1];
          assert !Percent.InEncodeSet(u.query.value[i - 1], Percent.QuerySet);
        }
      }
    }
    assert Printable(f) by {
      forall i | 0 <= i < |f| ensures !C0OrSpace(f[i]) {
        if i > 0 {
          assert f[i] == u.fragment.value[i - 1];
          assert !Percent.InEncodeSet(u.fragment.value[i - 1], Percent.FragmentSet);
        }
      }
    }
    PrintableConcat(u.scheme, "://");
    PrintableConcat(u.scheme + "://", u.host);
    PrintableConcat(u.scheme + "://" + u.host, p);
    PrintableConcat(u.scheme + "://" + u.host + p, u.path);
    PrintableConcat(u.scheme + "://" + u.host + p + u.path, q);
    PrintableConcat(u.scheme + "://" + u.host + p + u.path + q, f);
  }

  lemma ParsePortCanonical(scheme: string, port: string)
    requires CanonicalPort(scheme, port)
    ensures ParsePort(scheme, port) == Some(port)
  {
  }

  lemma HostHasNoColon(host: string)
    requires ValidHost(host)
    ensures ':' !in host
  {
    forall i | 0 <= i < |host| ensures host[i] != ':' {
      assert HostChar(host[i]);
    }
  }

  lemma ParseAuthorityOfWellFormed(scheme: string, host: string, port: string)
    requires ValidHost(host) && LowerAscii(host) == host && CanonicalPort(scheme, port)
    ensures ParseAuthority(scheme, host + (if port == "" then "" else ":" + port)) == Some((host, port))
  {
    HostHasNoColon(host);
    ParsePortCanonical(scheme, port);
    if port == "" {
      assert host + "" == host;
    } else {
      ParseAuthorityWithPort(scheme, host, port);
    }
  }

  lemma ParseAuthorityWithPort(scheme: string, host: string, port: string)
    requires ValidHost(host) && LowerAscii(host) == host && ':' !in host
    requires ParsePort(scheme, port) == Some(port)
    ensures ParseAuthority(scheme, host + (":" + port)) == Some((host, port))
  {
    var a := host + (":" + port);
    IndexOfConcat(host, ":" + port, ':');
    assert IndexOf(a, ':') == |host|;
    assert a[..|host|] == host;
    assert a[|host| + 1..] == port;
  }

  /** A character of an encode set never survives in text free of that set. */
  lemma FreeOfExcludes(s: string, which: Percent.EncodeSet, c: char)
    requires Percent.FreeOf(s, which) && Percent.InEncodeSet(c, which)
    ensures c !in s
  {
    forall i | 0 <= i < |s| ensures s[i] != c {
      assert !Percent.InEncodeSet(s[i], which);
    }
  }

  lemma SplitTailOfWellFormed(u: Url)
    requires WellFormed(u)
    ensures SplitTail(TailText(u)) == (u.path, u.query, u.fragment)
  {
    var qt := if u.query.Some? then "?" + u.query.value else "";
    var head := u.path + qt;
    assert TailText(u) == head + (if u.fragment.Some? then "#" + u.fragment.value else "");
    FreeOfExcludes(u.path, Percent.PathSet, '#');
    FreeOfExcludes(u.path, Percent.PathSet, '?');
    if u.query.Some? {
      FreeOfExcludes(u.query.value, Percent.QuerySet, '#');
      NotInConcat("?", u.query.value, '#');
    }
    NotInConcat(u.path, qt, '#');
    CutAtJoin(head, u.fragment, '#');
    CutAtJoin(u.path, u.query, '?');
    assert u.path + "" == u.path;
  }

  lemma ParseAfterSchemeOfWellFormed(u: Url)
    requires WellFormed(u)
    ensures ParseAfterScheme(u.scheme, AuthorityText(u) + TailText(u)) == Some(u)
  {
    var rest := AuthorityText(u) + TailText(u);
    AuthorityEndConcat(AuthorityText(u), TailText(u));
    assert rest[..|AuthorityText(u)|] == AuthorityText(u);
    assert rest[|AuthorityText(u)|..] == TailText(u);
    ParseAuthorityOfWellFormed(u.scheme, u.host, u.port);
    SplitTailOfWellFormed(u);
  }

  lemma ParseCleanSplit(scheme: string, rest: string)
    requires ValidScheme(scheme) && LowerAscii(scheme) == scheme
    ensures ParseClean(scheme + "://" + rest) == ParseAfterScheme(scheme, rest)
  {
    var after := "://" + rest;
    var s := scheme + after;
    assert scheme + "://" + rest == s;
    assert ':' !in scheme by {
      forall i | 0 <= i < |scheme| ensures scheme[i] != ':' {
        assert SchemeChar(scheme[i]);
      }
    }
    IndexOfConcat(scheme, after, ':');
    assert IndexOf(s, ':') == |scheme|;
    assert s[..|scheme|] == scheme;
    assert s[|scheme|..] == after;
    assert s[|scheme| + 3..] == rest;
  }

  /** Parsing a serialized well-formed URL gives the URL back. */
  lemma ParseSerialize(u: Url)
    requires WellFormed(u)
    ensures Parse(Serialize(u)) == Some(u)
  {
    var s := Serialize(u);
    var rest := AuthorityText(u) + TailText(u);
    assert RemoveTabNewline(TrimC0(s)) == s by {
      SerializePrintable(u);
    }
    assert s == u.scheme + "://" + rest by {
      SerializeParts(u);
    }
    calc {
      Parse(s);
      ParseClean(s);
      { ParseCleanSplit(u.scheme, rest); }
      ParseAfterScheme(u.scheme, rest);
      { ParseAfterSchemeOfWellFormed(u); }
      Some(u);
    }
  }

  /** Lower-casing keeps a host valid. */
  lemma LowerHostValid(h: string)
    requires ValidHost(h)
    ensures ValidHost(LowerAscii(h)) && LowerAscii(LowerAscii(h)) == LowerAscii(h)
  {
    var l := LowerAscii(h);
    forall i | 0 <= i < |l| ensures HostChar(l[i]) {
      assert HostChar(h[i]);
    }
  }

  /** The `hostname` setter: a value the host parser rejects leaves the URL as it was. */
  function SetHostname(u: Url, h: string): (r: Url)
    ensures ValidHost(h) ==> r == u.(host := LowerAscii(h))
    ensures !ValidHost(h) ==> r == u
    ensures WellFormed(u) ==> WellFormed(r)
  {
    if ValidHost(h) then LowerHostValid(h); u.(host := LowerAscii(h)) else u
  }

  /** `u.port = ""`: the URL has no port afterwards. */
  function ClearPort(u: Url): (r: Url)
    ensures r == u.(port := "")
    ensures WellFormed(u) ==> WellFormed(r)
  {
    u.(port := "")
  }

  /**
   * `new URL(rel, base)` for a base whose path is `/` and that has neither query
   * nor fragment: an absolute URL stands for itself, `//host...` keeps only the
   * base's scheme, and anything else replaces the base's path, query and
   * fragment (a path that does not start with `/` is taken relative to `/`).
   */
  function ResolveAgainstRoot(base: Url, rel: string): (r: Option<Url>)
    requires WellFormed(base)
    ensures r.Some? ==> WellFormed(r.value)
    ensures Parse(rel).Some? ==> r == Parse(rel)
  {
    var s := RemoveTabNewline(TrimC0(rel));
    if Parse(rel).Some? then Parse(rel)
    else if StartsWith(s, "//") then ParseAfterScheme(base.scheme, s[2..])
    else
      var t := if s == [] || s[0] == '/' || s[0] == '?' || s[0] == '#' then s else "/" + s;
      var (path, query, fragment) := SplitTail(t);
      Some(base.(path := path, query := query, fragment := fragment))
  }

  /** A query piece split at its first `=`, the way a URL's search parameters are read. */
  function PairOf(piece: string): (r: (string, string))
    ensures '=' !in r.0
  {
    var k := IndexOf(piece, '=');
    if k < 0 then (piece, "") else (piece[..k], piece[k + 1..])
  }

  function NonEmptyPieces(pieces: seq<string>): (r: seq<string>)
    ensures forall i :: 0 <= i < |r| ==> r[i] != [] && r[i] in pieces
  {
    if pieces == [] then []
    else (if pieces[0] == [] then [] else [pieces[0]]) + NonEmptyPieces(pieces[1..])
  }

  /** Dropping empty pieces works piece by piece. */
  lemma {:induction false} NonEmptyPiecesConcat(a: seq<string>, b: seq<string>)
    ensures NonEmptyPieces(a + b) == NonEmptyPieces(a) + NonEmptyPieces(b)
  {
    if a == [] {
      assert a + b == b;
    } else {
      assert (a + b)[1..] == a[1..] + b;
      NonEmptyPiecesConcat(a[1..], b);
    }
  }

  /** Exactly the non-empty pieces are kept, in their order: one piece stays unless it is empty. */
  lemma NonEmptyPiecesKeeps(pieces: seq<string>)
    ensures |pieces| == 1 ==> NonEmptyPieces(pieces) == if pieces[0] == [] then [] else pieces
    ensures forall j :: 0 <= j < |pieces| && pieces[j] != [] ==> pieces[j] in NonEmptyPieces(pieces)
    ensures (forall j :: 0 <= j < |pieces| ==> pieces[j] != []) ==> NonEmptyPieces(pieces) == pieces
  {
    forall j | 0 <= j < |pieces| && pieces[j] != []
      ensures pieces[j] in NonEmptyPieces(pieces)
    {
      NonEmptyPieceKept(pieces, j);
    }
    if forall j :: 0 <= j < |pieces| ==> pieces[j] != [] {
      AllNonEmptyKept(pieces);
    }
  }

  lemma NonEmptyPieceKept(pieces: seq<string>, j: nat)
    requires j < |pieces| && pieces[j] != []
    ensures pieces[j] in NonEmptyPieces(pieces)
  {
    var tail := [pieces[j]] + pieces[j + 1..];
    assert pieces == pieces[..j] + tail;
    NonEmptyPiecesConcat(pieces[..j], tail);
    NonEmptyPiecesConcat([pieces[j]], pieces[j + 1..]);
    assert NonEmptyPieces([pieces[j]]) == [pieces[j]];
  }

  lemma {:induction false} AllNonEmptyKept(pieces: seq<string>)
    requires forall j :: 0 <= j < |pieces| ==> pieces[j] != []
    ensures NonEmptyPieces(pieces) == pieces
  {
    if pieces != [] {
      AllNonEmptyKept(pieces[1..]);
    }
  }

  /**
   * The name-value list of a query, names and values kept as written; empty
   * pieces between `&` are skipped, as `URLSearchParams` does.
   */
  function QueryPairs(q: Option<string>): (r: seq<(string, string)>)
  {
    if q.None? then []
    else
      var pieces := NonEmptyPieces(SplitOn(q.value, '&'));
      seq(|pieces|, i requires 0 <= i < |pieces| => PairOf(pieces[i]))
  }

  /** The pairs written back as `name=value` joined by `&`. */
  function SerializePairs(ps: seq<(string, string)>): string
  {
    Join(seq(|ps|, i requires 0 <= i < |ps| => ps[i].0 + "=" + ps[i].1), "&")
  }

  /** Pairs that serialize without running into each other: no `&` anywhere, no `=` in a name. */
  predicate PairsClean(ps: seq<(string, string)>)
  {
    forall i :: 0 <= i < |ps| ==> '&' !in ps[i].0 && '=' !in ps[i].0 && '&' !in ps[i].1
  }

  /** The pairs read from any query are clean. */
  lemma QueryPairsClean(q: Option<string>)
    ensures PairsClean(QueryPairs(q))
  {
    if q.Some? {
      var pieces := NonEmptyPieces(SplitOn(q.value, '&'));
      forall i | 0 <= i < |pieces| ensures '&' !in PairOf(pieces[i]).0 && '&' !in PairOf(pieces[i]).1 {
        var p := pieces[i];
        assert '&' !in p;
        var k := IndexOf(p, '=');
        if k >= 0 {
          assert p == p[..k] + p[k..];
          assert p[k..] == [p[k]] + p[k + 1..];
        }
      }
    }
  }

  /** One written pair reads back as itself, when its name has no `=`. */
  lemma PairOfWritten(n: string, v: string)
    requires '=' !in n
    ensures PairOf(n + "=" + v) == (n, v)
  {
    IndexOfConcat(n, "=" + v, '=');
    assert n + "=" + v == n + ("=" + v);
    var t := n + ("=" + v);
    assert t[..|n|] == n && t[|n| + 1..] == v;
  }

  /** Reading back the query `SerializePairs` writes gives the same pairs. */
  lemma QueryPairsSerialize(ps: seq<(string, string)>)
    requires PairsClean(ps)
    ensures QueryPairs(Some(SerializePairs(ps))) == ps
  {
    var texts := seq(|ps|, i requires 0 <= i < |ps| => ps[i].0 + "=" + ps[i].1);
    if ps == [] {
      assert SplitOn("", '&') == [""];
    } else {
      forall i | 0 <= i < |texts| ensures '&' !in texts[i] && texts[i] != [] {
        assert texts[i] == ps[i].0 + "=" + ps[i].1;
        NotInConcat(ps[i].0, "=", '&');
        NotInConcat(ps[i].0 + "=", ps[i].1, '&');
      }
      assert "&" == ['&'];
      SplitJoin(texts, '&');
      NonEmptyPiecesKeeps(texts);
      forall i | 0 <= i < |ps| ensures PairOf(texts[i]) == ps[i] {
        PairOfWritten(ps[i].0, ps[i].1);
      }
    }
  }

  /** The pairs named `name`, in order. */
  function Named(ps: seq<(string, string)>, name: string): (r: seq<(string, string)>)
    ensures forall i :: 0 <= i < |r| ==> r[i].0 == name && r[i] in ps
  {
    if ps == [] then []
    else (if ps[0].0 == name then [ps[0]] else []) + Named(ps[1..], name)
  }

  lemma {:induction false} NamedWithout(ps: seq<(string, string)>, name: string, m: string)
    ensures Named(Without(ps, name), m) == if m == name then [] else Named(ps, m)
  {
    if ps != [] {
      NamedWithout(ps[1..], name, m);
      var head := if ps[0].0 == name then [] else [ps[0]];
      NamedConcat(head, Without(ps[1..], name), m);
    }
  }

  lemma {:induction false} NamedConcat(a: seq<(string, string)>, b: seq<(string, string)>, m: string)
    ensures Named(a + b, m) == Named(a, m) + Named(b, m)
  {
    if a == [] {
      assert a + b == b;
    } else {
      assert (a + b)[1..] == a[1..] + b;
      NamedConcat(a[1..], b, m);
    }
  }

  /** After `set`, the name has the one pair with the value, and every other name keeps its pairs. */
  lemma {:induction false} SetPairNamed(ps: seq<(string, string)>, name: string, value: string, m: string)
    ensures Named(SetPair(ps, name, value), m) == if m == name then [(name, value)] else Named(ps, m)
  {
    if ps == [] {
    } else if ps[0].0 == name {
      NamedConcat([(name, value)], Without(ps[1..], name), m);
      NamedWithout(ps[1..], name, m);
    } else {
      SetPairNamed(ps[1..], name, value, m);
      NamedConcat([ps[0]], SetPair(ps[1..], name, value), m);
    }
  }

  /** `set` with a clean name and value keeps the pairs clean. */
  lemma {:induction false} SetPairClean(ps: seq<(string, string)>, name: string, value: string)
    requires PairsClean(ps) && '&' !in name && '=' !in name && '&' !in value
    ensures PairsClean(SetPair(ps, name, value))
  {
    if ps != [] && ps[0].0 != name {
      SetPairClean(ps[1..], name, value);
    }
  }

  /** The pairs not named `name`, in order. */
  function Without(ps: seq<(string, string)>, name: string): (r: seq<(string, string)>)
    ensures |r| <= |ps|
    ensures forall i :: 0 <= i < |r| ==> r[i].0 != name && r[i] in ps
  {
    if ps == [] then []
    else (if ps[0].0 == name then [] else [ps[0]]) + Without(ps[1..], name)
  }

  /**
   * `URLSearchParams.set` on a pair list: the first pair named `name` takes the
   * value, later pairs of that name go, and without such a pair the new one is
   * appended. Afterwards exactly one pair has that name, it holds `value`, and
   * the pairs with other names are those of before, in their order.
   */
  function SetPair(ps: seq<(string, string)>, name: string, value: string): (r: seq<(string, string)>)
    ensures (name, value) in r
    ensures |r| == |Without(r, name)| + 1
    ensures Without(r, name) == Without(ps, name)
  {
    if ps == [] then [(name, value)]
    else if ps[0].0 == name then
      WithoutTwice(ps[1..], name);
      [(name, value)] + Without(ps[1..], name)
    else
      var rest := SetPair(ps[1..], name, value);
      assert ([ps[0]] + rest)[1..] == rest;
      [ps[0]] + rest
  }

  /**
   * `set` writes the value where the first pair of that name was: the pairs
   * before it are untouched and the new pair takes its index.
   */
  lemma {:induction false} SetPairInPlace(ps: seq<(string, string)>, name: string, value: string, k: nat)
    requires k < |ps| && ps[k].0 == name
    requires forall j :: 0 <= j < k ==> ps[j].0 != name
    ensures var r := SetPair(ps, name, value); k < |r| && r[..k] == ps[..k] && r[k] == (name, value)
  {
    if k == 0 {
      assert SetPair(ps, name, value)[0] == (name, value);
    } else {
      assert ps[0].0 != name;
      var tail := ps[1..];
      assert forall j :: 0 <= j < k - 1 ==> tail[j] == ps[j + 1];
      SetPairInPlace(tail, name, value, k - 1);
      var rest := SetPair(tail, name, value);
      var r := [ps[0]] + rest;
      assert SetPair(ps, name, value) == r;
      assert ps[..k] == [ps[0]] + tail[..k - 1];
      assert r[..k] == [ps[0]] + rest[..k - 1];
      assert r[k] == rest[k - 1];
    }
  }

  lemma {:induction false} WithoutTwice(ps: seq<(string, string)>, name: string)
    ensures Without(Without(ps, name), name) == Without(ps, name)
  {
    if ps != [] {
      WithoutTwice(ps[1..], name);
      var head := if ps[0].0 == name then [] else [ps[0]];
      WithoutConcat(head, Without(ps[1..], name), name);
    }
  }

  lemma {:induction false} WithoutConcat(a: seq<(string, string)>, b: seq<(string, string)>, name: string)
    ensures Without(a + b, name) == Without(a, name) + Without(b, name)
  {
    if a != [] {
      assert (a + b)[1..] == a[1..] + b;
      WithoutConcat(a[1..], b, name);
    } else {
      assert a + b == b;
    }
  }

  /** `u.searchParams.set(name, value)`: the query becomes the updated list, form-encoded. */
  function SetSearchParam(u: Url, name: string, value: string): (r: Url)
    ensures r.(query := u.query) == u
    ensures r.query == Some(SerializePairs(SetPair(QueryPairs(u.query), Percent.FormEncode(name), Percent.FormEncode(value))))
  {
    u.(query := Some(SerializePairs(SetPair(QueryPairs(u.query), Percent.FormEncode(name), Percent.FormEncode(value)))))
  }

  /** `u.searchParams.append(name, value)`: the pair is added after those already there. */
  function AppendSearchParam(u: Url, name: string, value: string): (r: Url)
    ensures r.(query := u.query) == u
    ensures r.query == Some(SerializePairs(QueryPairs(u.query) + [(Percent.FormEncode(name), Percent.FormEncode(value))]))
  {
    u.(query := Some(SerializePairs(QueryPairs(u.query) + [(Percent.FormEncode(name), Percent.FormEncode(value))])))
  }
}
