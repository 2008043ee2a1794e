/**
 * lib/proxy-helper.ts: `proxyUrl` turns a CDN link into a link to this site's
 * `/api/proxy` route, and `proxyUrls` rewrites the links inside a JSON tree.
 * `getHostUrl()` is the `origin` parameter.
 */
module ProxyHelper {
  import opened Wrappers
  import opened Text
  import opened JsValue
  import Percent

  const ProxyRoute: string := "/api/proxy?url="

  /**
   * `proxyUrl(url)`: `""` stays `""`; any other link becomes the proxy route
   * with the link as its percent-encoded `url` parameter, which decodes back
   * to the link and holds no raw `&`, `=`, `?`, `#`, `+` or space.
   */
  function ProxyUrl(origin: string, url: string): (r: string)
    ensures url == "" ==> r == ""
    ensures url != "" ==> |r| > |origin + ProxyRoute| && r[..|origin + ProxyRoute|] == origin + ProxyRoute
    ensures url != "" ==> Percent.DecodeUriComponent(r[|origin + ProxyRoute|..]) == Some(url)
    ensures url != "" ==> forall i :: |origin + ProxyRoute| <= i < |r| ==>
      Percent.UriUnreserved(r[i]) || r[i] == '%'
  {
    if url == "" then url
    else
      var encoded := Percent.EncodeUriComponent(url);
      Percent.UriComponentRoundTrip(url);
      var r := origin + ProxyRoute + encoded;
      assert r[|origin + ProxyRoute|..] == encoded;
      r
  }

  /** No character the parameter may hold is one that would end or split it. */
  lemma ProxyParamIsOneValue(origin: string, url: string, i: nat)
    requires url != "" && |origin + ProxyRoute| <= i < |ProxyUrl(origin, url)|
    ensures ProxyUrl(origin, url)[i] !in {'&', '=', '?', '#', '+', ' '}
  {
  }

  /** The heuristic that marks a string field as a link: an `http(s)://` value, or a key mentioning "url" or "link". */
  predicate ShouldRewrite(key: string, value: string)
  {
    || StartsWith(value, "http://") || StartsWith(value, "https://")
    || LowerIncludes(key, "url") || LowerIncludes(key, "link")
  }

  /**
   * The field named `__proto__`: on a plain object, `processed[key] = v` with
   * that key changes the prototype (or, for a primitive `v`, does nothing)
   * instead of creating a field.
   */
  const ProtoKey: string := "__proto__"

  function WithoutProto(fields: seq<(string, Value)>): (r: seq<(string, Value)>)
    ensures forall i :: 0 <= i < |r| ==> r[i].0 != ProtoKey && r[i] in fields
    ensures ProtoKey !in Keys(fields) ==> r == fields
  {
    if fields == [] then []
    else (if fields[0].0 == ProtoKey then [] else [fields[0]]) + WithoutProto(fields[1..])
  }

  /**
   * One pass of the rewriter. With `asWritten`, an object's fields are copied
   * the way lib/proxy-helper.ts:45-61 copies them, which loses a `__proto__`
   * field; without it every field is kept.
   */
  function Rewrite(origin: string, data: Value, asWritten: bool): (r: Value)
    decreases data, 0
  {
    if Falsy(data) then data
    else match data
      case Arr(items) =>
        Arr(seq(|items|, i requires 0 <= i < |items| => Rewrite(origin, items[i], asWritten)))
      case Obj(fields) =>
        var mapped := seq(|fields|, i requires 0 <= i < |fields| =>
          (fields[i].0, RewriteField(origin, fields[i].0, fields[i].1, asWritten)));
        Obj(if asWritten then WithoutProto(mapped) else mapped)
      case _ => data
  }

  /** The value a field of an object is given. */
  function RewriteField(origin: string, key: string, value: Value, asWritten: bool): (r: Value)
    decreases value, 1
  {
    if value.Str? && ShouldRewrite(key, value.s) then Str(ProxyUrl(origin, value.s))
    else if IsObjectType(value) then Rewrite(origin, value, asWritten)
    else value
  }

  /** `proxyUrls(data)` exactly as written, `__proto__` handling included. */
  function ProxyUrlsAsWritten(origin: string, data: Value): (r: Value)
    ensures data.Obj? ==> r.Obj? && ProtoKey !in Keys(r.fields)
  {
    Rewrite(origin, data, true)
  }

  /** A JSON object with a `__proto__` field comes out of the rewriter without it. */
  lemma ProtoFieldIsLost(origin: string)
    ensures var input := Obj([(ProtoKey, Num(1)), ("poster", Str("p.jpg"))]);
      ProxyUrlsAsWritten(origin, input) == Obj([("poster", Str("p.jpg"))])
      && Keys(ProxyUrlsAsWritten(origin, input).fields) != Keys(input.fields)
  {
    var input := Obj([(ProtoKey, Num(1)), ("poster", Str("p.jpg"))]);
    PosterIsNoLink();
    var fields := input.fields;
    var mapped := seq(|fields|, i requires 0 <= i < |fields| =>
      (fields[i].0, RewriteField(origin, fields[i].0, fields[i].1, true)));
    assert mapped == [(ProtoKey, Num(1)), ("poster", Str("p.jpg"))];
    assert WithoutProto(mapped) == [("poster", Str("p.jpg"))] by {
      assert mapped[1..] == [("poster", Str("p.jpg"))];
      assert WithoutProto(mapped[1..][1..]) == [];
      assert WithoutProto(mapped[1..]) == [("poster", Str("p.jpg"))];
    }
  }

  /** The field `poster` with the value `p.jpg` is not taken for a link. */
  lemma PosterIsNoLink()
    ensures !ShouldRewrite("poster", "p.jpg")
  {
    LowerForMatchOfLower("poster");
    FirstLetterAbsent("poster", "url");
    FirstLetterAbsent("poster", "link");
  }

  /** A word whose first letter does not occur in `s` is not contained in it. */
  lemma FirstLetterAbsent(s: string, p: string)
    requires p != [] && p[0] !in s
    ensures !Contains(s, p)
  {
    ContainsIff(s, p);
  }

  /**
   * `proxyUrls(data)` with every field of an object kept. A falsy value, a
   * string, a number and a boolean are returned as they are; an array maps
   * element by element, so a bare string in an array is never rewritten; an
   * object keeps its keys in order and each value is rewritten by
   * `ProxyField`.
   */
  function ProxyUrls(origin: string, data: Value): (r: Value)
    ensures Falsy(data) ==> r == data
    ensures !data.Arr? && !data.Obj? ==> r == data
    ensures data.Arr? ==> (r.Arr? && |r.items| == |data.items|
      && forall i :: 0 <= i < |data.items| ==> r.items[i] == ProxyUrls(origin, data.items[i]))
    ensures data.Arr? ==> forall i :: 0 <= i < |data.items| && data.items[i].Str? ==> r.items[i] == data.items[i]
    ensures data.Obj? ==> (r.Obj? && Keys(r.fields) == Keys(data.fields)
      && forall i :: 0 <= i < |data.fields| ==> r.fields[i].1 == ProxyField(origin, data.fields[i].0, data.fields[i].1))
    decreases data, 2
  {
    Rewrite(origin, data, false)
  }

  /**
   * The value a field gets: a string the heuristic marks, and only such a
   * string, becomes its proxy link; `null`, arrays and objects are rewritten
   * recursively; anything else is copied.
   */
  function ProxyField(origin: string, key: string, value: Value): (r: Value)
    ensures value.Str? && ShouldRewrite(key, value.s) ==> r == Str(ProxyUrl(origin, value.s))
    ensures value.Str? && !ShouldRewrite(key, value.s) ==> r == value
    ensures IsObjectType(value) ==> r == ProxyUrls(origin, value)
    ensures value.Null? ==> r == Null
    ensures !value.Str? && !IsObjectType(value) ==> r == value
    decreases value, 3
  {
    RewriteField(origin, key, value, false)
  }

  /**
   * A JSON object whose keys are all other than `__proto__` is rewritten the
   * same way as written and as corrected.
   */
  lemma {:induction false} AsWrittenAgreesWithoutProto(origin: string, data: Value)
    requires NoProtoKey(data)
    ensures ProxyUrlsAsWritten(origin, data) == ProxyUrls(origin, data)
    decreases data
  {
    match data {
      case Arr(items) =>
        forall i | 0 <= i < |items| ensures Rewrite(origin, items[i], true) == Rewrite(origin, items[i], false) {
          AsWrittenAgreesWithoutProto(origin, items[i]);
        }
      case Obj(fields) =>
        forall i | 0 <= i < |fields|
          ensures RewriteField(origin, fields[i].0, fields[i].1, true) == RewriteField(origin, fields[i].0, fields[i].1, false)
        {
          if IsObjectType(fields[i].1) {
            AsWrittenAgreesWithoutProto(origin, fields[i].1);
          }
        }
      case _ =>
    }
  }

  /** No object anywhere in the tree has a `__proto__` field. */
  predicate NoProtoKey(v: Value)
    decreases v
  {
    match v
      case Arr(items) => forall i :: 0 <= i < |items| ==> NoProtoKey(items[i])
      case Obj(fields) => ProtoKey !in Keys(fields) && forall i :: 0 <= i < |fields| ==> NoProtoKey(fields[i].1)
      case _ => true
  }
}
