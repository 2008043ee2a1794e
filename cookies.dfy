/**
 * The process-wide cookie store of lib/moviebox-client.ts: `parseAndStoreSetCookie`
 * merges the cookies named in a (possibly comma-joined) `Set-Cookie` header
 * into it, and `buildCookieHeader` writes it back as a `Cookie` request header.
 */
module Cookies {
  import opened Wrappers
  import opened Text

  // ---------------------------------------------------------------------------
  // Splitting a combined header: `header.split(/,(?=[^;=]+=[^;=]+)/g)`
  // ---------------------------------------------------------------------------

  predicate IsSep(c: char)
  {
    c == ';' || c == '='
  }

  /** The position of the first `;` or `=` in `t`, or `|t|` when there is none. */
  function SepIndex(t: string): (r: nat)
    ensures r <= |t|
    ensures forall i :: 0 <= i < r ==> !IsSep(t[i])
    ensures r < |t| ==> IsSep(t[r])
  {
    if t == [] then 0 else if IsSep(t[0]) then 0 else 1 + SepIndex(t[1..])
  }

  /**
   * The lookahead `[^;=]+=[^;=]+` holds at `j`: the first `;` or `=` from `j`
   * on is a `=` that is not at `j`, and a character other than `;` and `=`
   * follows it.
   */
  predicate CookieAhead(s: string, j: nat)
    requires j <= |s|
  {
    var e := j + SepIndex(s[j..]);
    e > j && e + 1 < |s| && s[e] == '=' && !IsSep(s[e + 1])
  }

  /** The regex match `[^;=]+=[^;=]+` can start at `j` with its `=` at `k`. */
  predicate AheadWith(s: string, j: nat, k: nat)
  {
    j < k && k + 1 < |s| && (forall i :: j <= i < k ==> !IsSep(s[i])) && s[k] == '=' && !IsSep(s[k + 1])
  }

  /** `CookieAhead` is the lookahead of the regex: some split `[^;=]+` `=` `[^;=]` of the text after `j` exists. */
  lemma CookieAheadIff(s: string, j: nat)
    requires j <= |s|
    ensures CookieAhead(s, j) <==> exists k :: AheadWith(s, j, k)
  {
    var e := j + SepIndex(s[j..]);
    assert forall i :: j <= i < e ==> s[i] == s[j..][i - j];
    if CookieAhead(s, j) {
      assert AheadWith(s, j, e);
    }
    if k: nat :| AheadWith(s, j, k) {
      if e < k {
        assert s[j..][e - j] == s[e];
      }
    }
  }

  /** The comma at `i` is one the header is split at. */
  predicate SplitPoint(s: string, i: nat)
    requires i < |s|
  {
    s[i] == ',' && CookieAhead(s, i + 1)
  }

  /** The lookahead only reads ahead, so a split point of a suffix is one of the whole text. */
  lemma SplitPointOfSuffix(s: string, k: nat, j: nat)
    requires k + j < |s|
    ensures SplitPoint(s[k..], j) == SplitPoint(s, k + j)
  {
    assert s[k..][j + 1..] == s[k + j + 1..];
  }

  /** The first split point at or after `i`, or `|s|` when there is none. */
  function FirstSplit(s: string, i: nat): (r: nat)
    requires i <= |s|
    ensures i <= r <= |s|
    ensures forall j :: i <= j < r ==> !SplitPoint(s, j)
    ensures r < |s| ==> SplitPoint(s, r)
    decreases |s| - i
  {
    if i == |s| then i else if SplitPoint(s, i) then i else FirstSplit(s, i + 1)
  }

  /**
   * The pieces of the header between the split points. The first piece has no
   * split point in it; the others are the pieces of what follows its comma.
   */
  function SplitCookies(s: string): (r: seq<string>)
    ensures |r| >= 1
    decreases |s|
  {
    var i := FirstSplit(s, 0);
    if i == |s| then [s] else [s[..i]] + SplitCookies(s[i + 1..])
  }

  /** The first piece runs up to the first split point, and is the whole header when there is none. */
  lemma SplitCookiesFirstPiece(s: string)
    ensures var r := SplitCookies(s);
      && |r[0]| <= |s| && (forall j :: 0 <= j < |r[0]| ==> !SplitPoint(s, j))
      && (|r| > 1 ==> |r[0]| < |s| && SplitPoint(s, |r[0]|) && r[1..] == SplitCookies(s[|r[0]| + 1..]))
      && (|r| == 1 ==> r[0] == s)
  {
    var i := FirstSplit(s, 0);
    if i < |s| {
      assert SplitCookies(s) == [s[..i]] + SplitCookies(s[i + 1..]);
    }
  }

  /** Splitting loses nothing: the pieces joined with commas give back the header. */
  lemma {:induction false} SplitCookiesJoin(s: string)
    ensures Join(SplitCookies(s), ",") == s
    decreases |s|
  {
    var i := FirstSplit(s, 0);
    if i < |s| {
      var rest := SplitCookies(s[i + 1..]);
      assert SplitCookies(s) == [s[..i]] + rest;
      SplitCookiesJoin(s[i + 1..]);
      JoinCons(s[..i], rest, ",");
      assert s[i] == ',';
      SliceAround(s, i);
    }
  }

  /** `.map((s) => s.trim()).filter(Boolean)`. */
  function Segments(pieces: seq<string>): (r: seq<string>)
    ensures forall i :: 0 <= i < |r| ==> r[i] != [] && Trimmed(r[i])
  {
    if pieces == [] then []
    else
      var t := Trim(pieces[0]);
      (if t == "" then [] else [t]) + Segments(pieces[1..])
  }

  /** Trimming and dropping empty pieces works piece by piece. */
  lemma {:induction false} SegmentsConcat(a: seq<string>, b: seq<string>)
    ensures Segments(a + b) == Segments(a) + Segments(b)
  {
    if a == [] {
      assert a + b == b;
    } else {
      assert (a + b)[1..] == a[1..] + b;
      SegmentsConcat(a[1..], b);
    }
  }

  /** A piece gives its trimmed text unless that is empty; so every piece that is not blank is kept, in order. */
  lemma SegmentsKeeps(pieces: seq<string>)
    ensures |pieces| == 1 ==> Segments(pieces) == if Trim(pieces[0]) == "" then [] else [Trim(pieces[0])]
    ensures forall j :: 0 <= j < |pieces| && Trim(pieces[j]) != "" ==> Trim(pieces[j]) in Segments(pieces)
  {
    forall j | 0 <= j < |pieces| && Trim(pieces[j]) != ""
      ensures Trim(pieces[j]) in Segments(pieces)
    {
      SegmentKept(pieces, j);
    }
  }

  lemma SegmentKept(pieces: seq<string>, j: nat)
    requires j < |pieces| && Trim(pieces[j]) != ""
    ensures Trim(pieces[j]) in Segments(pieces)
  {
    var tail := pieces[j..];
    assert pieces == pieces[..j] + tail;
    SegmentsConcat(pieces[..j], tail);
    assert tail[0] == pieces[j];
    assert Segments(tail)[0] == Trim(pieces[j]);
  }

  // ---------------------------------------------------------------------------
  // One cookie
  // ---------------------------------------------------------------------------

  /** A trimmed text: no white space at either end. */
  predicate Trimmed(s: string)
  {
    s == [] || (!IsSpace(s[0]) && !IsSpace(s[|s| - 1]))
  }

  /** The shape every stored name and value has. */
  predicate PairOk(key: string, value: string)
  {
    && key != [] && Trimmed(key) && '=' !in key && ';' !in key
    && Trimmed(value) && ';' !in value
  }

  /** `c.split(";")[0].trim()`: the name-value part of a segment, without its attributes. */
  function NameValueText(c: string): (r: string)
    ensures ';' !in r && Trimmed(r)
  {
    TrimAbsent(SplitOn(c, ';')[0], ';');
    Trim(SplitOn(c, ';')[0])
  }

  /** The name and value on either side of the first `=` at `eq`, each trimmed. */
  function NameAndValue(kv: string, eq: nat): (r: (string, string))
    requires 0 < eq < |kv| && kv[eq] == '=' && '=' !in kv[..eq]
    requires ';' !in kv && Trimmed(kv)
    ensures PairOk(r.0, r.1)
  {
    assert kv[..eq][0] == kv[0];
    assert ';' !in kv[..eq] && ';' !in kv[eq + 1..];
    TrimAbsent(kv[..eq], ';');
    TrimAbsent(kv[..eq], '=');
    TrimAbsent(kv[eq + 1..], ';');
    (Trim(kv[..eq]), Trim(kv[eq + 1..]))
  }

  /**
   * One segment: its name-value part cut at the first `=`; a segment whose
   * name-value part has no `=` after its first character names no cookie.
   */
  function CookiePair(c: string): (r: Option<(string, string)>)
    ensures r.Some? ==> PairOk(r.value.0, r.value.1)
    ensures r.None? <==> IndexOf(NameValueText(c), '=') <= 0
  {
    var kv := NameValueText(c);
    var eq := IndexOf(kv, '=');
    if eq > 0 then Some(NameAndValue(kv, eq)) else None
  }

  /** The name of a cookie the code does find is never empty, so its `if (key)` test always passes. */
  lemma CookieNameNonEmpty(c: string)
    requires IndexOf(NameValueText(c), '=') > 0
    ensures CookiePair(c).Some? && CookiePair(c).value.0 != ""
  {
  }

  /** The cookies the segments name, in segment order. */
  function PairsOf(parts: seq<string>): (r: seq<(string, string)>)
    ensures forall i :: 0 <= i < |r| ==> PairOk(r[i].0, r[i].1)
  {
    if parts == [] then []
    else
      var init := PairsOf(parts[..|parts| - 1]);
      var c := CookiePair(parts[|parts| - 1]);
      if c.None? then init
      else
        var r := init + [c.value];
        assert forall i :: 0 <= i < |init| ==> r[i] == init[i];
        assert r[|init|] == c.value;
        r
  }

  /** The segments a non-empty `Set-Cookie` header is read as. */
  function SetCookieSegments(header: string): (r: seq<string>)
    ensures forall i :: 0 <= i < |r| ==> r[i] != [] && Trimmed(r[i])
  {
    Segments(SplitCookies(header))
  }

  /**
   * The segments of a header: the trimmed text before the first split point,
   * unless blank, then the segments of what follows its comma; a header
   * without a split point is one segment. So every piece of the split that is
   * not blank is kept, in order.
   */
  lemma SetCookieSegmentsFirst(header: string)
    ensures var r := SplitCookies(header);
      && SetCookieSegments(header) == Segments([r[0]]) + (if |r| > 1 then SetCookieSegments(header[|r[0]| + 1..]) else [])
      && Segments([r[0]]) == (if Trim(r[0]) == "" then [] else [Trim(r[0])])
      && (forall j :: 0 <= j < |r| && Trim(r[j]) != "" ==> Trim(r[j]) in SetCookieSegments(header))
  {
    var r := SplitCookies(header);
    SplitCookiesFirstPiece(header);
    SegmentsKeeps([r[0]]);
    SegmentsKeeps(r);
    assert r == [r[0]] + r[1..];
    SegmentsConcat([r[0]], r[1..]);
  }

  /** All cookies a `Set-Cookie` header sets, in header order; none for a missing or empty header. */
  function SetCookiePairs(header: Option<string>): (r: seq<(string, string)>)
    ensures header.None? || header == Some("") ==> r == []
    ensures forall i :: 0 <= i < |r| ==> PairOk(r[i].0, r[i].1)
  {
    if header.None? || header.value == "" then [] else PairsOf(SetCookieSegments(header.value))
  }

  // ---------------------------------------------------------------------------
  // The store
  // ---------------------------------------------------------------------------

  /**
   * Assigning `__proto__` on a plain object with a string value changes
   * nothing, so a cookie of that name is never stored.
   */
  const ProtoKey: string := "__proto__"

  /** The value stored under `key`. */
  function Get(e: seq<(string, string)>, key: string): (r: Option<string>)
    ensures r.None? <==> forall i :: 0 <= i < |e| ==> e[i].0 != key
    ensures r.Some? ==> exists i :: 0 <= i < |e| && e[i] == (key, r.value)
  {
    if e == [] then None else if e[0].0 == key then Some(e[0].1) else Get(e[1..], key)
  }

  /** Each name occurs once. */
  predicate DistinctKeys(e: seq<(string, string)>)
  {
    forall i, j :: 0 <= i < j < |e| ==> e[i].0 != e[j].0
  }

  /** The store's contents: each name once, every pair of the stored shape, no `__proto__`. */
  predicate JarValid(e: seq<(string, string)>)
  {
    && DistinctKeys(e)
    && (forall i :: 0 <= i < |e| ==> PairOk(e[i].0, e[i].1) && e[i].0 != ProtoKey)
  }

  /**
   * `store[key] = value`: an existing name keeps its place and takes the value,
   * a new one goes last, and `__proto__` changes nothing.
   */
  function Put(e: seq<(string, string)>, key: string, value: string): (r: seq<(string, string)>)
    ensures key == ProtoKey ==> r == e
    ensures key != ProtoKey && Get(e, key).None? ==> r == e + [(key, value)]
    ensures key != ProtoKey && Get(e, key).Some? ==>
      |r| == |e| && forall i :: 0 <= i < |e| ==> r[i].0 == e[i].0 && (r[i] == e[i] || r[i] == (key, value))
  {
    if key == ProtoKey then e
    else if e == [] then [(key, value)]
    else if e[0].0 == key then [(key, value)] + e[1..]
    else [e[0]] + Put(e[1..], key, value)
  }

  /** After `Put` the name holds the value and every other name holds what it held. */
  lemma {:induction false} PutGet(e: seq<(string, string)>, key: string, value: string, k: string)
    requires DistinctKeys(e)
    ensures Get(Put(e, key, value), k) == if k == key && key != ProtoKey then Some(value) else Get(e, k)
  {
    if key != ProtoKey && e != [] {
      if e[0].0 != key {
        PutGet(e[1..], key, value, k);
        var rest := Put(e[1..], key, value);
        assert ([e[0]] + rest)[1..] == rest;
      } else {
        assert ([(key, value)] + e[1..])[1..] == e[1..];
      }
    }
  }

  lemma PutDistinct(e: seq<(string, string)>, key: string, value: string)
    requires DistinctKeys(e)
    ensures DistinctKeys(Put(e, key, value))
  {
    if key != ProtoKey {
      if Get(e, key).None? {
        AppendNewKeyDistinct(e, (key, value));
      } else {
        SameKeysDistinct(e, Put(e, key, value));
      }
    }
  }

  /** A pair whose name is not yet there can be added at the end. */
  lemma AppendNewKeyDistinct(e: seq<(string, string)>, kv: (string, string))
    requires DistinctKeys(e) && forall i :: 0 <= i < |e| ==> e[i].0 != kv.0
    ensures DistinctKeys(e + [kv])
  {
    var r := e + [kv];
    forall i, j | 0 <= i < j < |r| ensures r[i].0 != r[j].0 {
      assert r[i] == e[i];
      if j < |e| {
        assert r[j] == e[j];
      } else {
        assert r[j] == kv;
      }
    }
  }

  /** Names in the same places as in a list of distinct names are distinct. */
  lemma SameKeysDistinct(e: seq<(string, string)>, r: seq<(string, string)>)
    requires DistinctKeys(e) && |r| == |e| && forall i :: 0 <= i < |r| ==> r[i].0 == e[i].0
    ensures DistinctKeys(r)
  {
    forall i, j | 0 <= i < j < |r| ensures r[i].0 != r[j].0 {
      assert r[i].0 == e[i].0 && r[j].0 == e[j].0;
    }
  }

  lemma PutNewValid(e: seq<(string, string)>, key: string, value: string)
    requires JarValid(e) && PairOk(key, value) && key != ProtoKey && Get(e, key).None?
    ensures JarValid(Put(e, key, value))
  {
    var r := Put(e, key, value);
    assert r == e + [(key, value)];
    AppendNewKeyDistinct(e, (key, value));
    forall i | 0 <= i < |r| ensures PairOk(r[i].0, r[i].1) && r[i].0 != ProtoKey {
      if i < |e| {
        assert r[i] == e[i];
      }
    }
  }

  lemma PutExistingValid(e: seq<(string, string)>, key: string, value: string)
    requires JarValid(e) && PairOk(key, value) && key != ProtoKey && Get(e, key).Some?
    ensures JarValid(Put(e, key, value))
  {
    SameKeysDistinct(e, Put(e, key, value));
  }

  lemma PutValid(e: seq<(string, string)>, key: string, value: string)
    requires JarValid(e) && PairOk(key, value)
    ensures JarValid(Put(e, key, value))
  {
    if key != ProtoKey {
      if Get(e, key).None? {
        PutNewValid(e, key, value);
      } else {
        PutExistingValid(e, key, value);
      }
    }
  }

  lemma {:induction false} StoreAllDistinct(e: seq<(string, string)>, ps: seq<(string, string)>)
    requires DistinctKeys(e)
    ensures DistinctKeys(StoreAll(e, ps))
  {
    if ps != [] {
      StoreAllDistinct(e, ps[..|ps| - 1]);
      PutDistinct(StoreAll(e, ps[..|ps| - 1]), ps[|ps| - 1].0, ps[|ps| - 1].1);
    }
  }

  /** The store after the pairs are assigned one after another. */
  function StoreAll(e: seq<(string, string)>, ps: seq<(string, string)>): seq<(string, string)>
  {
    if ps == [] then e else Put(StoreAll(e, ps[..|ps| - 1]), ps[|ps| - 1].0, ps[|ps| - 1].1)
  }

  /** The value the last pair named `key` carries. */
  function LastValue(ps: seq<(string, string)>, key: string): Option<string>
  {
    if ps == [] then None
    else if ps[|ps| - 1].0 == key then Some(ps[|ps| - 1].1)
    else LastValue(ps[..|ps| - 1], key)
  }

  /** Storing keeps the store well formed. */
  lemma {:induction false} StoreAllValid(e: seq<(string, string)>, ps: seq<(string, string)>)
    requires JarValid(e)
    requires forall i :: 0 <= i < |ps| ==> PairOk(ps[i].0, ps[i].1)
    ensures JarValid(StoreAll(e, ps))
  {
    if ps != [] {
      StoreAllValid(e, ps[..|ps| - 1]);
      PutValid(StoreAll(e, ps[..|ps| - 1]), ps[|ps| - 1].0, ps[|ps| - 1].1);
    }
  }

  /**
   * After storing, a name holds the value of the last pair that names it, and
   * a name no pair mentions (or `__proto__`) holds what it held before.
   */
  lemma {:induction false} StoreAllGet(e: seq<(string, string)>, ps: seq<(string, string)>, key: string)
    requires DistinctKeys(e)
    ensures Get(StoreAll(e, ps), key) ==
      if key != ProtoKey && LastValue(ps, key).Some? then LastValue(ps, key) else Get(e, key)
  {
    if ps != [] {
      StoreAllGet(e, ps[..|ps| - 1], key);
      StoreAllDistinct(e, ps[..|ps| - 1]);
      PutGet(StoreAll(e, ps[..|ps| - 1]), ps[|ps| - 1].0, ps[|ps| - 1].1, key);
    }
  }

  /** Names already stored keep their places; new names only come after them. */
  lemma {:induction false} StoreAllKeepsOrder(e: seq<(string, string)>, ps: seq<(string, string)>)
    ensures |StoreAll(e, ps)| >= |e| && forall i :: 0 <= i < |e| ==> StoreAll(e, ps)[i].0 == e[i].0
  {
    if ps != [] {
      StoreAllKeepsOrder(e, ps[..|ps| - 1]);
    }
  }

  /** `buildCookieHeader()`: every stored cookie as `name=value`, in store order, joined by `"; "`. */
  function BuildCookieHeader(e: seq<(string, string)>): (r: string)
    ensures e == [] ==> r == ""
    ensures JarValid(e) && e != [] ==> r != ""
  {
    Join(CookieTexts(e), "; ")
  }

  function CookieTexts(e: seq<(string, string)>): (r: seq<string>)
    ensures |r| == |e|
    ensures forall i :: 0 <= i < |e| ==> r[i] == e[i].0 + "=" + e[i].1
  {
    seq(|e|, i requires 0 <= i < |e| => e[i].0 + "=" + e[i].1)
  }

  /** How a server reads a `Cookie` header: pieces between `;`, one leading space dropped, cut at the first `=`. */
  function ParseCookieHeader(h: string): seq<(string, string)>
  {
    if h == "" then []
    else
      var pieces := SplitOn(h, ';');
      seq(|pieces|, i requires 0 <= i < |pieces| => CookieOf(pieces[i]))
  }

  function CookieOf(piece: string): (string, string)
  {
    var p := if piece != [] && piece[0] == ' ' then piece[1..] else piece;
    var k := IndexOf(p, '=');
    if k < 0 then (p, "") else (p[..k], p[k + 1..])
  }

  function Spaced(parts: seq<string>): (r: seq<string>)
    ensures |r| == |parts| && forall i :: 0 <= i < |parts| ==> r[i] == " " + parts[i]
  {
    seq(|parts|, i requires 0 <= i < |parts| => " " + parts[i])
  }

  lemma {:induction false} SplitJoinSemi(pre: string, parts: seq<string>)
    requires parts != [] && ';' !in pre
    requires forall i :: 0 <= i < |parts| ==> ';' !in parts[i]
    ensures SplitOn(pre + Join(parts, "; "), ';') == [pre + parts[0]] + Spaced(parts[1..])
    decreases |parts|
  {
    NotInConcat(pre, parts[0], ';');
    if |parts| == 1 {
      SplitOnAbsent(pre + parts[0], ';');
      assert Spaced(parts[1..]) == [];
    } else {
      var rest := parts[1..];
      JoinSemiCons(pre, parts);
      SplitOnFirst(pre + parts[0], " " + Join(rest, "; "), ';');
      SplitJoinSemi(" ", rest);
      SpacedCons(rest);
    }
  }

  lemma JoinSemiCons(pre: string, parts: seq<string>)
    requires |parts| >= 2
    ensures pre + Join(parts, "; ") == (pre + parts[0]) + [';'] + (" " + Join(parts[1..], "; "))
  {
    assert Join(parts, "; ") == parts[0] + "; " + Join(parts[1..], "; ");
    Regroup(pre, parts[0], Join(parts[1..], "; "));
  }

  lemma Regroup(pre: string, a: string, b: string)
    ensures pre + (a + "; " + b) == (pre + a) + [';'] + (" " + b)
  {
    assert "; " == [';'] + " ";
  }

  lemma SpacedCons(parts: seq<string>)
    requires parts != []
    ensures Spaced(parts) == [" " + parts[0]] + Spaced(parts[1..])
  {
  }

  /** One `name=value` piece, with or without the space that follows a `;`, reads back as its pair. */
  lemma CookieOfText(key: string, value: string, spaced: bool)
    requires PairOk(key, value)
    ensures CookieOf(if spaced then " " + (key + "=" + value) else key + "=" + value) == (key, value)
  {
    var t := key + "=" + value;
    SplitAtEquals(key, value);
    assert t[0] == key[0];
    assert IsSpace(' ');
    if spaced {
      assert (" " + t)[1..] == t;
    }
  }

  lemma SplitAtEquals(key: string, value: string)
    requires '=' !in key
    ensures var t := key + "=" + value;
            IndexOf(t, '=') == |key| && t[..|key|] == key && t[|key| + 1..] == value
  {
    var t := key + "=" + value;
    assert t == key + ("=" + value);
    IndexOfConcat(key, "=" + value, '=');
    assert t[..|key|] == key;
    assert t[|key| + 1..] == value;
  }

  lemma TextsFreeOfSemicolon(e: seq<(string, string)>)
    requires JarValid(e)
    ensures forall i :: 0 <= i < |e| ==> ';' !in CookieTexts(e)[i]
  {
    forall i | 0 <= i < |e| ensures ';' !in CookieTexts(e)[i] {
      assert PairOk(e[i].0, e[i].1);
      var t := e[i].0 + "=" + e[i].1;
    }
  }

  /** The pieces of the header are the cookie texts, every one after the first with the space of `"; "`. */
  lemma HeaderPieces(e: seq<(string, string)>)
    requires JarValid(e) && e != []
    ensures SplitOn(BuildCookieHeader(e), ';') == [CookieTexts(e)[0]] + Spaced(CookieTexts(e)[1..])
  {
    var texts := CookieTexts(e);
    TextsFreeOfSemicolon(e);
    var h := Join(texts, "; ");
    assert h == BuildCookieHeader(e);
    SplitJoinSemi("", texts);
    assert "" + h == h;
    assert "" + texts[0] == texts[0];
  }

  /** What `buildCookieHeader` writes, a server reads back as the store's contents. */
  lemma CookieHeaderRoundTrip(e: seq<(string, string)>)
    requires JarValid(e)
    ensures ParseCookieHeader(BuildCookieHeader(e)) == e
  {
    if e != [] {
      var h := BuildCookieHeader(e);
      HeaderPieces(e);
      var pieces := SplitOn(h, ';');
      var texts := CookieTexts(e);
      assert |pieces| == |e|;
      var r := ParseCookieHeader(h);
      assert |r| == |e|;
      forall i | 0 <= i < |e| ensures r[i] == e[i] {
        assert PairOk(e[i].0, e[i].1);
        assert pieces[i] == if i > 0 then " " + texts[i] else texts[i];
        CookieOfText(e[i].0, e[i].1, i > 0);
      }
    }
  }

  /** Storing the cookies of one more segment stores that segment's cookie, if it names one, last. */
  lemma StoreStep(e: seq<(string, string)>, parts: seq<string>, i: nat)
    requires i < |parts|
    ensures var c := CookiePair(parts[i]);
            StoreAll(e, PairsOf(parts[..i + 1])) ==
              if c.Some? then Put(StoreAll(e, PairsOf(parts[..i])), c.value.0, c.value.1)
              else StoreAll(e, PairsOf(parts[..i]))
  {
    assert parts[..i + 1][..i] == parts[..i];
    var c := CookiePair(parts[i]);
    if c.Some? {
      var ps := PairsOf(parts[..i]) + [c.value];
      assert ps[..|ps| - 1] == PairsOf(parts[..i]);
    }
  }

  class CookieJar {
    var entries: seq<(string, string)>

    ghost predicate Valid()
      reads this
    {
      JarValid(entries)
    }

    constructor ()
      ensures Valid() && entries == []
    {
      entries := [];
    }

    /**
     * `parseAndStoreSetCookie(header)`: nothing happens for a missing or empty
     * header; otherwise every cookie of every segment is assigned in turn.
     */
    method ParseAndStoreSetCookie(header: Option<string>)
      requires Valid()
      modifies this
      ensures Valid()
      ensures entries == StoreAll(old(entries), SetCookiePairs(header))
    {
      if header.None? || header.value == "" {
        assert StoreAll(entries, []) == entries;
        return;
      }
      StoreSegments(SetCookieSegments(header.value));
    }

    /** The `for` loop over the segments, each stored in turn. */
    method StoreSegments(parts: seq<string>)
      requires Valid()
      modifies this
      ensures Valid()
      ensures entries == StoreAll(old(entries), PairsOf(parts))
    {
      var i := 0;
      while i < |parts|
        invariant 0 <= i <= |parts|
        invariant entries == StoreAll(old(entries), PairsOf(parts[..i]))
        invariant JarValid(entries)
      {
        StoreStep(old(entries), parts, i);
        StoreSegment(parts[i]);
        i := i + 1;
      }
      assert parts[..|parts|] == parts;
    }

    /** One segment: its cookie, when it names one, is assigned in the store. */
    method StoreSegment(part: string)
      requires Valid()
      modifies this
      ensures Valid()
      ensures var c := CookiePair(part);
              entries == if c.Some? then Put(old(entries), c.value.0, c.value.1) else old(entries)
    {
      var c := CookiePair(part);
      if c.Some? {
        var (key, value) := c.value;
        if key != "" {
          PutValid(entries, key, value);
          entries := Put(entries, key, value);
        }
      }
    }
  }
}
