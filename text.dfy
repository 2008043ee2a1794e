/**
 * String helpers with JavaScript's meaning: `\s` and `String.prototype.trim`
 * (the WhiteSpace and LineTerminator code points), `startsWith`, `includes`,
 * `indexOf`, `slice(0, n)`, `join`, and the lower-casing the proxy rewriter
 * needs for its field-name test.
 */
module Text {
  import Wrappers

  /** The code points JavaScript's `\s` matches and `trim` removes. */
  predicate IsSpace(c: char)
  {
    || c == '\t' || c == '\n' || c == '\U{000B}' || c == '\U{000C}' || c == '\r' || c == ' '
    || c == '\U{00A0}' || c == '\U{1680}' || ('\U{2000}' <= c <= '\U{200A}')
    || c == '\U{2028}' || c == '\U{2029}' || c == '\U{202F}' || c == '\U{205F}'
    || c == '\U{3000}' || c == '\U{FEFF}'
  }

  predicate AllSpace(s: string)
  {
    forall i :: 0 <= i < |s| ==> IsSpace(s[i])
  }

  /** `s.trimStart()`: drops the leading run of white space (`TrimStartSplits` says it drops only that). */
  function TrimStart(s: string): (r: string)
    ensures |r| <= |s|
    ensures r == [] || !IsSpace(r[0])
    ensures s != [] && !IsSpace(s[0]) ==> r == s
  {
    if s != [] && IsSpace(s[0]) then TrimStart(s[1..]) else s
  }

  /** What `TrimStart` drops is white space, and what it keeps is the rest of `s`. */
  lemma {:induction false} TrimStartSplits(s: string)
    ensures s == s[..|s| - |TrimStart(s)|] + TrimStart(s)
    ensures TrimStart(s) == s[|s| - |TrimStart(s)|..]
    ensures AllSpace(s[..|s| - |TrimStart(s)|])
  {
    if s != [] && IsSpace(s[0]) {
      TrimStartSplits(s[1..]);
      var k := |s| - |TrimStart(s)|;
      assert s[..k] == [s[0]] + s[1..][..k - 1];
    }
  }

  /** `s.trimEnd()`: drops the trailing run of white space (`TrimEndSplits` says it drops only that). */
  function TrimEnd(s: string): (r: string)
    ensures |r| <= |s|
    ensures r == [] || !IsSpace(r[|r| - 1])
    ensures s != [] && !IsSpace(s[|s| - 1]) ==> r == s
  {
    if s != [] && IsSpace(s[|s| - 1]) then TrimEnd(s[..|s| - 1]) else s
  }

  /** What `TrimEnd` drops is white space, and what it keeps is the start of `s`. */
  lemma {:induction false} TrimEndSplits(s: string)
    ensures s == TrimEnd(s) + s[|TrimEnd(s)|..]
    ensures TrimEnd(s) == s[..|TrimEnd(s)|]
    ensures AllSpace(s[|TrimEnd(s)|..])
  {
    if s != [] && IsSpace(s[|s| - 1]) {
      TrimEndSplits(s[..|s| - 1]);
      var k := |TrimEnd(s)|;
      assert s[k..] == s[..|s| - 1][k..] + [s[|s| - 1]];
    }
  }

  /** `s.trim()`. */
  function Trim(s: string): (r: string)
    ensures |r| <= |s|
    ensures r == [] || (!IsSpace(r[0]) && !IsSpace(r[|r| - 1]))
    ensures s != [] && !IsSpace(s[0]) ==> r != [] && r[0] == s[0]
  {
    var t := TrimStart(s);
    TrimEndSplits(t);
    assert t != [] ==> TrimEnd(t) != [] && TrimEnd(t)[0] == t[0];
    TrimEnd(t)
  }

  /** Trimming a string that neither starts nor ends with white space changes nothing. */
  lemma TrimmedIsFixed(s: string)
    requires s == [] || (!IsSpace(s[0]) && !IsSpace(s[|s| - 1]))
    ensures Trim(s) == s
  {
  }

  predicate StartsWith(s: string, prefix: string)
  {
    |prefix| <= |s| && s[..|prefix|] == prefix
  }

  lemma StartsWithConcat(a: string, b: string)
    ensures StartsWith(a + b, a)
  {
    assert (a + b)[..|a|] == a;
  }

  /** `s.includes(p)`, searched left to right. */
  predicate Contains(s: string, p: string)
    decreases |s|
  {
    StartsWith(s, p) || (s != [] && Contains(s[1..], p))
  }

  /** `p` occurs in `s` starting at position `i`. */
  predicate OccursAt(s: string, p: string, i: int)
  {
    0 <= i <= |s| - |p| && s[i..i + |p|] == p
  }

  /** `Contains` holds exactly when `p` occurs at some position of `s`. */
  lemma {:induction false} ContainsIff(s: string, p: string)
    ensures Contains(s, p) <==> exists i :: OccursAt(s, p, i)
    decreases |s|
  {
    if StartsWith(s, p) {
      assert OccursAt(s, p, 0);
    }
    if s != [] {
      ContainsIff(s[1..], p);
      if Contains(s[1..], p) {
        var i :| OccursAt(s[1..], p, i);
        assert s[i + 1..i + 1 + |p|] == s[1..][i..i + |p|];
        assert OccursAt(s, p, i + 1);
      }
      if exists i :: OccursAt(s, p, i) {
        var i :| OccursAt(s, p, i);
        if i > 0 {
          assert s[1..][i - 1..i - 1 + |p|] == s[i..i + |p|];
          assert OccursAt(s[1..], p, i - 1);
        }
      }
    } else {
      if exists i :: OccursAt(s, p, i) {
        var i :| OccursAt(s, p, i);
        assert |p| == 0;
      }
    }
  }

  /** `s.indexOf(c)`: the first position holding `c`, or -1. */
  function IndexOf(s: string, c: char): (r: int)
    ensures -1 <= r < |s|
    ensures r == -1 <==> c !in s
    ensures r >= 0 ==> s[r] == c && c !in s[..r]
  {
    if s == [] then -1
    else if s[0] == c then 0
    else
      var k := IndexOf(s[1..], c);
      if k == -1 then -1 else k + 1
  }

  /** Where `c` first occurs in `a + b` when it does not occur in `a`. */
  lemma {:induction false} IndexOfConcat(a: string, b: string, c: char)
    requires c !in a
    ensures IndexOf(a + b, c) == if c in b then |a| + IndexOf(b, c) else -1
    decreases |a|
  {
    if a != [] {
      assert (a + b)[1..] == a[1..] + b;
      IndexOfConcat(a[1..], b, c);
    } else {
      assert a + b == b;
    }
  }

  /** A character absent from both parts is absent from their concatenation. */
  lemma NotInConcat(a: string, b: string, c: char)
    requires c !in a && c !in b
    ensures c !in a + b
  {
    forall i | 0 <= i < |a + b| ensures (a + b)[i] != c {
      if i < |a| {
        assert (a + b)[i] == a[i];
      } else {
        assert (a + b)[i] == b[i - |a|];
      }
    }
  }

  /** A text is what comes before its `i`-th character, that character, and what follows. */
  lemma SliceAround(s: string, i: nat)
    requires i < |s|
    ensures s[..i] + [s[i]] + s[i + 1..] == s
  {
  }

  /** `s.slice(0, n)`. */
  function Take(s: string, n: nat): (r: string)
    ensures |r| <= n && |r| <= |s| && r == s[..|r|]
    ensures |s| <= n ==> r == s
    ensures |s| > n ==> |r| == n
  {
    if |s| <= n then s else s[..n]
  }

  /** A character absent from `s` is absent from `Trim(s)`: trimming only drops characters at the ends. */
  lemma TrimAbsent(s: string, c: char)
    requires c !in s
    ensures c !in Trim(s)
  {
    var t := TrimStart(s);
    TrimStartSplits(s);
    assert forall i :: 0 <= i < |t| ==> t[i] == s[|s| - |t| + i];
    var r := TrimEnd(t);
    TrimEndSplits(t);
    assert forall i :: 0 <= i < |r| ==> r[i] == t[i];
  }

  /** `s` cut at the first `c`: the text before it, and what follows it when `c` occurs. */
  function CutAt(s: string, c: char): (r: (string, Wrappers.Option<string>))
    ensures c !in r.0
    ensures r.1.None? ==> r.0 == s
    ensures r.1.Some? ==> s == r.0 + [c] + r.1.value
  {
    var k := IndexOf(s, c);
    if k < 0 then (s, Wrappers.None)
    else
      assert s == s[..k] + [c] + s[k + 1..];
      (s[..k], Wrappers.Some(s[k + 1..]))
  }

  /** Text before a `c` it does not contain, joined with what follows, is cut back apart. */
  lemma CutAtJoin(a: string, o: Wrappers.Option<string>, c: char)
    requires c !in a
    ensures CutAt(a + (if o.Some? then [c] + o.value else ""), c) == (a, o)
  {
    var tail := if o.Some? then [c] + o.value else "";
    IndexOfConcat(a, tail, c);
    var t := a + tail;
    if o.Some? {
      assert t[..|a|] == a;
      assert t[|a| + 1..] == o.value;
    } else {
      assert t == a;
    }
  }

  /** JavaScript's `s.split(c)`: the pieces between the occurrences of `c`. */
  function SplitOn(s: string, c: char): (r: seq<string>)
    ensures |r| >= 1
    ensures forall i :: 0 <= i < |r| ==> c !in r[i]
    decreases |s|
  {
    var (head, rest) := CutAt(s, c);
    if rest.None? then [s]
    else
      var more := SplitOn(rest.value, c);
      var r := [head] + more;
      assert forall i :: 1 <= i < |r| ==> r[i] == more[i - 1];
      r
  }

  /** Splitting text without `c` gives the text alone. */
  lemma SplitOnAbsent(s: string, c: char)
    requires c !in s
    ensures SplitOn(s, c) == [s]
  {
  }

  /** Splitting at a first `c` gives the text before it and the pieces of what follows. */
  lemma SplitOnFirst(head: string, tail: string, c: char)
    requires c !in head
    ensures SplitOn(head + [c] + tail, c) == [head] + SplitOn(tail, c)
  {
    assert head + [c] + tail == head + ([c] + tail);
    CutAtJoin(head, Wrappers.Some(tail), c);
  }

  /** `parts.join(sep)`. */
  function Join(parts: seq<string>, sep: string): (r: string)
    ensures parts == [] ==> r == []
    ensures |parts| == 1 ==> r == parts[0]
  {
    if parts == [] then ""
    else if |parts| == 1 then parts[0]
    else parts[0] + sep + Join(parts[1..], sep)
  }

  lemma JoinCons(a: string, rest: seq<string>, sep: string)
    requires rest != []
    ensures Join([a] + rest, sep) == a + sep + Join(rest, sep)
  {
    assert ([a] + rest)[1..] == rest;
  }

  /** Splitting a join at its one-character separator gives back the parts, when none holds the separator. */
  lemma {:induction false} SplitJoin(parts: seq<string>, c: char)
    requires parts != []
    requires forall i :: 0 <= i < |parts| ==> c !in parts[i]
    ensures SplitOn(Join(parts, [c]), c) == parts
    decreases |parts|
  {
    if |parts| == 1 {
      SplitOnAbsent(parts[0], c);
    } else {
      var rest := parts[1..];
      SplitJoin(rest, c);
      SplitOnFirst(parts[0], Join(rest, [c]), c);
      assert parts == [parts[0]] + rest;
    }
  }

  /** ASCII upper-case letters to lower case; every other character stays. */
  function LowerAsciiChar(c: char): (r: char)
    ensures 'A' <= c <= 'Z' ==> r as int == c as int + 32
    ensures !('A' <= c <= 'Z') ==> r == c
  {
    if 'A' <= c <= 'Z' then (c as int + 32) as char else c
  }

  function LowerAscii(s: string): (r: string)
    ensures |r| == |s|
    ensures forall i :: 0 <= i < |s| ==> r[i] == LowerAsciiChar(s[i])
  {
    seq(|s|, i requires 0 <= i < |s| => LowerAsciiChar(s[i]))
  }

  /**
   * The character `toLowerCase()` gives for `c`, as far as it decides whether the
   * result contains one of the ASCII words "url" and "link": ASCII capitals and
   * KELVIN SIGN (U+212A, lowered to 'k') are the only code points whose lower
   * case is one of those letters; every other code point is left as it is, which
   * cannot create or destroy such an occurrence.
   */
  function LowerForMatch(c: char): (r: char)
    ensures c == '\U{212A}' ==> r == 'k'
    ensures c != '\U{212A}' ==> r == LowerAsciiChar(c)
  {
    if c == '\U{212A}' then 'k' else LowerAsciiChar(c)
  }

  function LowerForMatchString(s: string): (r: string)
    ensures |r| == |s|
    ensures forall i :: 0 <= i < |s| ==> r[i] == LowerForMatch(s[i])
  {
    seq(|s|, i requires 0 <= i < |s| => LowerForMatch(s[i]))
  }

  /** Lower-casing leaves ASCII lower-case text as it is. */
  lemma LowerForMatchOfLower(s: string)
    requires forall i :: 0 <= i < |s| ==> 'a' <= s[i] <= 'z'
    ensures LowerForMatchString(s) == s
  {
  }

  /** `s.toLowerCase().includes(word)` for an ASCII lower-case `word`. */
  predicate LowerIncludes(s: string, word: string)
  {
    Contains(LowerForMatchString(s), word)
  }
}
