/**
 * `extractHtmlSnippet` of lib/moviebox-client.ts: the short diagnostic the
 * client puts into its errors when the upstream answers with an HTML page
 * instead of JSON. It is the trimmed text of the first `<title>` element the
 * regular expression `/<title[^>]*>([^<]+)<\/title>/i` finds, or else the page
 * with every tag `/<[^>]+>/` replaced by a space, every white-space run
 * `/\s+/` collapsed to one space, trimmed and cut to 300 characters.
 */
module HtmlSnippet {
  import opened Wrappers
  import opened Text

  /** The length the tag-stripped fallback text is cut to. */
  const MaxSnippet: nat := 300

  /** `s` holds the lower-case ASCII word `w` at `i`, ignoring ASCII case as a regex with the `i` flag (and no `u` flag) does. */
  predicate WordAtCI(s: string, i: int, w: string)
  {
    0 <= i && i + |w| <= |s| && forall k :: 0 <= k < |w| ==> LowerAsciiChar(s[i + k]) == w[k]
  }

  /** `s.indexOf(c, from)`: the first position at or after `from` holding `c`, or -1. */
  function IndexFrom(s: string, from: nat, c: char): (r: int)
    ensures r == -1 || from <= r < |s|
    ensures r >= 0 ==> s[r] == c
    ensures r < 0 ==> forall k :: from <= k < |s| ==> s[k] != c
    ensures r >= 0 ==> forall k :: from <= k < r ==> s[k] != c
    decreases |s| - from
  {
    if from >= |s| then -1 else if s[from] == c then from else IndexFrom(s, from + 1, c)
  }

  /**
   * The regex `<title[^>]*>([^<]+)<\/title>` matches at `p`, with its `>` at
   * `q` and the closing tag at `r`: `[^>]*` cannot pass a `>`, and `[^<]+` is
   * a non-empty run without `<`.
   */
  predicate TitleMatchAt(s: string, p: int, q: int, r: int)
  {
    && 0 <= p && p + 6 <= q && q + 1 < r && r + 8 <= |s|
    && WordAtCI(s, p, "<title")
    && s[q] == '>' && (forall k :: p + 6 <= k < q ==> s[k] != '>')
    && (forall k :: q + 1 <= k < r ==> s[k] != '<')
    && WordAtCI(s, r, "</title>")
  }

  /** The text the title regex captures when it is tried at position `p`. */
  function TitleAt(s: string, p: nat): (r: Option<string>)
    requires p <= |s|
  {
    if !WordAtCI(s, p, "<title") then None
    else
      var q := IndexFrom(s, p + 6, '>');
      if q < 0 then None else CaptureAt(s, q + 1)
  }

  /** The capture `([^<]+)` starting at `start`, when the closing tag follows it. */
  function CaptureAt(s: string, start: nat): (r: Option<string>)
    requires start <= |s|
  {
    var r := IndexFrom(s, start, '<');
    if r <= start then None
    else if WordAtCI(s, r, "</title>") then Some(s[start..r])
    else None
  }

  /** When `TitleAt` captures, the regex matches at `p` around the captured text. */
  lemma TitleAtSound(s: string, p: nat)
    requires p <= |s| && TitleAt(s, p).Some?
    ensures exists q, r :: TitleMatchAt(s, p, q, r) && TitleAt(s, p).value == s[q + 1..r]
  {
    var q := IndexFrom(s, p + 6, '>');
    var r := IndexFrom(s, q + 1, '<');
    assert TitleMatchAt(s, p, q, r);
  }

  /** When the regex matches at `p`, `TitleAt` captures the text between its `>` and the closing tag. */
  lemma TitleAtComplete(s: string, p: nat, q: int, r: int)
    requires p <= |s| && TitleMatchAt(s, p, q, r)
    ensures TitleAt(s, p) == Some(s[q + 1..r])
  {
    assert IndexFrom(s, p + 6, '>') == q;
    assert LowerAsciiChar(s[r + 0]) == "</title>"[0];
    assert IndexFrom(s, q + 1, '<') == r;
  }

  /** The first capture in `m` at or after `p`. */
  function FirstSome(m: seq<Option<string>>, p: nat): Option<string>
    requires p <= |m|
    decreases |m| - p
  {
    if p == |m| then None
    else if m[p].Some? then m[p]
    else FirstSome(m, p + 1)
  }

  /** `FirstSome` is the capture at the first position that has one, and None when none has. */
  lemma {:induction false} FirstSomeIsLeftmost(m: seq<Option<string>>, p: nat)
    requires p <= |m|
    ensures FirstSome(m, p).Some? ==>
      exists k :: p <= k < |m| && m[k] == FirstSome(m, p) && forall j :: p <= j < k ==> m[j].None?
    ensures FirstSome(m, p).None? ==> forall j :: p <= j < |m| ==> m[j].None?
    decreases |m| - p
  {
    if p < |m| && m[p].None? {
      FirstSomeIsLeftmost(m, p + 1);
      if FirstSome(m, p + 1).Some? {
        var k :| p + 1 <= k < |m| && m[k] == FirstSome(m, p + 1) && forall j :: p + 1 <= j < k ==> m[j].None?;
        assert forall j :: p <= j < k ==> m[j].None?;
      }
    }
  }

  /** What the title regex captures when tried at each position of `s`. */
  function Titles(s: string): (m: seq<Option<string>>)
    ensures |m| == |s| && forall k :: 0 <= k < |s| ==> m[k] == TitleAt(s, k)
  {
    seq(|s|, k requires 0 <= k < |s| => TitleAt(s, k))
  }

  /** The leftmost match at or after `p`, as `String.prototype.match` reports it. */
  function FindTitle(s: string, p: nat): (r: Option<string>)
    requires p <= |s|
  {
    FirstSome(Titles(s), p)
  }

  /** `FindTitle` reports the match at the first position where the regex matches, and None when it matches nowhere. */
  lemma FindTitleIsLeftmost(s: string, p: nat)
    requires p <= |s|
    ensures FindTitle(s, p).Some? ==>
      exists k :: p <= k < |s| && TitleAt(s, k) == FindTitle(s, p) && forall j :: p <= j < k ==> TitleAt(s, j).None?
    ensures FindTitle(s, p).None? ==> forall j :: p <= j <= |s| ==> TitleAt(s, j).None?
  {
    var m := Titles(s);
    FirstSomeIsLeftmost(m, p);
    assert !WordAtCI(s, |s|, "<title");
    if FindTitle(s, p).Some? {
      var k :| p <= k < |m| && m[k] == FirstSome(m, p) && forall j :: p <= j < k ==> m[j].None?;
      assert TitleAt(s, k) == FindTitle(s, p);
    }
  }

  /** The regex `<[^>]+>` matches at position `i`: a `<`, at least one character, then the first `>` after it. */
  predicate TagAt(s: string, i: int)
    requires 0 <= i <= |s|
  {
    i < |s| && s[i] == '<' && IndexOf(s[i..], '>') >= 2
  }

  /** No tag is left in `s`. */
  predicate TagFree(s: string)
  {
    forall i :: 0 <= i < |s| ==> !TagAt(s, i)
  }

  /** `s.replace(/<[^>]+>/g, " ")`: scanning left to right, every tag becomes one space. */
  function StripTags(s: string): (r: string)
    ensures |r| <= |s|
    ensures '>' !in s ==> '>' !in r
    ensures s != [] && s[0] != '<' ==> r != [] && r[0] == s[0]
    decreases |s|
  {
    if s == [] then ""
    else if TagAt(s, 0) then " " + StripTags(s[IndexOf(s, '>') + 1..])
    else [s[0]] + StripTags(s[1..])
  }

  /**
   * Text outside tags is kept: a part without `<` comes through unchanged, and
   * a tag `<x>` (x non-empty, without `>`) before the rest becomes one space.
   * In particular text without `<` is its own result.
   */
  lemma {:induction false} StripTagsKeepsText(a: string, b: string)
    requires '<' !in a
    ensures StripTags(a + b) == a + StripTags(b)
    ensures StripTags(a) == a
    decreases |a|
  {
    if a != [] {
      var s := a + b;
      assert s[0] == a[0] && !TagAt(s, 0);
      assert s[1..] == a[1..] + b;
      StripTagsKeepsText(a[1..], b);
      assert !TagAt(a, 0);
      assert a == [a[0]] + a[1..];
    } else {
      assert a + b == b;
    }
  }

  lemma StripTagsTag(x: string, b: string)
    requires x != [] && '>' !in x
    ensures StripTags("<" + x + ">" + b) == " " + StripTags(b)
  {
    var head := "<" + x;
    var tail := ">" + b;
    var s := head + tail;
    assert "<" + x + ">" + b == s;
    NotInConcat("<", x, '>');
    IndexOfConcat(head, tail, '>');
    assert tail[0] == '>';
    assert IndexOf(s, '>') == |x| + 1;
    assert s[0..] == s;
    assert s[|x| + 2..] == b;
  }

  lemma SuffixAt(s: string, k: nat, i: nat)
    requires k <= |s| && i <= |s| - k
    ensures s[k..][i..] == s[k + i..]
  {
  }

  /** No tag survives `StripTags`. */
  lemma {:induction false} StripTagsIsTagFree(s: string)
    ensures TagFree(StripTags(s))
    decreases |s|
  {
    if s != [] {
      var r := StripTags(s);
      if TagAt(s, 0) {
        var rest := s[IndexOf(s, '>') + 1..];
        StripTagsIsTagFree(rest);
        var t := StripTags(rest);
        assert r == " " + t;
        forall i | 0 <= i < |r| ensures !TagAt(r, i) {
          if i > 0 {
            assert r[i..] == t[i - 1..];
            assert !TagAt(t, i - 1);
          }
        }
      } else {
        StripTagsIsTagFree(s[1..]);
        var t := StripTags(s[1..]);
        assert r == [s[0]] + t;
        forall i | 0 <= i < |r| ensures !TagAt(r, i) {
          if i > 0 {
            assert r[i..] == t[i - 1..];
            assert !TagAt(t, i - 1);
          } else if s[0] == '<' {
            var j := IndexOf(s, '>');
            assert j != 0;
            if j == -1 {
              assert '>' !in s[1..];
              assert '>' !in r;
            } else {
              assert j == 1;
              assert t[0] == '>';
              assert r[1] == '>';
              assert r[..1] == ['<'];
            }
          }
        }
      }
    }
  }

  /** Positions `i` and `i + 1` of `s` both hold white space. */
  predicate DoubleSpaceAt(s: string, i: int)
    requires 0 <= i < |s| - 1
  {
    IsSpace(s[i]) && IsSpace(s[i + 1])
  }

  /** No two white-space characters are adjacent, and the only white space is the plain space. */
  predicate Collapsed(s: string)
  {
    && (forall i :: 0 <= i < |s| && IsSpace(s[i]) ==> s[i] == ' ')
    && (forall i :: 0 <= i < |s| - 1 ==> !DoubleSpaceAt(s, i))
  }

  /** `s.replace(/\s+/g, " ")`: every maximal run of white space becomes one space. */
  function CollapseSpaces(s: string): (r: string)
    ensures |r| <= |s|
    ensures '>' !in s ==> '>' !in r
    ensures s != [] && !IsSpace(s[0]) ==> r != [] && r[0] == s[0]
    ensures s != [] && IsSpace(s[0]) ==> r != [] && r[0] == ' '
    decreases |s|
  {
    if s == [] then ""
    else if IsSpace(s[0]) then
      var t := TrimStart(s);
      TrimStartSplits(s);
      assert |t| < |s|;
      " " + CollapseSpaces(t)
    else
      [s[0]] + CollapseSpaces(s[1..])
  }

  /** `CollapseSpaces` emits one character for the head of `s` (a space for a white-space run) and continues after it. */
  lemma CollapseStep(s: string)
    requires s != []
    ensures var t := if IsSpace(s[0]) then TrimStart(s) else s[1..];
            |t| < |s| && CollapseSpaces(s) == [if IsSpace(s[0]) then ' ' else s[0]] + CollapseSpaces(t)
            && (IsSpace(s[0]) ==> t == [] || !IsSpace(t[0]))
  {
    if IsSpace(s[0]) {
      assert TrimStart(s) == TrimStart(s[1..]);
    }
  }

  /** After `CollapseSpaces` the only white space is the plain space. */
  lemma {:induction false} CollapseOnlyPlainSpaces(s: string)
    ensures var r := CollapseSpaces(s); forall i :: 0 <= i < |r| && IsSpace(r[i]) ==> r[i] == ' '
    decreases |s|
  {
    if s != [] {
      var t := if IsSpace(s[0]) then TrimStart(s) else s[1..];
      CollapseStep(s);
      CollapseOnlyPlainSpaces(t);
      var r := CollapseSpaces(s);
      var c := CollapseSpaces(t);
      forall i | 0 <= i < |r| && IsSpace(r[i]) ensures r[i] == ' ' {
        if i > 0 {
          assert r[i] == c[i - 1];
        }
      }
    }
  }

  /** After `CollapseSpaces` no two white-space characters are adjacent. */
  lemma {:induction false} CollapseNoDoubleSpace(s: string)
    ensures var r := CollapseSpaces(s); forall i :: 0 <= i < |r| - 1 ==> !DoubleSpaceAt(r, i)
    decreases |s|
  {
    if s != [] {
      var t := if IsSpace(s[0]) then TrimStart(s) else s[1..];
      CollapseStep(s);
      CollapseNoDoubleSpace(t);
      var r := CollapseSpaces(s);
      var c := CollapseSpaces(t);
      assert IsSpace(s[0]) ==> c == [] || !IsSpace(c[0]);
      forall i | 0 <= i < |r| - 1 ensures !DoubleSpaceAt(r, i) {
        if i > 0 {
          assert r[i] == c[i - 1] && r[i + 1] == c[i];
          assert !DoubleSpaceAt(c, i - 1);
        }
      }
    }
  }

  /** After `CollapseSpaces` no two white-space characters are adjacent and every one is a plain space. */
  lemma CollapseIsCollapsed(s: string)
    ensures Collapsed(CollapseSpaces(s))
  {
    CollapseOnlyPlainSpaces(s);
    CollapseNoDoubleSpace(s);
  }

  /** The characters of `s` that are not white space. */
  function Visible(s: string): string
  {
    if s == [] then "" else (if IsSpace(s[0]) then "" else [s[0]]) + Visible(s[1..])
  }

  lemma {:induction false} VisibleOfSpaces(s: string)
    requires AllSpace(s)
    ensures Visible(s) == ""
  {
    if s != [] {
      VisibleOfSpaces(s[1..]);
    }
  }

  lemma {:induction false} VisibleConcat(a: string, b: string)
    ensures Visible(a + b) == Visible(a) + Visible(b)
  {
    if a == [] {
      assert a + b == b;
    } else {
      assert (a + b)[1..] == a[1..] + b;
      VisibleConcat(a[1..], b);
    }
  }

  /** Collapsing white space keeps every other character, in order. */
  lemma {:induction false} CollapseKeepsVisible(s: string)
    ensures Visible(CollapseSpaces(s)) == Visible(s)
    decreases |s|
  {
    if s != [] {
      if IsSpace(s[0]) {
        var t := TrimStart(s);
        TrimStartSplits(s);
        CollapseKeepsVisible(t);
        assert s == s[..|s| - |t|] + t;
        VisibleOfSpaces(s[..|s| - |t|]);
        VisibleConcat(s[..|s| - |t|], t);
        VisibleConcat(" ", CollapseSpaces(t));
      } else {
        CollapseKeepsVisible(s[1..]);
        VisibleConcat([s[0]], CollapseSpaces(s[1..]));
        assert s == [s[0]] + s[1..];
        VisibleConcat([s[0]], s[1..]);
      }
    }
  }

  /** Collapsing white space creates no tag. */
  lemma {:induction false} CollapseKeepsTagFree(s: string)
    requires TagFree(s)
    ensures TagFree(CollapseSpaces(s))
    decreases |s|
  {
    if s != [] {
      var r := CollapseSpaces(s);
      if IsSpace(s[0]) {
        var t := TrimStart(s);
        TrimStartSplits(s);
        assert forall i :: 0 <= i < |t| ==> t[i..] == s[|s| - |t| + i..];
        assert TagFree(t) by {
          forall i | 0 <= i < |t| ensures !TagAt(t, i) {
            assert !TagAt(s, |s| - |t| + i);
          }
        }
        CollapseKeepsTagFree(t);
        var c := CollapseSpaces(t);
        assert r == " " + c;
        forall i | 0 <= i < |r| ensures !TagAt(r, i) {
          if i > 0 {
            assert r[i..] == c[i - 1..];
            assert !TagAt(c, i - 1);
          }
        }
      } else {
        assert TagFree(s[1..]) by {
          forall i | 0 <= i < |s| - 1 ensures !TagAt(s[1..], i) {
            assert s[1..][i..] == s[i + 1..];
            assert !TagAt(s, i + 1);
          }
        }
        CollapseKeepsTagFree(s[1..]);
        var c := CollapseSpaces(s[1..]);
        assert r == [s[0]] + c;
        forall i | 0 <= i < |r| ensures !TagAt(r, i) {
          if i > 0 {
            assert r[i..] == c[i - 1..];
            assert !TagAt(c, i - 1);
          } else if s[0] == '<' {
            assert !TagAt(s, 0);
            var j := IndexOf(s, '>');
            assert s[0..] == s;
            if j == -1 {
              assert '>' !in s[1..];
              assert '>' !in r;
              assert r[0..] == r;
            } else {
              assert j == 1;
              assert c[0] == '>';
              assert r[0..] == r && r[1] == '>' && r[..1] == ['<'];
            }
          }
        }
      }
    }
  }

  /** Where `c` first occurs in a prefix of `t`. */
  lemma {:induction false} IndexOfPrefix(t: string, n: nat, c: char)
    requires n <= |t|
    ensures IndexOf(t[..n], c) == if 0 <= IndexOf(t, c) < n then IndexOf(t, c) else -1
    decreases n
  {
    if n > 0 && t[0] != c {
      assert t[..n][1..] == t[1..][..n - 1];
      IndexOfPrefix(t[1..], n - 1, c);
    }
  }

  /** Every contiguous piece of a tag-free string is tag-free. */
  lemma SliceKeepsTagFree(s: string, a: nat, b: nat)
    requires a <= b <= |s| && TagFree(s)
    ensures TagFree(s[a..b])
  {
    var x := s[a..b];
    forall i | 0 <= i < |x| ensures !TagAt(x, i) {
      assert !TagAt(s, a + i);
      assert x[i..] == s[a + i..][..b - a - i];
      IndexOfPrefix(s[a + i..], b - a - i, '>');
    }
  }

  /** Every contiguous piece of a collapsed string is collapsed. */
  lemma SliceKeepsCollapsed(s: string, a: nat, b: nat)
    requires a <= b <= |s| && Collapsed(s)
    ensures Collapsed(s[a..b])
  {
    var x := s[a..b];
    forall i | 0 <= i < |x| - 1 ensures !DoubleSpaceAt(x, i) {
      assert !DoubleSpaceAt(s, a + i);
    }
  }

  lemma SliceKeeps(s: string, a: nat, b: nat)
    requires a <= b <= |s| && TagFree(s) && Collapsed(s)
    ensures TagFree(s[a..b]) && Collapsed(s[a..b])
  {
    SliceKeepsTagFree(s, a, b);
    SliceKeepsCollapsed(s, a, b);
  }

  /** Trimming keeps a tag-free, collapsed string tag-free and collapsed. */
  lemma TrimKeeps(c: string)
    requires TagFree(c) && Collapsed(c)
    ensures TagFree(Trim(c)) && Collapsed(Trim(c))
  {
    var start := TrimStart(c);
    TrimStartSplits(c);
    TrimEndSplits(start);
    assert start == c[|c| - |start|..|c|];
    SliceKeeps(c, |c| - |start|, |c|);
    var trimmed := TrimEnd(start);
    assert trimmed == start[0..|trimmed|];
    SliceKeeps(start, 0, |trimmed|);
  }

  /** The fallback text: tags to spaces, white space collapsed, trimmed, cut to 300 characters. */
  function StrippedText(html: string): string
  {
    Take(Trim(CollapseSpaces(StripTags(html))), MaxSnippet)
  }

  /** Trimming and cutting a tag-free, collapsed text keeps it so, and leaves no leading white space. */
  lemma TrimTakeKeeps(c: string)
    requires TagFree(c) && Collapsed(c)
    ensures var r := Take(Trim(c), MaxSnippet);
      |r| <= MaxSnippet && TagFree(r) && Collapsed(r) && (r == [] || !IsSpace(r[0]))
  {
    TrimKeeps(c);
    var trimmed := Trim(c);
    var r := Take(trimmed, MaxSnippet);
    assert r == trimmed[0..|r|];
    SliceKeeps(trimmed, 0, |r|);
  }

  /** The fallback text holds no tag and no white-space run, starts with no white space and has at most 300 characters. */
  lemma StrippedTextShape(html: string)
    ensures var r := StrippedText(html);
      |r| <= MaxSnippet && TagFree(r) && Collapsed(r) && (r == [] || !IsSpace(r[0]))
  {
    var stripped := StripTags(html);
    StripTagsIsTagFree(html);
    CollapseKeepsTagFree(stripped);
    CollapseIsCollapsed(stripped);
    TrimTakeKeeps(CollapseSpaces(stripped));
  }

  /**
   * `extractHtmlSnippet(html)`: "" for an empty body; the trimmed capture of the
   * leftmost title match when there is one (it may trim to ""); otherwise the
   * stripped text, which holds no tag, no white-space run and at most 300
   * characters.
   */
  function ExtractHtmlSnippet(html: string): (r: string)
    ensures html == "" ==> r == ""
    ensures html != "" && FindTitle(html, 0).Some? ==> r == Trim(FindTitle(html, 0).value)
    ensures FindTitle(html, 0).None? ==> r == StrippedText(html)
    ensures FindTitle(html, 0).None? ==> |r| <= MaxSnippet && TagFree(r) && Collapsed(r) && (r == [] || !IsSpace(r[0]))
  {
    if html == "" then ""
    else match FindTitle(html, 0)
      case Some(t) => Trim(t)
      case None => StrippedTextShape(html); StrippedText(html)
  }
}
