/**
 * The JavaScript values the client and the proxy rewriter handle: what
 * `JSON.parse` produces, plus `undefined` (the value of a missing property).
 * Numbers are integers here. Also: property reads, falsiness, `typeof`, and the
 * string conversion `String(v)` that template literals apply.
 */
module JsValue {
  import opened Wrappers
  import Text

  datatype Value =
    | Undefined
    | Null
    | Bool(b: bool)
    | Num(n: int)
    | Str(s: string)
    | Arr(items: seq<Value>)
    | Obj(fields: seq<(string, Value)>)

  /** The falsy values of JavaScript within this model: undefined, null, false, 0 and "". */
  predicate Falsy(v: Value)
  {
    v.Undefined? || v.Null? || v == Bool(false) || v == Num(0) || v == Str("")
  }

  /** `typeof v === "object"`: null, arrays and plain objects. */
  predicate IsObjectType(v: Value)
  {
    v.Null? || v.Arr? || v.Obj?
  }

  /** The names of `fields`, in order. */
  function Keys(fields: seq<(string, Value)>): (r: seq<string>)
    ensures |r| == |fields|
    ensures forall i :: 0 <= i < |fields| ==> r[i] == fields[i].0
  {
    seq(|fields|, i requires 0 <= i < |fields| => fields[i].0)
  }

  /**
   * The value of the first field named `key`. `JSON.parse` keeps the last of
   * repeated keys instead; the objects the client and the rewriter read come
   * from `JSON.parse` and so never repeat a key, where first and last agree.
   */
  function Lookup(fields: seq<(string, Value)>, key: string): (r: Option<Value>)
    ensures r.None? <==> key !in Keys(fields)
    ensures r.Some? ==> exists i :: 0 <= i < |fields| && fields[i] == (key, r.value) && key !in Keys(fields[..i])
  {
    if fields == [] then None
    else if fields[0].0 == key then
      assert fields[0] == (key, fields[0].1) && Keys(fields[..0]) == [];
      Some(fields[0].1)
    else
      var r := Lookup(fields[1..], key);
      assert Keys(fields) == [fields[0].0] + Keys(fields[1..]);
      if r.Some? then
        var i :| 0 <= i < |fields[1..]| && fields[1..][i] == (key, r.value) && key !in Keys(fields[1..][..i]);
        assert fields[i + 1] == (key, r.value);
        assert Keys(fields[..i + 1]) == [fields[0].0] + Keys(fields[1..][..i]);
        r
      else r
  }

  /**
   * The property read `v.key`: None stands for the TypeError thrown when
   * `v` is null or undefined; a missing property reads as undefined. Only the
   * own properties of objects are modelled (the client reads `code`,
   * `message` and `data`, which no prototype defines).
   */
  function Read(v: Value, key: string): (r: Option<Value>)
    ensures r.None? <==> v.Undefined? || v.Null?
    ensures v.Obj? && key !in Keys(v.fields) ==> r == Some(Undefined)
    ensures v.Obj? && key in Keys(v.fields) ==> r == Lookup(v.fields, key)
    ensures !v.Obj? && r.Some? ==> r == Some(Undefined)
  {
    match v
    case Undefined => None
    case Null => None
    case Obj(fields) => if key in Keys(fields) then Lookup(fields, key) else Some(Undefined)
    case _ => Some(Undefined)
  }

  /** The decimal digit for `d`. */
  function DigitChar(d: nat): (c: char)
    requires d < 10
    ensures '0' <= c <= '9' && c as int - '0' as int == d
  {
    (d + '0' as int) as char
  }

  predicate IsDigit(c: char)
  {
    '0' <= c <= '9'
  }

  predicate AllDigits(s: string)
  {
    forall i :: 0 <= i < |s| ==> IsDigit(s[i])
  }

  /** The decimal numeral of `n`, without leading zeros. */
  function NatToDecimal(n: nat): (r: string)
    ensures r != [] && AllDigits(r)
    ensures r[0] == '0' ==> n == 0 && r == "0"
    decreases n
  {
    if n < 10 then [DigitChar(n)] else NatToDecimal(n / 10) + [DigitChar(n % 10)]
  }

  /** The number a string of decimal digits denotes. */
  function DecimalValue(s: string): nat
    requires AllDigits(s)
  {
    if s == [] then 0 else DecimalValue(s[..|s| - 1]) * 10 + (s[|s| - 1] as int - '0' as int)
  }

  /** Reading back a numeral gives the number it was written from. */
  lemma {:induction false} DecimalRoundTrip(n: nat)
    ensures DecimalValue(NatToDecimal(n)) == n
    decreases n
  {
    if n >= 10 {
      var s := NatToDecimal(n / 10) + [DigitChar(n % 10)];
      assert s[..|s| - 1] == NatToDecimal(n / 10);
      DecimalRoundTrip(n / 10);
    }
  }

  /** Writing out the value of a numeral without leading zeros gives it back. */
  lemma {:induction false} DecimalCanonical(s: string)
    requires s != [] && AllDigits(s) && (s[0] == '0' ==> |s| == 1)
    ensures NatToDecimal(DecimalValue(s)) == s
    decreases |s|
  {
    var last := s[|s| - 1] as int - '0' as int;
    if |s| == 1 {
    } else {
      var init := s[..|s| - 1];
      assert init[0] == s[0];
      DecimalCanonical(init);
      DecimalPositive(init);
      assert DecimalValue(s) == DecimalValue(init) * 10 + last;
      assert DecimalValue(s) / 10 == DecimalValue(init) && DecimalValue(s) % 10 == last;
      assert s == init + [s[|s| - 1]];
    }
  }

  lemma {:induction false} DecimalPositive(s: string)
    requires s != [] && AllDigits(s) && s[0] != '0'
    ensures DecimalValue(s) > 0
    decreases |s|
  {
    if |s| > 1 {
      var init := s[..|s| - 1];
      assert init[0] == s[0];
      DecimalPositive(init);
    }
  }

  /** `String(n)` for an integer. */
  function IntToString(n: int): (r: string)
    ensures r != []
    ensures n >= 0 ==> r == NatToDecimal(n)
    ensures n < 0 ==> r == "-" + NatToDecimal(-n)
  {
    if n < 0 then "-" + NatToDecimal(-n) else NatToDecimal(n)
  }

  /** The integer a numeral denotes: optional `-`, then at least one digit. */
  function IntValue(s: string): (r: Option<int>)
  {
    if s != [] && s[0] == '-' && |s| > 1 && AllDigits(s[1..]) then Some(0 - DecimalValue(s[1..]) as int)
    else if s != [] && AllDigits(s) then Some(DecimalValue(s))
    else None
  }

  /** Reading `String(n)` back gives `n`, for negative numbers too; so distinct integers print differently. */
  lemma IntToStringRoundTrip(n: int)
    ensures IntValue(IntToString(n)) == Some(n)
  {
    if n < 0 {
      var s := IntToString(n);
      assert s[1..] == NatToDecimal(-n);
      DecimalRoundTrip(-n);
    } else {
      DecimalRoundTrip(n);
      assert NatToDecimal(n)[0] != '-';
    }
  }

  /**
   * `String(v)`: booleans as words, numbers in decimal, arrays as their
   * elements joined by "," (null and undefined elements as ""), plain
   * objects as "[object Object]".
   */
  function ToString(v: Value): (r: string)
    ensures v.Str? ==> r == v.s
    ensures v.Num? ==> r == IntToString(v.n)
    ensures v.Obj? ==> r == "[object Object]"
    ensures v.Undefined? ==> r == "undefined"
    ensures v.Null? ==> r == "null"
    ensures v.Bool? ==> r == if v.b then "true" else "false"
    decreases v, 0
  {
    match v
    case Undefined => "undefined"
    case Null => "null"
    case Bool(b) => if b then "true" else "false"
    case Num(n) => IntToString(n)
    case Str(s) => s
    case Arr(items) => Text.Join(seq(|items|, i requires 0 <= i < |items| => ElementText(items[i])), ",")
    case Obj(_) => "[object Object]"
  }

  /** How `String` writes one element of an array: null and undefined as "". */
  function ElementText(v: Value): string
    decreases v, 1
  {
    if v.Undefined? || v.Null? then "" else ToString(v)
  }

  /**
   * `String(v)` of an array is `Array.prototype.join(",")`: the empty array
   * gives "", one element gives its text, and a longer array gives the first
   * element's text, a comma, and the text of the rest. A number reads back as
   * itself.
   */
  lemma ToStringFacts(items: seq<Value>, n: int)
    ensures ToString(Arr([])) == ""
    ensures |items| == 1 ==> ToString(Arr(items)) == ElementText(items[0])
    ensures |items| > 1 ==> ToString(Arr(items)) == ElementText(items[0]) + "," + ToString(Arr(items[1..]))
    ensures IntValue(ToString(Num(n))) == Some(n)
  {
    IntToStringRoundTrip(n);
    if |items| > 1 {
      var texts := seq(|items|, i requires 0 <= i < |items| => ElementText(items[i]));
      var rest := seq(|items[1..]|, i requires 0 <= i < |items[1..]| => ElementText(items[1..][i]));
      assert texts == [texts[0]] + rest;
      Text.JoinCons(texts[0], rest, ",");
      assert ToString(Arr(items)) == Text.Join(texts, ",");
      assert ToString(Arr(items[1..])) == Text.Join(rest, ",");
    }
  }
}
