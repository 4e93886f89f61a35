/** Decoded JSON documents as Python's json module hands them to the bot:
    an object becomes a `dict`, an array a `list`, a string a `str`. */
module Json {

  datatype Value =
    | JNull
    | JBool(b: bool)
    | JInt(i: int)
    | JString(s: string)
    | JArray(items: seq<Value>)
    | JObject(fields: map<string, Value>)

  /** Python can hash every decoded value except a list or a dict; testing an
      unhashable value for membership in a dict raises TypeError. */
  predicate Hashable(v: Value): (b: bool)
    ensures b <==> v.JNull? || v.JBool? || v.JInt? || v.JString?
  {
    !v.JArray? && !v.JObject?
  }

  /** A text made of decimal digits only. */
  predicate AllDigits(s: string) {
    forall k :: 0 <= k < |s| ==> '0' <= s[k] <= '9'
  }

  /** The number a text of decimal digits denotes, most significant first. */
  function DigitsValue(s: string): (n: nat)
    requires AllDigits(s)
  {
    if s == [] then 0
    else DigitsValue(s[..|s| - 1]) * 10 + (s[|s| - 1] as int - '0' as int)
  }

  /** The decimal digits of a natural number, most significant first, without
      leading zeros. */
  function NatToString(n: nat): (r: string)
    ensures |r| > 0 && AllDigits(r)
    ensures DigitsValue(r) == n
    ensures r == "0" || r[0] != '0'
    decreases n
  {
    var d := ('0' as int + n % 10) as char;
    if n < 10 then [d]
    else
      var r := NatToString(n / 10) + [d];
      assert r[..|r| - 1] == NatToString(n / 10);
      r
  }

  /** What Python's `str()` gives for an int: a minus sign for a negative
      number, then the digits of its magnitude. */
  function IntToString(i: int): (r: string)
    ensures |r| > 0
    ensures i < 0 <==> r[0] == '-'
    ensures i >= 0 ==> AllDigits(r) && DigitsValue(r) == i
    ensures i < 0 ==> AllDigits(r[1..]) && DigitsValue(r[1..]) == -i
    ensures i >= 0 ==> r == "0" || r[0] != '0'
    ensures i < 0 ==> |r| >= 2 && r[1] != '0'
  {
    if i < 0 then
      var r := "-" + NatToString(-i);
      assert r[1..] == NatToString(-i);
      r
    else NatToString(i)
  }

  /** What an f-string placeholder renders for a decoded value: `str()` of it.
      A list or a dict is rendered as a fixed placeholder. */
  function Str(v: Value): (r: string)
    ensures v.JString? ==> r == v.s
    ensures v.JInt? ==> r == IntToString(v.i)
    ensures v.JNull? ==> r == "None"
    ensures v.JBool? ==> r == (if v.b then "True" else "False")
  {
    match v
    case JNull => "None"
    case JBool(b) => if b then "True" else "False"
    case JInt(i) => IntToString(i)
    case JString(s) => s
    case JArray(_) => "[...]"
    case JObject(_) => "{...}"
  }
}
