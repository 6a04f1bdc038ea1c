/** The Python value `json.loads` produces from an API answer, and the text
    `str.format` produces from such a value. */
module Json {

  /** A decoded JSON value: `None`, `bool`, `int`, `str`, `list` or `dict`
      (a JSON object always decodes to a dict with string keys). */
  datatype Value =
    | Null
    | Bool(b: bool)
    | Int(i: int)
    | Str(s: string)
    | List(items: seq<Value>)
    | Object(fields: map<string, Value>)

  /** True when every character of `s` is a decimal digit. */
  predicate AllDigits(s: string) {
    forall k :: 0 <= k < |s| ==> '0' <= s[k] <= '9'
  }

  /** The number a string of decimal digits denotes, most significant first. */
  function DecimalValue(s: string): nat
    requires AllDigits(s)
  {
    if s == [] then 0 else DecimalValue(s[..|s| - 1]) * 10 + (s[|s| - 1] - '0') as nat
  }

  /** The number an optionally signed decimal text denotes. */
  function SignedValue(s: string): int
    requires |s| > 0 && (if s[0] == '-' then AllDigits(s[1..]) else AllDigits(s))
  {
    if s[0] == '-' then -(DecimalValue(s[1..]) as int) else DecimalValue(s)
  }

  /** Decimal digits of a natural number, most significant first, with no
      leading zero except in "0" itself: the text denotes `n`. */
  function NatText(n: nat): (r: string)
    ensures |r| > 0 && AllDigits(r)
    ensures DecimalValue(r) == n
    ensures r[0] == '0' ==> r == "0"
  {
    if n < 10 then ["0123456789"[n]]
    else
      var r := NatText(n / 10) + ["0123456789"[n % 10]];
      assert r[..|r| - 1] == NatText(n / 10);
      r
  }

  /** Python's `str()` of an `int`: a minus sign exactly for a negative number,
      then the digits of its magnitude; the text denotes `i`. */
  function IntText(i: int): (r: string)
    ensures |r| > 0
    ensures (r[0] == '-') <==> i < 0
    ensures if r[0] == '-' then AllDigits(r[1..]) else AllDigits(r)
    ensures SignedValue(r) == i
    ensures r[0] == '-' ==> |r| > 1 && r[1] != '0'
    ensures r[0] == '0' ==> r == "0"
  {
    if i < 0 then
      var r := "-" + NatText(-i);
      assert r[1..] == NatText(-i);
      r
    else NatText(i)
  }

  /** The text `'{name}'.format(name=v)` substitutes for `v`. For `None`,
      booleans, integers and strings this is Python's `str()`; a list or a dict
      is rendered by `containerStr`, which stands for Python's `repr` of it. */
  function Text(v: Value, containerStr: Value -> string): (r: string)
    ensures v.Null? ==> r == "None"
    ensures v.Bool? ==> r == (if v.b then "True" else "False")
    ensures v.Int? ==> |r| > 0 && (if r[0] == '-' then AllDigits(r[1..]) else AllDigits(r))
                       && SignedValue(r) == v.i
                       && (r[0] == '-' ==> |r| > 1 && r[1] != '0') && (r[0] == '0' ==> r == "0")
    ensures v.Str? ==> r == v.s
    ensures v.List? || v.Object? ==> r == containerStr(v)
  {
    match v
    case Null => "None"
    case Bool(b) => if b then "True" else "False"
    case Int(i) => IntText(i)
    case Str(s) => s
    case List(_) => containerStr(v)
    case Object(_) => containerStr(v)
  }
}
