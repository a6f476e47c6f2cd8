/** Python's `int(...)` on the values the scripts convert: decimal strings
    (JSON object keys) and JSON numbers. */
module Numbers {
  import opened Wrappers
  import opened Text
  import opened Json

  predicate AllDigits(s: string) {
    forall k :: 0 <= k < |s| ==> IsDigit(s[k])
  }

  function DecimalValue(s: string): nat
    requires AllDigits(s)
  {
    if s == [] then 0 else DecimalValue(s[..|s| - 1]) * 10 + (s[|s| - 1] as int - '0' as int)
  }

  /** An optional sign followed by one or more digits. */
  predicate IsIntLiteral(t: string) {
    (t != [] && (t[0] == '-' || t[0] == '+') && |t| > 1 && AllDigits(t[1..]))
    || (t != [] && AllDigits(t))
  }

  /** The value a literal denotes: the digits read in base 10, negated
      after a minus sign. */
  function LiteralValue(t: string): int
    requires IsIntLiteral(t)
  {
    if IsDigit(t[0]) then DecimalValue(t)
    else if t[0] == '-' then -(DecimalValue(t[1..]) as int)
    else DecimalValue(t[1..])
  }

  /** `int(s)` for a string: surrounding whitespace, an optional sign, then one
      or more digits; anything else raises ValueError. */
  function ParseInt(s: string): (r: Result<int>)
    ensures r.Ok? <==> IsIntLiteral(Strip(s))
    ensures r.Ok? ==> r.value == LiteralValue(Strip(s))
  {
    var t := Strip(s);
    if t != [] && (t[0] == '-' || t[0] == '+') then
      var d := t[1..];
      if d != [] && AllDigits(d) then Ok(if t[0] == '-' then -(DecimalValue(d) as int) else DecimalValue(d))
      else Err("invalid literal for int() with base 10")
    else if t != [] && AllDigits(t) then Ok(DecimalValue(t))
    else Err("invalid literal for int() with base 10")
  }

  function DigitChar(n: nat): (c: char)
    requires n < 10
    ensures IsDigit(c) && c as int - '0' as int == n
  {
    ('0' as int + n) as char
  }

  /** `str(n)` for a natural number. */
  function NatToString(n: nat): (s: string)
    ensures s != [] && AllDigits(s)
    ensures DecimalValue(s) == n
  {
    if n < 10 then [DigitChar(n)]
    else
      var s := NatToString(n / 10) + [DigitChar(n % 10)];
      assert s[..|s| - 1] == NatToString(n / 10);
      s
  }

  /** `str(i)`. */
  function IntToString(i: int): string {
    if i < 0 then "-" + NatToString(-i) else NatToString(i)
  }

  /** `int(str(i)) == i`. */
  lemma ParseShow(i: int)
    ensures ParseInt(IntToString(i)) == Ok(i)
  {
    var s := IntToString(i);
    if i < 0 {
      var d := NatToString(-i);
      assert s == "-" + d && s[1..] == d;
      assert !IsSpace(s[|s| - 1]) by { assert s[|s| - 1] == d[|d| - 1]; }
      StripTrimmed(s);
    } else {
      assert !IsSpace(s[0]) && !IsSpace(s[|s| - 1]);
      StripTrimmed(s);
    }
  }

  /** `int(x)` truncates a float toward zero. */
  function Truncate(x: real): (n: int)
    ensures x >= 0.0 ==> n as real <= x < n as real + 1.0
    ensures x < 0.0 ==> n as real - 1.0 < x <= n as real
  {
    if x >= 0.0 then x.Floor else -((-x).Floor)
  }

  /** `int(v)` for a JSON value: ints unchanged, floats truncated, booleans
      0 or 1, strings parsed; null, lists and objects raise TypeError. */
  function ToInt(v: Value): (r: Result<int>)
    ensures v.Int? ==> r == Ok(v.i)
    ensures v.Bool? ==> r == Ok(if v.b then 1 else 0)
    ensures v.Num? ==> r == Ok(Truncate(v.r))
    ensures v.Str? ==> r == ParseInt(v.s)
    ensures (v.Null? || v.List? || v.Object?) ==> r.Err?
  {
    match v
    case Int(i) => Ok(i)
    case Bool(b) => Ok(if b then 1 else 0)
    case Num(x) => Ok(Truncate(x))
    case Str(s) => ParseInt(s)
    case _ => Err("int() argument must be a string or a number")
  }
}
