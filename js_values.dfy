/**
 * The JavaScript value semantics the request handlers rely on: truthiness,
 * `??`, `||`, `String(v)`, `Number(v)`, `parseInt(s, 10)`, `trim`, and how
 * node-oracledb hands a JavaScript value to an Oracle NUMBER column.
 */
module JsValues {
  import opened Wrappers

  /** A value of a parsed JSON body, a query string or a route parameter.
      JSON numbers are restricted to integers. */
  datatype Value = Undefined | Null | Bool(b: bool) | Str(s: string) | Number(n: int)

  /** A JavaScript number produced by a conversion: an integer or NaN. */
  datatype Num = NaN | Finite(n: int)

  /** `!!v`: undefined, null, false, '' and 0 are falsy. */
  predicate Truthy(v: Value) {
    match v
    case Undefined => false
    case Null => false
    case Bool(b) => b
    case Str(s) => s != ""
    case Number(n) => n != 0
  }

  /** `a ?? b` */
  function Coalesce(a: Value, b: Value): Value {
    if a.Undefined? || a.Null? then b else a
  }

  /** `a || b` */
  function OrElse(a: Value, b: Value): Value {
    if Truthy(a) then a else b
  }

  /** The characters that `\s`, `String.prototype.trim` and `Number` treat as
      white space: the WhiteSpace and LineTerminator code points of ECMA-262. */
  predicate IsWhitespace(c: char) {
    || c == '\t' || c == '\n' || c == '\U{000B}' || c == '\U{000C}' || c == '\r'
    || c == ' ' || c == '\U{00A0}' || c == '\U{1680}'
    || ('\U{2000}' <= c <= '\U{200A}')
    || c == '\U{2028}' || c == '\U{2029}' || c == '\U{202F}' || c == '\U{205F}'
    || c == '\U{3000}' || c == '\U{FEFF}'
  }

  predicate IsDigit(c: char) {
    '0' <= c <= '9'
  }

  predicate AllDigits(s: string) {
    forall i :: 0 <= i < |s| ==> IsDigit(s[i])
  }

  function DigitValue(c: char): nat
    requires IsDigit(c)
  {
    (c as int) - ('0' as int)
  }

  function DigitChar(d: nat): (c: char)
    requires d < 10
    ensures IsDigit(c) && DigitValue(c) == d
  {
    (('0' as int) + d) as char
  }

  /** Decimal rendering of a natural number, without leading zeros. */
  function NatToString(n: nat): (r: string)
    ensures |r| >= 1 && AllDigits(r)
    decreases n
  {
    if n < 10 then [DigitChar(n)]
    else
      var prefix := NatToString(n / 10);
      assert AllDigits(prefix + [DigitChar(n % 10)]) by {
        assert forall i :: 0 <= i < |prefix| ==> (prefix + [DigitChar(n % 10)])[i] == prefix[i];
      }
      prefix + [DigitChar(n % 10)]
  }

  /** The value of a string of decimal digits. */
  function ParseDigits(s: string): nat
    requires AllDigits(s)
  {
    if s == [] then 0 else 10 * ParseDigits(s[..|s| - 1]) + DigitValue(s[|s| - 1])
  }

  /** `String(i)` for an integer. */
  function IntToString(i: int): string {
    if i < 0 then "-" + NatToString(-i) else NatToString(i)
  }

  /** `String(v)`, which is also what a template literal `${v}` and `v.toString()` produce. */
  function ToStr(v: Value): string {
    match v
    case Undefined => "undefined"
    case Null => "null"
    case Bool(b) => if b then "true" else "false"
    case Str(s) => s
    case Number(n) => IntToString(n)
  }

  /** `s.trimStart()` */
  function TrimStart(s: string): string {
    if s != [] && IsWhitespace(s[0]) then TrimStart(s[1..]) else s
  }

  /** `s.trimEnd()` */
  function TrimEnd(s: string): string {
    if s != [] && IsWhitespace(s[|s| - 1]) then TrimEnd(s[..|s| - 1]) else s
  }

  /** `trimStart` keeps the longest suffix that does not begin with white space. */
  lemma {:induction false} TrimStartSuffix(s: string)
    ensures |TrimStart(s)| <= |s| && TrimStart(s) == s[|s| - |TrimStart(s)|..]
    ensures forall i :: 0 <= i < |s| - |TrimStart(s)| ==> IsWhitespace(s[i])
    ensures TrimStart(s) == [] || !IsWhitespace(TrimStart(s)[0])
  {
    if s != [] && IsWhitespace(s[0]) {
      TrimStartSuffix(s[1..]);
      assert s[1..][|s[1..]| - |TrimStart(s)|..] == s[|s| - |TrimStart(s)|..];
    }
  }

  /** `trimEnd` keeps the longest prefix that does not end with white space. */
  lemma {:induction false} TrimEndPrefix(s: string)
    ensures |TrimEnd(s)| <= |s| && TrimEnd(s) == s[..|TrimEnd(s)|]
    ensures forall i :: |TrimEnd(s)| <= i < |s| ==> IsWhitespace(s[i])
    ensures TrimEnd(s) == [] || !IsWhitespace(TrimEnd(s)[|TrimEnd(s)| - 1])
  {
    if s != [] && IsWhitespace(s[|s| - 1]) {
      TrimEndPrefix(s[..|s| - 1]);
      assert s[..|s| - 1][..|TrimEnd(s)|] == s[..|TrimEnd(s)|];
    }
  }

  /** `s.trim()` */
  function Trim(s: string): string {
    TrimEnd(TrimStart(s))
  }

  /** `Number(s)` for a string: after trimming, '' is 0 and an optionally signed
      run of decimal digits is its value; anything else is NaN here (hexadecimal,
      exponent, fractional and Infinity literals are outside the model). */
  function StringToNumber(s: string): (r: Num)
    ensures Trim(s) == [] ==> r == Finite(0)
    ensures r.Finite? && r.n < 0 ==> Trim(s) != [] && Trim(s)[0] == '-'
    ensures r.Finite? && Trim(s) != [] ==> IsDigit(Trim(s)[|Trim(s)| - 1])
  {
    var t := Trim(s);
    if t == [] then Finite(0)
    else if (t[0] == '-' || t[0] == '+') && |t| > 1 && AllDigits(t[1..]) then
      Finite(if t[0] == '-' then -(ParseDigits(t[1..]) as int) else ParseDigits(t[1..]))
    else if AllDigits(t) then Finite(ParseDigits(t))
    else NaN
  }

  /** `Number(v)` */
  function ToNumber(v: Value): (r: Num)
    ensures v.Number? ==> r == Finite(v.n)
    ensures !Truthy(v) && !v.Undefined? ==> r == Finite(0)
    ensures NonZero(r) ==> Truthy(v)
    ensures r.NaN? ==> v.Undefined? || v.Str?
  {
    match v
    case Undefined => NaN
    case Null => Finite(0)
    case Bool(b) => Finite(if b then 1 else 0)
    case Str(s) => StringToNumber(s)
    case Number(n) => Finite(n)
  }

  /** `!Number(v)` is false: the number is neither NaN nor 0. */
  predicate NonZero(x: Num) {
    x.Finite? && x.n != 0
  }

  /** The length of the longest prefix of `s` made of decimal digits. */
  function DigitPrefixLength(s: string): (k: nat)
    ensures k <= |s| && AllDigits(s[..k])
    ensures k == |s| || !IsDigit(s[k])
  {
    if s != [] && IsDigit(s[0]) then
      var k := 1 + DigitPrefixLength(s[1..]);
      assert s[..k] == [s[0]] + s[1..][..k - 1];
      k
    else 0
  }

  /** `parseInt(s, 10)`: skip leading white space, read an optional sign and the
      longest run of digits after it; no digit at all is NaN. */
  function ParseInt10(s: string): (r: Num)
    ensures var t := TrimStart(s);
      var u := if t != [] && (t[0] == '-' || t[0] == '+') then t[1..] else t;
      r.NaN? <==> u == [] || !IsDigit(u[0])
    ensures r.Finite? && r.n < 0 ==> TrimStart(s) != [] && TrimStart(s)[0] == '-'
  {
    var t := TrimStart(s);
    var signed := t != [] && (t[0] == '-' || t[0] == '+');
    var u := if signed then t[1..] else t;
    var k := DigitPrefixLength(u);
    if k == 0 then NaN
    else Finite(if signed && t[0] == '-' then -(ParseDigits(u[..k]) as int) else ParseDigits(u[..k]))
  }

  /** A nullable Oracle NUMBER value. */
  datatype Cell = NullCell | NumCell(n: int)

  /** How node-oracledb and Oracle turn a bound JavaScript value into a NUMBER:
      undefined, null and '' become NULL (Oracle does not tell '' from NULL),
      a string is converted (modelled by `Number(s)`) and one that does not
      convert fails the statement with ORA-01722, which is None here. */
  function BindNumber(v: Value): Option<Cell> {
    match v
    case Undefined => Some(NullCell)
    case Null => Some(NullCell)
    case Bool(_) => None
    case Str(s) =>
      if s == "" then Some(NullCell)
      else (match StringToNumber(s)
            case NaN => None
            case Finite(n) => Some(NumCell(n)))
    case Number(n) => Some(NumCell(n))
  }

  /** A number computed in JavaScript and bound to a NUMBER parameter; NaN is
      taken to fail the statement. */
  function BindNum(x: Num): Option<int> {
    match x
    case NaN => None
    case Finite(n) => Some(n)
  }

  lemma {:induction false} ParseNatToString(n: nat)
    ensures ParseDigits(NatToString(n)) == n
    decreases n
  {
    if n >= 10 {
      var s := NatToString(n);
      assert s[..|s| - 1] == NatToString(n / 10);
      ParseNatToString(n / 10);
    }
  }

  /** Trimming leaves a rendered integer alone. */
  lemma TrimIntToString(i: int)
    ensures Trim(IntToString(i)) == IntToString(i)
    ensures TrimStart(IntToString(i)) == IntToString(i)
  {
    var s := IntToString(i);
    assert !IsWhitespace(s[0]);
    assert TrimStart(s) == s;
    assert !IsWhitespace(s[|s| - 1]);
  }

  /** `Number(String(i)) == i`: the decimal rendering reads back as the same integer. */
  lemma NumberOfIntToString(i: int)
    ensures StringToNumber(IntToString(i)) == Finite(i)
  {
    TrimIntToString(i);
    if i < 0 {
      assert IntToString(i)[1..] == NatToString(-i);
      ParseNatToString(-i);
    } else {
      ParseNatToString(i);
    }
  }

  /** `parseInt(String(i), 10) == i` */
  lemma ParseIntOfIntToString(i: int)
    ensures ParseInt10(IntToString(i)) == Finite(i)
  {
    TrimIntToString(i);
    var s := IntToString(i);
    if i < 0 {
      assert s[1..] == NatToString(-i);
      assert s[1..][..|s[1..]|] == s[1..];
      ParseNatToString(-i);
    } else {
      assert s[..|s|] == s;
      ParseNatToString(i);
    }
  }

  /** A digit run followed by a non-digit (or the end) is the run `parseInt` reads. */
  lemma {:induction false} DigitPrefixExact(u: string, j: nat)
    requires j <= |u| && AllDigits(u[..j])
    requires j == |u| || !IsDigit(u[j])
    ensures DigitPrefixLength(u) == j
  {
    if j > 0 {
      assert IsDigit(u[..j][0]);
      assert u[1..][..j - 1] == u[..j][1..];
      DigitPrefixExact(u[1..], j - 1);
    }
  }

  /** Where `Number(s)` reads a non-blank string as an integer, `parseInt(s, 10)`
      reads the same integer: trailing white space ends `parseInt`'s digit run. */
  lemma ParseIntAgreesWithNumber(s: string)
    requires Trim(s) != [] && StringToNumber(s).Finite?
    ensures ParseInt10(s) == StringToNumber(s)
  {
    var t0 := TrimStart(s);
    var t := Trim(s);
    TrimEndPrefix(t0);
    assert t0[..|t|] == t;
    assert t0[0] == t[0];
    if (t[0] == '-' || t[0] == '+') && |t| > 1 && AllDigits(t[1..]) {
      var u := t0[1..];
      assert u[..|t| - 1] == t[1..];
      if |t| < |t0| {
        assert u[|t| - 1] == t0[|t|];
        assert IsWhitespace(t0[|t|]);
      }
      DigitPrefixExact(u, |t| - 1);
    } else {
      assert AllDigits(t);
      if |t| < |t0| {
        assert IsWhitespace(t0[|t|]);
      }
      DigitPrefixExact(t0, |t|);
    }
  }

  /** Different integers render differently. */
  lemma IntToStringInjective(a: int, b: int)
    requires IntToString(a) == IntToString(b)
    ensures a == b
  {
    NumberOfIntToString(a);
    NumberOfIntToString(b);
  }
}
