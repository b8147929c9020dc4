/**
  The dynamically typed values that flow through the paper-format code: fields of
  the paper-format record and `data-report-*` attributes read from the report
  template. Only the three things the code does with them are modelled: Python
  truthiness (`if v`, `v or w`), comparison with `True`, and `f"{v}"` rendering.
 */
module PyValues {

  /**
    A Python value. A float is carried by its `repr`, which Python renders
    verbatim in an f-string; Python's `repr` is canonical, so the only zero
    floats are `0.0` and `-0.0` and the only float equal to `True` is `1.0`.
   */
  datatype PyValue =
    | PyNone
    | PyBool(b: bool)
    | PyInt(i: int)
    | PyFloat(repr: string)
    | PyStr(s: string)

  /** Python truthiness. */
  predicate Truthy(v: PyValue)
  {
    match v
    case PyNone => false
    case PyBool(b) => b
    case PyInt(i) => i != 0
    case PyFloat(repr) => repr != "0.0" && repr != "-0.0"
    case PyStr(s) => |s| > 0
  }

  /** Python's `a or b`: `a` when it is truthy, otherwise `b`. */
  function Or(a: PyValue, b: PyValue): (r: PyValue)
    ensures Truthy(a) ==> r == a
    ensures !Truthy(a) ==> r == b
    ensures Truthy(r) <==> Truthy(a) || Truthy(b)
  {
    if Truthy(a) then a else b
  }

  /** Python's `v == True`: `True`, the integer 1 and the float 1.0. */
  predicate EqualsTrue(v: PyValue)
  {
    v == PyBool(true) || v == PyInt(1) || v == PyFloat("1.0")
  }

  /** A dictionary of attribute values, and its `.get(key)`. */
  type Dict = map<string, PyValue>

  function Get(d: Dict, key: string): (r: PyValue)
    ensures key in d ==> r == d[key]
    ensures key !in d ==> r == PyNone
  {
    if key in d then d[key] else PyNone
  }

  /** `f"{v}"`. */
  function Render(v: PyValue): string
  {
    match v
    case PyNone => "None"
    case PyBool(b) => if b then "True" else "False"
    case PyInt(i) => IntToDecimal(i)
    case PyFloat(repr) => repr
    case PyStr(s) => s
  }

  /** The decimal digit for 0..9. */
  function Digit(d: nat): (c: char)
    requires d < 10
    ensures '0' <= c <= '9' && DigitValue(c) == d
  {
    "0123456789"[d]
  }

  /** The value of a decimal digit character. */
  function DigitValue(c: char): nat
    requires '0' <= c <= '9'
  {
    c as int - '0' as int
  }

  predicate AllDigits(s: string)
  {
    forall i :: 0 <= i < |s| ==> '0' <= s[i] <= '9'
  }

  /** Python's `str(n)` for a natural number: decimal digits, no leading zero. */
  function NatToDecimal(n: nat): (r: string)
    ensures |r| > 0 && AllDigits(r)
    ensures |r| > 1 ==> r[0] != '0'
  {
    if n < 10 then [Digit(n)] else NatToDecimal(n / 10) + [Digit(n % 10)]
  }

  /** Reads a string of decimal digits back as a number. */
  function DecimalValue(s: string): nat
    requires AllDigits(s)
  {
    if |s| == 0 then 0 else 10 * DecimalValue(s[..|s| - 1]) + DigitValue(s[|s| - 1])
  }

  /** Rendering a number in decimal loses nothing: reading it back gives the number. */
  lemma {:induction false} DecimalRoundTrip(n: nat)
    ensures DecimalValue(NatToDecimal(n)) == n
  {
    if n >= 10 {
      DecimalRoundTrip(n / 10);
      var r := NatToDecimal(n);
      assert r[..|r| - 1] == NatToDecimal(n / 10);
    }
  }

  /** Python's `str(i)` for an integer. */
  function IntToDecimal(i: int): string
  {
    if i >= 0 then NatToDecimal(i) else "-" + NatToDecimal(-i)
  }
}
