/**
 * JSON values as Python's `json.loads` returns them, and the Python
 * built-ins the routers apply to them: `dict.get`, truthiness, `str()`,
 * `int()` and `float()`.
 *
 * A float is kept as the literal it was read from. What `float()` makes
 * of a literal is a `FloatValue`: an exact decimal number, an infinity or
 * NaN; its binary rounding is not modelled.
 */
module PyJson {
  import opened Wrappers
  import opened PyText

  datatype Value =
    | Null
    | Bool(b: bool)
    | Int(i: int)
    | Float(lit: string)
    | Str(s: string)
    | Arr(items: seq<Value>)
    | Obj(fields: seq<Field>)

  /** One key of a JSON object, in document order. */
  datatype Field = Field(key: string, val: Value)

  predicate HasKey(fields: seq<Field>, key: string) {
    exists i :: 0 <= i < |fields| && fields[i].key == key
  }

  /** `d.get(key)`; with a repeated key the last one wins, as in `json.loads`. */
  function Get(fields: seq<Field>, key: string): (r: Option<Value>)
    ensures r.Some? <==> HasKey(fields, key)
    ensures r.Some? ==> exists i :: 0 <= i < |fields| && fields[i] == Field(key, r.value)
  {
    if fields == [] then None
    else if fields[|fields| - 1].key == key then Some(fields[|fields| - 1].val)
    else
      var r := Get(fields[..|fields| - 1], key);
      assert forall i :: 0 <= i < |fields| - 1 ==> fields[..|fields| - 1][i] == fields[i];
      r
  }

  /** `d.get(key, default)` */
  function GetOr(fields: seq<Field>, key: string, default: Value): Value {
    match Get(fields, key)
    case Some(v) => v
    case None => default
  }

  /** `d.get(key)` where a stored null and a missing key are the same `None`. */
  predicate IsNoneAt(fields: seq<Field>, key: string) {
    GetOr(fields, key, Null) == Null
  }

  /** What `float()` reads: mant × 10^scale with its sign, an infinity, or NaN. */
  datatype FloatValue =
    | Finite(neg: bool, mant: nat, scale: int)
    | Infinite(neg: bool)
    | NotANumber

  function Pow10(n: nat): (r: nat)
    ensures r >= 1
  {
    if n == 0 then 1 else 10 * Pow10(n - 1)
  }

  /**
   * The digits of a float without its exponent, as (the number they
   * denote, how many of them follow the point): digit groups with at most
   * one point and at least one digit, as in "1", "1.", ".5" or "1_0.2_5".
   */
  function Mantissa(w: string): (r: Option<(nat, nat)>) {
    match IndexOf(w, {'.'}, 0)
    case None => if DigitGroups(w) then Some((GroupsValue(w), 0)) else None
    case Some(p) =>
      var a := w[..p];
      var b := w[p + 1..];
      if (a == [] && b == []) || (a != [] && !DigitGroups(a)) || (b != [] && !DigitGroups(b)) then None
      else
        var x := if a == [] then 0 else GroupsValue(a);
        var y := if b == [] then 0 else GroupsValue(b);
        Some((x * Pow10(DigitCount(b)) + y, DigitCount(b)))
  }

  /** An exponent: an optional sign and digit groups, with no whitespace. */
  function Exponent(x: string): Option<int> {
    var u := Unsigned(x);
    if DigitGroups(u) then Some(SignOf(x) * GroupsValue(u)) else None
  }

  /** A mantissa and the power of ten it is scaled by, once its point is accounted for. */
  function Scaled(w: string, e: int): Option<(nat, int)> {
    match Mantissa(w)
    case None => None
    case Some(mf) => Some((mf.0, e - mf.1))
  }

  /** An unsigned number: a mantissa, then an optional exponent after "e" or "E". */
  function Numeral(u: string): Option<(nat, int)> {
    match IndexOf(u, {'e', 'E'}, 0)
    case None => Scaled(u, 0)
    case Some(k) =>
      match Exponent(u[k + 1..])
      case None => None
      case Some(e) => Scaled(u[..k], e)
  }

  /**
   * `float(s)`: surrounding whitespace, an optional sign, then "inf",
   * "infinity" or "nan" in any letter case, or a numeral. None where
   * Python raises ValueError.
   */
  function ParseFloat(s: string): Option<FloatValue> {
    var t := Strip(s);
    var u := Unsigned(t);
    if LowerIs(u, "inf") || LowerIs(u, "infinity") then Some(Infinite(SignOf(t) < 0))
    else if LowerIs(u, "nan") then Some(NotANumber)
    else match Numeral(u)
      case None => None
      case Some(ms) => Some(Finite(SignOf(t) < 0, ms.0, ms.1))
  }

  /** `float(s)` succeeds. */
  predicate IsFloatLiteral(s: string) {
    ParseFloat(s).Some?
  }

  /** `int(x)` for a finite float: truncation toward zero. */
  function Trunc(x: FloatValue): int
    requires x.Finite?
  {
    var magnitude := if x.scale >= 0 then x.mant * Pow10(x.scale) else x.mant / Pow10(-x.scale);
    if x.neg then -magnitude else magnitude
  }

  /** `int(v)` raises OverflowError: `v` is an infinite float. */
  predicate IntOverflows(v: Value) {
    v.Float? && ParseFloat(v.lit).Some? && ParseFloat(v.lit).value.Infinite?
  }

  /** Lower-casing keeps a leading digit, so such a string is none of the special words. */
  lemma NotSpecialWord(u: string)
    requires |u| > 0 && IsDigit(u[0])
    ensures !LowerIs(u, "inf") && !LowerIs(u, "infinity") && !LowerIs(u, "nan")
  {
  }

  /** Digit groups hold no point and no exponent marker, and read as their own mantissa. */
  lemma GroupsMantissa(u: string)
    requires DigitGroups(u)
    ensures IndexOf(u, {'e', 'E'}, 0) == None
    ensures Mantissa(u) == Some((GroupsValue(u), 0))
  {
    GroupsChars(u);
  }

  /** `float()` accepts every string `int()` accepts, and `int()` of that float gives the same number. */
  lemma IntStringIsFloat(s: string)
    requires ParseInt(s).Some?
    ensures ParseFloat(s).Some? && ParseFloat(s).value.Finite?
    ensures ParseFloat(s).value.scale == 0 && Trunc(ParseFloat(s).value) == ParseInt(s).value
  {
    var u := Unsigned(Strip(s));
    GroupsChars(u);
    NotSpecialWord(u);
    GroupsMantissa(u);
  }

  /** A digit string is a mantissa with nothing after the point. */
  lemma DigitsMantissa(a: string)
    requires AllDigits(a)
    ensures DigitGroups(a) && Mantissa(a) == Some((DigitsValue(a), 0))
  {
    DigitsAreGroups(a);
    GroupsMantissa(a);
  }

  /** Digits, "e" and digits: the numeral is the first digits scaled up by the second. */
  lemma ExponentNumeral(a: string, b: string)
    requires AllDigits(a) && AllDigits(b)
    ensures Numeral(a + "e" + b) == Some((DigitsValue(a), DigitsValue(b) as int))
  {
    var u := a + "e" + b;
    assert u[..|a|] == a && u[|a| + 1..] == b && u[|a|] == 'e';
    DigitsMantissa(a);
    DigitsAreGroups(b);
    UnsignedDigits(b);
    assert forall j :: 0 <= j < |a| ==> u[j] == a[j] && u[j] !in {'e', 'E'};
    IndexOfAt(u, {'e', 'E'}, 0, |a|);
  }

  /** An exponent scales the mantissa: `float("2e3")` is 2 × 10^3, and `int()` of it is 2000. */
  lemma FloatWithExponent(a: string, b: string)
    requires AllDigits(a) && AllDigits(b)
    ensures ParseFloat(a + "e" + b) == Some(Finite(false, DigitsValue(a), DigitsValue(b)))
    ensures PyInt(Float(a + "e" + b)) == Some(DigitsValue(a) * Pow10(DigitsValue(b)))
  {
    var u := a + "e" + b;
    assert u[0] == a[0] && u[|u| - 1] == b[|b| - 1];
    ExponentNumeral(a, b);
    PlainLiteral(u);
  }

  /** The digits of a digit string stay below the next power of ten. */
  lemma {:induction false} DigitsBelowPow10(b: string)
    requires DigitsOnly(b)
    ensures DigitsValue(b) < Pow10(|b|)
    decreases |b|
  {
    if b != [] {
      DigitsBelowPow10(b[..|b| - 1]);
    }
  }

  /** `(x * p + y) / p == x` for a remainder below p. */
  lemma DivideOut(x: nat, y: nat, p: nat)
    requires y < p
    ensures (x * p + y) / p == x
  {
    var z := x * p + y;
    var q, r := z / p, z % p;
    assert q * p + r == x * p + y;
    var d := q - x;
    assert d * p == y - r by {
      assert d * p == q * p - x * p;
    }
  }

  /** Digits, a point and digits: the mantissa counts the digits after the point. */
  lemma PointMantissa(a: string, b: string)
    requires AllDigits(a) && AllDigits(b)
    ensures Mantissa(a + "." + b) == Some((DigitsValue(a) * Pow10(|b|) + DigitsValue(b), |b|))
  {
    var u := a + "." + b;
    assert u[..|a|] == a && u[|a| + 1..] == b && u[|a|] == '.';
    assert forall j :: 0 <= j < |a| ==> u[j] == a[j] && u[j] !in {'.'};
    IndexOfAt(u, {'.'}, 0, |a|);
    DigitsAreGroups(a);
    DigitsAreGroups(b);
    assert DigitCount(b) == |b|;
    var x, y := GroupsValue(a), GroupsValue(b);
    assert x == DigitsValue(a) && y == DigitsValue(b);
    assert Mantissa(u) == Some((x * Pow10(DigitCount(b)) + y, DigitCount(b)));
  }

  /** Digits around a point leave no exponent marker. */
  lemma PointNoExponent(a: string, b: string)
    requires AllDigits(a) && AllDigits(b)
    ensures IndexOf(a + "." + b, {'e', 'E'}, 0) == None
  {
    var u := a + "." + b;
    forall j | 0 <= j < |u|
      ensures u[j] !in {'e', 'E'}
    {
      if j < |a| {
        assert u[j] == a[j];
      } else if j > |a| {
        assert u[j] == b[j - |a| - 1];
      }
    }
  }

  /** A literal with no sign and no padding reads as its numeral. */
  lemma PlainLiteral(u: string)
    requires |u| > 0 && IsDigit(u[0]) && IsDigit(u[|u| - 1])
    requires Numeral(u).Some?
    ensures ParseFloat(u).Some? && ParseFloat(u).value.Finite? && !ParseFloat(u).value.neg
    ensures ParseFloat(u).value.mant == Numeral(u).value.0 && ParseFloat(u).value.scale == Numeral(u).value.1
  {
    StripFixed(u);
    UnsignedDigits(u);
    NotSpecialWord(u);
  }

  /** Without an exponent, the scale is minus the number of digits after the point. */
  lemma NoExponentNumeral(u: string)
    requires IndexOf(u, {'e', 'E'}, 0) == None && Mantissa(u).Some?
    ensures Numeral(u).Some? && Numeral(u).value.0 == Mantissa(u).value.0
    ensures Numeral(u).value.1 == -(Mantissa(u).value.1 as int)
  {
  }

  /** Digits, a point and digits: a numeral scaled down by the digits after the point. */
  lemma PointNumeral(a: string, b: string)
    requires AllDigits(a) && AllDigits(b)
    ensures Numeral(a + "." + b).Some?
    ensures Numeral(a + "." + b).value.0 == DigitsValue(a) * Pow10(|b|) + DigitsValue(b)
    ensures Numeral(a + "." + b).value.1 == -(|b| as int)
  {
    PointNoExponent(a, b);
    PointMantissa(a, b);
    NoExponentNumeral(a + "." + b);
  }

  /** Truncating whole × 10^k + frac over 10^k drops the fraction. */
  lemma TruncDropsFraction(x: FloatValue, whole: nat, frac: nat, k: nat)
    requires x.Finite? && !x.neg && x.scale == -(k as int)
    requires frac < Pow10(k) && x.mant == whole * Pow10(k) + frac
    ensures Trunc(x) == whole
  {
    DivideOut(whole, frac, Pow10(k));
  }

  /** `int()` of a float with a fractional part drops that part: `int(float("12.75")) == 12`. */
  lemma FloatWithPoint(a: string, b: string)
    requires AllDigits(a) && AllDigits(b)
    ensures ParseFloat(a + "." + b).Some? && ParseFloat(a + "." + b).value.Finite?
    ensures ParseFloat(a + "." + b).value.mant == DigitsValue(a) * Pow10(|b|) + DigitsValue(b)
    ensures ParseFloat(a + "." + b).value.scale == -(|b| as int)
    ensures PyInt(Float(a + "." + b)) == Some(DigitsValue(a))
  {
    var u := a + "." + b;
    assert u[0] == a[0] && u[|u| - 1] == b[|b| - 1];
    PointNumeral(a, b);
    PlainLiteral(u);
    DigitsBelowPow10(b);
    TruncDropsFraction(ParseFloat(u).value, DigitsValue(a), DigitsValue(b), |b|);
  }

  /**
   * The special words, in any letter case and after an optional sign:
   * "nan" converts but is no integer; "inf" and "infinity" convert to an
   * infinity of that sign, which overflows `int()`; both are truthy.
   */
  lemma FloatSpecialWords(s: string)
    ensures Lower(Unsigned(Strip(s))) == "nan" ==>
      ParseFloat(s) == Some(NotANumber) && PyInt(Float(s)) == None && Truthy(Float(s))
    ensures Lower(Unsigned(Strip(s))) in {"inf", "infinity"} ==>
      && ParseFloat(s) == Some(Infinite(SignOf(Strip(s)) < 0))
      && IntOverflows(Float(s)) && PyInt(Float(s)) == None && Truthy(Float(s))
  {
    var u := Unsigned(Strip(s));
    LowerIsLower(u, "nan");
    LowerIsLower(u, "inf");
    LowerIsLower(u, "infinity");
  }

  /** Python truthiness: `bool(v)`. */
  predicate Truthy(v: Value) {
    match v
    case Null => false
    case Bool(b) => b
    case Int(i) => i != 0
    case Float(lit) => !(ParseFloat(lit).Some? && ParseFloat(lit).value.Finite? && ParseFloat(lit).value.mant == 0)
    case Str(s) => s != ""
    case Arr(items) => items != []
    case Obj(fields) => fields != []
  }

  /**
   * `str(v)`. Exact for None, booleans, integers and strings; a float is
   * rendered by its stripped literal and a container by a placeholder.
   */
  function PyStr(v: Value): string {
    match v
    case Null => "None"
    case Bool(b) => if b then "True" else "False"
    case Int(i) => IntToString(i)
    case Float(lit) => Strip(lit)
    case Str(s) => s
    case Arr(items) => if items == [] then "[]" else "[...]"
    case Obj(fields) => if fields == [] then "{}" else "{...}"
  }

  /**
   * `int(v)`; None when Python raises: ValueError or TypeError, or
   * OverflowError for an infinite float (`IntOverflows`).
   */
  function PyInt(v: Value): Option<int> {
    match v
    case Null => None
    case Bool(b) => Some(if b then 1 else 0)
    case Int(i) => Some(i)
    case Float(lit) => if ParseFloat(lit).Some? && ParseFloat(lit).value.Finite? then Some(Trunc(ParseFloat(lit).value)) else None
    case Str(s) => ParseInt(s)
    case Arr(_) => None
    case Obj(_) => None
  }

  /** `int(v or 0)`: a falsy value counts as 0. */
  function IntOrZero(v: Value): Option<int> {
    if Truthy(v) then PyInt(v) else Some(0)
  }

  /** `float(str(v).replace(',', '.'))` succeeds: how prices are read. */
  predicate PriceParses(v: Value) {
    IsFloatLiteral(ReplaceChar(PyStr(v), ',', '.'))
  }
}
