/** The fragment of Python's runtime the decoders and converters rely on:
    dynamically typed values, the numeric tower (`bool` is a subclass of
    `int`), multiplication, `round`, `int()`, `float()`, `==` against a
    number, `str(int)`, `int(str)` and `str.lower`. Python floats are
    modelled as exact reals. */
module PyRuntime {
  import opened Results
  import opened PyDict

  /** A Python value as it flows through parse results and converter inputs. */
  datatype Value =
    | VNone
    | VBool(b: bool)
    | VInt(i: int)
    | VFloat(r: real)
    | VStr(s: string)
    | VList(items: seq<Value>)
    | VDict(entries: Dict<Value>)

  /** `isinstance(v, (int, float))`: true for bools as well. */
  predicate IsNumber(v: Value) {
    v.VBool? || v.VInt? || v.VFloat?
  }

  /** `isinstance(v, (int, float, bool, str))`. */
  predicate IsScalar(v: Value) {
    IsNumber(v) || v.VStr?
  }

  /** A number as YAML produces it for a `scale` key. */
  type Number = v: Value | IsNumber(v) witness VInt(0)

  /** The integer a bool or int stands for. */
  function IntValue(v: Value): int
    requires v.VBool? || v.VInt?
  {
    if v.VBool? then (if v.b then 1 else 0) else v.i
  }

  /** The mathematical value of a number. */
  function NumValue(v: Value): real
    requires IsNumber(v)
  {
    if v.VFloat? then v.r else IntValue(v) as real
  }

  /** `a * b` on numbers: an int (or bool) product stays an int, any float
      operand makes the product a float; a bool is never the result. */
  function Mul(a: Value, b: Value): (r: Value)
    requires IsNumber(a) && IsNumber(b)
    ensures IsNumber(r) && !r.VBool?
    ensures NumValue(r) == NumValue(a) * NumValue(b)
    ensures r.VFloat? <==> a.VFloat? || b.VFloat?
  {
    if a.VFloat? || b.VFloat? then VFloat(NumValue(a) * NumValue(b))
    else VInt(IntValue(a) * IntValue(b))
  }

  /** `v == 0`: true for `0`, `0.0` and `False`, false for every
      non-number (comparing with `==` never raises). */
  predicate EqualsZero(v: Value) {
    IsNumber(v) && NumValue(v) == 0.0
  }

  /** `v == n` for an int `n`. */
  predicate EqualsInt(v: Value, n: int) {
    IsNumber(v) && NumValue(v) == n as real
  }

  /** `int(x)` on a real: truncation toward zero. */
  function Trunc(x: real): (r: int)
    ensures x >= 0.0 ==> 0.0 <= r as real <= x < r as real + 1.0
    ensures x < 0.0 ==> r as real - 1.0 < x <= r as real <= 0.0
  {
    if x >= 0.0 then x.Floor else -((-x).Floor)
  }

  /** `int(v)` on a number; TypeError (None) for anything else. */
  function ToInt(v: Value): (r: Option<int>)
    ensures r.Some? <==> IsNumber(v)
    ensures r.Some? && !v.VFloat? ==> r.value as real == NumValue(v)
    ensures r.Some? && v.VFloat? ==> r.value == Trunc(v.r)
  {
    match v
    case VBool(_) => Some(IntValue(v))
    case VInt(i) => Some(i)
    case VFloat(x) => Some(Trunc(x))
    case _ => None
  }

  /** `float(v)` on a number; None for anything else. */
  function ToFloat(v: Value): (r: Option<real>)
    ensures r.Some? <==> IsNumber(v)
    ensures r.Some? ==> r.value == NumValue(v)
  {
    if IsNumber(v) then Some(NumValue(v)) else None
  }

  /** Rounding a real to the nearest integer, ties to the even neighbour
      (the rule Python's `round` follows). */
  function RoundToInt(s: real): (r: int)
    ensures -0.5 <= r as real - s <= 0.5
    ensures (r as real - s == 0.5 || s - r as real == 0.5) ==> r % 2 == 0
  {
    var f := s.Floor;
    var d := s - f as real;
    if d < 0.5 then f
    else if d > 0.5 then f + 1
    else if f % 2 == 0 then f
    else f + 1
  }

  /** The two properties of `RoundToInt` single out its result: any integer
      within half a unit that is even on a tie is that result. */
  lemma RoundToIntUnique(s: real, k: int)
    requires -0.5 <= k as real - s <= 0.5
    requires (k as real - s == 0.5 || s - k as real == 0.5) ==> k % 2 == 0
    ensures k == RoundToInt(s)
  {
  }

  /** x * 10^nd, one decimal shift at a time. */
  function ScaleBy(x: real, nd: nat): real
    decreases nd
  {
    if nd == 0 then x else ScaleBy(10.0 * x, nd - 1)
  }

  /** k * 10^-nd. */
  function Unscale(k: int, nd: nat): real {
    if nd == 0 then k as real else Unscale(k, nd - 1) / 10.0
  }

  lemma {:induction false} ScaleByMonotone(x: real, y: real, nd: nat)
    requires x <= y
    ensures ScaleBy(x, nd) <= ScaleBy(y, nd)
    decreases nd
  {
    if nd > 0 {
      ScaleByMonotone(10.0 * x, 10.0 * y, nd - 1);
    }
  }

  lemma {:induction false} ScaleByInjective(x: real, y: real, nd: nat)
    requires ScaleBy(x, nd) == ScaleBy(y, nd)
    ensures x == y
    decreases nd
  {
    if nd > 0 {
      ScaleByInjective(10.0 * x, 10.0 * y, nd - 1);
    }
  }

  lemma {:induction false} UnscaleDiv(k: int, nd: nat)
    ensures nd > 0 ==> Unscale(k, nd) * 10.0 == Unscale(k, nd - 1)
  {
  }

  /** Shifting `k * 10^-nd` back by `nd` digits gives `k`. */
  lemma {:induction false} ScaleUnscale(k: int, nd: nat)
    ensures ScaleBy(Unscale(k, nd), nd) == k as real
  {
    if nd > 0 {
      ScaleUnscale(k, nd - 1);
      assert 10.0 * Unscale(k, nd) == Unscale(k, nd - 1);
    }
  }

  /** A real with no fractional part. */
  predicate IsInt(y: real) {
    y.Floor as real == y
  }

  /** `x` is a multiple of 10^-nd. */
  predicate OnGrid(x: real, nd: nat) {
    IsInt(ScaleBy(x, nd))
  }

  /** `round(x, nd)` on a float, as exact arithmetic: the grid point of
      spacing 10^-nd nearest to `x`, ties to even. */
  function RoundHalfEven(x: real, nd: nat): real {
    Unscale(RoundToInt(ScaleBy(x, nd)), nd)
  }

  /** The result is on the grid and within half a grid step of `x`; on a
      tie it is the even grid point. */
  lemma RoundHalfEvenSpec(x: real, nd: nat)
    ensures OnGrid(RoundHalfEven(x, nd), nd)
    ensures -0.5 <= ScaleBy(RoundHalfEven(x, nd), nd) - ScaleBy(x, nd) <= 0.5
    ensures var k := ScaleBy(RoundHalfEven(x, nd), nd);
      (k - ScaleBy(x, nd) == 0.5 || ScaleBy(x, nd) - k == 0.5) ==> k.Floor % 2 == 0
  {
    ScaleUnscale(RoundToInt(ScaleBy(x, nd)), nd);
  }

  /** Rounding a value that is already on the grid leaves it unchanged. */
  lemma RoundOnGrid(x: real, nd: nat)
    requires OnGrid(x, nd)
    ensures RoundHalfEven(x, nd) == x
  {
    var k := ScaleBy(x, nd).Floor;
    RoundToIntUnique(ScaleBy(x, nd), k);
    ScaleUnscale(k, nd);
    ScaleByInjective(Unscale(k, nd), x, nd);
  }

  /** Rounding twice is rounding once. */
  lemma RoundIdempotent(x: real, nd: nat)
    ensures RoundHalfEven(RoundHalfEven(x, nd), nd) == RoundHalfEven(x, nd)
  {
    RoundHalfEvenSpec(x, nd);
    RoundOnGrid(RoundHalfEven(x, nd), nd);
  }

  lemma RoundToIntMonotone(s: real, t: real)
    requires s <= t
    ensures RoundToInt(s) <= RoundToInt(t)
  {
  }

  lemma {:induction false} UnscaleMonotone(j: int, k: int, nd: nat)
    requires j <= k
    ensures Unscale(j, nd) <= Unscale(k, nd)
  {
    if nd > 0 {
      UnscaleMonotone(j, k, nd - 1);
    }
  }

  /** Rounding preserves order. */
  lemma RoundMonotone(x: real, y: real, nd: nat)
    requires x <= y
    ensures RoundHalfEven(x, nd) <= RoundHalfEven(y, nd)
  {
    ScaleByMonotone(x, y, nd);
    RoundToIntMonotone(ScaleBy(x, nd), ScaleBy(y, nd));
    UnscaleMonotone(RoundToInt(ScaleBy(x, nd)), RoundToInt(ScaleBy(y, nd)), nd);
  }

  /** Rounding keeps a lower bound that lies on the grid. */
  lemma RoundKeepsGridBound(x: real, lo: real, nd: nat)
    requires OnGrid(lo, nd) && lo <= x
    ensures lo <= RoundHalfEven(x, nd)
  {
    RoundMonotone(lo, x, nd);
    RoundOnGrid(lo, nd);
  }

  /** `round(v, nd)`: a float is rounded; an int or bool comes back as the
      same int (Python returns ints unchanged); anything else raises
      TypeError (None). */
  function PyRound(v: Value, nd: nat): (r: Option<Value>)
    ensures r.Some? <==> IsNumber(v)
    ensures r.Some? && v.VFloat? ==> r.value == VFloat(RoundHalfEven(v.r, nd))
    ensures r.Some? && !v.VFloat? ==> r.value.VInt? && r.value.i as real == NumValue(v)
  {
    match v
    case VFloat(x) => Some(VFloat(RoundHalfEven(x, nd)))
    case VBool(_) => Some(VInt(IntValue(v)))
    case VInt(i) => Some(VInt(i))
    case _ => None
  }

  /** `round(x, nd)` on a number, as a real. */
  function RoundNum(v: Value, nd: nat): (r: real)
    requires IsNumber(v)
    ensures PyRound(v, nd) == Some(if v.VFloat? then VFloat(r) else VInt(r.Floor))
    ensures r == NumValue(v) || r == RoundHalfEven(NumValue(v), nd)
  {
    if v.VFloat? then RoundHalfEven(v.r, nd) else NumValue(v)
  }

  /** `str.lower()` on ASCII letters. */
  function LowerChar(c: char): char {
    if 'A' <= c <= 'Z' then (c as int + 32) as char else c
  }

  function Lower(s: string): (r: string)
    ensures |r| == |s|
    ensures forall i :: 0 <= i < |s| ==> r[i] == LowerChar(s[i])
  {
    if s == [] then [] else [LowerChar(s[0])] + Lower(s[1..])
  }

  /** Lower-casing twice is lower-casing once. */
  lemma LowerIdempotent(s: string)
    ensures Lower(Lower(s)) == Lower(s)
  {
    assert forall i :: 0 <= i < |s| ==> LowerChar(LowerChar(s[i])) == LowerChar(s[i]);
  }

  function DigitChar(d: nat): char
    requires d < 10
  {
    ('0' as int + d) as char
  }

  function DigitsOf(n: nat): (r: string)
    ensures |r| >= 1 && AllDigits(r)
  {
    if n < 10 then [DigitChar(n)] else DigitsOf(n / 10) + [DigitChar(n % 10)]
  }

  /** `str(n)` for an int. */
  function IntToDecimal(n: int): (r: string)
    ensures |r| >= 1
  {
    if n < 0 then "-" + DigitsOf(-n) else DigitsOf(n)
  }

  /** The value of a string of ASCII digits. */
  function DigitsValue(s: string): nat
    requires AllDigits(s)
  {
    if s == [] then 0 else DigitsValue(s[..|s| - 1]) * 10 + (s[|s| - 1] as int - '0' as int)
  }

  predicate AllDigits(s: string) {
    forall i :: 0 <= i < |s| ==> '0' <= s[i] <= '9'
  }

  /** `int(s)` for a decimal string: an optional minus sign and at least one
      ASCII digit; ValueError (None) otherwise. */
  function ParseInt(s: string): (r: Option<int>)
    ensures r.Some? <==> (|s| >= 1 && AllDigits(s)) || (|s| >= 2 && s[0] == '-' && AllDigits(s[1..]))
  {
    if |s| >= 1 && AllDigits(s) then Some(DigitsValue(s))
    else if |s| >= 2 && s[0] == '-' && AllDigits(s[1..]) then Some(-(DigitsValue(s[1..]) as int))
    else None
  }

  lemma {:induction false} DigitsRoundTrip(n: nat)
    ensures DigitsValue(DigitsOf(n)) == n
  {
    if n >= 10 {
      DigitsRoundTrip(n / 10);
      var s := DigitsOf(n);
      assert s[..|s| - 1] == DigitsOf(n / 10);
    }
  }

  lemma SignNotDigit(t: string)
    ensures !AllDigits("-" + t)
  {
    assert ("-" + t)[0] == '-';
  }

  /** `int(str(n)) == n`. */
  lemma ParseIntRoundTrip(n: int)
    ensures ParseInt(IntToDecimal(n)) == Some(n)
  {
    var s := IntToDecimal(n);
    if n < 0 {
      var t := DigitsOf(-n);
      DigitsRoundTrip(-n);
      assert s == "-" + t && s[1..] == t;
      SignNotDigit(t);
    } else {
      DigitsRoundTrip(n);
    }
  }
}
