/** The temperature converter (`TemperatureConverter`): the PLC stores a
    signed 16-bit count of 0.1 degC; readings below -10 degC are sensor
    faults whose sign is flipped. */
module TemperatureConverter {
  import opened Results
  import opened PyDict
  import opened PyRuntime
  import opened ConverterBase

  const DefaultScale: real := 0.1
  const FaultLimit: real := -10.0

  /** `get_field_value(raw_data, "Temperature", 0)`, truncated toward zero
      with `int()` when it is a float. */
  function RawTemperature(raw: Dict<Value>): (r: Value)
    ensures !r.VFloat?
    ensures GetFieldValue(raw, "Temperature", VInt(0)).VFloat? ==>
      r == VInt(Trunc(GetFieldValue(raw, "Temperature", VInt(0)).r))
  {
    var v := GetFieldValue(raw, "Temperature", VInt(0));
    if v.VFloat? then VInt(Trunc(v.r)) else v
  }

  /** The sign-flip correction: a value below -10 becomes its absolute
      value, any other value is kept. */
  function Corrected(t: Value): (r: Value)
    requires IsNumber(t) && !t.VBool?
    ensures IsNumber(r) && !r.VBool? && (r.VFloat? <==> t.VFloat?)
    ensures NumValue(r) >= FaultLimit
    ensures NumValue(t) >= FaultLimit ==> r == t
    ensures NumValue(t) < FaultLimit ==> NumValue(r) == -NumValue(t)
  {
    if NumValue(t) < FaultLimit then
      (if t.VFloat? then VFloat(-t.r) else VInt(-t.i))
    else t
  }

  /** `convert(raw_data, **kwargs)` with `scale` the keyword when given:
      `{"temperature": round(t, 1)}` where `t` is the corrected product of
      the raw reading and the scale. None is the TypeError a non-number
      reading or scale raises. */
  function Convert(raw: Dict<Value>, scaleArg: Option<Value>): (r: Option<Dict<Value>>)
    ensures r.Some? <==> IsNumber(RawTemperature(raw)) && IsNumber(scaleArg.GetOr(VFloat(DefaultScale)))
    ensures r.Some? ==> Keys(r.value) == OutputFieldNames(Temperature) && IsNumber(r.value[0].1)
    ensures r.Some? ==> r.value[0].1 == Stored(RawTemperature(raw), scaleArg.GetOr(VFloat(DefaultScale)))
  {
    var t := RawTemperature(raw);
    var scale := scaleArg.GetOr(VFloat(DefaultScale));
    if !IsNumber(t) || !IsNumber(scale) then None
    else Some([("temperature", Stored(t, scale))])
  }

  /** The corrected product `c` of a reading and a scale: their product
      `p`, negated when below -10. */
  function Target(t: Value, scale: Value): (c: real)
    requires IsNumber(t) && IsNumber(scale)
    ensures c >= FaultLimit
  {
    var p := NumValue(t) * NumValue(scale);
    if p < FaultLimit then -p else p
  }

  /** `round(t, 1)` of the corrected product of a non-float reading and a
      scale. With `p` the product and `c` its correction (`p` negated when
      below -10): a float product (a float scale) is stored as a float on
      the 0.1 grid within 0.05 of `c`, ties going to the even tenth; an
      int product is stored as the int `c`. */
  function Stored(t: Value, scale: Value): (r: Value)
    requires IsNumber(t) && !t.VFloat? && IsNumber(scale)
    ensures var c := Target(t, scale);
      (scale.VFloat? ==> r.VFloat? && OnGrid(r.r, 1) && -0.05 <= r.r - c <= 0.05 &&
                         ((r.r - c == 0.05 || c - r.r == 0.05) ==> (10.0 * r.r).Floor % 2 == 0)) &&
      (!scale.VFloat? ==> r.VInt? && r.i as real == c)
  {
    var m := Mul(t, scale);
    var p := NumValue(t) * NumValue(scale);
    assert NumValue(m) == p;
    var c := Corrected(m);
    assert NumValue(c) == Target(t, scale);
    RoundedTenth(c);
    PyRound(c, 1).value
  }

  /** The stored temperature is never below -10: the correction leaves
      nothing below the limit and rounding to 0.1 keeps a bound on its
      grid. */
  lemma AtLeastLimit(raw: Dict<Value>, scaleArg: Option<Value>)
    requires Convert(raw, scaleArg).Some?
    ensures NumValue(Convert(raw, scaleArg).value[0].1) >= FaultLimit
  {
    var c := Corrected(Mul(RawTemperature(raw), scaleArg.GetOr(VFloat(DefaultScale))));
    if c.VFloat? {
      assert ScaleBy(FaultLimit, 1) == -100.0;
      RoundKeepsGridBound(c.r, FaultLimit, 1);
    }
  }

  /** The stored temperature for every input: with `c` the Target of the
      raw reading (truncated when a float) and the scale, a float scale
      stores the tenth nearest to `c` (within 0.05, ties to the even tenth)
      and an int scale stores the int `c`. */
  lemma StoredValue(raw: Dict<Value>, scaleArg: Option<Value>)
    requires Convert(raw, scaleArg).Some?
    ensures var scale := scaleArg.GetOr(VFloat(DefaultScale));
      var c := Target(RawTemperature(raw), scale);
      var t := Convert(raw, scaleArg).value[0].1;
      (scale.VFloat? ==> t.VFloat? && OnGrid(t.r, 1) && -0.05 <= t.r - c <= 0.05 &&
                         ((t.r - c == 0.05 || c - t.r == 0.05) ==> (10.0 * t.r).Floor % 2 == 0)) &&
      (!scale.VFloat? ==> t.VInt? && t.i as real == c)
  {
    var scale := scaleArg.GetOr(VFloat(DefaultScale));
    assert Convert(raw, scaleArg).value[0].1 == Stored(RawTemperature(raw), scale);
  }

  /** `round(c, 1)` of a number: a float lands on the 0.1 grid within 0.05
      of it, ties to the even tenth; an int is kept. */
  lemma RoundedTenth(c: Value)
    requires IsNumber(c) && !c.VBool?
    ensures var t := PyRound(c, 1).value;
      (c.VFloat? ==> t.VFloat? && OnGrid(t.r, 1) && -0.05 <= t.r - c.r <= 0.05 &&
                     ((t.r - c.r == 0.05 || c.r - t.r == 0.05) ==> (10.0 * t.r).Floor % 2 == 0)) &&
      (!c.VFloat? ==> t.VInt? && t.i as real == NumValue(c))
  {
    if c.VFloat? {
      RoundHalfEvenSpec(c.r, 1);
      var t := RoundHalfEven(c.r, 1);
      assert ScaleBy(t, 1) == 10.0 * t;
      assert ScaleBy(c.r, 1) == 10.0 * c.r;
    }
  }

  /** A float reading converts as its truncation toward zero would. */
  lemma FloatTruncated(raw: Dict<Value>, raw': Dict<Value>, x: real, scaleArg: Option<Value>)
    requires GetFieldValue(raw, "Temperature", VInt(0)) == VFloat(x)
    requires GetFieldValue(raw', "Temperature", VInt(0)) == VInt(Trunc(x))
    ensures Convert(raw, scaleArg) == Convert(raw', scaleArg)
  {
  }

  /** A reading of 1500 is 150.0 degC; -150 is a fault and becomes 15.0;
      -50 is kept as -5.0. */
  lemma Examples()
    ensures Convert([("Temperature", VInt(1500))], None) == Some([("temperature", VFloat(150.0))])
    ensures Convert([("Temperature", VInt(-150))], None) == Some([("temperature", VFloat(15.0))])
    ensures Convert([("Temperature", VInt(-50))], None) == Some([("temperature", VFloat(-5.0))])
  {
    assert ScaleBy(150.0, 1) == 1500.0;
    RoundOnGrid(150.0, 1);
    assert ScaleBy(15.0, 1) == 150.0;
    RoundOnGrid(15.0, 1);
    assert ScaleBy(-5.0, 1) == -50.0;
    RoundOnGrid(-5.0, 1);
  }

  /** A missing reading is 0, stored as 0.0. */
  lemma MissingIsZero(raw: Dict<Value>)
    requires Get(raw, "Temperature").None?
    ensures Convert(raw, None) == Some([("temperature", VFloat(0.0))])
  {
    RoundZero(1);
  }
}
