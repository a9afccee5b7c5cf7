/** What every converter shares (`BaseConverter`): reading a raw field out
    of a parsed module, the output-field names and module type of each
    converter class, and the raw dict a parsed module hands to a converter. */
module ConverterBase {
  import opened Results
  import opened PyDict
  import opened PyRuntime
  import opened Layout

  /** `get_field_value(raw_data, field_name, default)`: a field recorded as
      a dict yields its 'value' key (the default when that key is missing);
      a field recorded as a plain value yields that value; an absent field
      yields the default. */
  function GetFieldValue(raw: Dict<Value>, name: string, default: Value): (r: Value)
    ensures Get(raw, name).None? ==> r == default
    ensures Get(raw, name).Some? && !Get(raw, name).value.VDict? ==> r == Get(raw, name).value
  {
    match Get(raw, name)
    case None => default
    case Some(v) => if v.VDict? then Get(v.entries, "value").GetOr(default) else v
  }

  /** A decoded field as the parsers hand it on:
      `{'value': ..., 'display_name': ..., 'unit': ...}`. */
  function InfoDict(info: FieldInfo): (r: Value)
    ensures r.VDict? && Keys(r.entries) == ["value", "display_name", "unit"]
  {
    var e := [("value", info.value), ("display_name", VStr(info.displayName)), ("unit", VStr(info.unit))];
    assert Keys(e[2..]) == ["unit"];
    assert Keys(e[1..]) == ["display_name"] + Keys(e[2..]);
    VDict(e)
  }

  /** The raw data of a parsed module: its fields, each as a dict. */
  function RawOf(fields: Dict<FieldInfo>): (r: Dict<Value>)
    ensures Keys(r) == Keys(fields)
    ensures forall i :: 0 <= i < |fields| ==> r[i] == (fields[i].0, InfoDict(fields[i].1))
  {
    if fields == [] then [] else [(fields[0].0, InfoDict(fields[0].1))] + RawOf(fields[1..])
  }

  /** On a parsed module, `get_field_value` returns the decoded value of a
      field the module has and the default for any other name: a parser's
      output and a converter's input fit together. */
  lemma {:induction false} FieldValueOfParsed(fields: Dict<FieldInfo>, name: string, default: Value)
    ensures GetFieldValue(RawOf(fields), name, default) ==
      if Get(fields, name).Some? then Get(fields, name).value.value else default
  {
    if fields != [] && fields[0].0 != name {
      FieldValueOfParsed(fields[1..], name, default);
    }
  }

  /** The converter classes. */
  datatype ConverterKind = Electricity | Temperature | Pm10 | Vibration | Weight

  /** `MODULE_TYPE` of each class (`get_module_type`). */
  function ModuleType(k: ConverterKind): string {
    match k
    case Electricity => "ElectricityMeter"
    case Temperature => "TemperatureSensor"
    case Pm10 => "PM10Sensor"
    case Vibration => "VibrationSelected"
    case Weight => "WeighSensor"
  }

  /** `get_output_field_names()`: the `OUTPUT_FIELDS` keys of each class in
      declaration order. */
  function OutputFieldNames(k: ConverterKind): (r: seq<string>)
    ensures Distinct(r)
  {
    match k
    case Electricity => ["Ua_0", "Ua_1", "Ua_2", "I_0", "I_1", "I_2", "Pt", "ImpEp"]
    case Temperature => ["temperature"]
    case Pm10 => ["pm10", "pm2_5", "pm1_0", "concentration"]
    case Vibration => ["dx", "dy", "dz", "freq_x", "freq_y", "freq_z",
                       "acc_peak_x", "acc_peak_y", "acc_peak_z", "vrms_x", "vrms_y", "vrms_z"]
    case Weight => ["weight", "feed_rate", "is_stable", "is_overload"]
  }

  /** Each class has its own module type, so the module type identifies the
      class. */
  lemma ModuleTypeInjective(a: ConverterKind, b: ConverterKind)
    ensures ModuleType(a) == ModuleType(b) <==> a == b
  {
  }

  /** `v * factor` for a float `factor`, rounded to `nd` places: None is the
      TypeError a non-number raises. */
  function ScaledRound(v: Value, factor: real, nd: nat): (r: Option<real>)
    ensures r.Some? <==> IsNumber(v)
    ensures r.Some? ==> OnGrid(r.value, nd)
    ensures r.Some? ==> -0.5 <= ScaleBy(r.value, nd) - ScaleBy(NumValue(v) * factor, nd) <= 0.5
  {
    if IsNumber(v) then
      RoundHalfEvenSpec(NumValue(v) * factor, nd);
      Some(RoundHalfEven(NumValue(v) * factor, nd))
    else None
  }

  /** Rounding zero gives zero: a missing input defaulting to 0.0 comes out
      as 0.0. */
  lemma RoundZero(nd: nat)
    ensures RoundHalfEven(0.0, nd) == 0.0
  {
    ScaleByZero(nd);
    RoundOnGrid(0.0, nd);
  }

  lemma {:induction false} ScaleByZero(nd: nat)
    ensures ScaleBy(0.0, nd) == 0.0
  {
    if nd > 0 {
      ScaleByZero(nd - 1);
    }
  }
}
