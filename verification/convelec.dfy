/** The three-phase meter converter (`ElectricityConverter`): voltages are
    scaled by 0.1, currents and power by 0.001 times the current-transformer
    ratio, energy by 2. */
module ElectricityConverter {
  import opened Results
  import opened PyDict
  import opened PyRuntime
  import opened ConverterBase

  const RatioRoller: int := 60
  const RatioDefault: int := 20
  const RatioScr: int := 20
  const ScaleVoltage: real := 0.1
  const ScaleCurrent: real := 0.001
  const ScalePower: real := 0.001
  const ScaleEnergy: real := 2.0

  /** The output keys, which are also the input fields read. */
  const Names: seq<string> := OutputFieldNames(Electricity)

  /** The ratio `convert` uses: the `current_ratio` keyword when given,
      otherwise the SCR ratio when `is_scr`, else the roller-kiln ratio when
      `is_roller_kiln`, else the default. */
  function Ratio(isScr: bool, isRollerKiln: bool, ratioArg: Option<Value>): Value {
    match ratioArg
    case Some(v) => v
    case None => VInt(if isScr then RatioScr else if isRollerKiln then RatioRoller else RatioDefault)
  }

  /** `get_field_value(raw_data, name, 0.0)`. */
  function Input(raw: Dict<Value>, name: string): Value {
    GetFieldValue(raw, name, VFloat(0.0))
  }

  /** The factor an input is multiplied by, for ratio `ratio`. */
  function Factor(name: string, ratio: real): real {
    if name in ["Ua_0", "Ua_1", "Ua_2"] then ScaleVoltage
    else if name in ["I_0", "I_1", "I_2"] then ScaleCurrent * ratio
    else if name == "Pt" then ScalePower * ratio
    else ScaleEnergy
  }

  /** The decimal places an output is rounded to. */
  function Places(name: string): nat {
    if name in ["Ua_0", "Ua_1", "Ua_2"] then 1 else 2
  }

  /** Every input a number: otherwise a multiplication raises TypeError. */
  predicate Numeric(raw: Dict<Value>) {
    forall i :: 0 <= i < |Names| ==> IsNumber(Input(raw, Names[i]))
  }

  /** One output: the input times its factor for ratio `ratio`, rounded. */
  function Scaled(v: Value, name: string, ratio: real): real
    requires IsNumber(v)
  {
    RoundHalfEven(NumValue(v) * Factor(name, ratio), Places(name))
  }

  /** The output pairs for the keys `ns`, in order. */
  function Outputs(raw: Dict<Value>, ratio: real, ns: seq<string>): (r: Dict<Value>)
    requires forall i :: 0 <= i < |ns| ==> IsNumber(Input(raw, ns[i]))
    ensures Keys(r) == ns
    ensures forall i :: 0 <= i < |ns| ==> r[i] == (ns[i], VFloat(Scaled(Input(raw, ns[i]), ns[i], ratio)))
  {
    if ns == [] then [] else [(ns[0], VFloat(Scaled(Input(raw, ns[0]), ns[0], ratio)))] + Outputs(raw, ratio, ns[1..])
  }

  /** `convert(raw_data, **kwargs)`: None is the TypeError a non-number
      input or ratio raises. Otherwise exactly the eight output keys, in
      declaration order, each the float input (0.0 when missing) times its
      factor, rounded. */
  function Convert(raw: Dict<Value>, isScr: bool, isRollerKiln: bool, ratioArg: Option<Value>): (r: Option<Dict<Value>>)
    ensures r.Some? <==> Numeric(raw) && IsNumber(Ratio(isScr, isRollerKiln, ratioArg))
    ensures r.Some? ==> Keys(r.value) == Names && UniqueKeys(r.value)
    ensures r.Some? ==> forall i :: 0 <= i < |Names| ==>
      r.value[i].1 == VFloat(Scaled(Input(raw, Names[i]), Names[i], NumValue(Ratio(isScr, isRollerKiln, ratioArg))))
  {
    var ratio := Ratio(isScr, isRollerKiln, ratioArg);
    if !Numeric(raw) || !IsNumber(ratio) then None
    else
      var r := Outputs(raw, NumValue(ratio), Names);
      UniqueKeysDistinct(r);
      Some(r)
  }

  /** The output under key `name`. */
  function Output(raw: Dict<Value>, isScr: bool, isRollerKiln: bool, ratioArg: Option<Value>, name: string): Option<Value> {
    match Convert(raw, isScr, isRollerKiln, ratioArg)
    case None => None
    case Some(d) => Get(d, name)
  }

  /** Looking an output key up gives its scaled, rounded input. */
  lemma OutputAt(raw: Dict<Value>, isScr: bool, isRollerKiln: bool, ratioArg: Option<Value>, i: nat)
    requires i < |Names| && Convert(raw, isScr, isRollerKiln, ratioArg).Some?
    ensures Output(raw, isScr, isRollerKiln, ratioArg, Names[i]) ==
      Some(VFloat(Scaled(Input(raw, Names[i]), Names[i], NumValue(Ratio(isScr, isRollerKiln, ratioArg)))))
  {
    var d := Convert(raw, isScr, isRollerKiln, ratioArg).value;
    UniqueKeysDistinct(d);
    KeysIndex(d);
    GetDistinct(d, i);
  }

  /** Every output is a float on the grid of its decimal places, within
      half a step of the exact product of input and factor. */
  lemma ScaledNear(v: Value, name: string, ratio: real)
    requires IsNumber(v)
    ensures var x := NumValue(v) * Factor(name, ratio);
      OnGrid(Scaled(v, name, ratio), Places(name)) &&
      -0.5 <= ScaleBy(Scaled(v, name, ratio), Places(name)) - ScaleBy(x, Places(name)) <= 0.5
  {
    RoundHalfEvenSpec(NumValue(v) * Factor(name, ratio), Places(name));
  }

  /** A missing input contributes 0.0: its key is still emitted, as 0.0. */
  lemma MissingIsZero(raw: Dict<Value>, isScr: bool, isRollerKiln: bool, ratioArg: Option<Value>, i: nat)
    requires i < |Names| && Convert(raw, isScr, isRollerKiln, ratioArg).Some?
    requires Get(raw, Names[i]).None?
    ensures Output(raw, isScr, isRollerKiln, ratioArg, Names[i]) == Some(VFloat(0.0))
  {
    OutputAt(raw, isScr, isRollerKiln, ratioArg, i);
    assert Input(raw, Names[i]) == VFloat(0.0);
    RoundZero(Places(Names[i]));
  }

  /** `is_scr` wins over `is_roller_kiln`; the roller-kiln ratio is 60 and
      every other choice is 20; a given `current_ratio` replaces them all. */
  lemma RatioPrecedence(isScr: bool, isRollerKiln: bool, v: Value)
    ensures Ratio(true, isRollerKiln, None) == VInt(20)
    ensures Ratio(false, true, None) == VInt(60)
    ensures Ratio(false, false, None) == VInt(20)
    ensures Ratio(isScr, isRollerKiln, Some(v)) == v
  {
  }

  /** With `current_ratio` given, the device flags change nothing. */
  lemma OverrideIgnoresFlags(raw: Dict<Value>, a: bool, b: bool, c: bool, d: bool, v: Value)
    ensures Convert(raw, a, b, Some(v)) == Convert(raw, c, d, Some(v))
  {
  }

  /** The stored voltages and energy do not depend on the ratio: two
      successful conversions of the same readings, under any ratio keywords
      and flags, agree on them. */
  lemma RatioFreeOutputs(raw: Dict<Value>, s1: bool, k1: bool, a1: Option<Value>,
                         s2: bool, k2: bool, a2: Option<Value>, name: string)
    requires name in ["Ua_0", "Ua_1", "Ua_2", "ImpEp"]
    requires Convert(raw, s1, k1, a1).Some? && Convert(raw, s2, k2, a2).Some?
    ensures Output(raw, s1, k1, a1, name) == Output(raw, s2, k2, a2, name)
  {
    var i := if name == "Ua_0" then 0 else if name == "Ua_1" then 1 else if name == "Ua_2" then 2 else 7;
    assert Names[i] == name;
    OutputAt(raw, s1, k1, a1, i);
    OutputAt(raw, s2, k2, a2, i);
    ScaledRatioFree(Input(raw, name), name, NumValue(Ratio(s1, k1, a1)), NumValue(Ratio(s2, k2, a2)));
  }

  /** A voltage or the energy scales alike under any two ratios. */
  lemma ScaledRatioFree(v: Value, name: string, r1: real, r2: real)
    requires IsNumber(v) && name in ["Ua_0", "Ua_1", "Ua_2", "ImpEp"]
    ensures Scaled(v, name, r1) == Scaled(v, name, r2)
  {
  }

  /** Only the eight named inputs are read: two raw dicts that agree on
      them (whatever else they hold, such as line voltages `Uab_*` or the
      per-phase powers `Pa`, `Pb`, `Pc`) convert alike. */
  lemma ReadsOnlyNames(raw1: Dict<Value>, raw2: Dict<Value>, isScr: bool, isRollerKiln: bool, ratioArg: Option<Value>)
    requires forall i :: 0 <= i < |Names| ==> Input(raw1, Names[i]) == Input(raw2, Names[i])
    ensures Convert(raw1, isScr, isRollerKiln, ratioArg) == Convert(raw2, isScr, isRollerKiln, ratioArg)
  {
    if Convert(raw1, isScr, isRollerKiln, ratioArg).Some? {
      var ratio := NumValue(Ratio(isScr, isRollerKiln, ratioArg));
      OutputsAgree(raw1, raw2, ratio, Names);
    }
  }

  lemma {:induction false} OutputsAgree(raw1: Dict<Value>, raw2: Dict<Value>, ratio: real, ns: seq<string>)
    requires forall i :: 0 <= i < |ns| ==> IsNumber(Input(raw1, ns[i])) && Input(raw1, ns[i]) == Input(raw2, ns[i])
    ensures Outputs(raw1, ratio, ns) == Outputs(raw2, ratio, ns)
  {
    if ns != [] {
      OutputsAgree(raw1, raw2, ratio, ns[1..]);
    }
  }
}
