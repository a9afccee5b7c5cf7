/** The first DB4 sensor-unit parser (`HopperSensorParser`): modules
    reference a base module of the library and are cut out of the block
    without a bounds check; a field whose read raises is left out of the
    module instead of being zeroed. */
module HopperSensorParser {
  import opened Results
  import opened PyBytes
  import opened PyDict
  import opened PyRuntime
  import opened Scalar
  import opened Layout

  /** The value stored for field `f` of the module bytes `md`, or None when
      the read raises and the field is left out. Only the layout spellings
      are read; any other type keeps the initial `val = 0`, scaled; a Bool
      tests bit `bit` and is scaled like a number. */
  function FieldRead(md: Bytes, f: FieldSpec): (r: Option<Value>)
    ensures r.Some? ==> IsNumber(r.value) && !r.value.VBool?
    ensures KindCamel(f.dataType).None? ==> r == Some(Mul(VInt(0), ScaleOf(f)))
    ensures KindCamel(f.dataType).Some? && 0 <= f.offset ==>
      (r.Some? <==> Fits(md, f.offset, KindCamel(f.dataType).value, BitOf(f)))
  {
    match KindCamel(f.dataType)
    case None => Some(Mul(VInt(0), ScaleOf(f)))
    case Some(k) =>
      match ReadRaw(md, f.offset, k, BitOf(f))
      case None => None
      case Some(raw) => Some(Mul(raw, ScaleOf(f)))
  }

  /** A field that fits is the reference reading of its bytes, times the
      scale. */
  lemma FieldReadFits(md: Bytes, f: FieldSpec, k: Kind)
    requires KindCamel(f.dataType) == Some(k) && Fits(md, f.offset, k, BitOf(f))
    ensures FieldRead(md, f) == Some(Mul(Reference(md[f.offset..f.offset + Width(k)], k, BitOf(f)), ScaleOf(f)))
  {
  }

  /** The `(name, info)` pairs the field loop stores: one per field whose
      read does not raise, in layout order. */
  function Present(md: Bytes, fs: seq<FieldSpec>): (r: Dict<FieldInfo>)
    ensures |r| <= |fs|
    ensures forall nm :: nm in Keys(r) ==> nm in FieldNames(fs)
    ensures (forall i :: 0 <= i < |fs| ==> FieldRead(md, fs[i]).Some?) ==> Keys(r) == FieldNames(fs)
  {
    if fs == [] then []
    else
      var rest := Present(md, fs[1..]);
      assert FieldNames(fs) == [fs[0].name] + FieldNames(fs[1..]);
      match FieldRead(md, fs[0])
      case None => rest
      case Some(v) => [(fs[0].name, InfoOf(fs[0], v))] + rest
  }

  /** A field whose read raises contributes no pair. */
  lemma {:induction false} PresentOmits(md: Bytes, fs: seq<FieldSpec>, nm: string)
    requires forall i :: 0 <= i < |fs| && fs[i].name == nm ==> FieldRead(md, fs[i]).None?
    ensures nm !in Keys(Present(md, fs))
  {
    if fs != [] {
      PresentOmits(md, fs[1..], nm);
      assert forall i :: 0 <= i < |fs[1..]| ==> fs[1..][i] == fs[i + 1];
    }
  }

  /** `parse_module(module_info, data)`: `{}` for an unknown base module;
      otherwise the fields that could be read from
      `data[offset:offset + size]`, under the module type, base module and
      description. */
  function ParseModule(lib: Dict<ModuleDef>, m: ModuleRef, data: Bytes): (r: ModuleResult)
    ensures r.EmptyModule? <==> m.baseModule !in Keys(lib)
    ensures r.Module? ==>
      r.moduleType == m.moduleType && r.tag.None? && r.baseModule == Some(m.baseModule) &&
      r.description == Some(m.description.GetOr("")) && UniqueKeys(r.fields) &&
      forall nm :: nm in Keys(r.fields) ==> nm in FieldNames(Get(lib, m.baseModule).value.fields)
  {
    match Get(lib, m.baseModule)
    case None => EmptyModule
    case Some(def) =>
      Module(m.moduleType, None, Some(m.baseModule), Some(m.description.GetOr("")),
             FromPairs(Present(ModuleSlice(data, m), def.fields)))
  }

  /** A field of a module that lies inside the block, and that fits the
      module, is recorded with the value read from the block at the module
      offset plus its own. */
  lemma FieldInBlock(data: Bytes, m: ModuleRef, f: FieldSpec, k: Kind)
    requires 0 <= m.offset && 0 <= m.size && m.offset + m.size <= |data|
    requires KindCamel(f.dataType) == Some(k) && 0 <= f.offset && f.offset + Width(k) <= m.size
    requires k == Bit ==> BitOf(f) >= 0
    ensures var at := m.offset + f.offset;
      FieldRead(ModuleSlice(data, m), f) == Some(Mul(Reference(data[at..at + Width(k)], k, BitOf(f)), ScaleOf(f)))
  {
    ReadInBlock(data, m, f.offset, k, BitOf(f));
  }

  /** The module parser of `parse_all`, with the library and the block fixed. */
  function Parser(lib: Dict<ModuleDef>, data: Bytes): ModuleRef -> ModuleResult {
    m => ParseModule(lib, m, data)
  }

  /** The `(module_type, parsed)` pairs of all modules, in order. */
  function Pairs(parse: ModuleRef -> ModuleResult, ms: seq<ModuleRef>): (r: Dict<ModuleResult>)
    ensures |r| == |ms|
    ensures forall i :: 0 <= i < |ms| ==> r[i] == (ms[i].moduleType, parse(ms[i]))
  {
    seq(|ms|, i requires 0 <= i < |ms| => (ms[i].moduleType, parse(ms[i])))
  }

  /** The loop of `parse_all`: `modules[module_type] = parsed` for every
      module, an empty parse included. */
  function StoreAll(parse: ModuleRef -> ModuleResult, acc: Dict<ModuleResult>, ms: seq<ModuleRef>): (r: Dict<ModuleResult>)
    decreases |ms|
  {
    if ms == [] then acc
    else StoreAll(parse, Set(acc, ms[0].moduleType, parse(ms[0])), ms[1..])
  }

  /** The loop is `acc.update` with every module's pair. */
  lemma {:induction false} StoreAllUpdate(parse: ModuleRef -> ModuleResult, acc: Dict<ModuleResult>, ms: seq<ModuleRef>)
    ensures StoreAll(parse, acc, ms) == Update(acc, Pairs(parse, ms))
    decreases |ms|
  {
    if ms != [] {
      calc {
        StoreAll(parse, acc, ms);
        { StoreAllUpdate(parse, Set(acc, ms[0].moduleType, parse(ms[0])), ms[1..]); }
        Update(Set(acc, ms[0].moduleType, parse(ms[0])), Pairs(parse, ms[1..]));
        { assert Pairs(parse, ms) == [(ms[0].moduleType, parse(ms[0]))] + Pairs(parse, ms[1..]); }
        Update(acc, Pairs(parse, ms));
      }
    }
  }

  /** `HopperSensorParser.parse_all`: always one device,
      `hopper_sensors_db4`, holding every configured module type. */
  function ParseAll(lib: Dict<ModuleDef>, ms: seq<ModuleRef>, data: Bytes): (r: seq<DeviceResult>)
    ensures |r| == 1 && r[0].deviceId == "hopper_sensors_db4" &&
      r[0].deviceName == "料仓传感器综合监测" && r[0].deviceType == "hopper_sensor_unit" &&
      r[0].category.None? && UniqueKeys(r[0].modules)
    ensures forall t :: t in Keys(r[0].modules) <==> exists i :: 0 <= i < |ms| && ms[i].moduleType == t
  {
    var r := [DeviceResult("hopper_sensors_db4", "料仓传感器综合监测", "hopper_sensor_unit", None,
                           StoreAll(Parser(lib, data), [], ms))];
    StoreAllUpdate(Parser(lib, data), [], ms);
    KeysIndex(Pairs(Parser(lib, data), ms));
    r
  }

  /** Each module type holds the parse of the last module of that type,
      which is `{}` when its base module is unknown. */
  lemma ParseAllLast(lib: Dict<ModuleDef>, ms: seq<ModuleRef>, data: Bytes, t: string)
    ensures Get(ParseAll(lib, ms, data)[0].modules, t) == LastGet(Pairs(Parser(lib, data), ms), t)
  {
    StoreAllUpdate(Parser(lib, data), [], ms);
    UpdateGet([], Pairs(Parser(lib, data), ms), t);
  }
}
