/** The block parsers for the hopper block (DB8 layout file `parser_hopper`),
    the SCR/fan block and the roller-kiln block. All three cut a module's
    bytes out of the block with `data[offset:offset+size]`, look the module
    type up in the module library, and decode each field relative to the
    slice; Bool is not among the types they read. They differ in whether a
    module result carries a description and in what a module error does to
    the device. */
module SlicedParser {
  import opened Results
  import opened PyBytes
  import opened PyDict
  import opened PyRuntime
  import opened Scalar
  import opened Layout

  /** The type names these parsers decode. */
  function SlicedKind(t: string): (r: Option<Kind>)
    ensures r.Some? ==> r == KindCamel(t) && r.value != Bit
    ensures r.None? ==> KindCamel(t).None? || KindCamel(t) == Some(Bit)
  {
    if t == "Bool" then None else KindCamel(t)
  }

  /** The value recorded for field `f` of the module bytes `md`: a type that
      is not decoded is 0.0 (scaled, and still 0.0), a read that raises is
      0.0, anything else is the raw value times the scale. */
  function FieldValue(md: Bytes, f: FieldSpec): (r: Value)
    ensures IsNumber(r) && !r.VBool?
    ensures SlicedKind(f.dataType).None? ==> r == VFloat(0.0)
    ensures SlicedKind(f.dataType).Some? && 0 <= f.offset &&
            f.offset + Width(SlicedKind(f.dataType).value) > |md| ==>
            r == VFloat(0.0)
  {
    match SlicedKind(f.dataType)
    case None => Mul(VFloat(0.0), ScaleOf(f))
    case Some(k) =>
      match ReadRaw(md, f.offset, k, 0)
      case None => VFloat(0.0)
      case Some(raw) => Mul(raw, ScaleOf(f))
  }

  /** A field inside a module that lies inside the block is read from the
      block at the module offset plus the field offset, and scaled. */
  lemma FieldValueInBlock(data: Bytes, m: ModuleRef, f: FieldSpec, k: Kind)
    requires SlicedKind(f.dataType) == Some(k)
    requires 0 <= m.offset && 0 <= m.size && m.offset + m.size <= |data|
    requires 0 <= f.offset && f.offset + Width(k) <= m.size
    ensures var at := m.offset + f.offset;
      FieldValue(ModuleSlice(data, m), f) == Mul(Reference(data[at..at + Width(k)], k, 0), ScaleOf(f))
  {
    ReadInBlock(data, m, f.offset, k, 0);
  }

  /** A field that runs past the declared module size reads as 0.0, however
      long the block is. */
  lemma PastModuleSize(data: Bytes, m: ModuleRef, f: FieldSpec, k: Kind)
    requires SlicedKind(f.dataType) == Some(k)
    requires 0 <= m.offset && 0 <= m.size && 0 <= f.offset
    requires f.offset + Width(k) > m.size
    ensures FieldValue(ModuleSlice(data, m), f) == VFloat(0.0)
  {
    assert |ModuleSlice(data, m)| <= m.size;
  }

  /** `parse_module(module_config, data, offset)`: ValueError (Err) for a
      module type missing from the library; otherwise one entry per library
      field. The hopper parser's result has no description key; the other
      two carry `module_config.get('description', '')`. */
  function ParseModule(lib: Dict<ModuleDef>, m: ModuleRef, data: Bytes, withDescription: bool)
    : (r: Result<ModuleResult, string>)
    ensures r.Err? <==> m.moduleType !in Keys(lib)
    ensures r.Ok? ==>
      r.value.Module? && r.value.moduleType == m.moduleType &&
      r.value.tag == Some(m.tag) && r.value.baseModule.None? &&
      r.value.description == (if withDescription then Some(m.description.GetOr("")) else None) &&
      UniqueKeys(r.value.fields) &&
      forall nm :: nm in Keys(r.value.fields) <==> nm in FieldNames(Get(lib, m.moduleType).value.fields)
  {
    match Get(lib, m.moduleType)
    case None => Err("base module not found: " + m.moduleType)
    case Some(def) =>
      var md := ModuleSlice(data, m);
      Ok(Module(m.moduleType, Some(m.tag), None,
                if withDescription then Some(m.description.GetOr("")) else None,
                FromPairs(Record(def.fields, f => FieldValue(md, f)))))
  }

  /** With distinct field names every library field has exactly one entry,
      in layout order, holding its value read from the module slice. */
  lemma ParseModuleFields(lib: Dict<ModuleDef>, m: ModuleRef, data: Bytes, withDescription: bool)
    requires m.moduleType in Keys(lib) && Distinct(FieldNames(Get(lib, m.moduleType).value.fields))
    ensures var fs := Get(lib, m.moduleType).value.fields;
      var r := ParseModule(lib, m, data, withDescription).value;
      |r.fields| == |fs| &&
      forall i :: 0 <= i < |fs| ==>
        r.fields[i] == (fs[i].name, InfoOf(fs[i], FieldValue(ModuleSlice(data, m), fs[i])))
  {
    var md := ModuleSlice(data, m);
    FromPairsDistinct(Record(Get(lib, m.moduleType).value.fields, f => FieldValue(md, f)));
  }

  /** The tags of a module list, in order. */
  function Tags(ms: seq<ModuleRef>): (r: seq<string>)
    ensures |r| == |ms|
    ensures forall i :: 0 <= i < |ms| ==> r[i] == ms[i].tag
  {
    if ms == [] then [] else [ms[0].tag] + Tags(ms[1..])
  }

  /** The module decoder of a loop, with the library and the block fixed:
      `self.parse_module(module_config, data, offset)`. Stating the store
      loops over any decoder keeps their proofs apart from field decoding. */
  type Decoder = ModuleRef -> Result<ModuleResult, string>

  /** The decoder of one parser over one block. */
  function Decode(lib: Dict<ModuleDef>, data: Bytes, withDescription: bool): Decoder {
    m => ParseModule(lib, m, data, withDescription)
  }

  /** Some module of the list does not decode. */
  predicate Fails(dec: Decoder, ms: seq<ModuleRef>) {
    exists i :: 0 <= i < |ms| && dec(ms[i]).Err?
  }

  /** Some module of the list has a type the library does not define. */
  predicate HasUnknown(lib: Dict<ModuleDef>, ms: seq<ModuleRef>) {
    exists i :: 0 <= i < |ms| && ms[i].moduleType !in Keys(lib)
  }

  /** A parser's decoder fails on a list exactly when a module type of the
      list is missing from the library. */
  lemma DecodeFails(lib: Dict<ModuleDef>, data: Bytes, withDescription: bool, ms: seq<ModuleRef>)
    ensures Fails(Decode(lib, data, withDescription), ms) <==> HasUnknown(lib, ms)
  {
    var dec := Decode(lib, data, withDescription);
    forall i | 0 <= i < |ms|
      ensures dec(ms[i]).Err? <==> ms[i].moduleType !in Keys(lib)
    {
    }
  }

  /** A list fails when its first module or its rest fails. */
  lemma FailsCons(dec: Decoder, ms: seq<ModuleRef>)
    requires ms != []
    ensures Fails(dec, ms) <==> dec(ms[0]).Err? || Fails(dec, ms[1..])
  {
    if Fails(dec, ms[1..]) {
      var i :| 0 <= i < |ms[1..]| && dec(ms[1..][i]).Err?;
      assert ms[i + 1] == ms[1..][i];
    }
    if Fails(dec, ms) && dec(ms[0]).Ok? {
      var i :| 0 <= i < |ms| && dec(ms[i]).Err?;
      assert ms[1..][i - 1] == ms[i];
    }
  }

  /** The `(tag, module)` pairs of the modules that decode, in list order. */
  function Stored(dec: Decoder, ms: seq<ModuleRef>): (r: Dict<ModuleResult>)
    ensures !Fails(dec, ms) ==> Keys(r) == Tags(ms)
  {
    if ms == [] then []
    else
      FailsCons(dec, ms);
      var rest := Stored(dec, ms[1..]);
      match dec(ms[0])
      case Ok(m) => [(ms[0].tag, m)] + rest
      case Err(_) => rest
  }

  /** The loop `modules[tag] = parse_module(...)` over `ms`, starting from
      the dict `acc`; the first module that raises ends it with Err. */
  function StoreModules(dec: Decoder, acc: Dict<ModuleResult>, ms: seq<ModuleRef>): (r: Result<Dict<ModuleResult>, string>)
    ensures r.Err? <==> Fails(dec, ms)
    ensures r.Ok? ==> forall t :: t in Keys(r.value) <==> t in Keys(acc) || t in Tags(ms)
    ensures r.Ok? && UniqueKeys(acc) ==> UniqueKeys(r.value)
    decreases |ms|
  {
    if ms == [] then Ok(acc)
    else
      FailsCons(dec, ms);
      assert Tags(ms) == [ms[0].tag] + Tags(ms[1..]);
      match dec(ms[0])
      case Err(e) => Err(e)
      case Ok(m) => StoreModules(dec, Set(acc, ms[0].tag, m), ms[1..])
  }

  /** When every module decodes, the loop is `acc.update` with the decoded
      pairs, so a repeated tag holds the last module stored under it. */
  lemma {:induction false} StoreModulesOk(dec: Decoder, acc: Dict<ModuleResult>, ms: seq<ModuleRef>)
    requires !Fails(dec, ms)
    ensures StoreModules(dec, acc, ms) == Ok(Update(acc, Stored(dec, ms)))
    decreases |ms|
  {
    if ms != [] {
      FailsCons(dec, ms);
      var m := dec(ms[0]).value;
      StoreModulesOk(dec, Set(acc, ms[0].tag, m), ms[1..]);
      assert Stored(dec, ms) == [(ms[0].tag, m)] + Stored(dec, ms[1..]);
    }
  }

  /** One device of a block: all its modules, or Err if any of them raises. */
  function ParseDevice(lib: Dict<ModuleDef>, d: DeviceCfg, category: string, data: Bytes, withDescription: bool)
    : (r: Result<DeviceResult, string>)
    ensures r.Err? <==> HasUnknown(lib, d.modules)
    ensures r.Ok? ==>
      r.value.deviceId == d.deviceId && r.value.deviceName == d.deviceName &&
      r.value.deviceType == d.deviceType && r.value.category == Some(category) &&
      UniqueKeys(r.value.modules) &&
      forall t :: t in Keys(r.value.modules) <==> t in Tags(d.modules)
  {
    DecodeFails(lib, data, withDescription, d.modules);
    match StoreModules(Decode(lib, data, withDescription), [], d.modules)
    case Err(e) => Err(e)
    case Ok(ms) => Ok(DeviceResult(d.deviceId, d.deviceName, d.deviceType, Some(category), ms))
  }

  /** What one device contributes to the result list: itself, or nothing
      when one of its modules raises. */
  function DeviceOut(lib: Dict<ModuleDef>, x: (DeviceCfg, string), data: Bytes, withDescription: bool)
    : (r: seq<DeviceResult>)
    ensures |r| <= 1
    ensures |r| == 1 <==> !HasUnknown(lib, x.0.modules)
  {
    match ParseDevice(lib, x.0, x.1, data, withDescription)
    case Err(_) => []
    case Ok(dev) => [dev]
  }

  /** `parse_all` of the hopper and SCR/fan parsers: each device in order;
      a device with a failing module is dropped and the others are kept. */
  function ParseAll(lib: Dict<ModuleDef>, ds: seq<(DeviceCfg, string)>, data: Bytes, withDescription: bool)
    : (r: seq<DeviceResult>)
    ensures |r| <= |ds|
  {
    if ds == [] then []
    else DeviceOut(lib, ds[0], data, withDescription) + ParseAll(lib, ds[1..], data, withDescription)
  }

  /** No device is lost exactly when every module of every device has a
      known type. */
  lemma {:induction false} ParseAllComplete(lib: Dict<ModuleDef>, ds: seq<(DeviceCfg, string)>, data: Bytes, withDescription: bool)
    ensures |ParseAll(lib, ds, data, withDescription)| == |ds| <==>
      forall i :: 0 <= i < |ds| ==> !HasUnknown(lib, ds[i].0.modules)
  {
    if ds != [] {
      ParseAllComplete(lib, ds[1..], data, withDescription);
      if forall i :: 0 <= i < |ds[1..]| ==> !HasUnknown(lib, ds[1..][i].0.modules) {
        forall i | 1 <= i < |ds|
          ensures !HasUnknown(lib, ds[i].0.modules)
        {
          assert ds[i] == ds[1..][i - 1];
        }
      }
    }
  }

  /** Parsing is device by device: the result for a concatenation of device
      lists is the concatenation of the results, so order follows the
      configuration and a failing device affects no other. */
  lemma {:induction false} ParseAllAppend(lib: Dict<ModuleDef>, a: seq<(DeviceCfg, string)>, b: seq<(DeviceCfg, string)>, data: Bytes, withDescription: bool)
    ensures ParseAll(lib, a + b, data, withDescription) ==
      ParseAll(lib, a, data, withDescription) + ParseAll(lib, b, data, withDescription)
  {
    if a == [] {
      assert a + b == b;
    } else {
      assert (a + b)[1..] == a[1..] + b;
      assert (a + b)[0] == a[0];
      ParseAllAppend(lib, a[1..], b, data, withDescription);
      var head := DeviceOut(lib, a[0], data, withDescription);
      assert head + ParseAll(lib, a[1..], data, withDescription) + ParseAll(lib, b, data, withDescription) ==
        head + (ParseAll(lib, a[1..], data, withDescription) + ParseAll(lib, b, data, withDescription));
    }
  }

  /** A single device parses to itself or to nothing. */
  lemma ParseAllOne(lib: Dict<ModuleDef>, d: DeviceCfg, category: string, data: Bytes, withDescription: bool)
    ensures var r := ParseDevice(lib, d, category, data, withDescription);
      ParseAll(lib, [(d, category)], data, withDescription) == if r.Ok? then [r.value] else []
  {
    assert [(d, category)][1..] == [];
  }

  /** Every device of a list, paired with its category. */
  function Tagged(ds: seq<DeviceCfg>, category: string): (r: seq<(DeviceCfg, string)>)
    ensures |r| == |ds|
    ensures forall i :: 0 <= i < |ds| ==> r[i] == (ds[i], category)
  {
    seq(|ds|, i requires 0 <= i < |ds| => (ds[i], category))
  }

  /** The hopper block's device list: short hoppers, then hoppers without a
      category of their own, then long hoppers. */
  function HopperDevices(short: seq<DeviceCfg>, no: seq<DeviceCfg>, long: seq<DeviceCfg>): seq<(DeviceCfg, string)> {
    Tagged(short, "short_hopper") + Tagged(no, "no_hopper") + Tagged(long, "long_hopper")
  }

  /** `HopperParser.parse_all`: module results without a description. */
  function HopperParseAll(lib: Dict<ModuleDef>, short: seq<DeviceCfg>, no: seq<DeviceCfg>, long: seq<DeviceCfg>, data: Bytes)
    : (r: seq<DeviceResult>)
    ensures r == ParseAll(lib, Tagged(short, "short_hopper"), data, false)
               + ParseAll(lib, Tagged(no, "no_hopper"), data, false)
               + ParseAll(lib, Tagged(long, "long_hopper"), data, false)
  {
    ParseAllAppend(lib, Tagged(short, "short_hopper") + Tagged(no, "no_hopper"), Tagged(long, "long_hopper"), data, false);
    ParseAllAppend(lib, Tagged(short, "short_hopper"), Tagged(no, "no_hopper"), data, false);
    ParseAll(lib, HopperDevices(short, no, long), data, false)
  }

  /** `SCRFanParser.parse_all`: SCR devices, then fans; module results carry
      a description. */
  function ScrFanParseAll(lib: Dict<ModuleDef>, scr: seq<DeviceCfg>, fans: seq<DeviceCfg>, data: Bytes)
    : (r: seq<DeviceResult>)
    ensures r == ParseAll(lib, Tagged(scr, "scr"), data, true) + ParseAll(lib, Tagged(fans, "fan"), data, true)
  {
    ParseAllAppend(lib, Tagged(scr, "scr"), Tagged(fans, "fan"), data, true);
    ParseAll(lib, Tagged(scr, "scr") + Tagged(fans, "fan"), data, true)
  }

  /** How many modules at the front of the list decode. */
  function OkPrefix(dec: Decoder, ms: seq<ModuleRef>): (n: nat)
    ensures n <= |ms|
    ensures forall i :: 0 <= i < n ==> dec(ms[i]).Ok?
    ensures n < |ms| ==> dec(ms[n]).Err?
  {
    if ms == [] || dec(ms[0]).Err? then 0
    else 1 + OkPrefix(dec, ms[1..])
  }

  /** The roller-kiln loop: modules are stored in order until one raises;
      the exception is caught outside the loop, so what was stored stays. */
  function StoreUntilError(dec: Decoder, acc: Dict<ModuleResult>, ms: seq<ModuleRef>): (r: Dict<ModuleResult>)
    decreases |ms|
  {
    if ms == [] then acc
    else
      match dec(ms[0])
      case Err(_) => acc
      case Ok(m) => StoreUntilError(dec, Set(acc, ms[0].tag, m), ms[1..])
  }

  /** The modules kept are exactly those stored by the all-or-nothing loop
      run on the modules before the first one that raises. */
  lemma {:induction false} StoreUntilErrorPrefix(dec: Decoder, acc: Dict<ModuleResult>, ms: seq<ModuleRef>)
    ensures var n := OkPrefix(dec, ms);
      StoreModules(dec, acc, ms[..n]) == Ok(StoreUntilError(dec, acc, ms))
    decreases |ms|
  {
    var n := OkPrefix(dec, ms);
    if ms == [] || dec(ms[0]).Err? {
      assert ms[..n] == [];
    } else {
      var m := dec(ms[0]).value;
      StoreUntilErrorPrefix(dec, Set(acc, ms[0].tag, m), ms[1..]);
      assert ms[..n][0] == ms[0];
      assert ms[..n][1..] == ms[1..][..n - 1];
    }
  }

  /** `RollerKilnParser.parse_all`: always exactly one device, category
      'roller_kiln', holding the electricity meters and then the temperature
      sensors decoded up to the first module that raises. */
  function RollerKilnParseAll(lib: Dict<ModuleDef>, d: DeviceCfg, meters: seq<ModuleRef>, temps: seq<ModuleRef>, data: Bytes)
    : (r: seq<DeviceResult>)
    ensures |r| == 1 && r[0].category == Some("roller_kiln")
    ensures r[0].deviceId == d.deviceId && r[0].deviceName == d.deviceName && r[0].deviceType == d.deviceType
    ensures var dec, ms := Decode(lib, data, true), meters + temps;
      StoreModules(dec, [], ms[..OkPrefix(dec, ms)]) == Ok(r[0].modules)
  {
    StoreUntilErrorPrefix(Decode(lib, data, true), [], meters + temps);
    [DeviceResult(d.deviceId, d.deviceName, d.deviceType, Some("roller_kiln"),
                  StoreUntilError(Decode(lib, data, true), [], meters + temps))]
  }

  /** When no module fails, the loop runs over the whole list. */
  lemma OkPrefixAll(dec: Decoder, ms: seq<ModuleRef>)
    requires !Fails(dec, ms)
    ensures OkPrefix(dec, ms) == |ms|
  {
  }

  /** The tags of two lists in a row. */
  lemma {:induction false} TagsAppend(a: seq<ModuleRef>, b: seq<ModuleRef>)
    ensures Tags(a + b) == Tags(a) + Tags(b)
  {
    assert |Tags(a + b)| == |Tags(a) + Tags(b)|;
    forall i | 0 <= i < |a + b|
      ensures Tags(a + b)[i] == (Tags(a) + Tags(b))[i]
    {
      if i >= |a| {
        assert (a + b)[i] == b[i - |a|];
      }
    }
  }

  /** With every module type known, the roller kiln keeps all its modules. */
  lemma RollerKilnComplete(lib: Dict<ModuleDef>, d: DeviceCfg, meters: seq<ModuleRef>, temps: seq<ModuleRef>, data: Bytes)
    requires !HasUnknown(lib, meters + temps)
    ensures forall t :: t in Keys(RollerKilnParseAll(lib, d, meters, temps, data)[0].modules) <==>
      t in Tags(meters) || t in Tags(temps)
  {
    var ms := meters + temps;
    var dec := Decode(lib, data, true);
    DecodeFails(lib, data, true, ms);
    OkPrefixAll(dec, ms);
    assert ms[..OkPrefix(dec, ms)] == ms;
    var r := StoreModules(dec, [], ms);
    assert r == Ok(RollerKilnParseAll(lib, d, meters, temps, data)[0].modules);
    TagsAppend(meters, temps);
    assert forall t :: t in Keys(r.value) <==> t in Tags(ms);
  }
}
