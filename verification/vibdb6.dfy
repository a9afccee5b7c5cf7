/** The DB6 vibration-sensor parser (`VibDB6Parser`). Its layout inlines the
    fields of each module, and field offsets are absolute in the block. The
    speed, displacement-amplitude and frequency modules are merged into one
    `vibration` module under the DB4 field names; every other module is
    emitted on its own. */
module VibDb6Parser {
  import opened Results
  import opened PyBytes
  import opened PyDict
  import opened PyRuntime
  import opened Scalar
  import opened Layout

  /** The type names this parser decodes: both spellings of every type but
      Bool. */
  function VibKind(t: string): (r: Option<Kind>)
    ensures r.Some? ==> r == KindEither(t) && r.value != Bit
    ensures r.None? ==> KindEither(t).None? || KindEither(t) == Some(Bit)
  {
    match KindEither(t)
    case Some(Bit) => None
    case other => other
  }

  /** `_parse_field_value(db_data, field)`, read at the field's absolute
      offset: a type it does not decode is the int 0, scaled; a read that
      raises is the int 0, unscaled. */
  function FieldValue(data: Bytes, f: FieldSpec): (r: Value)
    ensures IsNumber(r) && !r.VBool?
    ensures VibKind(f.dataType).None? ==>
      NumValue(r) == 0.0 && (r.VFloat? <==> ScaleOf(f).VFloat?)
    ensures VibKind(f.dataType).Some? && 0 <= f.offset &&
            f.offset + Width(VibKind(f.dataType).value) > |data| ==>
            r == VInt(0)
  {
    match VibKind(f.dataType)
    case None => Mul(VInt(0), ScaleOf(f))
    case Some(k) =>
      match ReadRaw(data, f.offset, k, 0)
      case None => VInt(0)
      case Some(raw) => Mul(raw, ScaleOf(f))
  }

  /** A field that fits the block is read at its own offset, whatever the
      offset and size of its module, and scaled. */
  lemma FieldValueFits(data: Bytes, f: FieldSpec, k: Kind)
    requires VibKind(f.dataType) == Some(k) && 0 <= f.offset && f.offset + Width(k) <= |data|
    ensures FieldValue(data, f) == Mul(Reference(data[f.offset..f.offset + Width(k)], k, 0), ScaleOf(f))
  {
  }

  /** `_parse_module_fields(module_info, db_data)`: `{}` when the module
      runs past the end of the block; otherwise one entry per inlined field. */
  function ModuleFields(data: Bytes, m: ModuleRef): (r: Dict<FieldInfo>)
    ensures m.offset + m.size > |data| ==> r == []
    ensures m.offset + m.size <= |data| ==>
      UniqueKeys(r) && forall nm :: nm in Keys(r) <==> nm in FieldNames(m.fields)
  {
    if m.offset + m.size > |data| then []
    else FromPairs(Record(m.fields, f => FieldValue(data, f)))
  }

  /** With distinct field names, a module inside the block has one entry
      per field, in layout order, each read from the whole block. */
  lemma ModuleFieldsDistinct(data: Bytes, m: ModuleRef)
    requires m.offset + m.size <= |data| && Distinct(FieldNames(m.fields))
    ensures var r := ModuleFields(data, m);
      |r| == |m.fields| &&
      forall i :: 0 <= i < |r| ==> r[i] == (m.fields[i].name, InfoOf(m.fields[i], FieldValue(data, m.fields[i])))
  {
    FromPairsDistinct(Record(m.fields, f => FieldValue(data, f)));
  }

  /** What `_parse_module_fields` gives for a module, with the block fixed. */
  type FieldsOf = ModuleRef -> Dict<FieldInfo>

  /** `_FIELD_MAPPING`: DB6 field name to DB4 field name. */
  const FieldMapping: Dict<string> := [
    ("vel_x", "VX"), ("vel_y", "VY"), ("vel_z", "VZ"),
    ("dis_f_x", "DX"), ("dis_f_y", "DY"), ("dis_f_z", "DZ"),
    ("freq_x", "HZX"), ("freq_y", "HZY"), ("freq_z", "HZZ")]

  /** `_FIELD_MAPPING.get(raw_name, raw_name)`. */
  function MapName(raw: string): (r: string)
    ensures raw !in Keys(FieldMapping) ==> r == raw
    ensures raw in Keys(FieldMapping) ==> Get(FieldMapping, raw) == Some(r)
  {
    Get(FieldMapping, raw).GetOr(raw)
  }

  /** `_VIBRATION_MODULES`: the module types merged into `vibration`. */
  predicate Merged(moduleType: string) {
    moduleType == "vel" || moduleType == "dis_f" || moduleType == "freq"
  }

  /** The description of the merged module. */
  const VibrationDescription: string := "振动传感器核心数据 (速度/位移/频率)"

  /** A module's fields under their mapped names, in order. */
  function Renamed(fs: Dict<FieldInfo>): (r: Dict<FieldInfo>)
    ensures |r| == |fs|
    ensures forall i :: 0 <= i < |fs| ==> r[i] == (MapName(fs[i].0), fs[i].1)
  {
    seq(|fs|, i requires 0 <= i < |fs| => (MapName(fs[i].0), fs[i].1))
  }

  /** The renamed field pairs of the merged modules that parse to a
      non-empty result, in module order: what `vibration_fields` receives. */
  function MergedPairs(fo: FieldsOf, ms: seq<ModuleRef>): (r: Dict<FieldInfo>)
    ensures ms == [] ==> r == []
  {
    if ms == [] then []
    else
      var parsed := fo(ms[0]);
      (if parsed != [] && Merged(ms[0].moduleType) then Renamed(parsed) else []) + MergedPairs(fo, ms[1..])
  }

  /** The modules emitted on their own, in module order: every module that
      is not merged and parses to a non-empty result. */
  function OtherModules(fo: FieldsOf, ms: seq<ModuleRef>): (r: Dict<ModuleResult>)
    ensures forall i :: 0 <= i < |r| ==> r[i].1.Module? && r[i].1.moduleType == r[i].0
  {
    if ms == [] then []
    else
      var m := ms[0];
      var parsed := fo(m);
      (if parsed != [] && !Merged(m.moduleType)
       then [(m.moduleType, Module(m.moduleType, None, None, Some(m.description.GetOr("")), parsed))]
       else []) + OtherModules(fo, ms[1..])
  }

  /** The loop of `parse_all` over the modules, carrying `vibration_fields`
      and the device's modules. */
  function Collect(fo: FieldsOf, vib: Dict<FieldInfo>, mods: Dict<ModuleResult>, ms: seq<ModuleRef>)
    : (r: (Dict<FieldInfo>, Dict<ModuleResult>))
    decreases |ms|
  {
    if ms == [] then (vib, mods)
    else
      var m := ms[0];
      var parsed := fo(m);
      if parsed == [] then Collect(fo, vib, mods, ms[1..])
      else if Merged(m.moduleType) then Collect(fo, Update(vib, Renamed(parsed)), mods, ms[1..])
      else
        Collect(fo, vib, Set(mods, m.moduleType, Module(m.moduleType, None, None, Some(m.description.GetOr("")), parsed)), ms[1..])
  }

  /** The loop stores the merged pairs into `vibration_fields` and the other
      modules into the device, each in module order, later entries
      overwriting earlier ones with the same key. */
  lemma {:induction false} CollectUpdate(fo: FieldsOf, vib: Dict<FieldInfo>, mods: Dict<ModuleResult>, ms: seq<ModuleRef>)
    ensures Collect(fo, vib, mods, ms) == (Update(vib, MergedPairs(fo, ms)), Update(mods, OtherModules(fo, ms)))
    decreases |ms|
  {
    if ms != [] {
      var m := ms[0];
      var parsed := fo(m);
      var e, o := MergedPairs(fo, ms[1..]), OtherModules(fo, ms[1..]);
      if parsed == [] {
        calc {
          Collect(fo, vib, mods, ms);
          Collect(fo, vib, mods, ms[1..]);
          { CollectUpdate(fo, vib, mods, ms[1..]); }
          (Update(vib, e), Update(mods, o));
          { assert MergedPairs(fo, ms) == e && OtherModules(fo, ms) == o; }
          (Update(vib, MergedPairs(fo, ms)), Update(mods, OtherModules(fo, ms)));
        }
      } else if Merged(m.moduleType) {
        calc {
          Collect(fo, vib, mods, ms);
          Collect(fo, Update(vib, Renamed(parsed)), mods, ms[1..]);
          { CollectUpdate(fo, Update(vib, Renamed(parsed)), mods, ms[1..]); }
          (Update(Update(vib, Renamed(parsed)), e), Update(mods, o));
          { UpdateConcat(vib, Renamed(parsed), e); }
          (Update(vib, Renamed(parsed) + e), Update(mods, o));
          { assert MergedPairs(fo, ms) == Renamed(parsed) + e && OtherModules(fo, ms) == o; }
          (Update(vib, MergedPairs(fo, ms)), Update(mods, OtherModules(fo, ms)));
        }
      } else {
        var x := (m.moduleType, Module(m.moduleType, None, None, Some(m.description.GetOr("")), parsed));
        calc {
          Collect(fo, vib, mods, ms);
          Collect(fo, vib, Set(mods, x.0, x.1), ms[1..]);
          { CollectUpdate(fo, vib, Set(mods, x.0, x.1), ms[1..]); }
          (Update(vib, e), Update(Set(mods, x.0, x.1), o));
          { assert [x][1..] == []; }
          (Update(vib, e), Update(Update(mods, [x]), o));
          { UpdateConcat(mods, [x], o); }
          (Update(vib, e), Update(mods, [x] + o));
          { assert MergedPairs(fo, ms) == e && OtherModules(fo, ms) == [x] + o; }
          (Update(vib, MergedPairs(fo, ms)), Update(mods, OtherModules(fo, ms)));
        }
      }
    }
  }

  /** The device identity `parse_all` reports. */
  const DeviceId: string := "hopper_vib_6"
  const DeviceName: string := "料仓振动传感器(DB6)"
  const DeviceType: string := "vibration_sensor"

  /** The device's modules after the loop: the other modules, then the
      merged module when at least one field was merged. */
  function DeviceModules(fo: FieldsOf, ms: seq<ModuleRef>): Dict<ModuleResult> {
    var (vib, mods) := Collect(fo, [], [], ms);
    if vib == [] then mods
    else Set(mods, "vibration", Module("vibration", None, None, Some(VibrationDescription), vib))
  }

  /** The module decoder of `parse_all` over one block. */
  function Fields(data: Bytes): FieldsOf {
    m => ModuleFields(data, m)
  }

  /** `VibDB6Parser.parse_all`. No (or an empty) configuration gives [];
      otherwise one device holding the modules the loop collected. */
  function ParseAll(config: Option<seq<ModuleRef>>, data: Bytes): (r: seq<DeviceResult>)
    ensures config.None? <==> r == []
    ensures config.Some? ==>
      |r| == 1 && r[0].deviceId == DeviceId && r[0].deviceName == DeviceName &&
      r[0].deviceType == DeviceType && r[0].category.None? &&
      r[0].modules == DeviceModules(Fields(data), config.value)
  {
    match config
    case None => []
    case Some(ms) => [DeviceResult(DeviceId, DeviceName, DeviceType, None, DeviceModules(Fields(data), ms))]
  }

  /** The merged module: present exactly when at least one field was merged
      (unless another module is itself typed `vibration`), and then it holds
      every merged name with the value of the last field mapped to it. */
  lemma VibrationModule(fo: FieldsOf, ms: seq<ModuleRef>, name: string)
    requires forall i :: 0 <= i < |ms| ==> ms[i].moduleType != "vibration"
    ensures var mods := DeviceModules(fo, ms);
      var e := MergedPairs(fo, ms);
      ("vibration" in Keys(mods) <==> e != []) &&
      (e != [] ==>
        Get(mods, "vibration") == Some(Module("vibration", None, None, Some(VibrationDescription), FromPairs(e))) &&
        Get(FromPairs(e), name) == LastGet(e, name))
  {
    var e := MergedPairs(fo, ms);
    var others := Update([], OtherModules(fo, ms));
    assert Collect(fo, [], [], ms) == (FromPairs(e), others) by {
      CollectUpdate(fo, [], [], ms);
    }
    assert "vibration" !in Keys(others) by {
      OtherTypes(fo, ms);
    }
    assert FromPairs(e) == [] <==> e == [] by {
      if e != [] {
        assert e[0].0 in Keys(e);
      }
    }
    UpdateGet([], e, name);
  }

  /** Every module emitted on its own keeps its type as key. */
  lemma OtherTypes(fo: FieldsOf, ms: seq<ModuleRef>)
    ensures forall t :: t in Keys(OtherModules(fo, ms)) ==> exists i :: 0 <= i < |ms| && ms[i].moduleType == t
  {
    if ms != [] {
      OtherTypes(fo, ms[1..]);
      var m := ms[0];
      var parsed := fo(m);
      var head := if parsed != [] && !Merged(m.moduleType)
        then [(m.moduleType, Module(m.moduleType, None, None, Some(m.description.GetOr("")), parsed))]
        else [];
      KeysConcat(head, OtherModules(fo, ms[1..]));
      forall t | t in Keys(OtherModules(fo, ms[1..]))
        ensures exists i :: 0 <= i < |ms| && ms[i].moduleType == t
      {
        var i :| 0 <= i < |ms[1..]| && ms[1..][i].moduleType == t;
        assert ms[i + 1] == ms[1..][i];
      }
    }
  }

  /** The other modules: a module type other than `vibration` is stored
      with its last non-empty, unmerged parse. */
  lemma OtherModule(fo: FieldsOf, ms: seq<ModuleRef>, t: string)
    requires t != "vibration"
    ensures Get(DeviceModules(fo, ms), t) == LastGet(OtherModules(fo, ms), t)
  {
    CollectUpdate(fo, [], [], ms);
    UpdateGet([], OtherModules(fo, ms), t);
  }

  /** A module that runs past the end of the block contributes nothing. */
  lemma OutOfBlockSkipped(data: Bytes, m: ModuleRef, ms: seq<ModuleRef>)
    requires m.offset + m.size > |data|
    ensures MergedPairs(Fields(data), [m] + ms) == MergedPairs(Fields(data), ms)
    ensures OtherModules(Fields(data), [m] + ms) == OtherModules(Fields(data), ms)
  {
    assert ([m] + ms)[1..] == ms;
  }
}
