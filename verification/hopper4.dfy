/** The combined sensor unit in DB4 (`Hopper4Parser`): modules reference a
    base module of the library, are bounds-checked against the block before
    any field is read, and are keyed by their module type. */
module Hopper4Parser {
  import opened Results
  import opened PyBytes
  import opened PyDict
  import opened PyRuntime
  import opened Scalar
  import opened Layout

  /** `_parse_field_value(module_data, field)`: both spellings of each type
      are read; an unknown type is the int 0, scaled; any exception (a short
      slice, a byte outside the slice, a negative shift) is the int 0,
      unscaled. */
  function FieldValue(md: Bytes, f: FieldSpec): (r: Value)
    ensures IsNumber(r) && !r.VBool?
    ensures KindEither(f.dataType).None? ==>
      NumValue(r) == 0.0 && (r.VFloat? <==> ScaleOf(f).VFloat?)
    ensures KindEither(f.dataType).Some? && 0 <= f.offset &&
            !Fits(md, f.offset, KindEither(f.dataType).value, BitOf(f)) ==>
            r == VInt(0)
  {
    match KindEither(f.dataType)
    case None => Mul(VInt(0), ScaleOf(f))
    case Some(k) =>
      match ReadRaw(md, f.offset, k, BitOf(f))
      case None => VInt(0)
      case Some(raw) => Mul(raw, ScaleOf(f))
  }

  /** A field that fits reads the reference value, scaled; a Bool therefore
      reads as 0 or 1 times the scale rather than as a boolean. */
  lemma FieldValueFits(md: Bytes, f: FieldSpec, k: Kind)
    requires KindEither(f.dataType) == Some(k) && Fits(md, f.offset, k, BitOf(f))
    ensures FieldValue(md, f) == Mul(Reference(md[f.offset..f.offset + Width(k)], k, BitOf(f)), ScaleOf(f))
  {
  }

  /** `parse_module(module_info, db_data)`: `{}` for an unknown base module
      or for `offset + size` past the end of the block; otherwise every
      base-module field decoded relative to the module slice. */
  function ParseModule(lib: Dict<ModuleDef>, m: ModuleRef, data: Bytes): (r: ModuleResult)
    ensures r.EmptyModule? <==> m.baseModule !in Keys(lib) || m.offset + m.size > |data|
    ensures r.Module? ==>
      r.moduleType == m.moduleType && r.tag.None? && r.baseModule == Some(m.baseModule) &&
      r.description == Some(m.description.GetOr("")) && UniqueKeys(r.fields) &&
      forall nm :: nm in Keys(r.fields) <==> nm in FieldNames(Get(lib, m.baseModule).value.fields)
  {
    match Get(lib, m.baseModule)
    case None => EmptyModule
    case Some(def) =>
      if m.offset + m.size > |data| then EmptyModule
      else
        var md := ModuleSlice(data, m);
        Module(m.moduleType, None, Some(m.baseModule), Some(m.description.GetOr("")),
               FromPairs(Record(def.fields, f => FieldValue(md, f))))
  }

  /** With distinct field names, one entry per base-module field, in order;
      a field of a module placed inside the block is read at the module
      offset plus the field offset. */
  lemma ParseModuleFields(lib: Dict<ModuleDef>, m: ModuleRef, data: Bytes)
    requires m.baseModule in Keys(lib) && m.offset + m.size <= |data|
    requires Distinct(FieldNames(Get(lib, m.baseModule).value.fields))
    ensures var fs := Get(lib, m.baseModule).value.fields;
      var r := ParseModule(lib, m, data);
      |r.fields| == |fs| &&
      forall i :: 0 <= i < |fs| ==>
        r.fields[i] == (fs[i].name, InfoOf(fs[i], FieldValue(ModuleSlice(data, m), fs[i])))
  {
    var md := ModuleSlice(data, m);
    FromPairsDistinct(Record(Get(lib, m.baseModule).value.fields, f => FieldValue(md, f)));
  }

  /** Inside a module that lies inside the block, a field that fits the
      module is read from the block at the module offset plus its own. */
  lemma FieldInBlock(data: Bytes, m: ModuleRef, f: FieldSpec, k: Kind)
    requires 0 <= m.offset && 0 <= m.size && m.offset + m.size <= |data|
    requires KindEither(f.dataType) == Some(k) && 0 <= f.offset && f.offset + Width(k) <= m.size
    requires k == Bit ==> BitOf(f) >= 0
    ensures var at := m.offset + f.offset;
      FieldValue(ModuleSlice(data, m), f) ==
        Mul(Reference(data[at..at + Width(k)], k, BitOf(f)), ScaleOf(f))
  {
    ReadInBlock(data, m, f.offset, k, BitOf(f));
  }

  /** The module parser of `parse_all`, with the library and the block fixed. */
  function Parser(lib: Dict<ModuleDef>, data: Bytes): ModuleRef -> ModuleResult {
    m => ParseModule(lib, m, data)
  }

  /** Some module of the list has type `t` and a non-empty parse. */
  predicate StoredType(parse: ModuleRef -> ModuleResult, ms: seq<ModuleRef>, t: string) {
    exists i :: 0 <= i < |ms| && ms[i].moduleType == t && parse(ms[i]).Module?
  }

  /** `StoredType` split at the head of the list. */
  lemma StoredTypeCons(parse: ModuleRef -> ModuleResult, ms: seq<ModuleRef>)
    requires ms != []
    ensures forall t :: StoredType(parse, ms, t) <==>
      (ms[0].moduleType == t && parse(ms[0]).Module?) || StoredType(parse, ms[1..], t)
  {
    forall t | StoredType(parse, ms[1..], t)
      ensures StoredType(parse, ms, t)
    {
      var i :| 0 <= i < |ms[1..]| && ms[1..][i].moduleType == t && parse(ms[1..][i]).Module?;
      assert ms[i + 1] == ms[1..][i];
    }
    forall t | StoredType(parse, ms, t) && !(ms[0].moduleType == t && parse(ms[0]).Module?)
      ensures StoredType(parse, ms[1..], t)
    {
      var i :| 0 <= i < |ms| && ms[i].moduleType == t && parse(ms[i]).Module?;
      assert ms[1..][i - 1] == ms[i];
    }
  }

  /** The `(module_type, result)` pairs of the modules whose parse is not
      empty, in list order. */
  function NonEmpty(parse: ModuleRef -> ModuleResult, ms: seq<ModuleRef>): (r: Dict<ModuleResult>)
    ensures forall t :: t in Keys(r) <==> StoredType(parse, ms, t)
    ensures forall i :: 0 <= i < |r| ==> r[i].1.Module?
  {
    if ms == [] then []
    else
      var rest := NonEmpty(parse, ms[1..]);
      var head := if parse(ms[0]).Module? then [(ms[0].moduleType, parse(ms[0]))] else [];
      KeysConcat(head, rest);
      StoredTypeCons(parse, ms);
      head + rest
  }

  /** The loop of `parse_all`: `modules[module_type] = parsed` for every
      module whose parse is not empty, storing into `acc`. */
  function StoreParsed(parse: ModuleRef -> ModuleResult, acc: Dict<ModuleResult>, ms: seq<ModuleRef>): (r: Dict<ModuleResult>)
    decreases |ms|
  {
    if ms == [] then acc
    else
      var parsed := parse(ms[0]);
      StoreParsed(parse, if parsed.Module? then Set(acc, ms[0].moduleType, parsed) else acc, ms[1..])
  }

  /** The loop is `acc.update` with the non-empty parses: an empty parse is
      skipped, and a repeated module type holds its last non-empty parse. */
  lemma {:induction false} StoreParsedUpdate(parse: ModuleRef -> ModuleResult, acc: Dict<ModuleResult>, ms: seq<ModuleRef>)
    ensures StoreParsed(parse, acc, ms) == Update(acc, NonEmpty(parse, ms))
    decreases |ms|
  {
    if ms != [] {
      var parsed := parse(ms[0]);
      var acc' := if parsed.Module? then Set(acc, ms[0].moduleType, parsed) else acc;
      StoreParsedUpdate(parse, acc', ms[1..]);
      if parsed.Module? {
        assert NonEmpty(parse, ms) == [(ms[0].moduleType, parsed)] + NonEmpty(parse, ms[1..]);
      } else {
        assert NonEmpty(parse, ms) == NonEmpty(parse, ms[1..]);
      }
    }
  }

  /** `Hopper4Parser.parse_all`: no configuration gives []; otherwise one
      device, `hopper_unit_4`, whose modules are the non-empty parses keyed
      by module type, each type holding the last such parse. */
  function ParseAll(lib: Dict<ModuleDef>, config: Option<seq<ModuleRef>>, data: Bytes): (r: seq<DeviceResult>)
    ensures config.None? <==> r == []
    ensures config.Some? ==>
      |r| == 1 && r[0].deviceId == "hopper_unit_4" &&
      r[0].deviceName == "4号料仓综合监测单元" && r[0].deviceType == "hopper_sensor_unit" &&
      r[0].category.None? && r[0].modules == FromPairs(NonEmpty(Parser(lib, data), config.value))
  {
    match config
    case None => []
    case Some(ms) =>
      StoreParsedUpdate(Parser(lib, data), [], ms);
      [DeviceResult("hopper_unit_4", "4号料仓综合监测单元", "hopper_sensor_unit", None,
                    StoreParsed(Parser(lib, data), [], ms))]
  }

  /** The stored module types are the types of the modules that parse to a
      non-empty result, each holding the last of those parses, and no
      stored module is empty. */
  lemma ParseAllModules(lib: Dict<ModuleDef>, ms: seq<ModuleRef>, data: Bytes, t: string)
    ensures var mods := ParseAll(lib, Some(ms), data)[0].modules;
      var e := NonEmpty(Parser(lib, data), ms);
      UniqueKeys(mods) &&
      (t in Keys(mods) <==> StoredType(Parser(lib, data), ms, t)) &&
      Get(mods, t) == LastGet(e, t) &&
      (t in Keys(mods) ==> Get(mods, t).value.Module?)
  {
    var e := NonEmpty(Parser(lib, data), ms);
    UpdateGet([], e, t);
    if t in Keys(e) {
      LastGetIn(e, t);
    }
  }
}
