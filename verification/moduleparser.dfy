/** The generic, library-driven decoder: `ModuleParser` decodes a module
    from its definition in the module library, recursing into Struct
    fields. Field offsets are relative to the enclosing Struct, so a leaf
    is read at the sum of the offsets on its path. */
module ModuleParser {
  import opened Results
  import opened PyBytes
  import opened PyDict
  import opened PyRuntime
  import opened Scalar
  import opened Layout

  /** The value of a non-Struct field read at absolute offset `at`: an
      unknown type gives an unscaled 0.0, a failed read gives 0.0, and a
      successful read gives the raw value times the scale (a Bool included,
      since a Python bool is an int). */
  function Leaf(data: Bytes, f: FieldSpec, at: int): (r: Value)
    ensures IsNumber(r) && !r.VBool?
    ensures KindCamel(f.dataType).None? ==> r == VFloat(0.0)
    ensures KindCamel(f.dataType).Some? && 0 <= at && !Fits(data, at, KindCamel(f.dataType).value, BitOffsetOf(f))
      ==> r == VFloat(0.0)
  {
    match KindCamel(f.dataType)
    case None => VFloat(0.0)
    case Some(k) =>
      match ReadRaw(data, at, k, BitOffsetOf(f))
      case None => VFloat(0.0)
      case Some(raw) => Mul(raw, ScaleOf(f))
  }

  /** A read that fits gives the reference reading of the bytes at `at`,
      times the scale. */
  lemma LeafFits(data: Bytes, f: FieldSpec, at: int, k: Kind)
    requires KindCamel(f.dataType) == Some(k) && Fits(data, at, k, BitOffsetOf(f))
    ensures Leaf(data, f, at) == Mul(Reference(data[at..at + Width(k)], k, BitOffsetOf(f)), ScaleOf(f))
  {
  }

  /** `parse_field(data, field, base_offset)`: a Struct becomes a dict of its
      children's values, each read relative to the Struct's own absolute
      offset; any other field is a leaf read at `base + offset`. */
  function ParseField(data: Bytes, f: FieldSpec, base: int): (r: Value)
    ensures f.dataType != "Struct" ==> r == Leaf(data, f, base + f.offset)
    ensures f.dataType == "Struct" ==>
      r.VDict? && UniqueKeys(r.entries) &&
      (forall nm :: nm in Keys(r.entries) <==> nm in FieldNames(f.children))
    ensures f.dataType == "Struct" && Distinct(FieldNames(f.children)) ==>
      r.entries == Members(data, f.children, base + f.offset)
    decreases f
  {
    if f.dataType == "Struct" then
      var ms := Members(data, f.children, base + f.offset);
      FromPairsDistinct(ms);
      VDict(FromPairs(ms))
    else
      Leaf(data, f, base + f.offset)
  }

  /** The `(name, value)` pairs the Struct loop stores, in child order,
      every child decoded relative to `at`. */
  function Members(data: Bytes, cs: seq<FieldSpec>, at: int): (r: Dict<Value>)
    ensures |r| == |cs| && Keys(r) == FieldNames(cs)
    decreases cs
  {
    if cs == [] then []
    else [(cs[0].name, ParseField(data, cs[0], at))] + Members(data, cs[1..], at)
  }

  /** The i-th pair holds the i-th child decoded relative to `at`. */
  lemma {:induction false} MembersIndex(data: Bytes, cs: seq<FieldSpec>, at: int, i: nat)
    requires i < |cs|
    ensures Members(data, cs, at)[i] == (cs[i].name, ParseField(data, cs[i], at))
  {
    if i > 0 {
      MembersIndex(data, cs[1..], at, i - 1);
    }
  }

  /** A leaf child is read at the Struct's absolute offset plus its own
      offset, so nested offsets add up along the path. */
  lemma MembersLeaf(data: Bytes, cs: seq<FieldSpec>, at: int, i: nat)
    requires i < |cs| && cs[i].dataType != "Struct"
    ensures Members(data, cs, at)[i] == (cs[i].name, Leaf(data, cs[i], at + cs[i].offset))
  {
    MembersIndex(data, cs, at, i);
  }

  /** `parse_module(module_name, data)`: ValueError (Err) when the name is not
      in the library; otherwise one entry per layout field, decoded from
      offset 0 of `data`, under the module's name and description. The
      result's `module_name` key is held in `moduleType`. */
  function ParseModule(lib: Dict<ModuleDef>, name: string, data: Bytes): (r: Result<ModuleResult, string>)
    ensures r.Err? <==> name !in Keys(lib)
    ensures r.Ok? ==>
      r.value.Module? && r.value.moduleType == name &&
      r.value.tag.None? && r.value.baseModule.None? &&
      r.value.description == Some(Get(lib, name).value.description.GetOr("")) &&
      UniqueKeys(r.value.fields) &&
      forall nm :: nm in Keys(r.value.fields) <==> nm in FieldNames(Get(lib, name).value.fields)
  {
    match Get(lib, name)
    case None => Err("module definition not found: " + name)
    case Some(def) =>
      Ok(Module(name, None, None, Some(def.description.GetOr("")),
                FromPairs(Record(def.fields, f => ParseField(data, f, 0)))))
  }

  /** With distinct field names, a parsed module holds exactly one entry per
      layout field, in layout order, carrying the decoded value and the
      display name and unit defaults. */
  lemma ParseModuleFields(lib: Dict<ModuleDef>, name: string, data: Bytes)
    requires name in Keys(lib) && Distinct(FieldNames(Get(lib, name).value.fields))
    ensures var fs := Get(lib, name).value.fields;
      var m := ParseModule(lib, name, data).value;
      |m.fields| == |fs| &&
      forall i :: 0 <= i < |fs| ==>
        m.fields[i] == (fs[i].name, InfoOf(fs[i], ParseField(data, fs[i], 0)))
  {
    var fs := Get(lib, name).value.fields;
    FromPairsDistinct(Record(fs, f => ParseField(data, f, 0)));
  }

  /** `parse_device_data(device_modules, db_data)`: every listed module is
      parsed; one whose parse raises is left out and the rest still appear. */
  function ParseDeviceData(lib: Dict<ModuleDef>, names: seq<string>, data: Bytes): (r: Dict<ModuleResult>)
    ensures UniqueKeys(r)
    ensures forall nm :: nm in Keys(r) <==> nm in names && nm in Keys(lib)
    ensures forall nm :: nm in Keys(r) ==> Get(r, nm) == Some(ParseModule(lib, nm, data).value)
  {
    if names == [] then []
    else
      var prev := ParseDeviceData(lib, names[..|names| - 1], data);
      var nm := names[|names| - 1];
      assert names == names[..|names| - 1] + [nm];
      match ParseModule(lib, nm, data)
      case Err(_) => prev
      case Ok(m) => Set(prev, nm, m)
  }
}
