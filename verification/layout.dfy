/** The layouts the block parsers are driven by (normally loaded from YAML)
    and the shape of what they return. A key the code reads with `[...]` is
    a plain field here; a key it reads with `.get(key, default)` is an
    Option, so that the default is visible where it is applied. */
module Layout {
  import opened Results
  import opened PyBytes
  import opened PyDict
  import opened PyRuntime
  import opened Scalar

  /** One field of a module layout. `bitOffset` is the `bit_offset` key,
      `bit` the `bit` key: parsers disagree on which one a Bool reads.
      `children` is `field.get('children', [])`, so an absent key and an
      empty list are the same. */
  datatype FieldSpec = FieldSpec(
    name: string,
    offset: int,
    dataType: string,
    scale: Option<Number>,
    bitOffset: Option<int>,
    bit: Option<int>,
    displayName: Option<string>,
    unit: Option<string>,
    children: seq<FieldSpec>)

  /** `field.get('scale', 1.0)`. */
  function ScaleOf(f: FieldSpec): Number {
    f.scale.GetOr(VFloat(1.0))
  }

  /** The bit a Bool field tests in the generic parser:
      `field.get('bit_offset', 0)`. */
  function BitOffsetOf(f: FieldSpec): int {
    f.bitOffset.GetOr(0)
  }

  /** The bit a Bool field tests in the DB4 parsers: `field.get('bit', 0)`. */
  function BitOf(f: FieldSpec): int {
    f.bit.GetOr(0)
  }

  /** One decoded field: `{'value': ..., 'display_name': ..., 'unit': ...}`. */
  datatype FieldInfo = FieldInfo(value: Value, displayName: string, unit: string)

  /** The entry every parser records for field `f` with value `v`: the
      display name defaults to the field name and the unit to ''. */
  function InfoOf(f: FieldSpec, v: Value): (r: FieldInfo)
    ensures r.value == v
    ensures f.displayName.None? ==> r.displayName == f.name
    ensures f.displayName.Some? ==> r.displayName == f.displayName.value
    ensures r.unit == (if f.unit.Some? then f.unit.value else "")
  {
    FieldInfo(v, f.displayName.GetOr(f.name), f.unit.GetOr(""))
  }

  /** A base module definition from the module library (`plc_modules.yaml`). */
  datatype ModuleDef = ModuleDef(name: string, description: Option<string>, fields: seq<FieldSpec>)

  /** A module instance placed in a data block by a device configuration.
      `fields` is used only by the DB6 layout, which inlines its fields. */
  datatype ModuleRef = ModuleRef(
    moduleType: string,
    tag: string,
    baseModule: string,
    offset: int,
    size: int,
    description: Option<string>,
    fields: seq<FieldSpec>)

  /** A module's bytes: `data[offset:offset + size]`, clamped as Python
      slices are. */
  function ModuleSlice(data: Bytes, m: ModuleRef): Bytes {
    Slice(data, m.offset, m.offset + m.size)
  }

  /** Inside a module that lies inside the block, a read at `off` in the
      module's bytes is a read at the module offset plus `off` in the block. */
  lemma ReadInBlock(data: Bytes, m: ModuleRef, off: int, k: Kind, bit: int)
    requires 0 <= m.offset && 0 <= m.size && m.offset + m.size <= |data|
    requires 0 <= off && off + Width(k) <= m.size && (k == Bit ==> bit >= 0)
    ensures ReadRaw(ModuleSlice(data, m), off, k, bit) ==
      Some(Reference(data[m.offset + off..m.offset + off + Width(k)], k, bit))
  {
    var lo, hi := m.offset, m.offset + m.size;
    assert ModuleSlice(data, m) == Slice(data, lo, hi);
    ReadInSlice(data, lo, hi, off, k, bit);
  }

  /** A device in a block configuration. */
  datatype DeviceCfg = DeviceCfg(deviceId: string, deviceName: string, deviceType: string, modules: seq<ModuleRef>)

  /** A parsed module. `EmptyModule` is the `{}` some parsers return for a
      module they could not place; in `Module`, None marks a key the parser
      does not emit. `moduleType` is the `module_type` key, except in the
      generic module parser, whose `parse_module` stores the module's name
      there (the name is the lookup key it parses by). */
  datatype ModuleResult =
    | EmptyModule
    | Module(
        moduleType: string,
        tag: Option<string>,
        baseModule: Option<string>,
        description: Option<string>,
        fields: Dict<FieldInfo>)

  /** A parsed device (the wall-clock timestamp is not part of the model). */
  datatype DeviceResult = DeviceResult(
    deviceId: string,
    deviceName: string,
    deviceType: string,
    category: Option<string>,
    modules: Dict<ModuleResult>)

  /** The field names of a layout, in order. */
  function FieldNames(fs: seq<FieldSpec>): (r: seq<string>)
    ensures |r| == |fs|
    ensures forall i :: 0 <= i < |fs| ==> r[i] == fs[i].name
  {
    if fs == [] then [] else [fs[0].name] + FieldNames(fs[1..])
  }

  /** The `(name, info)` pairs a parser stores, one per field in layout
      order, when field `f` decodes to `val(f)`. */
  function Record(fs: seq<FieldSpec>, val: FieldSpec -> Value): (r: Dict<FieldInfo>)
    ensures |r| == |fs|
    ensures Keys(r) == FieldNames(fs)
    ensures forall i :: 0 <= i < |fs| ==> r[i] == (fs[i].name, InfoOf(fs[i], val(fs[i])))
  {
    var r := seq(|fs|, i requires 0 <= i < |fs| => (fs[i].name, InfoOf(fs[i], val(fs[i]))));
    KeysIndex(r);
    r
  }
}
