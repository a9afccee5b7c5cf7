/** The storage side of the PLC service: turning one parsed device into
    the points written to the time-series store (`flatten_device_data`),
    with extra per-module tags looked up in the device-module
    configuration (`_get_device_config`). The configuration is a
    parameter; the timestamp is not part of the model. */
module PlcService {
  import opened Results
  import opened PyDict
  import opened PyRuntime
  import opened Layout

  // ------------------------------------------------------ device lookup

  /** One `modules` entry of a configured device: the module name and its
      extra tags. */
  datatype ModuleTags = ModuleTags(moduleName: string, tags: Dict<string>)

  /** One configured device. Its id and type are whatever the YAML holds,
      so they are compared the way Python compares them. */
  datatype DeviceEntry = DeviceEntry(deviceId: Value, deviceType: Value, modules: seq<ModuleTags>)

  /** `self.device_modules_config`: list-valued keys such as `mappings` and
      `<type>_modules`. */
  type ModulesConfig = Dict<seq<DeviceEntry>>

  /** `device.get('device_id') == device_id and device.get('device_type') == device_type`. */
  predicate Matches(e: DeviceEntry, deviceType: string, deviceId: int) {
    EqualsInt(e.deviceId, deviceId) && e.deviceType == VStr(deviceType)
  }

  /** The first entry of a list that matches, if any. */
  function FindDevice(ds: seq<DeviceEntry>, deviceType: string, deviceId: int): (r: Option<DeviceEntry>)
    ensures r.None? <==> forall i :: 0 <= i < |ds| ==> !Matches(ds[i], deviceType, deviceId)
    ensures r.Some? ==>
      exists i :: (0 <= i < |ds| && ds[i] == r.value && Matches(ds[i], deviceType, deviceId) &&
                   forall j :: 0 <= j < i ==> !Matches(ds[j], deviceType, deviceId))
  {
    if ds == [] then None
    else if Matches(ds[0], deviceType, deviceId) then Some(ds[0])
    else
      var r := FindDevice(ds[1..], deviceType, deviceId);
      if r.Some? then
        var i :| 0 <= i < |ds[1..]| && ds[1..][i] == r.value && Matches(ds[1..][i], deviceType, deviceId) &&
          forall j :: 0 <= j < i ==> !Matches(ds[1..][j], deviceType, deviceId);
        assert ds[i + 1] == r.value;
        assert forall j :: 1 <= j < i + 1 ==> ds[j] == ds[1..][j - 1];
        r
      else
        assert forall j :: 1 <= j < |ds| ==> ds[j] == ds[1..][j - 1];
        r
  }

  /** `config.get(key, [])`. */
  function Devices(cfg: ModulesConfig, key: string): seq<DeviceEntry> {
    Get(cfg, key).GetOr([])
  }

  /** `_get_device_config(device_type, device_id)`: the first match in
      `mappings`, else the first match in `<device_type>_modules`, else
      None. */
  function GetDeviceConfig(cfg: ModulesConfig, deviceType: string, deviceId: int): (r: Option<DeviceEntry>)
    ensures FindDevice(Devices(cfg, "mappings"), deviceType, deviceId).Some? ==>
      r == FindDevice(Devices(cfg, "mappings"), deviceType, deviceId)
    ensures FindDevice(Devices(cfg, "mappings"), deviceType, deviceId).None? ==>
      r == FindDevice(Devices(cfg, deviceType + "_modules"), deviceType, deviceId)
    ensures r.Some? ==> Matches(r.value, deviceType, deviceId)
  {
    var mapped := FindDevice(Devices(cfg, "mappings"), deviceType, deviceId);
    if mapped.Some? then mapped
    else FindDevice(Devices(cfg, deviceType + "_modules"), deviceType, deviceId)
  }

  /** None exactly when neither list holds a device with that id and type. */
  lemma GetDeviceConfigNone(cfg: ModulesConfig, deviceType: string, deviceId: int)
    ensures GetDeviceConfig(cfg, deviceType, deviceId).None? <==>
      (forall e :: e in Devices(cfg, "mappings") ==> !Matches(e, deviceType, deviceId)) &&
      (forall e :: e in Devices(cfg, deviceType + "_modules") ==> !Matches(e, deviceType, deviceId))
  {
  }

  // ----------------------------------------------------------- flattening

  /** The pairs of a Struct value under `prefix`, in order. */
  function Prefixed(prefix: string, es: Dict<Value>): (r: Dict<Value>)
    ensures |r| == |es|
    ensures forall i :: 0 <= i < |es| ==> r[i] == (prefix + es[i].0, es[i].1)
  {
    seq(|es|, i requires 0 <= i < |es| => (prefix + es[i].0, es[i].1))
  }

  /** The pairs one field contributes: a Struct its members as
      `<key>_<member>`, whatever their values; any other int, float, bool
      or str value itself under the field's key; anything else nothing. */
  function Emit(key: string, item: FieldInfo): (r: Dict<Value>)
    ensures forall k :: k in Keys(r) <==>
      (!item.value.VDict? && IsScalar(item.value) && k == key) ||
      (item.value.VDict? && exists j :: 0 <= j < |item.value.entries| && k == key + "_" + item.value.entries[j].0)
    ensures item.value.VDict? ==> (|r| == |item.value.entries| &&
      forall i :: 0 <= i < |r| ==> r[i] == (key + "_" + item.value.entries[i].0, item.value.entries[i].1))
    ensures !item.value.VDict? ==> (|r| <= 1 && forall i :: 0 <= i < |r| ==> r[i] == (key, item.value))
  {
    var r := if item.value.VDict? then Prefixed(key + "_", item.value.entries)
      else if IsScalar(item.value) then [(key, item.value)]
      else [];
    KeysIndex(r);
    if item.value.VDict? then
      var es := item.value.entries;
      forall k | k in Keys(r)
        ensures exists j :: 0 <= j < |es| && k == key + "_" + es[j].0
      {
        var j :| 0 <= j < |r| && Keys(r)[j] == k;
        assert k == key + "_" + es[j].0;
      }
      forall k | exists j :: 0 <= j < |es| && k == key + "_" + es[j].0
        ensures k in Keys(r)
      {
        var j :| 0 <= j < |es| && k == key + "_" + es[j].0;
        assert Keys(r)[j] == k;
      }
      r
    else r
  }

  /** The pairs every field contributes, in field order. */
  function Emitted(fs: Dict<FieldInfo>): Dict<Value> {
    if fs == [] then [] else Emit(fs[0].0, fs[0].1) + Emitted(fs[1..])
  }

  /** One pass of `_flatten_fields`: the member loop of a Struct stores
      each member in turn; a scalar is stored under its key. */
  function StoreField(acc: Dict<Value>, key: string, item: FieldInfo): Dict<Value> {
    var v := item.value;
    if v.VDict? then Update(acc, Prefixed(key + "_", v.entries))
    else if IsScalar(v) then Set(acc, key, v)
    else acc
  }

  /** The field loop of `_flatten_fields("", fields)`. */
  function StoreFields(acc: Dict<Value>, fs: Dict<FieldInfo>): Dict<Value>
    decreases |fs|
  {
    if fs == [] then acc else StoreFields(StoreField(acc, fs[0].0, fs[0].1), fs[1..])
  }

  /** The loop stores the emitted pairs one after another, so a key
      produced twice holds the last value produced for it. */
  lemma {:induction false} StoreFieldsUpdate(acc: Dict<Value>, fs: Dict<FieldInfo>)
    ensures StoreFields(acc, fs) == Update(acc, Emitted(fs))
    decreases |fs|
  {
    if fs != [] {
      var key, item := fs[0].0, fs[0].1;
      var acc' := StoreField(acc, key, item);
      assert acc' == Update(acc, Emit(key, item)) by {
        if !item.value.VDict? && IsScalar(item.value) {
          assert Update(acc, [(key, item.value)]) == Update(Set(acc, key, item.value), []);
        }
      }
      StoreFieldsUpdate(acc', fs[1..]);
      UpdateConcat(acc, Emit(key, item), Emitted(fs[1..]));
    }
  }

  /** The flattened fields of a module. */
  function FlattenFields(fs: Dict<FieldInfo>): (r: Dict<Value>)
    ensures UniqueKeys(r)
    ensures forall k :: Get(r, k) == LastGet(Emitted(fs), k)
  {
    StoreFieldsUpdate([], fs);
    forall k
      ensures Get(Update([], Emitted(fs)), k) == LastGet(Emitted(fs), k)
    {
      UpdateGet([], Emitted(fs), k);
    }
    StoreFields([], fs)
  }

  /** Field `f` contributes key `k`. */
  predicate Produces(f: (string, FieldInfo), k: string) {
    k in Keys(Emit(f.0, f.1))
  }

  /** The keys produced by a list of fields are those produced by one of
      its fields. */
  lemma {:induction false} EmittedKeys(fs: Dict<FieldInfo>, k: string)
    ensures k in Keys(Emitted(fs)) <==> exists i :: 0 <= i < |fs| && Produces(fs[i], k)
  {
    if fs != [] {
      KeysConcat(Emit(fs[0].0, fs[0].1), Emitted(fs[1..]));
      EmittedKeys(fs[1..], k);
      if k in Keys(Emitted(fs)) {
        if !Produces(fs[0], k) {
          var i :| 0 <= i < |fs[1..]| && Produces(fs[1..][i], k);
          assert fs[i + 1] == fs[1..][i];
        }
      } else {
        forall i | 1 <= i < |fs|
          ensures !Produces(fs[i], k)
        {
          assert fs[1..][i - 1] == fs[i];
        }
      }
    }
  }

  /** A flattened key names a scalar field or a Struct member one level
      down; a field holding None, a list or another non-scalar is dropped. */
  lemma FlattenKeys(fs: Dict<FieldInfo>, k: string)
    ensures k in Keys(FlattenFields(fs)) <==>
      exists i :: 0 <= i < |fs| &&
        ((!fs[i].1.value.VDict? && IsScalar(fs[i].1.value) && k == fs[i].0) ||
         (fs[i].1.value.VDict? && exists j :: 0 <= j < |fs[i].1.value.entries| && k == fs[i].0 + "_" + fs[i].1.value.entries[j].0))
  {
    assert Get(FlattenFields(fs), k) == LastGet(Emitted(fs), k);
    EmittedKeys(fs, k);
    forall i | 0 <= i < |fs|
      ensures Produces(fs[i], k) <==>
        ((!fs[i].1.value.VDict? && IsScalar(fs[i].1.value) && k == fs[i].0) ||
         (fs[i].1.value.VDict? && exists j :: 0 <= j < |fs[i].1.value.entries| && k == fs[i].0 + "_" + fs[i].1.value.entries[j].0))
    {
    }
  }

  /** With field names whose flattened keys never meet, every scalar field
      keeps its value and every Struct member appears under its prefixed
      name. */
  lemma FlattenDistinct(fs: Dict<FieldInfo>)
    requires Distinct(Keys(Emitted(fs)))
    ensures FlattenFields(fs) == Emitted(fs)
  {
    StoreFieldsUpdate([], fs);
    FromPairsDistinct(Emitted(fs));
  }

  // --------------------------------------------------------------- points

  /** One point for the store. */
  datatype FlatPoint = FlatPoint(measurement: string, tags: Dict<string>, fields: Dict<Value>)

  /** The input of `flatten_device_data`: a failed read carries an
      `error` key; otherwise a parsed device. */
  datatype DeviceData = Failed | Parsed(device: DeviceResult)

  /** The configured (module name, tags) pairs of a device, in order. */
  function TagPairs(mods: seq<ModuleTags>): (r: Dict<Dict<string>>)
    ensures |r| == |mods|
    ensures forall i :: 0 <= i < |mods| ==> r[i] == (mods[i].moduleName, mods[i].tags)
  {
    seq(|mods|, i requires 0 <= i < |mods| => (mods[i].moduleName, mods[i].tags))
  }

  /** `module_tags_map`: module name to extra tags, a later entry for the
      same name replacing an earlier one. */
  function TagsMap(mods: seq<ModuleTags>): (r: Dict<Dict<string>>)
    ensures forall k :: k in Keys(r) <==> exists i :: 0 <= i < |mods| && mods[i].moduleName == k
    ensures forall k :: Get(r, k) == LastGet(TagPairs(mods), k)
  {
    var pairs := TagPairs(mods);
    KeysIndex(pairs);
    forall k | exists i :: 0 <= i < |mods| && mods[i].moduleName == k
      ensures k in Keys(pairs)
    {
      var i :| 0 <= i < |mods| && mods[i].moduleName == k;
      assert Keys(pairs)[i] == k;
    }
    forall k
      ensures Get(Update([], pairs), k) == LastGet(pairs, k)
    {
      UpdateGet([], pairs, k);
    }
    Update([], pairs)
  }

  /** The base tags of a module's point. */
  function BaseTags(d: DeviceResult, moduleName: string): Dict<string> {
    [("device_type", d.deviceType), ("device_id", d.deviceId), ("device_name", d.deviceName), ("module", moduleName)]
  }

  /** The base tags, updated with the module's configured tags. */
  function TagsFor(d: DeviceResult, tagsMap: Dict<Dict<string>>, moduleName: string): (r: Dict<string>)
    ensures forall k :: (Get(r, k) ==
      if moduleName in Keys(tagsMap) && k in Keys(Get(tagsMap, moduleName).value)
      then LastGet(Get(tagsMap, moduleName).value, k)
      else Get(BaseTags(d, moduleName), k))
  {
    var base := BaseTags(d, moduleName);
    match Get(tagsMap, moduleName)
    case None => base
    case Some(extra) =>
      forall k
        ensures Get(Update(base, extra), k) == if k in Keys(extra) then LastGet(extra, k) else Get(base, k)
      {
        UpdateGet(base, extra, k);
      }
      Update(base, extra)
  }

  /** The flattened fields of a parsed module; `{}` has none. */
  function ModuleFields(m: ModuleResult): Dict<Value> {
    match m
    case EmptyModule => []
    case Module(_, _, _, _, fields) => FlattenFields(fields)
  }

  /** The point of one module: none when no field survives flattening. */
  function PointOf(d: DeviceResult, tagsMap: Dict<Dict<string>>, name: string, m: ModuleResult): (r: seq<FlatPoint>)
    ensures |r| == if ModuleFields(m) != [] then 1 else 0
    ensures forall i :: 0 <= i < |r| ==> r[i].measurement == d.deviceType + "_data" && r[i].fields != []
  {
    var fields := ModuleFields(m);
    if fields != [] then [FlatPoint(d.deviceType + "_data", TagsFor(d, tagsMap, name), fields)] else []
  }

  /** The module loop: one point per module with at least one flattened
      field, in module order, measured as `<device_type>_data`. */
  function ModulePoints(d: DeviceResult, tagsMap: Dict<Dict<string>>, mods: Dict<ModuleResult>): (r: seq<FlatPoint>)
    ensures |r| <= |mods|
    ensures forall i :: 0 <= i < |r| ==> r[i].measurement == d.deviceType + "_data" && r[i].fields != []
  {
    if mods == [] then []
    else
      PointOf(d, tagsMap, mods[0].0, mods[0].1) + ModulePoints(d, tagsMap, mods[1..])
  }

  /** The number of modules with at least one flattened field. */
  function CountNonEmpty(mods: Dict<ModuleResult>): nat {
    if mods == [] then 0 else (if ModuleFields(mods[0].1) != [] then 1 else 0) + CountNonEmpty(mods[1..])
  }

  /** A module without surviving fields gives no point; every other gives
      exactly one, and module order is kept. */
  lemma {:induction false} ModulePointsAppend(d: DeviceResult, tagsMap: Dict<Dict<string>>, a: Dict<ModuleResult>, b: Dict<ModuleResult>)
    ensures ModulePoints(d, tagsMap, a + b) == ModulePoints(d, tagsMap, a) + ModulePoints(d, tagsMap, b)
  {
    if a == [] {
      assert a + b == b;
    } else {
      assert (a + b)[0] == a[0] && (a + b)[1..] == a[1..] + b;
      ModulePointsAppend(d, tagsMap, a[1..], b);
    }
  }

  /** One point per module with surviving fields. */
  lemma {:induction false} ModulePointsCount(d: DeviceResult, tagsMap: Dict<Dict<string>>, mods: Dict<ModuleResult>)
    ensures |ModulePoints(d, tagsMap, mods)| == CountNonEmpty(mods)
  {
    if mods != [] {
      ModulePointsCount(d, tagsMap, mods[1..]);
    }
  }

  /** The point of a module that has fields: its tags and its fields. */
  lemma ModulePointOf(d: DeviceResult, tagsMap: Dict<Dict<string>>, name: string, m: ModuleResult)
    ensures var ps := ModulePoints(d, tagsMap, [(name, m)]);
      ps == if ModuleFields(m) != [] then [FlatPoint(d.deviceType + "_data", TagsFor(d, tagsMap, name), ModuleFields(m))] else []
  {
    assert [(name, m)][1..] == [];
    assert ModulePoints(d, tagsMap, [(name, m)]) == PointOf(d, tagsMap, name, m) + [];
  }

  /** The base tags name the module under `module`. */
  lemma BaseTagsModule(d: DeviceResult, name: string)
    ensures Get(BaseTags(d, name), "module") == Some(name)
  {
    var base := BaseTags(d, name);
    assert |"device_type"| != |"module"| && |"device_id"| != |"module"| && |"device_name"| != |"module"|;
    assert base[3..] == [("module", name)];
    assert Get(base[3..], "module") == Some(name);
    assert Get(base[2..], "module") == Get(base[3..], "module") by { assert base[2..][1..] == base[3..]; }
    assert Get(base[1..], "module") == Get(base[2..], "module") by { assert base[1..][1..] == base[2..]; }
  }

  /** `flatten_device_data(device_data)`: [] for a failed read; ValueError
      (Err) when the device id is not an integer literal; otherwise the
      module points, tagged with the configured tags of the matching
      device. */
  function FlattenDeviceData(cfg: ModulesConfig, data: DeviceData): (r: Result<seq<FlatPoint>, string>)
    ensures data.Failed? ==> r == Ok([])
    ensures data.Parsed? ==> (r.Err? <==> ParseInt(data.device.deviceId).None?)
    ensures r.Ok? && data.Parsed? ==>
      |r.value| == CountNonEmpty(data.device.modules) &&
      forall i :: 0 <= i < |r.value| ==> r.value[i].measurement == data.device.deviceType + "_data"
  {
    match data
    case Failed => Ok([])
    case Parsed(d) =>
      match ParseInt(d.deviceId)
      case None => Err("invalid literal for int(): " + d.deviceId)
      case Some(id) =>
        var entry := GetDeviceConfig(cfg, d.deviceType, id);
        var tagsMap := if entry.Some? then TagsMap(entry.value.modules) else [];
        ModulePointsCount(d, tagsMap, d.modules);
        Ok(ModulePoints(d, tagsMap, d.modules))
  }

  /** A module's point carries the module tags of the matching device over
      the base tags: a configured tag wins on a clash. */
  lemma FlattenTags(cfg: ModulesConfig, d: DeviceResult, id: int, name: string, k: string)
    requires ParseInt(d.deviceId) == Some(id)
    ensures var entry := GetDeviceConfig(cfg, d.deviceType, id);
      var tagsMap := if entry.Some? then TagsMap(entry.value.modules) else [];
      var tags := TagsFor(d, tagsMap, name);
      (entry.None? ==> Get(tags, k) == Get(BaseTags(d, name), k)) &&
      (entry.Some? ==> Get(tagsMap, name) == LastGet(TagPairs(entry.value.modules), name)) &&
      (entry.Some? && name in Keys(tagsMap) && k in Keys(Get(tagsMap, name).value) ==>
         Get(tags, k) == LastGet(Get(tagsMap, name).value, k)) &&
      (k == "module" && (entry.None? || name !in Keys(tagsMap) || k !in Keys(Get(tagsMap, name).value)) ==>
         Get(tags, k) == Some(name))
  {
    BaseTagsModule(d, name);
  }

  /** A tag configured for a module of the matching device, in its last
      `modules` entry for that name, reaches the module's point. */
  lemma ConfiguredTagWins(cfg: ModulesConfig, d: DeviceResult, id: int, i: nat, k: string)
    requires ParseInt(d.deviceId) == Some(id)
    requires GetDeviceConfig(cfg, d.deviceType, id).Some?
    requires var mods := GetDeviceConfig(cfg, d.deviceType, id).value.modules;
      i < |mods| && k in Keys(mods[i].tags) &&
      forall j :: i < j < |mods| ==> mods[j].moduleName != mods[i].moduleName
    ensures var mods := GetDeviceConfig(cfg, d.deviceType, id).value.modules;
      Get(TagsFor(d, TagsMap(mods), mods[i].moduleName), k) == LastGet(mods[i].tags, k)
  {
    var mods := GetDeviceConfig(cfg, d.deviceType, id).value.modules;
    var name := mods[i].moduleName;
    LastGetAt(TagPairs(mods), i);
  }
}
