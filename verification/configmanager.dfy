/** The data-point configuration manager (`PLCConfigManager`): a map from
    device keys to device configurations, each a list of data points, and
    the pure queries over it: byte sizes, point lookup, validation, the
    InfluxDB schema derived from the points, the summary and the list of
    measurements. Loading and saving the YAML file is not part of the
    model; the configuration is a parameter. */
module ConfigManager {
  import opened Results
  import opened PyDict
  import opened PyRuntime
  import Scalar

  /** `PLCDataType`: the only types a loaded point can have (any other
      spelling fails the enum constructor and the point is not loaded). */
  datatype PlcType = Bool | Byte | Word | DWord | Int | DInt | Real

  /** `DataPoint`. */
  datatype DataPoint = DataPoint(
    name: string,
    pointId: string,
    dbOffset: int,
    dataType: PlcType,
    scale: real,
    unit: string,
    measurement: string,
    fieldName: string,
    tags: Dict<string>,
    enabled: bool,
    bitOffset: Option<int>)

  /** `DeviceConfig`. */
  datatype DeviceConfig = DeviceConfig(deviceType: string, measurementPrefix: string, dbNumber: int, dataPoints: seq<DataPoint>)

  /** `self.config`: device key to device configuration, in file order. */
  type Config = Dict<DeviceConfig>

  // ---------------------------------------------------------------- sizes

  /** `DataPoint.get_byte_size()`. */
  function ByteSize(t: PlcType): (r: nat)
    ensures r == 1 <==> t == Bool || t == Byte
    ensures r == 2 <==> t == Word || t == Int
    ensures r == 4 <==> t == DWord || t == DInt || t == Real
  {
    match t
    case Bool => 1
    case Byte => 1
    case Word => 2
    case DWord => 4
    case Int => 2
    case DInt => 4
    case Real => 4
  }

  /** The decoder kind a configured type is read as; BYTE has none. */
  function DecoderKind(t: PlcType): Option<Scalar.Kind> {
    match t
    case Bool => Some(Scalar.Bit)
    case Byte => None
    case Word => Some(Scalar.Word)
    case DWord => Some(Scalar.DWord)
    case Int => Some(Scalar.Int)
    case DInt => Some(Scalar.DInt)
    case Real => Some(Scalar.Real)
  }

  /** The configured byte size of every type the decoders read is the
      width the decoders take from the block. */
  lemma ByteSizeMatchesDecoders(t: PlcType)
    requires DecoderKind(t).Some?
    ensures ByteSize(t) == Scalar.Width(DecoderKind(t).value)
  {
  }

  // ------------------------------------------------------ point selection

  /** `[p for p in points if p.enabled]`. */
  function Enabled(ps: seq<DataPoint>): (r: seq<DataPoint>)
    ensures |r| <= |ps|
    ensures forall p :: p in r <==> p in ps && p.enabled
  {
    if ps == [] then [] else (if ps[0].enabled then [ps[0]] else []) + Enabled(ps[1..])
  }

  /** Filtering keeps order: it distributes over concatenation. */
  lemma {:induction false} EnabledAppend(a: seq<DataPoint>, b: seq<DataPoint>)
    ensures Enabled(a + b) == Enabled(a) + Enabled(b)
  {
    if a == [] {
      assert a + b == b;
    } else {
      assert (a + b)[0] == a[0];
      assert (a + b)[1..] == a[1..] + b;
      EnabledAppend(a[1..], b);
    }
  }

  /** `sum(1 for p in points if p.enabled)`. */
  function CountEnabled(ps: seq<DataPoint>): nat {
    if ps == [] then 0 else (if ps[0].enabled then 1 else 0) + CountEnabled(ps[1..])
  }

  /** The filtered list holds as many points as the summary counts. */
  lemma {:induction false} EnabledCount(ps: seq<DataPoint>)
    ensures |Enabled(ps)| == CountEnabled(ps) <= |ps|
  {
    if ps != [] {
      EnabledCount(ps[1..]);
    }
  }

  /** `get_device_points(device_type, enabled_only)`: [] for an unknown
      key; the key's points, filtered to the enabled ones on request. */
  function GetDevicePoints(config: Config, deviceType: string, enabledOnly: bool): (r: seq<DataPoint>)
    ensures deviceType !in Keys(config) ==> r == []
    ensures deviceType in Keys(config) && !enabledOnly ==> r == Get(config, deviceType).value.dataPoints
    ensures enabledOnly ==> forall p :: p in r ==> p.enabled
    ensures forall p :: p in r ==> deviceType in Keys(config) && p in Get(config, deviceType).value.dataPoints
  {
    match Get(config, deviceType)
    case None => []
    case Some(d) => if enabledOnly then Enabled(d.dataPoints) else d.dataPoints
  }

  /** The enabled selection misses no enabled point. */
  lemma GetDevicePointsEnabled(config: Config, deviceType: string, p: DataPoint)
    requires deviceType in Keys(config) && p in Get(config, deviceType).value.dataPoints
    ensures p in GetDevicePoints(config, deviceType, true) <==> p.enabled
  {
  }

  // ------------------------------------------------------------ validation

  /** The distinct strings of a list: `set(point_ids)`. */
  function SetOf(s: seq<string>): set<string> {
    set x | x in s
  }

  /** A list has a repeated element exactly when its set is smaller: the
      duplicate test compares `len(set(ids))` with `len(ids)`. */
  lemma {:induction false} SetOfSize(s: seq<string>)
    ensures |SetOf(s)| <= |s|
    ensures |SetOf(s)| == |s| <==> Distinct(s)
  {
    if s != [] {
      SetOfSize(s[1..]);
      assert SetOf(s) == {s[0]} + SetOf(s[1..]);
      if s[0] in s[1..] {
        assert SetOf(s) == SetOf(s[1..]);
        var k :| 0 <= k < |s[1..]| && s[1..][k] == s[0];
        assert s[0] == s[k + 1];
      } else {
        assert |SetOf(s)| == 1 + |SetOf(s[1..])|;
        if !Distinct(s[1..]) {
          var i, j :| 0 <= i < j < |s[1..]| && s[1..][i] == s[1..][j];
          assert s[i + 1] == s[j + 1];
        }
        if Distinct(s[1..]) {
          forall i, j | 0 <= i < j < |s|
            ensures s[i] != s[j]
          {
            assert s[j] == s[1..][j - 1];
            if i > 0 {
              assert s[i] == s[1..][i - 1];
            }
          }
        }
      }
    }
  }

  /** The point ids of a list of points. */
  function PointIds(ps: seq<DataPoint>): (r: seq<string>)
    ensures |r| == |ps|
    ensures forall i :: 0 <= i < |ps| ==> r[i] == ps[i].pointId
  {
    if ps == [] then [] else [ps[0].pointId] + PointIds(ps[1..])
  }

  const DuplicateMessage: string := "存在重复的 point_id"

  predicate OffsetOutOfRange(p: DataPoint) {
    p.dbOffset < 0 || p.dbOffset > 65535
  }

  predicate MissingBit(p: DataPoint) {
    p.dataType == Bool && p.bitOffset.None?
  }

  /** The errors of one point, in the order they are checked. */
  function PointErrors(p: DataPoint): (r: seq<string>)
    ensures |r| == (if OffsetOutOfRange(p) then 1 else 0) + (if MissingBit(p) then 1 else 0)
  {
    (if OffsetOutOfRange(p) then ["数据点 " + p.name + " 的偏移量超出范围: " + IntToDecimal(p.dbOffset)] else []) +
    (if MissingBit(p) then ["数据点 " + p.name + " 是BOOL类型但未指定bit_offset"] else [])
  }

  /** The point loop of `validate_config`. */
  function PointsErrors(ps: seq<DataPoint>): seq<string> {
    if ps == [] then [] else PointErrors(ps[0]) + PointsErrors(ps[1..])
  }

  /** Points out of the offset range 0..65535. */
  function CountBadOffsets(ps: seq<DataPoint>): nat {
    if ps == [] then 0 else (if OffsetOutOfRange(ps[0]) then 1 else 0) + CountBadOffsets(ps[1..])
  }

  /** BOOL points without a bit offset. */
  function CountMissingBits(ps: seq<DataPoint>): nat {
    if ps == [] then 0 else (if MissingBit(ps[0]) then 1 else 0) + CountMissingBits(ps[1..])
  }

  /** The errors of one device: the duplicate message once, then the
      errors of each point. */
  function DeviceErrors(d: DeviceConfig): (r: seq<string>)
    ensures r == (if Distinct(PointIds(d.dataPoints)) then [] else [DuplicateMessage]) + PointsErrors(d.dataPoints)
    ensures (|r| > 0 && r[0] == DuplicateMessage) <==> !Distinct(PointIds(d.dataPoints))
  {
    var ids := PointIds(d.dataPoints);
    SetOfSize(ids);
    NoDuplicateMessage(d.dataPoints);
    var errs := PointsErrors(d.dataPoints);
    assert errs != [] ==> errs[0] in errs;
    (if |SetOf(ids)| != |ids| then [DuplicateMessage] else []) + errs
  }

  /** No point error reads as the duplicate message. */
  lemma {:induction false} NoDuplicateMessage(ps: seq<DataPoint>)
    ensures forall e :: e in PointsErrors(ps) ==> e != DuplicateMessage
  {
    if ps != [] {
      NoDuplicateMessage(ps[1..]);
      assert DuplicateMessage[0] == '存';
      forall e | e in PointErrors(ps[0])
        ensures e != DuplicateMessage
      {
        assert e[0] == '数';
      }
    }
  }

  /** One error per bad offset, one per BOOL point without a bit offset,
      and one more when point ids repeat. */
  lemma {:induction false} DeviceErrorCount(d: DeviceConfig)
    ensures |DeviceErrors(d)| ==
      (if Distinct(PointIds(d.dataPoints)) then 0 else 1) +
      CountBadOffsets(d.dataPoints) + CountMissingBits(d.dataPoints)
  {
    SetOfSize(PointIds(d.dataPoints));
    PointsErrorCount(d.dataPoints);
  }

  lemma {:induction false} PointsErrorCount(ps: seq<DataPoint>)
    ensures |PointsErrors(ps)| == CountBadOffsets(ps) + CountMissingBits(ps)
  {
    if ps != [] {
      PointsErrorCount(ps[1..]);
    }
  }

  /** The device loop of `validate_config`: devices with errors are stored
      under their key. */
  function StoreErrors(acc: Dict<seq<string>>, devices: Config): (r: Dict<seq<string>>)
    decreases |devices|
  {
    if devices == [] then acc
    else
      var errs := DeviceErrors(devices[0].1);
      StoreErrors(if errs != [] then Set(acc, devices[0].0, errs) else acc, devices[1..])
  }

  /** `validate_config()`. */
  function ValidateConfig(config: Config): Dict<seq<string>> {
    StoreErrors([], config)
  }

  /** The result holds exactly the devices with at least one error, each
      with its error list; a device without errors is absent. */
  lemma {:induction false} StoreErrorsGet(acc: Dict<seq<string>>, devices: Config, k: string)
    requires UniqueKeys(devices)
    requires k in Keys(devices) ==> k !in Keys(acc)
    ensures k in Keys(devices) ==>
      Get(StoreErrors(acc, devices), k) ==
        (var errs := DeviceErrors(Get(devices, k).value); if errs != [] then Some(errs) else None)
    ensures k !in Keys(devices) ==> Get(StoreErrors(acc, devices), k) == Get(acc, k)
    decreases |devices|
  {
    if devices != [] {
      var errs := DeviceErrors(devices[0].1);
      var acc' := if errs != [] then Set(acc, devices[0].0, errs) else acc;
      assert Keys(devices) == [devices[0].0] + Keys(devices[1..]);
      StoreErrorsGet(acc', devices[1..], k);
    }
  }

  /** `validate_config()` reports a device exactly when it has an error. */
  lemma ValidateConfigGet(config: Config, k: string)
    requires UniqueKeys(config) && k in Keys(config)
    ensures var errs := DeviceErrors(Get(config, k).value);
      Get(ValidateConfig(config), k) == if errs != [] then Some(errs) else None
  {
    StoreErrorsGet([], config, k);
  }

  /** Nothing but configured devices is ever reported. */
  lemma ValidateConfigKeys(config: Config, k: string)
    requires UniqueKeys(config) && k !in Keys(config)
    ensures Get(ValidateConfig(config), k) == None
  {
    StoreErrorsGet([], config, k);
  }

  // ---------------------------------------------------------------- schema

  /** `_map_plc_type_to_influx`: REAL is a float, every other type an
      integer. */
  function InfluxType(t: PlcType): (r: string)
    ensures r == "float" <==> t == Real
    ensures r == "integer" <==> t != Real
  {
    if t == Real then "float" else "integer"
  }

  /** The schema entry of one field. */
  datatype FieldSchema = FieldSchema(fieldType: string, unit: string, description: string)

  /** The schema entry of one measurement; the tag list comes from a set,
      so it is modelled as one. */
  datatype MeasurementSchema = MeasurementSchema(name: string, tags: set<string>, fields: Dict<FieldSchema>)

  /** The field entry point `p` would create. */
  function FieldOf(p: DataPoint): FieldSchema {
    FieldSchema(InfluxType(p.dataType), p.unit, p.name)
  }

  /** The keys of `point.tags`, as a set. */
  function TagKeys(p: DataPoint): set<string> {
    set k | k in Keys(p.tags)
  }

  /** One pass of the point loop of `generate_schema`: a disabled point is
      skipped; otherwise the measurement is created if new, the point's tag
      keys are added and its field is added unless already defined. */
  function AddPoint(ms: Dict<MeasurementSchema>, p: DataPoint): (r: Dict<MeasurementSchema>)
    ensures forall m :: m != p.measurement || !p.enabled ==> Get(r, m) == Get(ms, m)
  {
    if !p.enabled then ms
    else
      var m := Get(ms, p.measurement).GetOr(MeasurementSchema(p.measurement, {}, []));
      var fields := if p.fieldName in Keys(m.fields) then m.fields else Set(m.fields, p.fieldName, FieldOf(p));
      Set(ms, p.measurement, MeasurementSchema(m.name, m.tags + TagKeys(p), fields))
  }

  /** The loop over a list of points, in order. */
  function SchemaOf(ps: seq<DataPoint>): Dict<MeasurementSchema>
    decreases |ps|
  {
    if ps == [] then [] else AddPoint(SchemaOf(ps[..|ps| - 1]), ps[|ps| - 1])
  }

  /** Every data point of the configuration, device by device. */
  function AllPoints(config: Config): (r: seq<DataPoint>) {
    if config == [] then [] else config[0].1.dataPoints + AllPoints(config[1..])
  }

  /** `generate_schema()`. */
  function GenerateSchema(config: Config): Dict<MeasurementSchema> {
    SchemaOf(AllPoints(config))
  }

  /** Some enabled point writes to measurement `m`. */
  predicate Written(ps: seq<DataPoint>, m: string) {
    exists i :: 0 <= i < |ps| && ps[i].enabled && ps[i].measurement == m
  }

  /** The tag keys of the enabled points of measurement `m`. */
  function TagsOf(ps: seq<DataPoint>, m: string): set<string> {
    if ps == [] then {}
    else (if ps[0].enabled && ps[0].measurement == m then TagKeys(ps[0]) else {}) + TagsOf(ps[1..], m)
  }

  /** The field entry of the first enabled point writing field `f` of
      measurement `m`. */
  function FirstField(ps: seq<DataPoint>, m: string, f: string): Option<FieldSchema> {
    if ps == [] then None
    else if ps[0].enabled && ps[0].measurement == m && ps[0].fieldName == f then Some(FieldOf(ps[0]))
    else FirstField(ps[1..], m, f)
  }

  /** `Written` seen from the last point. */
  lemma WrittenSnoc(ps: seq<DataPoint>, p: DataPoint, m: string)
    ensures Written(ps + [p], m) <==> Written(ps, m) || (p.enabled && p.measurement == m)
  {
    if Written(ps + [p], m) && !(p.enabled && p.measurement == m) {
      var i :| 0 <= i < |ps + [p]| && (ps + [p])[i].enabled && (ps + [p])[i].measurement == m;
      assert (ps + [p])[i] == ps[i];
    }
    if Written(ps, m) {
      var i :| 0 <= i < |ps| && ps[i].enabled && ps[i].measurement == m;
      assert (ps + [p])[i] == ps[i];
    }
    assert (ps + [p])[|ps|] == p;
  }

  /** `TagsOf` seen from the last point. */
  lemma {:induction false} TagsOfSnoc(ps: seq<DataPoint>, p: DataPoint, m: string)
    ensures TagsOf(ps + [p], m) == TagsOf(ps, m) + (if p.enabled && p.measurement == m then TagKeys(p) else {})
  {
    if ps == [] {
      assert ([] + [p])[1..] == [];
    } else {
      assert (ps + [p])[1..] == ps[1..] + [p];
      TagsOfSnoc(ps[1..], p, m);
    }
  }

  /** `FirstField` seen from the last point: a later point counts only
      when no earlier one wrote the field. */
  lemma {:induction false} FirstFieldSnoc(ps: seq<DataPoint>, p: DataPoint, m: string, f: string)
    ensures FirstField(ps + [p], m, f) ==
      if FirstField(ps, m, f).Some? then FirstField(ps, m, f)
      else if p.enabled && p.measurement == m && p.fieldName == f then Some(FieldOf(p)) else None
  {
    if ps == [] {
      assert ([] + [p])[1..] == [];
    } else {
      assert (ps + [p])[1..] == ps[1..] + [p];
      FirstFieldSnoc(ps[1..], p, m, f);
    }
  }

  /** The schema has one entry per measurement some enabled point writes. */
  lemma {:induction false} SchemaOfKeys(ps: seq<DataPoint>, m: string)
    ensures m in Keys(SchemaOf(ps)) <==> Written(ps, m)
    decreases |ps|
  {
    if ps != [] {
      var init, p := ps[..|ps| - 1], ps[|ps| - 1];
      assert ps == init + [p];
      SchemaOfKeys(init, m);
      WrittenSnoc(init, p, m);
    }
  }

  /** A measurement's entry carries its name, all the tag keys of the
      enabled points writing it, and for each field the description of the
      first enabled point that writes it. */
  lemma {:induction false} SchemaOfSpec(ps: seq<DataPoint>, m: string, f: string)
    requires Written(ps, m)
    ensures var e := Get(SchemaOf(ps), m);
      e.Some? && e.value.name == m && e.value.tags == TagsOf(ps, m) &&
      Get(e.value.fields, f) == FirstField(ps, m, f)
    decreases |ps|
  {
    SchemaOfKeys(ps, m);
    var init, p := ps[..|ps| - 1], ps[|ps| - 1];
    assert ps == init + [p];
    WrittenSnoc(init, p, m);
    TagsOfSnoc(init, p, m);
    FirstFieldSnoc(init, p, m, f);
    if Written(init, m) {
      SchemaOfSpec(init, m, f);
    } else {
      SchemaOfKeys(init, m);
      NotWrittenEmpty(init, m, f);
    }
  }

  /** A measurement no enabled point writes has no tags and no fields. */
  lemma {:induction false} NotWrittenEmpty(ps: seq<DataPoint>, m: string, f: string)
    requires !Written(ps, m)
    ensures TagsOf(ps, m) == {} && FirstField(ps, m, f) == None
  {
    if ps != [] {
      forall i | 0 <= i < |ps[1..]|
        ensures !(ps[1..][i].enabled && ps[1..][i].measurement == m)
      {
        assert ps[1..][i] == ps[i + 1];
      }
      NotWrittenEmpty(ps[1..], m, f);
    }
  }

  /** `generate_schema()` over the whole configuration. */
  lemma GenerateSchemaSpec(config: Config, m: string, f: string)
    ensures var s := GenerateSchema(config);
      var ps := AllPoints(config);
      (m in Keys(s) <==> Written(ps, m)) &&
      (m in Keys(s) ==>
        Get(s, m).value.tags == TagsOf(ps, m) && Get(Get(s, m).value.fields, f) == FirstField(ps, m, f))
  {
    SchemaOfKeys(AllPoints(config), m);
    if Written(AllPoints(config), m) {
      SchemaOfSpec(AllPoints(config), m, f);
    }
  }

  // --------------------------------------------------------------- summary

  /** One entry of `get_summary()`. */
  datatype DeviceSummary = DeviceSummary(deviceType: string, dbNumber: int, totalPoints: nat, enabledPoints: nat, disabledPoints: int)

  /** The summary entry of one device. */
  function SummaryOf(d: DeviceConfig): (r: DeviceSummary)
    ensures r.disabledPoints >= 0 && r.enabledPoints + r.disabledPoints == r.totalPoints
    ensures r.deviceType == d.deviceType && r.dbNumber == d.dbNumber
  {
    EnabledCount(d.dataPoints);
    var enabled := CountEnabled(d.dataPoints);
    var total := |d.dataPoints|;
    DeviceSummary(d.deviceType, d.dbNumber, total, enabled, total - enabled)
  }

  /** The device loop of `get_summary()`. */
  function StoreSummaries(acc: Dict<DeviceSummary>, devices: Config): (r: Dict<DeviceSummary>)
    ensures forall k :: k in Keys(r) <==> k in Keys(acc) || k in Keys(devices)
    decreases |devices|
  {
    if devices == [] then acc
    else
      assert Keys(devices) == [devices[0].0] + Keys(devices[1..]);
      StoreSummaries(Set(acc, devices[0].0, SummaryOf(devices[0].1)), devices[1..])
  }

  /** `get_summary()`. */
  function GetSummary(config: Config): (r: Dict<DeviceSummary>)
    ensures forall k :: k in Keys(r) <==> k in Keys(config)
  {
    StoreSummaries([], config)
  }

  lemma {:induction false} StoreSummariesGet(acc: Dict<DeviceSummary>, devices: Config, k: string)
    requires UniqueKeys(devices) && k in Keys(devices)
    ensures Get(StoreSummaries(acc, devices), k) == Some(SummaryOf(Get(devices, k).value))
    decreases |devices|
  {
    assert Keys(devices) == [devices[0].0] + Keys(devices[1..]);
    var acc' := Set(acc, devices[0].0, SummaryOf(devices[0].1));
    if k == devices[0].0 {
      StoreSummariesKeep(acc', devices[1..], k);
    } else {
      StoreSummariesGet(acc', devices[1..], k);
    }
  }

  lemma {:induction false} StoreSummariesKeep(acc: Dict<DeviceSummary>, devices: Config, k: string)
    requires k !in Keys(devices)
    ensures Get(StoreSummaries(acc, devices), k) == Get(acc, k)
    decreases |devices|
  {
    if devices != [] {
      assert Keys(devices) == [devices[0].0] + Keys(devices[1..]);
      StoreSummariesKeep(Set(acc, devices[0].0, SummaryOf(devices[0].1)), devices[1..], k);
    }
  }

  /** The summary's counts are the sizes of the point lists
      `get_device_points` returns for the same key. */
  lemma SummaryCounts(config: Config, k: string)
    requires UniqueKeys(config) && k in Keys(config)
    ensures var s := Get(GetSummary(config), k).value;
      s.totalPoints == |GetDevicePoints(config, k, false)| &&
      s.enabledPoints == |GetDevicePoints(config, k, true)| &&
      s.disabledPoints == s.totalPoints - s.enabledPoints
  {
    StoreSummariesGet([], config, k);
    EnabledCount(Get(config, k).value.dataPoints);
  }

  // ---------------------------------------------------------- measurements

  /** Python's `<` on strings: code point by code point, a proper prefix
      first. */
  predicate StrLess(a: string, b: string) {
    if a == [] then b != []
    else if b == [] then false
    else a[0] < b[0] || (a[0] == b[0] && StrLess(a[1..], b[1..]))
  }

  lemma {:induction false} StrLessIrreflexive(a: string)
    ensures !StrLess(a, a)
  {
    if a != [] {
      StrLessIrreflexive(a[1..]);
    }
  }

  lemma {:induction false} StrLessTransitive(a: string, b: string, c: string)
    requires StrLess(a, b) && StrLess(b, c)
    ensures StrLess(a, c)
  {
    if a != [] && b != [] && c != [] && a[0] == b[0] == c[0] {
      StrLessTransitive(a[1..], b[1..], c[1..]);
    }
  }

  lemma {:induction false} StrLessTotal(a: string, b: string)
    requires a != b
    ensures StrLess(a, b) || StrLess(b, a)
  {
    if a != [] && b != [] && a[0] == b[0] {
      assert a == [a[0]] + a[1..] && b == [b[0]] + b[1..];
      StrLessTotal(a[1..], b[1..]);
    }
  }

  /** Strictly increasing, hence free of duplicates. */
  predicate StrictlySorted(s: seq<string>) {
    forall i :: 0 <= i < |s| - 1 ==> StrLess(s[i], s[i + 1])
  }

  /** In a strictly sorted list every earlier element is smaller. */
  lemma {:induction false} SortedLess(s: seq<string>, i: nat, j: nat)
    requires StrictlySorted(s) && i < j < |s|
    ensures StrLess(s[i], s[j])
    decreases j - i
  {
    if j > i + 1 {
      SortedLess(s, i, j - 1);
      StrLessTransitive(s[i], s[j - 1], s[j]);
    }
  }

  /** `measurements.add(x)` on the sorted list of a set. */
  function Insert(s: seq<string>, x: string): (r: seq<string>)
    requires StrictlySorted(s)
    ensures StrictlySorted(r)
    ensures forall y :: y in r <==> y in s || y == x
    ensures s != [] && r != [] ==> r[0] == s[0] || r[0] == x
  {
    if s == [] then [x]
    else if x == s[0] then s
    else if StrLess(x, s[0]) then [x] + s
    else
      StrLessTotal(x, s[0]);
      [s[0]] + Insert(s[1..], x)
  }

  /** The measurement of every enabled point, in configuration order. */
  function EnabledMeasurements(config: Config): (r: seq<string>) {
    var ps := Enabled(AllPoints(config));
    seq(|ps|, i requires 0 <= i < |ps| => ps[i].measurement)
  }

  /** Sorting a list of strings into a duplicate-free sorted list. */
  function SortedSet(ms: seq<string>): (r: seq<string>)
    ensures StrictlySorted(r)
    ensures forall y :: y in r <==> y in ms
  {
    if ms == [] then [] else Insert(SortedSet(ms[1..]), ms[0])
  }

  /** `list_measurements()`: the enabled points' measurements, each once,
      in ascending order. */
  function ListMeasurements(config: Config): (r: seq<string>)
    ensures StrictlySorted(r)
    ensures forall m :: m in r <==> exists p :: p in AllPoints(config) && p.enabled && p.measurement == m
  {
    var ms := EnabledMeasurements(config);
    var r := SortedSet(ms);
    assert forall m :: m in ms <==> exists p :: p in AllPoints(config) && p.enabled && p.measurement == m by {
      var ps := Enabled(AllPoints(config));
      forall m | m in ms
        ensures exists p :: p in AllPoints(config) && p.enabled && p.measurement == m
      {
        var i :| 0 <= i < |ms| && ms[i] == m;
        assert ps[i] in ps;
      }
      forall m | exists p :: p in AllPoints(config) && p.enabled && p.measurement == m
        ensures m in ms
      {
        var p :| p in AllPoints(config) && p.enabled && p.measurement == m;
        var i :| 0 <= i < |ps| && ps[i] == p;
        assert ms[i] == m;
      }
    }
    r
  }

  /** `<` on strings is asymmetric. */
  lemma {:induction false} StrLessAsymmetric(a: string, b: string)
    ensures !(StrLess(a, b) && StrLess(b, a))
  {
    if a != [] && b != [] && a[0] == b[0] {
      StrLessAsymmetric(a[1..], b[1..]);
    }
  }

  /** The head of a strictly sorted list is its least element. */
  lemma HeadLeast(s: seq<string>, y: string)
    requires StrictlySorted(s) && y in s
    ensures y == s[0] || StrLess(s[0], y)
  {
    var i :| 0 <= i < |s| && s[i] == y;
    if i > 0 {
      SortedLess(s, 0, i);
    }
  }

  /** A set has one strictly sorted listing: whatever sort Python uses,
      the list is the one computed here. */
  lemma {:induction false} SortedUnique(a: seq<string>, b: seq<string>)
    requires StrictlySorted(a) && StrictlySorted(b)
    requires forall y :: y in a <==> y in b
    ensures a == b
    decreases |a|
  {
    assert a != [] ==> a[0] in a;
    assert b != [] ==> b[0] in b;
    if a != [] && b != [] {
      HeadLeast(b, a[0]);
      HeadLeast(a, b[0]);
      StrLessAsymmetric(a[0], b[0]);
      StrLessIrreflexive(a[0]);
      forall y | y in a[1..]
        ensures y in b[1..]
      {
        var i :| 0 <= i < |a[1..]| && a[1..][i] == y;
        SortedLess(a, 0, i + 1);
        assert y in a;
        var j :| 0 <= j < |b| && b[j] == y;
        assert b[1..][j - 1] == y;
      }
      forall y | y in b[1..]
        ensures y in a[1..]
      {
        var i :| 0 <= i < |b[1..]| && b[1..][i] == y;
        SortedLess(b, 0, i + 1);
        assert y in b;
        var j :| 0 <= j < |a| && a[j] == y;
        assert a[1..][j - 1] == y;
      }
      SortedUnique(a[1..], b[1..]);
    }
  }
}
