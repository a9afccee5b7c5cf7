/** The converter registry: `CONVERTER_MAP` from module-type strings to
    converter classes, and `get_converter`, which hands out one cached
    instance per key. Object identity is modelled by an allocation serial:
    every instantiation takes the registry's next serial. */
module ConverterRegistry {
  import opened Results
  import opened PyDict
  import opened ConverterBase

  /** `CONVERTER_MAP`: the library's base-module names, then the business
      type names of the device configurations. */
  const ConverterMap: Dict<ConverterKind> := [
    ("ElectricityMeter", Electricity),
    ("TemperatureSensor", Temperature),
    ("PM10Sensor", Pm10),
    ("VibrationSelected", Vibration),
    ("electricity", Electricity),
    ("temperature", Temperature),
    ("pm10", Pm10),
    ("vibration_selected", Vibration)
  ]

  /** A converter object: its class and its identity. */
  datatype Instance = Instance(kind: ConverterKind, serial: nat)

  /** `_converter_cache`, together with the next identity to hand out. */
  datatype Registry = Registry(cache: Dict<Instance>, next: nat)

  /** The registry at import time: an empty cache. */
  const Initial: Registry := Registry([], 0)

  /** Cached instances are pairwise distinct objects, all allocated before
      `next`. */
  predicate Identities(cache: Dict<Instance>, next: nat) {
    (forall i :: 0 <= i < |cache| ==> cache[i].1.serial < next) &&
    (forall i, j :: 0 <= i < j < |cache| ==> cache[i].1.serial != cache[j].1.serial)
  }

  /** What the cache keeps true: each key once, only keys of the class
      table, each instance of the class the table names for its key,
      distinct objects. */
  predicate Valid(classes: Dict<ConverterKind>, reg: Registry) {
    UniqueKeys(reg.cache) &&
    (forall k :: k in Keys(reg.cache) ==> k in Keys(classes)) &&
    (forall k :: k in Keys(reg.cache) ==> Get(reg.cache, k).value.kind == Get(classes, k).value) &&
    Identities(reg.cache, reg.next)
  }

  /** Appending an instance allocated at `next` keeps identities distinct. */
  lemma IdentitiesAppend(cache: Dict<Instance>, next: nat, k: string, kind: ConverterKind)
    ensures Identities(cache, next) ==> Identities(cache + [(k, Instance(kind, next))], next + 1)
  {
  }

  /** `get_converter(module_type)` over a class table: ValueError (Err) for
      a key outside the table; the cached instance when there is one;
      otherwise a new instance of the mapped class, stored under the key. */
  function GetConverterIn(classes: Dict<ConverterKind>, reg: Registry, key: string): (r: Result<(Instance, Registry), string>)
    ensures r.Err? <==> key !in Keys(classes)
    ensures r.Ok? && Valid(classes, reg) ==> r.value.0.kind == Get(classes, key).value
    ensures r.Ok? ==> Get(r.value.1.cache, key) == Some(r.value.0)
    ensures r.Ok? ==> forall k :: k != key ==> Get(r.value.1.cache, k) == Get(reg.cache, k)
    ensures r.Ok? && Valid(classes, reg) ==> Valid(classes, r.value.1)
  {
    match Get(classes, key)
    case None => Err("unknown module type: " + key)
    case Some(kind) =>
      match Get(reg.cache, key)
      case Some(inst) => Ok((inst, reg))
      case None =>
        var inst := Instance(kind, reg.next);
        SetNew(reg.cache, key, inst);
        IdentitiesAppend(reg.cache, reg.next, key, kind);
        Ok((inst, Registry(Set(reg.cache, key, inst), reg.next + 1)))
  }

  /** `get_converter(module_type)` with `CONVERTER_MAP`. */
  function GetConverter(reg: Registry, key: string): (r: Result<(Instance, Registry), string>)
    ensures r.Err? <==> key !in Keys(ConverterMap)
  {
    GetConverterIn(ConverterMap, reg, key)
  }

  /** The keys of `CONVERTER_MAP`, in declaration order. */
  lemma MapKeys()
    ensures Keys(ConverterMap) == ["ElectricityMeter", "TemperatureSensor", "PM10Sensor", "VibrationSelected",
                                   "electricity", "temperature", "pm10", "vibration_selected"]
  {
  }

  /** The map has eight distinct keys. */
  lemma MapDistinct()
    ensures |ConverterMap| == 8 && UniqueKeys(ConverterMap)
  {
    MapKeys();
    UniqueKeysDistinct(ConverterMap);
  }

  /** Only four classes occur in the map: the weighing converter is not
      reachable through the registry. */
  lemma MapNoWeight(k: string)
    requires k in Keys(ConverterMap)
    ensures Get(ConverterMap, k).value != Weight
  {
    var i :| 0 <= i < |ConverterMap| && ConverterMap[i] == (k, Get(ConverterMap, k).value);
  }

  /** Neither the weighing sensor's module type nor the bare `vibration`
      business type is a key. */
  lemma MapMissing()
    ensures "WeighSensor" !in Keys(ConverterMap) && "vibration" !in Keys(ConverterMap)
  {
    MapKeys();
  }

  /** Every class but the weighing converter is found under its own
      `MODULE_TYPE`. */
  lemma MapModuleTypes(kind: ConverterKind)
    requires kind != Weight
    ensures Get(ConverterMap, ModuleType(kind)) == Some(kind)
  {
  }

  /** Unknown keys raise; `WeighSensor` in particular has no converter. */
  lemma UnknownKeys(reg: Registry)
    ensures GetConverter(reg, "WeighSensor").Err?
    ensures GetConverter(reg, "vibration").Err?
  {
    MapMissing();
  }

  /** Asking twice for the same key gives the same object and the second
      call changes nothing. */
  lemma Idempotent(classes: Dict<ConverterKind>, reg: Registry, key: string)
    requires GetConverterIn(classes, reg, key).Ok?
    ensures var (inst, reg') := GetConverterIn(classes, reg, key).value;
      GetConverterIn(classes, reg', key) == Ok((inst, reg'))
  {
  }

  /** Two different keys never share an object, even when they map to the
      same class: the cache is keyed by the string. */
  lemma AliasesDistinct(classes: Dict<ConverterKind>, reg: Registry, a: string, b: string)
    requires Valid(classes, reg) && a != b
    requires GetConverterIn(classes, reg, a).Ok?
    requires GetConverterIn(classes, GetConverterIn(classes, reg, a).value.1, b).Ok?
    ensures var (x, reg1) := GetConverterIn(classes, reg, a).value;
      var (y, reg2) := GetConverterIn(classes, reg1, b).value;
      x != y && Get(reg2.cache, a) == Some(x) && Get(reg2.cache, b) == Some(y)
  {
    var (x, reg1) := GetConverterIn(classes, reg, a).value;
    var (y, reg2) := GetConverterIn(classes, reg1, b).value;
    assert Valid(classes, reg2);
    UniqueKeysDistinct(reg2.cache);
    KeysIndex(reg2.cache);
    assert Get(reg2.cache, a) == Some(x);
    var i :| 0 <= i < |reg2.cache| && reg2.cache[i] == (a, x);
    var j :| 0 <= j < |reg2.cache| && reg2.cache[j] == (b, y);
    assert i != j;
    if i < j {
      assert x.serial != y.serial;
    } else {
      assert reg2.cache[j].1.serial != reg2.cache[i].1.serial;
    }
  }

  /** From the import-time registry, `ElectricityMeter` and `electricity`
      give two different electricity converters. */
  lemma ElectricityAliases()
    ensures var (x, reg1) := GetConverter(Initial, "ElectricityMeter").value;
      var (y, _) := GetConverter(reg1, "electricity").value;
      x.kind == y.kind == Electricity && x != y
  {
    MapKeys();
    assert Valid(ConverterMap, Initial);
    AliasesDistinct(ConverterMap, Initial, "ElectricityMeter", "electricity");
  }

  /** Any sequence of calls keeps a valid registry valid. */
  function Run(classes: Dict<ConverterKind>, reg: Registry, keys: seq<string>): (r: Registry)
    ensures Valid(classes, reg) ==> Valid(classes, r)
    decreases |keys|
  {
    if keys == [] then reg
    else
      match GetConverterIn(classes, reg, keys[0])
      case Err(_) => Run(classes, reg, keys[1..])
      case Ok((_, reg')) => Run(classes, reg', keys[1..])
  }

  /** After any calls, the cached keys are the ones cached before and the
      table keys that were asked for: nothing outside the table is cached. */
  lemma {:induction false} RunKeys(classes: Dict<ConverterKind>, reg: Registry, keys: seq<string>, k: string)
    ensures k in Keys(Run(classes, reg, keys).cache) <==>
      k in Keys(reg.cache) || (k in keys && k in Keys(classes))
    decreases |keys|
  {
    if keys != [] {
      match GetConverterIn(classes, reg, keys[0])
      case Err(_) =>
        RunKeys(classes, reg, keys[1..], k);
      case Ok((_, reg')) =>
        RunKeys(classes, reg', keys[1..], k);
    }
  }
}
