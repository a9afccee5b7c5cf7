/** The DB4 vibration converter (`VibrationConverter`): twelve named
    readings are copied under output keys, rounded per quantity and checked
    against the sensor's ranges. A reading out of range is reported, never
    clamped or dropped; the report stands for the converter's log warnings.
    When no named reading is present every usable raw field is passed on
    under its lower-cased name. */
module VibrationConverter {
  import opened Results
  import opened PyDict
  import opened PyRuntime
  import opened ConverterBase

  /** The four validators. */
  datatype Quantity = Displacement | Frequency | Acceleration | Velocity

  /** `DISPLACEMENT_MODE`. */
  const DisplacementMode: string := "high_range"

  /** `VALID_RANGES` for each quantity, the displacement range by mode. */
  function Range(q: Quantity): (int, int) {
    match q
    case Displacement => if DisplacementMode == "high_range" then (0, 60000) else (0, 600)
    case Frequency => (0, 10000)
    case Acceleration => (0, 100)
    case Velocity => (0, 50)
  }

  /** The decimal places each validator rounds to. */
  function Places(q: Quantity): nat {
    match q
    case Displacement => 2
    case Frequency => 1
    case Acceleration => 2
    case Velocity => 1
  }

  /** The named readings: output key, raw field and validator of each, in
      the order `convert` sets them. */
  datatype Table = Table(outs: seq<string>, fields: seq<string>, quantities: seq<Quantity>)

  /** One entry per reading, and no output key twice. */
  predicate WellFormed(t: Table) {
    |t.outs| == |t.fields| == |t.quantities| && Distinct(t.outs)
  }

  /** The converter's table: displacement, frequency, acceleration peak,
      velocity RMS, each for the x, y and z axes. */
  const Readings: Table := Table(
    OutputFieldNames(Vibration),
    ["DX", "DY", "DZ", "HZX", "HZY", "HZZ", "KX", "AAVGY", "AAVGZ", "VRMSX", "VRMSY", "VRMGZ"],
    [Displacement, Displacement, Displacement, Frequency, Frequency, Frequency,
     Acceleration, Acceleration, Acceleration, Velocity, Velocity, Velocity])

  lemma ReadingsWellFormed()
    ensures WellFormed(Readings)
  {
  }

  /** `get_field_value(raw_data, field, None)`. */
  function Reading(raw: Dict<Value>, field: string): Value {
    GetFieldValue(raw, field, VNone)
  }

  /** The readings of a table, one per named reading. */
  predicate Shaped(t: Table, vals: seq<Value>) {
    WellFormed(t) && |vals| == |t.outs|
  }

  /** The named readings of `raw_data`, in table order. */
  function ReadingsOf(t: Table, raw: Dict<Value>): (r: seq<Value>)
    requires WellFormed(t)
    ensures Shaped(t, r) && forall j :: 0 <= j < |r| ==> r[j] == Reading(raw, t.fields[j])
  {
    seq(|t.outs|, j requires 0 <= j < |t.outs| => Reading(raw, t.fields[j]))
  }

  /** The j-th reading is present (not None). */
  predicate Present(t: Table, vals: seq<Value>, j: nat)
    requires Shaped(t, vals) && j < |t.outs|
  {
    !vals[j].VNone?
  }

  /** The validator's range test `min <= value <= max`. */
  predicate InRange(v: Value, q: Quantity)
    requires IsNumber(v)
  {
    Range(q).0 as real <= NumValue(v) <= Range(q).1 as real
  }

  /** The value a validator returns: `round(value, places)`. */
  function Validated(v: Value, q: Quantity): (r: Value)
    requires IsNumber(v)
    ensures IsNumber(r) && NumValue(r) == RoundNum(v, Places(q))
  {
    PyRound(v, Places(q)).value
  }

  /** The j-th reading, when present, is a number; otherwise its
      validator's comparison raises TypeError. */
  predicate Usable(t: Table, vals: seq<Value>, j: nat)
    requires Shaped(t, vals) && j < |t.outs|
  {
    Present(t, vals, j) ==> IsNumber(vals[j])
  }

  /** Every reading from the i-th on is usable. */
  predicate Comparable(t: Table, vals: seq<Value>, i: nat)
    requires Shaped(t, vals)
  {
    forall j :: i <= j < |t.outs| ==> Usable(t, vals, j)
  }

  /** The value stored for the j-th output key, None when its reading is
      absent. */
  function Expected(t: Table, vals: seq<Value>, j: nat): Option<Value>
    requires Shaped(t, vals) && j < |t.outs| && Usable(t, vals, j)
  {
    if Present(t, vals, j) then Some(Validated(vals[j], t.quantities[j])) else None
  }

  /** The j-th reading is present and out of its range. */
  predicate Warned(t: Table, vals: seq<Value>, j: nat)
    requires Shaped(t, vals) && j < |t.outs| && Usable(t, vals, j)
  {
    Present(t, vals, j) && !InRange(vals[j], t.quantities[j])
  }

  /** The key `k` does not occur after position `i` of the distinct keys. */
  lemma NotLater(t: Table, i: nat)
    requires WellFormed(t) && i < |t.outs|
    ensures t.outs[i] !in t.outs[i + 1..]
  {
    assert forall j :: i + 1 <= j < |t.outs| ==> t.outs[j] != t.outs[i];
    assert forall j {:trigger t.outs[i + 1..][j]} :: 0 <= j < |t.outs[i + 1..]| ==> t.outs[i + 1..][j] == t.outs[i + 1 + j];
  }

  /** The `_set_if_present` calls from the i-th reading on: the stored
      pairs and the keys whose reading was out of range. */
  function Standard(t: Table, vals: seq<Value>, i: nat): (r: Option<(Dict<Value>, seq<string>)>)
    requires Shaped(t, vals) && i <= |t.outs|
    ensures r.Some? <==> Comparable(t, vals, i)
    ensures r.Some? ==> UniqueKeys(r.value.0) && forall k :: k in Keys(r.value.0) ==> k in t.outs[i..]
    decreases |t.outs| - i
  {
    if i == |t.outs| then Some(([], []))
    else
      var v := vals[i];
      var k := t.outs[i];
      match Standard(t, vals, i + 1)
      case None => None
      case Some((f, w)) =>
        if v.VNone? then Some((f, w))
        else if !IsNumber(v) then assert !Usable(t, vals, i); None
        else
          NotLater(t, i);
          var f' := [(k, Validated(v, t.quantities[i]))] + f;
          assert f'[1..] == f;
          Some((f', if InRange(v, t.quantities[i]) then w else [k] + w))
  }

  /** Each output key from the i-th on holds its validated reading, and is
      absent when its reading is. */
  lemma {:induction false} StandardGet(t: Table, vals: seq<Value>, i: nat, j: nat)
    requires Shaped(t, vals) && i <= j < |t.outs| && Standard(t, vals, i).Some?
    ensures Get(Standard(t, vals, i).value.0, t.outs[j]) == Expected(t, vals, j)
    decreases j - i
  {
    NotLater(t, i);
    if i < j {
      StandardGet(t, vals, i + 1, j);
      assert t.outs[i] != t.outs[j];
    }
  }

  /** A key is reported exactly when its reading is present and out of
      range. */
  lemma {:induction false} StandardWarned(t: Table, vals: seq<Value>, i: nat, j: nat)
    requires Shaped(t, vals) && i <= j < |t.outs| && Standard(t, vals, i).Some?
    ensures t.outs[j] in Standard(t, vals, i).value.1 <==> Warned(t, vals, j)
    decreases j - i
  {
    StandardWarnedLater(t, vals, i + 1);
    if i < j {
      StandardWarned(t, vals, i + 1, j);
      NotLater(t, i);
      assert t.outs[i] != t.outs[j];
    } else {
      NotLater(t, i);
    }
  }

  /** A reported key is still stored: the range check never drops a value. */
  lemma WarnedStored(t: Table, vals: seq<Value>, j: nat)
    requires Shaped(t, vals) && j < |t.outs| && Standard(t, vals, 0).Some?
    requires t.outs[j] in Standard(t, vals, 0).value.1
    ensures Present(t, vals, j) && IsNumber(vals[j]) &&
      Get(Standard(t, vals, 0).value.0, t.outs[j]) == Some(Validated(vals[j], t.quantities[j]))
  {
    StandardWarned(t, vals, 0, j);
    StandardGet(t, vals, 0, j);
  }

  /** Every reported key from the i-th on is one of those keys. */
  lemma {:induction false} StandardWarnedLater(t: Table, vals: seq<Value>, i: nat)
    requires Shaped(t, vals) && i <= |t.outs| && Standard(t, vals, i).Some?
    ensures forall w <- Standard(t, vals, i).value.1 :: w in t.outs[i..]
    decreases |t.outs| - i
  {
    if i < |t.outs| {
      StandardWarnedLater(t, vals, i + 1);
      assert t.outs[i + 1..] == t.outs[i..][1..];
    }
  }

  /** The standard pass stores nothing exactly when no reading is present. */
  lemma StandardEmpty(t: Table, vals: seq<Value>)
    requires Shaped(t, vals) && Comparable(t, vals, 0)
    ensures Standard(t, vals, 0).value.0 == [] <==> forall j :: 0 <= j < |t.outs| ==> !Present(t, vals, j)
  {
    var f := Standard(t, vals, 0).value.0;
    if f != [] {
      assert f[0].0 in Keys(f);
      assert f[0].0 in t.outs[0..];
      var j :| 0 <= j < |t.outs| && t.outs[j] == f[0].0;
      StandardGet(t, vals, 0, j);
    } else {
      forall j | 0 <= j < |t.outs|
        ensures !Present(t, vals, j)
      {
        StandardGet(t, vals, 0, j);
      }
    }
  }

  /** A raw entry the fallback passes on: the 'value' of a dict holding
      that key, or a number itself. */
  function Passable(v: Value): Option<Value> {
    if v.VDict? && "value" in Keys(v.entries) then Get(v.entries, "value")
    else if IsNumber(v) then Some(v)
    else None
  }

  /** The fallback loop over the raw entries, storing into `acc` under the
      lower-cased key; a later entry whose key lower-cases alike overwrites
      the value in place. */
  function Fallback(acc: Dict<Value>, raw: Dict<Value>): (r: Dict<Value>)
    ensures forall k :: k in Keys(r) <==>
      k in Keys(acc) || exists i :: 0 <= i < |raw| && Lower(raw[i].0) == k && Passable(raw[i].1).Some?
    ensures UniqueKeys(acc) ==> UniqueKeys(r)
    decreases |raw|
  {
    if raw == [] then acc
    else
      var (k, v) := raw[0];
      var acc' := match Passable(v) case Some(x) => Set(acc, Lower(k), x) case None => acc;
      var r := Fallback(acc', raw[1..]);
      assert forall i :: 1 <= i < |raw| ==> raw[1..][i - 1] == raw[i];
      r
  }

  /** `convert` for a table of readings: the validated readings, or the
      fallback when none is present; None is the TypeError a present
      non-number reading raises. The second component lists the keys whose
      value lies outside its range. */
  function ConvertWith(t: Table, raw: Dict<Value>): (r: Option<(Dict<Value>, seq<string>)>)
    requires WellFormed(t)
    ensures r.Some? <==> Comparable(t, ReadingsOf(t, raw), 0)
    ensures r.Some? ==> UniqueKeys(r.value.0)
  {
    match Standard(t, ReadingsOf(t, raw), 0)
    case None => None
    case Some((f, w)) => if f == [] then Some((Fallback([], raw), [])) else Some((f, w))
  }

  /** `convert(raw_data)`. */
  function Convert(raw: Dict<Value>): (r: Option<(Dict<Value>, seq<string>)>)
    ensures r.Some? <==> Comparable(Readings, ReadingsOf(Readings, raw), 0)
    ensures r.Some? ==> UniqueKeys(r.value.0)
  {
    ReadingsWellFormed();
    ConvertWith(Readings, raw)
  }

  /** With some reading present, each output key is stored exactly when
      its reading is present, holding the reading rounded for its quantity
      whatever its range; an out-of-range value is only reported. */
  lemma StandardOutput(t: Table, raw: Dict<Value>, i: nat, j: nat)
    requires WellFormed(t) && ConvertWith(t, raw).Some?
    requires i < |t.outs| && Present(t, ReadingsOf(t, raw), i) && j < |t.outs|
    ensures var vals := ReadingsOf(t, raw);
      Usable(t, vals, j) &&
      Get(ConvertWith(t, raw).value.0, t.outs[j]) == Expected(t, vals, j) &&
      (t.outs[j] in ConvertWith(t, raw).value.1 <==> Warned(t, vals, j))
  {
    var vals := ReadingsOf(t, raw);
    StandardEmpty(t, vals);
    StandardGet(t, vals, 0, j);
    StandardWarned(t, vals, 0, j);
  }

  /** With no reading present, the fallback is taken: the keys are the
      lower-cased names of the raw entries that are dicts holding 'value'
      or numbers, and no warning is reported. */
  lemma FallbackOutput(t: Table, raw: Dict<Value>)
    requires WellFormed(t) && forall j :: 0 <= j < |t.outs| ==> Reading(raw, t.fields[j]).VNone?
    ensures ConvertWith(t, raw) == Some((Fallback([], raw), []))
  {
    StandardEmpty(t, ReadingsOf(t, raw));
  }

  /** The fallback's keys are lower case. */
  lemma FallbackLower(raw: Dict<Value>, k: string)
    requires k in Keys(Fallback([], raw))
    ensures Lower(k) == k
  {
    var i :| 0 <= i < |raw| && Lower(raw[i].0) == k && Passable(raw[i].1).Some?;
    LowerIdempotent(raw[i].0);
  }
}
