/** The dust-concentration converter (`PM10Converter`): the sensor
    registers already hold real values, so readings are only rounded to one
    decimal place; old field names are accepted as fallbacks. */
module Pm10Converter {
  import opened Results
  import opened PyDict
  import opened PyRuntime
  import opened ConverterBase

  /** `get_field_value(raw_data, name, None)`, with None as absence. */
  function Reading(raw: Dict<Value>, name: string): (r: Option<Value>)
    ensures r.None? <==> GetFieldValue(raw, name, VNone).VNone?
    ensures r.Some? ==> r.value == GetFieldValue(raw, name, VNone)
  {
    var v := GetFieldValue(raw, name, VNone);
    if v.VNone? then None else Some(v)
  }

  /** The first of two readings that is present. */
  function FirstOf(a: Option<Value>, b: Option<Value>): (r: Option<Value>)
    ensures a.Some? ==> r == a
    ensures a.None? ==> r == b
  {
    if a.Some? then a else b
  }

  /** PM10, falling back to the old name 'Concentration'. */
  function Pm10Source(raw: Dict<Value>): Option<Value> {
    FirstOf(Reading(raw, "PM10"), Reading(raw, "Concentration"))
  }

  /** PM2_5, falling back to 'PM2.5'. */
  function Pm25Source(raw: Dict<Value>): Option<Value> {
    FirstOf(Reading(raw, "PM2_5"), Reading(raw, "PM2.5"))
  }

  /** PM1_0, falling back to 'PM1.0'. */
  function Pm1Source(raw: Dict<Value>): Option<Value> {
    FirstOf(Reading(raw, "PM1_0"), Reading(raw, "PM1.0"))
  }

  /** `round(float(v), 1)`; None is the error `float()` raises. */
  function Rounded(v: Value): Option<real> {
    ScaledRound(v, 1.0, 1)
  }

  /** A present reading that `float()` rejects. */
  predicate Bad(s: Option<Value>) {
    s.Some? && !IsNumber(s.value)
  }

  /** The pairs a present reading stores under `keys`. */
  function Emit(s: Option<Value>, keys: seq<string>): (r: Dict<Value>)
    requires !Bad(s)
    ensures s.None? ==> r == []
    ensures s.Some? ==> Keys(r) == keys
  {
    match s
    case None => []
    case Some(v) =>
      var x := VFloat(Rounded(v).value);
      var r := seq(|keys|, i requires 0 <= i < |keys| => (keys[i], x));
      KeysIndex(r);
      r
  }

  /** The dict built from the three readings: pm10 and concentration,
      then pm2_5, then pm1_0, each group only when its reading is present,
      and `{concentration: 0.0}` when that leaves it empty. */
  function Stored(p10: Option<Value>, p25: Option<Value>, p1: Option<Value>): Dict<Value>
    requires !Bad(p10) && !Bad(p25) && !Bad(p1)
  {
    var fields := Emit(p10, ["pm10", "concentration"]) + Emit(p25, ["pm2_5"]) + Emit(p1, ["pm1_0"]);
    if fields == [] then [("concentration", VFloat(0.0))] else fields
  }

  /** `convert(raw_data)`; None is the error a present non-number reading
      raises. */
  function Convert(raw: Dict<Value>): (r: Option<Dict<Value>>)
    ensures r.Some? <==> !Bad(Pm10Source(raw)) && !Bad(Pm25Source(raw)) && !Bad(Pm1Source(raw))
    ensures r.Some? ==> r.value == Stored(Pm10Source(raw), Pm25Source(raw), Pm1Source(raw))
  {
    var p10, p25, p1 := Pm10Source(raw), Pm25Source(raw), Pm1Source(raw);
    if Bad(p10) || Bad(p25) || Bad(p1) then None
    else Some(Stored(p10, p25, p1))
  }

  /** The keys stored, in order. */
  function KeyList(p10: Option<Value>, p25: Option<Value>, p1: Option<Value>): seq<string> {
    if p10.None? && p25.None? && p1.None? then ["concentration"]
    else (if p10.Some? then ["pm10", "concentration"] else []) +
         (if p25.Some? then ["pm2_5"] else []) + (if p1.Some? then ["pm1_0"] else [])
  }

  lemma StoredKeyList(p10: Option<Value>, p25: Option<Value>, p1: Option<Value>)
    requires !Bad(p10) && !Bad(p25) && !Bad(p1)
    ensures Keys(Stored(p10, p25, p1)) == KeyList(p10, p25, p1)
  {
    var a, b, c := Emit(p10, ["pm10", "concentration"]), Emit(p25, ["pm2_5"]), Emit(p1, ["pm1_0"]);
    KeysConcat(a, b);
    KeysConcat(a + b, c);
    if a + b + c == [] {
      assert Keys(Stored(p10, p25, p1)) == ["concentration"];
    }
  }

  /** Which keys appear: each reading's own key exactly when it is present,
      and `concentration` exactly when PM10 is present or nothing is. */
  lemma StoredKeys(p10: Option<Value>, p25: Option<Value>, p1: Option<Value>)
    requires !Bad(p10) && !Bad(p25) && !Bad(p1)
    ensures var ks := Keys(Stored(p10, p25, p1));
      ("pm10" in ks <==> p10.Some?) && ("pm2_5" in ks <==> p25.Some?) && ("pm1_0" in ks <==> p1.Some?) &&
      ("concentration" in ks <==> p10.Some? || (p25.None? && p1.None?))
  {
    StoredKeyList(p10, p25, p1);
  }

  /** The stored keys are distinct and are all declared output fields. */
  lemma StoredKeysDeclared(p10: Option<Value>, p25: Option<Value>, p1: Option<Value>)
    requires !Bad(p10) && !Bad(p25) && !Bad(p1)
    ensures var ks := Keys(Stored(p10, p25, p1));
      Distinct(ks) && forall k <- ks :: k in OutputFieldNames(Pm10)
  {
    StoredKeyList(p10, p25, p1);
  }

  /** With a PM10 reading, `pm10` and `concentration` both hold it rounded
      to 0.1 with no scaling. */
  lemma Pm10Value(raw: Dict<Value>)
    requires Convert(raw).Some? && Pm10Source(raw).Some?
    ensures var v := VFloat(RoundHalfEven(NumValue(Pm10Source(raw).value), 1));
      Get(Convert(raw).value, "pm10") == Some(v) && Get(Convert(raw).value, "concentration") == Some(v)
  {
    var e := Emit(Pm10Source(raw), ["pm10", "concentration"]);
    assert Convert(raw).value == e + (Emit(Pm25Source(raw), ["pm2_5"]) + Emit(Pm1Source(raw), ["pm1_0"]));
  }

  /** The new field names win over the old ones. */
  lemma AliasPrecedence(raw: Dict<Value>)
    ensures Reading(raw, "PM10").Some? ==> Pm10Source(raw) == Reading(raw, "PM10")
    ensures Reading(raw, "PM2_5").Some? ==> Pm25Source(raw) == Reading(raw, "PM2_5")
    ensures Reading(raw, "PM1_0").Some? ==> Pm1Source(raw) == Reading(raw, "PM1_0")
  {
  }

  /** A field present with the value None counts as absent. */
  lemma NoneIsAbsent(raw: Dict<Value>)
    requires Get(raw, "PM10") == Some(VNone)
    ensures Reading(raw, "PM10").None?
  {
  }

  /** With PM2.5 alone there is no `concentration` key. */
  lemma Pm25Alone()
    ensures Convert([("PM2_5", VInt(12))]) == Some([("pm2_5", VFloat(12.0))])
  {
    var raw := [("PM2_5", VInt(12))];
    assert Pm10Source(raw).None? && Pm1Source(raw).None?;
    assert Pm25Source(raw) == Some(VInt(12));
    assert Emit(Some(VInt(12)), ["pm2_5"]) == [("pm2_5", VFloat(Rounded(VInt(12)).value))];
    assert Rounded(VInt(12)).value == RoundHalfEven(12.0, 1);
    assert Stored(None, Some(VInt(12)), None) == Emit(Some(VInt(12)), ["pm2_5"]);
    assert ScaleBy(12.0, 1) == 120.0;
    RoundOnGrid(12.0, 1);
  }
}
