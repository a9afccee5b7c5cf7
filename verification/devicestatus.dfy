/** The status-bit decoder for DB3, DB7 and DB11 (`DeviceStatusParser`).
    Every status record is 4 bytes: an error flag in bit 0 of the first
    byte and a big-endian status word in the last two. The per-block
    configurations come in two shapes, devices holding a list of modules or
    flat entries carrying their own offset, and both become one list of
    records. */
module DeviceStatus {
  import opened Results
  import opened PyBytes
  import opened PyDict

  /** The status word returned for a record that does not fit the block. */
  const Sentinel: int := 0xFFFF

  /** `{error, status_code, status_hex}` of one 4-byte record. */
  datatype Status = Status(error: bool, statusCode: int, statusHex: string)

  /** The upper-case hex digit of `d`. */
  function HexDigit(d: nat): char
    requires d < 16
  {
    if d < 10 then ('0' as int + d) as char else ('A' as int + d - 10) as char
  }

  /** The value of an upper-case hex digit; None for any other character. */
  function HexDigitValue(c: char): (r: Option<nat>)
    ensures r.Some? ==> r.value < 16 && HexDigit(r.value) == c
  {
    if '0' <= c <= '9' then Some(c as int - '0' as int)
    else if 'A' <= c <= 'F' then Some(c as int - 'A' as int + 10)
    else None
  }

  /** The two hex digits of a byte. */
  function Hex2(x: int): (r: string)
    requires 0 <= x < 0x100
    ensures |r| == 2
  {
    [HexDigit(x / 16), HexDigit(x % 16)]
  }

  /** `f"{x:04X}"` for a status word: the digits of the high byte, then of
      the low byte. */
  function Hex4(x: int): (r: string)
    requires 0 <= x < 0x1_0000
    ensures |r| == 4
  {
    Hex2(x / 0x100) + Hex2(x % 0x100)
  }

  /** The value of a two-digit upper-case hex string. */
  function HexValue2(s: string): (r: Option<int>)
    requires |s| == 2
    ensures r.Some? ==> 0 <= r.value < 0x100
  {
    match (HexDigitValue(s[0]), HexDigitValue(s[1]))
    case (Some(a), Some(b)) => Some(a * 16 + b)
    case _ => None
  }

  /** The value of a four-digit upper-case hex string; the partner of `Hex4`. */
  function HexValue4(s: string): (r: Option<int>)
    requires |s| == 4
    ensures r.Some? ==> 0 <= r.value < 0x1_0000
  {
    match (HexValue2(s[..2]), HexValue2(s[2..]))
    case (Some(hi), Some(lo)) => Some(hi * 0x100 + lo)
    case _ => None
  }

  lemma HexDigitRoundTrip(d: nat)
    requires d < 16
    ensures HexDigitValue(HexDigit(d)) == Some(d)
  {
  }

  /** A byte value split into hex digits, and a word into bytes, comes
      back unchanged. */
  lemma DigitSplit(q: nat, r: nat)
    requires r < 16
    ensures (q * 16 + r) / 16 == q && (q * 16 + r) % 16 == r
  {
  }

  lemma ByteSplit(q: nat, r: nat)
    requires r < 0x100
    ensures (q * 0x100 + r) / 0x100 == q && (q * 0x100 + r) % 0x100 == r
  {
  }

  lemma Hex2RoundTrip(x: int)
    requires 0 <= x < 0x100
    ensures HexValue2(Hex2(x)) == Some(x)
  {
    HexDigitRoundTrip(x / 16);
    HexDigitRoundTrip(x % 16);
  }

  /** The hex text of a status word reads back as that word. */
  lemma Hex4RoundTrip(x: int)
    requires 0 <= x < 0x1_0000
    ensures HexValue4(Hex4(x)) == Some(x)
  {
    var s := Hex4(x);
    assert s[..2] == Hex2(x / 0x100) && s[2..] == Hex2(x % 0x100);
    Hex2RoundTrip(x / 0x100);
    Hex2RoundTrip(x % 0x100);
  }

  lemma HexValue2RoundTrip(s: string)
    requires |s| == 2 && HexValue2(s).Some?
    ensures Hex2(HexValue2(s).value) == s
  {
    DigitSplit(HexDigitValue(s[0]).value, HexDigitValue(s[1]).value);
  }

  /** Every four-digit upper-case hex string is the text of its value, so
      `Hex4` and `HexValue4` are inverse. */
  lemma HexValue4RoundTrip(s: string)
    requires |s| == 4 && HexValue4(s).Some?
    ensures Hex4(HexValue4(s).value) == s
  {
    HexValue2RoundTrip(s[..2]);
    HexValue2RoundTrip(s[2..]);
    ByteSplit(HexValue2(s[..2]).value, HexValue2(s[2..]).value);
    assert s == s[..2] + s[2..];
  }

  /** `parse_module_status(data, offset)`: the sentinel (error set, word
      0xFFFF) when the 4 bytes do not fit; otherwise bit 0 of the first byte
      and the big-endian word in bytes 2..3. */
  function ParseModuleStatus(data: Bytes, offset: nat): (r: Status)
    ensures offset + 4 > |data| ==> r == Status(true, Sentinel, "FFFF")
    ensures offset + 4 <= |data| ==>
      r.error == BitSet(data[offset], 0) &&
      r.statusCode == BigEndian(data[offset + 2..offset + 4])
    ensures 0 <= r.statusCode < 0x1_0000 && r.statusHex == Hex4(r.statusCode)
  {
    if offset + 4 > |data| then Status(true, Sentinel, "FFFF")
    else
      var code: int := (data[offset + 2] as int) * 0x100 + data[offset + 3];
      assert data[offset + 2..offset + 4][..1] == [data[offset + 2]];
      Status(data[offset] % 2 == 1, code, Hex4(code))
  }

  /** The 4 bytes a PLC writes for an error flag and a status word. */
  function EncodeStatus(error: bool, code: int): (r: Bytes)
    requires 0 <= code < 0x1_0000
    ensures |r| == 4
  {
    [if error then 1 else 0, 0] + PackU16(code)
  }

  /** Decoding a record written into a block gives back the flag and the
      word it was written with. */
  lemma StatusRoundTrip(pre: Bytes, error: bool, code: int, post: Bytes)
    requires 0 <= code < 0x1_0000
    ensures ParseModuleStatus(pre + EncodeStatus(error, code) + post, |pre|) ==
      Status(error, code, Hex4(code))
  {
    var d := pre + EncodeStatus(error, code) + post;
    var w := d[|pre| + 2..|pre| + 4];
    assert w == PackU16(code);
    assert UnpackU16(w) == Some(code);
    assert d[|pre|] == if error then 1 else 0;
  }

  /** `not error and status_code == 0`. */
  predicate IsNormal(s: Status) {
    !s.error && s.statusCode == 0
  }

  /** The sentinel is never normal. */
  lemma SentinelAbnormal(data: Bytes, offset: nat)
    requires offset + 4 > |data|
    ensures !IsNormal(ParseModuleStatus(data, offset))
  {
  }

  /** One module of a device in the nested shape; a missing key is None. */
  datatype StatusModule = StatusModule(tag: Option<string>, description: Option<string>, offset: Option<nat>)

  /** One device entry of a status configuration. `modules` is the value of
      its `modules` key, with an absent key written as []; `offset` is its
      own offset key in the flat shape. */
  datatype StatusEntry = StatusEntry(
    deviceId: Option<string>, deviceName: Option<string>, deviceType: Option<string>,
    tag: Option<string>, description: Option<string>, offset: Option<nat>,
    modules: seq<StatusModule>)

  /** A top-level value of a status configuration: a list of device entries
      or any other YAML value. */
  datatype Section = Devices(entries: seq<StatusEntry>) | OtherValue

  /** One emitted status record. */
  datatype StatusRecord = StatusRecord(
    deviceId: string, deviceName: string, deviceType: string, moduleTag: string,
    description: string, dbNumber: int, offset: nat, status: Status, isNormal: bool,
    timestamp: Option<string>)

  /** The record of module `m` of nested device `d`. */
  function ModuleRecord(db: int, data: Bytes, ts: Option<string>, d: StatusEntry, m: StatusModule): (r: StatusRecord)
    ensures r.deviceId == d.deviceId.GetOr("") + "_" + m.tag.GetOr("")
    ensures r.deviceName == d.deviceName.GetOr("") + " - " + m.description.GetOr("")
    ensures r.offset == m.offset.GetOr(0) && r.status == ParseModuleStatus(data, r.offset)
    ensures r.isNormal <==> IsNormal(r.status)
  {
    var off := m.offset.GetOr(0);
    var st := ParseModuleStatus(data, off);
    StatusRecord(d.deviceId.GetOr("") + "_" + m.tag.GetOr(""),
                 d.deviceName.GetOr("") + " - " + m.description.GetOr(""),
                 d.deviceType.GetOr(""), m.tag.GetOr(""), m.description.GetOr(""),
                 db, off, st, !st.error && st.statusCode == 0, ts)
  }

  /** The record of a flat entry, read at its own offset. */
  function FlatRecord(db: int, data: Bytes, ts: Option<string>, d: StatusEntry): (r: StatusRecord)
    requires d.offset.Some?
    ensures r.deviceId == d.deviceId.GetOr("") && r.deviceName == d.deviceName.GetOr("")
    ensures r.offset == d.offset.value && r.status == ParseModuleStatus(data, r.offset)
    ensures r.isNormal <==> IsNormal(r.status)
  {
    var st := ParseModuleStatus(data, d.offset.value);
    StatusRecord(d.deviceId.GetOr(""), d.deviceName.GetOr(""), d.deviceType.GetOr(""),
                 d.tag.GetOr(""), d.description.GetOr(""), db, d.offset.value, st,
                 !st.error && st.statusCode == 0, ts)
  }

  /** The records of one device entry: one per module when the modules list
      is non-empty, else one for a flat entry with an offset, else none. */
  function EntryRecords(db: int, data: Bytes, ts: Option<string>, d: StatusEntry): (r: seq<StatusRecord>)
    ensures |r| == if d.modules != [] then |d.modules| else if d.offset.Some? then 1 else 0
    ensures d.modules != [] ==>
      forall i :: 0 <= i < |r| ==> r[i] == ModuleRecord(db, data, ts, d, d.modules[i])
    ensures d.modules == [] && d.offset.Some? ==> r == [FlatRecord(db, data, ts, d)]
  {
    if d.modules != [] then
      seq(|d.modules|, i requires 0 <= i < |d.modules| => ModuleRecord(db, data, ts, d, d.modules[i]))
    else if d.offset.Some? then [FlatRecord(db, data, ts, d)]
    else []
  }

  /** Records of a list of device entries, in order. */
  function ListRecords(db: int, data: Bytes, ts: Option<string>, ds: seq<StatusEntry>): seq<StatusRecord>
  {
    if ds == [] then [] else EntryRecords(db, data, ts, ds[0]) + ListRecords(db, data, ts, ds[1..])
  }

  /** Records of the top-level items, skipping `db_config` and every value
      that is not a list. */
  function ConfigRecords(db: int, data: Bytes, ts: Option<string>, cfg: Dict<Section>): seq<StatusRecord>
  {
    if cfg == [] then []
    else
      var (key, sec) := cfg[0];
      (if key == "db_config" || sec.OtherValue? then [] else ListRecords(db, data, ts, sec.entries))
        + ConfigRecords(db, data, ts, cfg[1..])
  }

  /** The number of records an entry yields, from the shape alone. */
  function EntryCount(d: StatusEntry): nat {
    if d.modules != [] then |d.modules| else if d.offset.Some? then 1 else 0
  }

  function ListCount(ds: seq<StatusEntry>): nat {
    if ds == [] then 0 else EntryCount(ds[0]) + ListCount(ds[1..])
  }

  function ConfigCount(cfg: Dict<Section>): nat {
    if cfg == [] then 0
    else
      var own := if cfg[0].0 == "db_config" || cfg[0].1.OtherValue? then 0 else ListCount(cfg[0].1.entries);
      own + ConfigCount(cfg[1..])
  }

  /** The record count depends only on the configuration's shape. */
  lemma {:induction false} ListRecordsCount(db: int, data: Bytes, ts: Option<string>, ds: seq<StatusEntry>)
    ensures |ListRecords(db, data, ts, ds)| == ListCount(ds)
  {
    if ds != [] {
      ListRecordsCount(db, data, ts, ds[1..]);
    }
  }

  lemma {:induction false} ConfigRecordsCount(db: int, data: Bytes, ts: Option<string>, cfg: Dict<Section>)
    ensures |ConfigRecords(db, data, ts, cfg)| == ConfigCount(cfg)
  {
    if cfg != [] {
      ConfigRecordsCount(db, data, ts, cfg[1..]);
      if !(cfg[0].0 == "db_config" || cfg[0].1.OtherValue?) {
        ListRecordsCount(db, data, ts, cfg[0].1.entries);
      }
    }
  }

  /** Every record carries the block number and the status read at its own
      offset, and is normal exactly when that status is. */
  lemma {:induction false} ListRecordsSound(db: int, data: Bytes, ts: Option<string>, ds: seq<StatusEntry>)
    ensures forall r <- ListRecords(db, data, ts, ds) ::
      r.dbNumber == db && r.timestamp == ts && r.status == ParseModuleStatus(data, r.offset) &&
      (r.isNormal <==> IsNormal(r.status))
  {
    if ds != [] {
      ListRecordsSound(db, data, ts, ds[1..]);
    }
  }

  lemma {:induction false} ConfigRecordsSound(db: int, data: Bytes, ts: Option<string>, cfg: Dict<Section>)
    ensures forall r <- ConfigRecords(db, data, ts, cfg) ::
      r.dbNumber == db && r.timestamp == ts && r.status == ParseModuleStatus(data, r.offset) &&
      (r.isNormal <==> IsNormal(r.status))
  {
    if cfg != [] {
      ConfigRecordsSound(db, data, ts, cfg[1..]);
      if !(cfg[0].0 == "db_config" || cfg[0].1.OtherValue?) {
        ListRecordsSound(db, data, ts, cfg[0].1.entries);
      }
    }
  }

  /** `parse_db(db_number, data, timestamp)`: [] for a block with no loaded
      configuration; otherwise the records of its configuration, as many as
      its shape says. */
  function ParseDb(configs: map<int, Dict<Section>>, db: Option<int>, data: Bytes, ts: Option<string>): (r: seq<StatusRecord>)
    ensures db.None? || db.value !in configs ==> r == []
    ensures db.Some? && db.value in configs ==> |r| == ConfigCount(configs[db.value])
    ensures forall x <- r ::
      db.Some? && x.dbNumber == db.value && x.timestamp == ts &&
      x.status == ParseModuleStatus(data, x.offset) && (x.isNormal <==> IsNormal(x.status))
  {
    if db.None? || db.value !in configs then []
    else
      ConfigRecordsCount(db.value, data, ts, configs[db.value]);
      ConfigRecordsSound(db.value, data, ts, configs[db.value]);
      ConfigRecords(db.value, data, ts, configs[db.value])
  }

  /** The per-block input of `parse_all`: `db_number`, `raw_data` (b'' when
      absent) and `timestamp`. */
  datatype RawBlock = RawBlock(dbNumber: Option<int>, rawData: Bytes, timestamp: Option<string>)

  /** `parse_all(raw_data)`: the same keys, in order, each mapped to the
      records of its block. */
  function ParseAll(configs: map<int, Dict<Section>>, raw: Dict<RawBlock>): (r: Dict<seq<StatusRecord>>)
    ensures Keys(r) == Keys(raw)
    ensures forall i :: 0 <= i < |r| ==>
      r[i].1 == ParseDb(configs, raw[i].1.dbNumber, raw[i].1.rawData, raw[i].1.timestamp)
  {
    if raw == [] then []
    else
      var b := raw[0].1;
      [(raw[0].0, ParseDb(configs, b.dbNumber, b.rawData, b.timestamp))] + ParseAll(configs, raw[1..])
  }

  /** The records parsed under `key`, [] when the key is absent. */
  function Parsed(configs: map<int, Dict<Section>>, raw: Dict<RawBlock>, key: string): seq<StatusRecord> {
    Get(ParseAll(configs, raw), key).GetOr([])
  }

  /** `get_all_as_flat_list(raw_data)`: the DB3 records, then DB7, then DB11. */
  function FlatList(configs: map<int, Dict<Section>>, raw: Dict<RawBlock>): (r: seq<StatusRecord>)
    ensures |r| == |Parsed(configs, raw, "db3")| + |Parsed(configs, raw, "db7")| + |Parsed(configs, raw, "db11")|
    ensures r[..|Parsed(configs, raw, "db3")|] == Parsed(configs, raw, "db3")
    ensures r[|Parsed(configs, raw, "db3")|..|Parsed(configs, raw, "db3")| + |Parsed(configs, raw, "db7")|]
      == Parsed(configs, raw, "db7")
    ensures r[|r| - |Parsed(configs, raw, "db11")|..] == Parsed(configs, raw, "db11")
  {
    var a, b, c := Parsed(configs, raw, "db3"), Parsed(configs, raw, "db7"), Parsed(configs, raw, "db11");
    assert (a + b + c)[..|a|] == a;
    assert (a + b + c)[|a|..|a| + |b|] == b;
    assert (a + b + c)[|a + b|..] == c;
    a + b + c
  }

  /** A key of the input holds the records of its block (the first entry
      with that key, as in a dict where keys are unique). */
  lemma ParsedBlock(configs: map<int, Dict<Section>>, raw: Dict<RawBlock>, key: string)
    requires Get(raw, key).Some?
    ensures var b := Get(raw, key).value;
      Parsed(configs, raw, key) == ParseDb(configs, b.dbNumber, b.rawData, b.timestamp)
    decreases |raw|
  {
    if raw[0].0 != key {
      ParsedBlock(configs, raw[1..], key);
    }
  }
}
