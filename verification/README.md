# PLC block decoding and unit conversion, in Dafny

This project models the data path of the ceramic-hopper backend. The path
starts from the raw bytes of a Siemens S7 data block (DB) and ends in the
values stored in the time-series database. Every stage is a pure function
over immutable values. The layouts that the program loads from YAML are
passed in as parameters.

- **Runtime** (`PyRuntime`, `PyDict`, `PyBytes`): the parts of Python the
  code relies on.
  - Python values are a tagged `Value`; a float is an exact `real`.
  - `round(x, n)` rounds half to even; `int()` truncates toward zero.
  - A `dict` is an insertion-ordered list of pairs. Assignment overwrites in
    place, so the last write to a key wins.
  - Byte slicing clamps its bounds. `struct.unpack` decodes big-endian
    16/32-bit signed and unsigned integers and IEEE-754 singles.
- **Field decoding** (`Scalar`, `Layout`, `ModuleParser`): the recursive
  `parse_field` over Word/DWord/Int/DInt/Real/Bool/Struct fields,
  `parse_module` and `parse_device_data`.
- **Block parsers** (`SlicedParser`, `Hopper4Parser`, `VibDb6Parser`,
  `HopperSensorParser`), one for each layout:
  - DB8 hoppers, DB10 SCR and fans, and DB9 roller kiln;
  - the DB4 sensor unit, in two variants;
  - the DB6 vibration block.

  Each keeps its own accepted type spellings, bounds checks and failure
  behaviour. A failure may give 0.0, give int 0, omit the field, drop the
  module, drop the device, or truncate the device.
- **Status records** (`DeviceStatus`): the 4-byte status record, the
  `0xFFFF` sentinel, the two configuration shapes, and the flat list.
- **Converters** (`ConverterBase`, `ElectricityConverter`,
  `TemperatureConverter`, `Pm10Converter`, `VibrationConverter`,
  `WeightConverter`): turn parsed fields into stored fields.
  `ConverterRegistry` is the string-keyed registry with its per-key
  instance cache.
- **Feeding detection** (`FeedingDetector`): the scan of a weight series
  for feeding events, written as a loop (`DetectFeeding`) and proved equal to
  a recursive definition (`Detect`). The properties of the events are proved
  about the recursive definition.
- **Configuration helpers** (`ConfigManager`, `PlcService`): byte sizes,
  validation, point selection, schema generation, the summary and the
  measurement list; the flattening of parsed device data into
  database points; and the device-config lookup.

Where docstrings or comments in the code disagree with the code, the model
follows the code:
- The electricity converter always emits all eight keys; a missing input
  becomes 0.0.
- A Bool field is multiplied by its scale, because a Python bool is an int.
- The converter registry has no entry for the weighing sensor.
- When a rise drops by 5.0 or less with no rebound, the peak moves to the
  lower point.
- The feeding detector's cooldown test can never skip a point
  (`FeedingDetector.CooldownInert`).
- The electricity docstring says the SCR ratio is 2, but the code uses 20.

## Model

| member | source | states |
|---|---|---|
| PyBytes.Slice | app/plc/module_parser.py:80 | `data[a:b]` with non-negative bounds clamps both to the buffer length, and it is the ordinary subsequence when both are inside |
| PyBytes.Index | app/plc/module_parser.py:97 | `data[i]` with `i >= 0` succeeds exactly when `i < len(data)` and then gives that byte |
| PyBytes.UnpackU16 | app/plc/module_parser.py:78-80 | `>H` succeeds exactly on 2 bytes and gives their big-endian value, in 0..65535 |
| PyBytes.UnpackU32 | app/plc/module_parser.py:81-83 | `>I` succeeds exactly on 4 bytes and gives their big-endian value, in 0..2^32-1 |
| PyBytes.UnpackI16 | app/plc/module_parser.py:84-86 | `>h` succeeds exactly on 2 bytes and gives the two's-complement value in -32768..32767, congruent to the unsigned reading mod 2^16 |
| PyBytes.UnpackI32 | app/plc/module_parser.py:87-89 | `>i` succeeds exactly on 4 bytes and gives the two's-complement value in -2^31..2^31-1, congruent to the unsigned reading mod 2^32 |
| PyBytes.UnpackF32 | app/plc/module_parser.py:90-92 | `>f` succeeds exactly on 4 bytes |
| PyBytes.BigEndianAppend | app/plc/module_parser.py:78-89 | the big-endian value of a concatenation is the high part shifted by the low part's width plus the low part |
| PyBytes.PackU16 | app/plc/module_parser.py:78-80 | big-endian packing of a 16-bit unsigned value gives 2 bytes that unpack back to it |
| PyBytes.PackU32 | app/plc/module_parser.py:81-83 | big-endian packing of a 32-bit unsigned value gives 4 bytes that unpack back to it |
| PyBytes.PackI16 | app/plc/module_parser.py:84-86 | two's-complement packing of a 16-bit signed value gives 2 bytes that unpack back to it |
| PyBytes.PackI32 | app/plc/module_parser.py:87-89 | two's-complement packing of a 32-bit signed value gives 4 bytes that unpack back to it |
| PyBytes.UnpackPack16 | app/plc/module_parser.py:78-86 | re-encoding a decoded Word or Int reproduces the two bytes |
| PyBytes.UnpackPack32 | app/plc/module_parser.py:81-89 | re-encoding a decoded DWord or DInt reproduces the four bytes |
| PyBytes.SingleBit | app/plc/module_parser.py:96-98 | `b & (1 << p)` tests bit `q` of `1 << p` exactly when `p == q` |
| PyBytes.NoBitOfZero | app/plc/module_parser.py:96-98 | no bit of the zero byte is set |
| PyRuntime.Mul | app/plc/module_parser.py:103-105 | `raw * scale` is a number whose value is the product, an int for int operands (bools included) and a float when either operand is a float |
| PyRuntime.Trunc | app/tools/converter_temp.py:66-67 | `int(x)` lies between 0 and `x`, within 1 of `x` (truncation toward zero) |
| PyRuntime.ToInt | app/tools/converter_weight.py:134 | `int(v)` succeeds exactly on numbers, keeps ints and bools, and truncates floats |
| PyRuntime.ToFloat | app/tools/converter_pm10.py:46 | `float(v)` succeeds exactly on numbers and keeps their value |
| PyRuntime.RoundToInt | app/tools/converter_elec.py:106 | rounding to an integer lands within 0.5, and on an exact tie it picks the even neighbour |
| PyRuntime.RoundToIntUnique | app/tools/converter_elec.py:106 | any integer within 0.5 that is even on a tie is the rounded value: the half-even rule fixes the result |
| PyRuntime.ScaleUnscale | app/tools/converter_elec.py:106-119 | shifting a grid point by `10^n` and back is the identity |
| PyRuntime.RoundHalfEven | app/tools/converter_elec.py:106-119 | `round(x, n)` on a float: the `10^-n` grid point nearest to x, ties to even; its contract is RoundHalfEvenSpec |
| PyRuntime.RoundHalfEvenSpec | app/tools/converter_elec.py:106-119 | `round(x, n)` is on the `10^-n` grid, within half a grid step of `x`, and even in the last place on a tie |
| PyRuntime.RoundOnGrid | app/tools/converter_elec.py:106-119 | a value already on the grid rounds to itself |
| PyRuntime.RoundIdempotent | app/tools/converter_elec.py:106-119 | rounding twice to the same places is rounding once |
| PyRuntime.RoundToIntMonotone | app/tools/converter_elec.py:106-119 | rounding to an integer is monotone |
| PyRuntime.RoundMonotone | app/tools/converter_elec.py:106-119 | `round(x, n)` is monotone in `x` |
| PyRuntime.RoundKeepsGridBound | app/tools/converter_temp.py:74-78 | rounding never goes below a lower bound that is itself on the grid |
| PyRuntime.PyRound | app/tools/converter_vibration.py:111 | `round(v, n)` is defined exactly on numbers; a float rounds half-even and an int stays the same int |
| PyRuntime.RoundNum | app/tools/converter_vibration.py:111 | the numeric value of `round(v, n)` is either the value itself (ints) or its half-even rounding |
| PyRuntime.Lower | app/tools/converter_vibration.py:200 | `str.lower()` on ASCII: keeps the length, maps each letter A-Z to its lower-case letter and keeps every other character |
| PyRuntime.LowerIdempotent | app/tools/converter_vibration.py:200 | lowering twice is lowering once |
| PyRuntime.IntToDecimal | app/services/plc_service.py:163 | `str(n)` of an int is a non-empty string |
| PyRuntime.ParseInt | app/services/plc_service.py:167 | `int(s)` succeeds exactly on an optional minus sign followed by at least one decimal digit |
| PyRuntime.DigitsRoundTrip | app/services/plc_service.py:163-167 | the decimal digits of a natural number read back as that number |
| PyRuntime.ParseIntRoundTrip | app/services/plc_service.py:163-167 | `int(str(n)) == n` for every integer |
| Scalar.KindCamel | app/plc/module_parser.py:78-98 | a type string selects a decoder only when it is that decoder's CamelCase name |
| Scalar.KindEither | app/plc/parser_hopper_4.py:76-89 | both the CamelCase and the upper-case spelling select a decoder, and the CamelCase choice is unchanged |
| Scalar.KindNames | app/plc/parser_hopper_4.py:76-89 | every decoder is reached by its CamelCase name and, in the two-spelling parsers, by its upper-case name |
| Scalar.ReadRaw | app/plc/module_parser.py:78-98 | a read succeeds exactly when the clamped slice has the type's full width (for Bool, when the byte exists), and then gives the reference decoding of those bytes |
| Scalar.ReadInSlice | app/plc/parser_hopper.py:108-130 | reading at offset `o` inside the slice `data[lo:hi]` is reading at `lo + o` in the block, whenever the value fits in the slice |
| Scalar.Pack | app/plc/module_parser.py:78-89 | the big-endian encoding of an in-range integer has the type's width |
| Scalar.ReadThenPack | app/plc/module_parser.py:78-89 | an integer read that fits succeeds, its value is in range, and packing it reproduces the bytes read |
| Scalar.PackThenRead | app/plc/module_parser.py:78-89 | writing an in-range integer into a block and reading it back at the same offset gives the integer |
| Layout.InfoOf | app/plc/module_parser.py:149-153 | the field record carries the value, the display name (the field name when none is given) and the unit ('' when none is given) |
| Layout.ReadInBlock | app/plc/parser_hopper.py:108-130 | a read inside a module slice that lies within the block equals the read at the absolute offset `module.offset + field.offset` |
| Layout.FieldNames | app/plc/module_parser.py:144-154 | one name per field, in configuration order |
| Layout.Record | app/plc/module_parser.py:144-154 | a field dict has one entry per configured field, in order, keyed by its name, and holds that field's record |
| ModuleParser.Leaf | app/plc/module_parser.py:76-110 | an unknown type gives 0.0; a known type that does not fit gives 0.0 (the caught exception); the result is never a bool |
| ModuleParser.LeafFits | app/plc/module_parser.py:78-106 | a leaf that fits is the reference decoding of its bytes at the absolute offset, times the scale (default 1.0), Bool included |
| ModuleParser.ParseField | app/plc/module_parser.py:48-110 | a leaf is read at `base + offset`; a Struct is a dict of its children keyed by name, each read at the parent's absolute offset plus its own |
| ModuleParser.Members | app/plc/module_parser.py:68-75 | a Struct holds one entry per child, keyed by the child names in order |
| ModuleParser.MembersIndex | app/plc/module_parser.py:68-75 | the i-th Struct entry is the i-th child decoded at the parent's absolute offset |
| ModuleParser.MembersLeaf | app/plc/module_parser.py:62-75 | a leaf child of a Struct is read at the parent's absolute offset plus the child's offset |
| ModuleParser.ParseModule | app/plc/module_parser.py:115-156 | raises exactly for an unknown module name; otherwise the result keeps the name and description (default '') and records every field decoded from base 0 |
| ModuleParser.ParseModuleFields | app/plc/module_parser.py:144-154 | with distinct field names, each field's entry is its decoded value with its display name and unit |
| ModuleParser.ParseDeviceData | app/plc/module_parser.py:161-183 | the result holds exactly the requested modules that are configured, each once and holding its parse; an unknown module is skipped and the rest are still decoded |
| SlicedParser.SlicedKind | app/plc/parser_hopper.py:119-135 | only Word/DWord/Int/DInt/Real (CamelCase) are decoded; Bool and every other spelling are not |
| SlicedParser.FieldValue | app/plc/parser_hopper.py:119-149 | a type that is not decoded gives 0.0; a field past the end of the module slice gives 0.0; otherwise the scaled reading of the slice |
| SlicedParser.FieldValueInBlock | app/plc/parser_hopper.py:108-135 | a field that fits in the module is the scaled reading at `module.offset + field.offset` in the block |
| SlicedParser.PastModuleSize | app/plc/parser_hopper.py:108-149 | a field that runs past the declared module size gives 0.0 even when the block is long enough |
| SlicedParser.ParseModule | app/plc/parser_hopper.py:87-155 | raises exactly for an unknown module type; otherwise records every field of the type (0.0 on failure) with the module's tag, and the description for the SCR/fan and roller-kiln variants, not for the hoppers |
| SlicedParser.ParseModuleFields | app/plc/parser_hopper.py:137-149 | with distinct field names, each field's entry is its decoded value with its display name and unit |
| SlicedParser.Tags | app/plc/parser_hopper.py:171-180 | one tag per module, in order |
| SlicedParser.Decode | app/plc/parser_hopper.py:171-193 | the module parser of one block (`_parse_module` with the block bound); when it fails is stated by DecodeFails |
| SlicedParser.DecodeFails | app/plc/parser_hopper.py:171-193 | decoding a module list fails exactly when one module has an unknown type |
| SlicedParser.FailsCons | app/plc/parser_hopper.py:171-180 | a list fails exactly when its first module or its rest fails |
| SlicedParser.Stored | app/plc/parser_hopper.py:171-180 | when nothing fails, the stored keys are the module tags in order |
| SlicedParser.StoreModules | app/plc/parser_hopper.py:171-193 | the module loop fails exactly when some module fails; otherwise its keys are the earlier keys and the tags, each once |
| SlicedParser.StoreModulesOk | app/plc/parser_hopper.py:171-180 | a loop without failure is the dict update of the earlier modules with the parsed modules keyed by tag |
| SlicedParser.ParseDevice | app/plc/parser_hopper.py:160-193 | a device fails exactly when one of its modules has an unknown type; otherwise it keeps id, name, type and category, with the modules keyed by tag |
| SlicedParser.DeviceOut | app/plc/parser_hopper.py:171-193 | a device contributes one result when it decodes and none when a module error discards it |
| SlicedParser.ParseAll | app/plc/parser_hopper.py:160-195 | at most one result per configured device |
| SlicedParser.ParseAllComplete | app/plc/parser_hopper.py:160-195 | every device appears exactly when no device has an unknown module type |
| SlicedParser.ParseAllAppend | app/plc/parser_hopper.py:160-195 | the parse of concatenated device lists is the concatenation of the parses: a failing device does not affect the others, and order follows device order |
| SlicedParser.ParseAllOne | app/plc/parser_hopper.py:171-193 | a single device gives its result, or nothing when it fails |
| SlicedParser.Tagged | app/plc/parser_hopper.py:69-80 | each device is paired with its category, in order |
| SlicedParser.HopperParseAll | app/plc/parser_hopper.py:69-80 | the hopper results are those of the short hoppers, then the no-hoppers, then the long hoppers, each tagged with its category |
| SlicedParser.ScrFanParseAll | app/plc/parser_scr_fan.py:68-76 | the results are those of the SCR devices, then the fans |
| SlicedParser.OkPrefix | app/plc/parser_roller_kiln.py:167-184 | the length of the leading run of modules that decode, stopping at the first failure |
| SlicedParser.StoreUntilError | app/plc/parser_roller_kiln.py:167-184 | the roller-kiln module loop that stops at the first raising module; what it stores is stated by StoreUntilErrorPrefix |
| SlicedParser.StoreUntilErrorPrefix | app/plc/parser_roller_kiln.py:167-184 | the roller-kiln loop stores exactly the modules before the first failure |
| SlicedParser.RollerKilnParseAll | app/plc/parser_roller_kiln.py:149-186 | always exactly one device, category 'roller_kiln', whose modules are the leading decodable run of the meters followed by the temperature sensors |
| SlicedParser.OkPrefixAll | app/plc/parser_roller_kiln.py:167-184 | with no failure the run covers every module |
| SlicedParser.TagsAppend | app/plc/parser_roller_kiln.py:167-184 | the tags of the meters followed by the sensors are the meter tags followed by the sensor tags |
| SlicedParser.RollerKilnComplete | app/plc/parser_roller_kiln.py:167-186 | with no unknown module type, every meter and every temperature sensor is stored under its tag |
| Hopper4Parser.FieldValue | app/plc/parser_hopper_4.py:69-99 | an unknown type gives the scaled int 0; a failing read gives int 0; the result is never a bool |
| Hopper4Parser.FieldValueFits | app/plc/parser_hopper_4.py:76-97 | a read that fits is the reference decoding (Bool from key `bit`) times the scale |
| Hopper4Parser.ParseModule | app/plc/parser_hopper_4.py:101-134 | the result is {} exactly when the base module is missing or the module runs past the block; otherwise every base-module field is recorded |
| Hopper4Parser.ParseModuleFields | app/plc/parser_hopper_4.py:118-127 | with distinct names, each field's entry is its value decoded from the module slice |
| Hopper4Parser.FieldInBlock | app/plc/parser_hopper_4.py:113-127 | a field inside the module is read at `module.offset + field.offset` in the block |
| Hopper4Parser.StoredTypeCons | app/plc/parser_hopper_4.py:155-159 | a module type is stored exactly when the first module of that type, or a later one, parses to something non-empty |
| Hopper4Parser.NonEmpty | app/plc/parser_hopper_4.py:155-159 | the kept parses are exactly the non-empty ones, keyed by module type |
| Hopper4Parser.StoreParsed | app/plc/parser_hopper_4.py:155-159 | the DB4 module loop keeping non-empty parses; StoreParsedUpdate states it is a last-wins dict update |
| Hopper4Parser.StoreParsedUpdate | app/plc/parser_hopper_4.py:155-159 | the module loop is the dict update with the non-empty parses |
| Hopper4Parser.ParseAll | app/plc/parser_hopper_4.py:136-161 | [] exactly without configuration; otherwise one device 'hopper_unit_4' whose modules are the non-empty parses keyed by type |
| Hopper4Parser.ParseAllModules | app/plc/parser_hopper_4.py:146-159 | a type is present exactly when some module of it parses non-empty, it holds the last such parse, and no stored module is empty |
| VibDb6Parser.VibKind | app/plc/parser_vib_db6.py:83-94 | only Int/Word/DInt/DWord/Real, in both spellings, are decoded; Bool is not |
| VibDb6Parser.FieldValue | app/plc/parser_vib_db6.py:77-101 | an undecoded type gives the scaled int 0; a failing read gives 0; the result is never a bool |
| VibDb6Parser.FieldValueFits | app/plc/parser_vib_db6.py:79-99 | a read that fits is the scaled reading at the field's offset in the whole block, not in the module |
| VibDb6Parser.ModuleFields | app/plc/parser_vib_db6.py:103-121 | a module past the end of the block gives {}; otherwise every field is recorded from absolute offsets |
| VibDb6Parser.ModuleFieldsDistinct | app/plc/parser_vib_db6.py:112-121 | with distinct names, each entry is the field's value with its display name and unit |
| VibDb6Parser.MapName | app/plc/parser_vib_db6.py:19-32 | a mapped field name is renamed by the table and any other name is kept |
| VibDb6Parser.Renamed | app/plc/parser_vib_db6.py:152-154 | merged fields keep their records and order under their mapped names |
| VibDb6Parser.MergedPairs | app/plc/parser_vib_db6.py:144-154 | no modules give no merged fields |
| VibDb6Parser.OtherModules | app/plc/parser_vib_db6.py:155-161 | each other module is emitted under its own type, as a module of that type |
| VibDb6Parser.Collect | app/plc/parser_vib_db6.py:144-161 | the DB6 module loop merging vibration fields and storing other modules; CollectUpdate states it as two dict updates |
| VibDb6Parser.CollectUpdate | app/plc/parser_vib_db6.py:144-161 | the module loop is two dict updates: the vibration fields with the renamed merged fields, and the modules with the other modules |
| VibDb6Parser.ParseAll | app/plc/parser_vib_db6.py:123-171 | [] exactly without configuration; otherwise one device 'hopper_vib_6' of type 'vibration_sensor' |
| VibDb6Parser.DeviceModules | app/plc/parser_vib_db6.py:144-169 | the device's modules: the other modules, then 'vibration' when something merged; VibrationModule, OtherTypes and OtherModule state its contents |
| VibDb6Parser.VibrationModule | app/plc/parser_vib_db6.py:150-169 | 'vibration' is present exactly when a field was merged, and each merged name holds the last field mapped to it |
| VibDb6Parser.OtherTypes | app/plc/parser_vib_db6.py:155-161 | every separate module key is the type of a configured module |
| VibDb6Parser.OtherModule | app/plc/parser_vib_db6.py:155-161 | every key but 'vibration' holds the last module of that type |
| VibDb6Parser.OutOfBlockSkipped | app/plc/parser_vib_db6.py:108-110 | a module past the end of the block contributes nothing at all |
| HopperSensorParser.FieldRead | app/plc/parser_hopper_sensor.py:55-92 | an unknown type gives the scaled int 0; a read that raises gives no value; the result is never a bool |
| HopperSensorParser.FieldReadFits | app/plc/parser_hopper_sensor.py:66-84 | a read that fits is the reference decoding (Bool from key `bit`) times the scale |
| HopperSensorParser.Present | app/plc/parser_hopper_sensor.py:58-92 | only configured names appear, and every field appears when every read succeeds |
| HopperSensorParser.PresentOmits | app/plc/parser_hopper_sensor.py:91-92 | a field whose read fails is omitted rather than zeroed |
| HopperSensorParser.ParseModule | app/plc/parser_hopper_sensor.py:43-99 | the result is {} exactly when the base module is missing; there is no bounds check |
| HopperSensorParser.FieldInBlock | app/plc/parser_hopper_sensor.py:55-84 | a field inside the module is read at `module.offset + field.offset` in the block |
| HopperSensorParser.Pairs | app/plc/parser_hopper_sensor.py:112-115 | each module's parse is paired with its type, in order, empty ones included |
| HopperSensorParser.StoreAll | app/plc/parser_hopper_sensor.py:112-115 | the sensor module loop storing every parse; StoreAllUpdate states it is a last-wins dict update |
| HopperSensorParser.StoreAllUpdate | app/plc/parser_hopper_sensor.py:112-115 | the module loop is the dict update with all the parses |
| HopperSensorParser.ParseAll | app/plc/parser_hopper_sensor.py:101-117 | exactly one device 'hopper_sensors_db4', whose keys are exactly the configured module types |
| HopperSensorParser.ParseAllLast | app/plc/parser_hopper_sensor.py:112-115 | each type holds the parse of its last module, {} included |
| DeviceStatus.HexDigitValue | app/plc/parser_device_status.py:29 | a hex digit reads back as the digit that prints it |
| DeviceStatus.Hex4 | app/plc/parser_device_status.py:29 | `f"{x:04X}"` of a 16-bit value has four characters |
| DeviceStatus.HexValue4 | app/plc/parser_device_status.py:29 | reading four hex digits gives a 16-bit value |
| DeviceStatus.Hex4RoundTrip | app/plc/parser_device_status.py:29 | reading the printed hex of a 16-bit value gives the value |
| DeviceStatus.HexValue4RoundTrip | app/plc/parser_device_status.py:29 | printing a readable 4-digit hex string reproduces it, so it is upper case |
| DeviceStatus.ParseModuleStatus | app/plc/parser_device_status.py:23-29 | fewer than 4 bytes from the offset give exactly the error sentinel 0xFFFF/"FFFF"; otherwise bit 0 of the first byte is the error and bytes 2-3 are the big-endian code; the code is always 16-bit and its hex is printed |
| DeviceStatus.EncodeStatus | app/plc/parser_device_status.py:27-28 | the 4-byte encoding of an error flag and a code |
| DeviceStatus.StatusRoundTrip | app/plc/parser_device_status.py:27-29 | decoding an encoded record anywhere in a block gives back the error flag and the code |
| DeviceStatus.SentinelAbnormal | app/plc/parser_device_status.py:25-26 | an unreadable record is never normal |
| DeviceStatus.ModuleRecord | app/plc/parser_device_status.py:49-62 | a nested record's id is `parent_id + "_" + tag`, its name `parent_name + " - " + description`, its offset defaults to 0, and it is normal exactly without error and with code 0 |
| DeviceStatus.FlatRecord | app/plc/parser_device_status.py:65-78 | a flat record keeps the entry's id and name, is read at its offset, and is normal exactly without error and with code 0 |
| DeviceStatus.EntryRecords | app/plc/parser_device_status.py:45-78 | a non-empty module list gives one record per module; otherwise an offset gives exactly one flat record and no offset gives none |
| DeviceStatus.ListRecordsCount | app/plc/parser_device_status.py:40-78 | a device list gives the sum of its entries' record counts |
| DeviceStatus.ConfigRecordsCount | app/plc/parser_device_status.py:37-78 | a configuration gives the records of its list sections only, skipping 'db_config' and non-list values |
| DeviceStatus.ListRecords | app/plc/parser_device_status.py:40-78 | the records of a device list in order; ListRecordsCount and ListRecordsSound state their number and contents |
| DeviceStatus.ListRecordsSound | app/plc/parser_device_status.py:40-78 | every record of a device list carries the block's number and timestamp and is decoded at its own offset |
| DeviceStatus.ConfigRecords | app/plc/parser_device_status.py:37-78 | the records of the list sections of a configuration; ConfigRecordsCount and ConfigRecordsSound state their number and contents |
| DeviceStatus.ConfigRecordsSound | app/plc/parser_device_status.py:37-78 | the same for every record of a configuration |
| DeviceStatus.ParseDb | app/plc/parser_device_status.py:31-79 | an unconfigured block gives []; otherwise the count of the configuration's records, each decoded at its offset and normal exactly when healthy |
| DeviceStatus.ParseAll | app/plc/parser_device_status.py:81-84 | one entry per raw block, in order, each the parse of that block |
| DeviceStatus.FlatList | app/plc/parser_device_status.py:86-89 | the db3 records, then db7's, then db11's, and nothing else: the length is the sum and each segment is that block's records |
| DeviceStatus.ParsedBlock | app/plc/parser_device_status.py:81-89 | looking a present key up gives the parse of its block |
| ConverterBase.GetFieldValue | app/tools/converter_base.py:45-63 | an absent name gives the default, and a non-dict entry is returned as it is |
| ConverterBase.InfoDict | app/plc/module_parser.py:149-153 | a parsed field handed to a converter is a dict with keys value, display_name, unit |
| ConverterBase.RawOf | app/plc/module_parser.py:144-154 | the raw data has the parsed fields' keys, in order, each as its dict |
| ConverterBase.FieldValueOfParsed | app/tools/converter_base.py:58-61 | on parsed data, a present field gives its decoded value and an absent one the default |
| ConverterBase.OutputFieldNames | app/tools/converter_base.py:66-68 | each class's output names are distinct |
| ConverterBase.ModuleTypeInjective | app/tools/converter_base.py:71-73 | two classes share a module type only when they are the same class |
| ConverterBase.ScaledRound | app/tools/converter_elec.py:106-119 | `round(v * factor, n)` is defined exactly on numbers, lies on the grid, and is within half a grid step of the product |
| ConverterBase.RoundZero | app/tools/converter_elec.py:106-119 | zero rounds to zero |
| ElectricityConverter.Outputs | app/tools/converter_elec.py:104-120 | the outputs have the given keys in order, each its input scaled and rounded |
| ElectricityConverter.Convert | app/tools/converter_elec.py:70-120 | succeeds exactly when the inputs and the ratio are numbers; the output always has exactly the eight keys Ua_0..2, I_0..2, Pt, ImpEp |
| ElectricityConverter.Factor | app/tools/converter_elec.py:104-120 | the multiplier of each output (0.1; 0.001 times the ratio; 2.0); OutputAt and ScaledNear state the outputs it gives |
| ElectricityConverter.Output | app/tools/converter_elec.py:104-120 | `convert(...)[name]`; OutputAt states its value for each of the eight names |
| ElectricityConverter.OutputAt | app/tools/converter_elec.py:104-120 | each key holds its input times its factor (0.1; 0.001 times the ratio; 2.0), rounded to its places (1 or 2) |
| ElectricityConverter.ScaledNear | app/tools/converter_elec.py:106-119 | each output is on its grid and within half a grid step of the exact product |
| ElectricityConverter.MissingIsZero | app/tools/converter_elec.py:104-120 | a missing input is still emitted, as 0.0 |
| ElectricityConverter.Ratio | app/tools/converter_elec.py:91-102 | the current-transformer ratio used; its precedence is stated by RatioPrecedence and OverrideIgnoresFlags |
| ElectricityConverter.RatioPrecedence | app/tools/converter_elec.py:91-102 | is_scr gives 20 whatever is_roller_kiln says, is_roller_kiln alone gives 60, neither gives 20, and a given current_ratio wins |
| ElectricityConverter.OverrideIgnoresFlags | app/tools/converter_elec.py:102 | with current_ratio given, the device flags change nothing |
| ElectricityConverter.RatioFreeOutputs | app/tools/converter_elec.py:92-119 | two successful conversions of the same readings, under any ratio keywords and SCR/roller-kiln flags, store the same Ua_0..Ua_2 and ImpEp |
| ElectricityConverter.ReadsOnlyNames | app/tools/converter_elec.py:104-120 | two raw dicts that agree on the eight inputs convert alike: line voltages and phase powers are never read |
| ElectricityConverter.OutputsAgree | app/tools/converter_elec.py:104-120 | outputs depend only on the inputs they name |
| TemperatureConverter.RawTemperature | app/tools/converter_temp.py:63-67 | the raw reading is never a float: a float is truncated toward zero, and a missing one is 0 |
| TemperatureConverter.Corrected | app/tools/converter_temp.py:74-75 | the corrected value is at least -10.0, keeps values already at least -10.0, and negates values below it |
| TemperatureConverter.Convert | app/tools/converter_temp.py:41-79 | succeeds exactly when the reading and the scale are numbers; the output is exactly the key temperature, holding the Stored value of the reading and the scale |
| TemperatureConverter.Stored | app/tools/converter_temp.py:70-78 | with p = reading times scale and c = p negated when below -10: a float product gives a float on the 0.1 grid within 0.05 of c, ties to the even tenth; an int product gives the int c |
| TemperatureConverter.StoredValue | app/tools/converter_temp.py:60-79 | for every input that converts, the stored temperature is `round(c, 1)` as Stored states it, c being the corrected product of the (truncated) reading and the scale |
| TemperatureConverter.RoundedTenth | app/tools/converter_temp.py:78 | `round(c, 1)` of a float lies on the 0.1 grid within 0.05 of c with ties to the even tenth; of an int it is the int |
| TemperatureConverter.AtLeastLimit | app/tools/converter_temp.py:70-78 | the stored temperature is never below -10.0 |
| TemperatureConverter.FloatTruncated | app/tools/converter_temp.py:66-67 | a float reading converts like its truncation |
| TemperatureConverter.Examples | app/tools/converter_temp.py:56-78 | with the default scale 0.1, 1500 gives 150.0 (the documented example), -150 gives 15.0 and -50 gives -5.0 |
| TemperatureConverter.MissingIsZero | app/tools/converter_temp.py:60-63 | without a reading the result is {temperature: 0.0} |
| Pm10Converter.Reading | app/tools/converter_pm10.py:33-39 | a field counts as absent exactly when it is missing or None |
| Pm10Converter.FirstOf | app/tools/converter_pm10.py:35-43 | the preferred reading wins when present, otherwise the fallback |
| Pm10Converter.Emit | app/tools/converter_pm10.py:45-51 | an absent reading emits nothing; a present one emits all its keys |
| Pm10Converter.Convert | app/tools/converter_pm10.py:28-56 | succeeds exactly when every present reading is a number, and then stores the alias-resolved readings |
| Pm10Converter.Stored | app/tools/converter_pm10.py:45-56 | the dict built from the resolved readings; Convert, StoredKeyList, StoredKeys and Pm10Value state its keys and values |
| Pm10Converter.StoredKeyList | app/tools/converter_pm10.py:45-54 | keys appear in insertion order: pm10 and concentration, pm2_5, pm1_0, or concentration alone when nothing is present |
| Pm10Converter.StoredKeys | app/tools/converter_pm10.py:45-54 | concentration is present exactly when pm10 is present or nothing is; pm2_5 and pm1_0 only with their inputs |
| Pm10Converter.StoredKeysDeclared | app/tools/converter_pm10.py:21-26 | every stored key is a declared output field, each once |
| Pm10Converter.Pm10Value | app/tools/converter_pm10.py:45-47 | pm10 and concentration both hold the value rounded to 1 place, unscaled |
| Pm10Converter.AliasPrecedence | app/tools/converter_pm10.py:33-43 | PM10 wins over Concentration, PM2_5 over PM2.5, PM1_0 over PM1.0 |
| Pm10Converter.NoneIsAbsent | app/tools/converter_pm10.py:33 | a field holding None counts as absent |
| Pm10Converter.Pm25Alone | app/tools/converter_pm10.py:48-54 | pm2_5 alone gives only pm2_5: no concentration key |
| VibrationConverter.ReadingsWellFormed | app/tools/converter_vibration.py:176-194 | the twelve outputs are distinct and paired with their sources DX..VRMGZ |
| VibrationConverter.ReadingsOf | app/tools/converter_vibration.py:166-167 | each output's reading is its source field, None when absent |
| VibrationConverter.Validated | app/tools/converter_vibration.py:80-154 | the validated value is the reading rounded to its quantity's places (2, 1, 2, 1) and is never clamped |
| VibrationConverter.NotLater | app/tools/converter_vibration.py:176-194 | no output key is written twice |
| VibrationConverter.Standard | app/tools/converter_vibration.py:166-194 | the standard pass succeeds exactly when every present reading is a number, and writes only output keys |
| VibrationConverter.StandardGet | app/tools/converter_vibration.py:166-172 | an output key holds its validated reading exactly when the reading is present, and is absent otherwise |
| VibrationConverter.StandardWarned | app/tools/converter_vibration.py:99-154 | a warning is logged for an output exactly when its reading is present and outside its range |
| VibrationConverter.WarnedStored | app/tools/converter_vibration.py:101-111 | an out-of-range value is still stored, only rounded |
| VibrationConverter.StandardWarnedLater | app/tools/converter_vibration.py:99-154 | warnings name only outputs of the pass |
| VibrationConverter.StandardEmpty | app/tools/converter_vibration.py:166-197 | the standard pass is empty exactly when no source field is present |
| VibrationConverter.Fallback | app/tools/converter_vibration.py:197-202 | the fallback keys are exactly the lower-cased names of raw entries that are a dict with 'value' or a number; keys stay unique |
| VibrationConverter.ConvertWith | app/tools/converter_vibration.py:156-204 | conversion succeeds exactly when every present reading is a number, and its keys are unique |
| VibrationConverter.Convert | app/tools/converter_vibration.py:156-204 | the same with the converter's own output table |
| VibrationConverter.StandardOutput | app/tools/converter_vibration.py:166-194 | when some standard field is present the fallback is not used: each output key holds its validated reading when its source is present and is absent otherwise, and it is warned about exactly when out of range |
| VibrationConverter.FallbackOutput | app/tools/converter_vibration.py:196-202 | with no standard field present, the output is the fallback copy of the raw data |
| VibrationConverter.FallbackLower | app/tools/converter_vibration.py:200-202 | every fallback key is lower case |
| WeightConverter.DivisionCode | app/tools/converter_weight.py:89 | the division code is in 0..15 |
| WeightConverter.BitsOf | app/tools/converter_weight.py:92-106 | the low bits of a word, one per position |
| WeightConverter.ParseStatusWord | app/tools/converter_weight.py:78-107 | the parsed status is well formed: five outputs, three inputs, a 4-bit code and its table value |
| WeightConverter.FromBits | app/tools/converter_weight.py:92-106 | the number a bit list denotes fits in that many bits |
| WeightConverter.StatusBits | app/tools/converter_weight.py:92-106 | a status lays out as 16 bits |
| WeightConverter.EncodeStatus | app/tools/converter_weight.py:92-106 | a status encodes as a 16-bit word |
| WeightConverter.BitsOfIndex | app/tools/converter_weight.py:92-106 | bit i of the listing is `word & (1 << i)` |
| WeightConverter.BitsOfSplit | app/tools/converter_weight.py:89 | the low n+m bits are the low n bits followed by the low m bits of `word >> n` |
| WeightConverter.FromBitsOf | app/tools/converter_weight.py:89 | the number of the low n bits is the word modulo 2^n |
| WeightConverter.BitsOfFromBits | app/tools/converter_weight.py:92-106 | listing the bits of the number a bit list denotes gives the list back |
| WeightConverter.CodeBits | app/tools/converter_weight.py:89 | the division code is bits 8-11 of the word |
| WeightConverter.StatusFlags | app/tools/converter_weight.py:92-106 | out1..5 are bits 0-4, is_stable bit 5, is_zero bit 6, is_overload bit 7, in1..3 bits 12-14, batch_complete bit 15 |
| WeightConverter.EncodeCode | app/tools/converter_weight.py:89 | the code of an encoded status is its code |
| WeightConverter.ParseEncode | app/tools/converter_weight.py:78-107 | parsing an encoded status gives the status back |
| WeightConverter.EncodeParse | app/tools/converter_weight.py:78-107 | encoding a parsed 16-bit word gives the word back: the parse loses nothing |
| WeightConverter.StatusWordOf | app/tools/converter_weight.py:134 | the status word is `int()` of the field (0 when absent): a number is truncated, a decimal string is parsed by ParseInt; it is defined exactly on numbers and on strings ParseInt accepts |
| WeightConverter.StatusWordDecimal | app/tools/converter_weight.py:134 | a status word stored as the text `str(n)` reads as n |
| WeightConverter.Stored | app/tools/converter_weight.py:165-170 | the stored dict has exactly the keys weight, feed_rate, is_stable, is_overload; ConvertFields states each value |
| WeightConverter.Output | app/tools/converter_weight.py:165-170 | the output has exactly the keys weight, feed_rate, is_stable, is_overload |
| WeightConverter.OutputGet | app/tools/converter_weight.py:165-170 | each key holds its own value |
| WeightConverter.Convert | app/tools/converter_weight.py:109-175 | succeeds exactly when `int()` of the status word succeeds (a number or a decimal string) and the raw weight is a number, with the four output keys |
| WeightConverter.ConvertFields | app/tools/converter_weight.py:152-170 | weight is `round(raw * scale, 3)`, feed_rate the rounded signed rate, is_stable bit 5 and is_overload bit 7 of the status word |
| WeightConverter.ConvertWeight | app/tools/converter_weight.py:152-166 | the stored weight is the scaled raw weight rounded to 3 places |
| WeightConverter.Scale | app/tools/converter_weight.py:138-141 | force_scale when given, else the division value; stated by ForceScaleOverrides and ScaleFromCode |
| WeightConverter.ForceScaleOverrides | app/tools/converter_weight.py:138-141 | a given force_scale is the scale whatever the status word |
| WeightConverter.ScaleFromCode | app/tools/converter_weight.py:14-90 | without force_scale the scale is the table value of the code; code 6 gives 0.1 and code 15 gives 1.0 |
| WeightConverter.RawWeight | app/tools/converter_weight.py:145-149 | GrossWeight, or GrossWeight_W when the former equals 0; stated by GrossWeightPreferred |
| WeightConverter.GrossWeightPreferred | app/tools/converter_weight.py:145-149 | a non-zero GrossWeight is used and GrossWeight_W is not read |
| WeightConverter.WeightNear | app/tools/converter_weight.py:152-166 | the stored weight is on the 0.001 grid and within half a step of the exact product |
| WeightConverter.FeedRate | app/tools/converter_weight.py:155-160 | the unrounded feed rate in kg/h; its sign, antisymmetry and zero cases are stated by FeedRateSign |
| WeightConverter.FeedRateSign | app/tools/converter_weight.py:155-160 | swapping the weights negates the rate; with a positive interval the rate is positive exactly when the weight fell; it is 0.0 without a previous weight or a positive interval |
| WeightConverter.CodeOf600 | app/tools/converter_weight.py:89-90 | status word 0x600 has code 6 and scale 0.1; 0 has code 0 and scale 1.0 |
| WeightConverter.WeightExampleCode0 | app/tools/converter_weight.py:152-166 | raw 1000 with code 0 stores 1000.0 |
| WeightConverter.WeightExampleCode6 | app/tools/converter_weight.py:152-166 | raw 1000 with code 6 stores 100.0 |
| WeightConverter.FeedExamples | app/tools/converter_weight.py:155-160 | 100 to 90 over the default 5 s gives 7200 kg/h, and 90 to 100 gives -7200 |
| ConverterRegistry.IdentitiesAppend | app/tools/__init__.py:58-59 | a fresh instance is a different object from every cached one |
| ConverterRegistry.GetConverterIn | app/tools/__init__.py:41-60 | raises exactly for a key outside the table; otherwise returns an instance of the mapped class that is then cached under the key, changes no other key, and keeps the cache valid |
| ConverterRegistry.GetConverter | app/tools/__init__.py:54-55 | `get_converter` raises exactly for keys outside CONVERTER_MAP |
| ConverterRegistry.MapKeys | app/tools/__init__.py:23-35 | the map's keys in declaration order |
| ConverterRegistry.MapDistinct | app/tools/__init__.py:23-35 | the map has eight distinct keys |
| ConverterRegistry.MapNoWeight | app/tools/__init__.py:23-35 | no key maps to the weighing converter |
| ConverterRegistry.MapMissing | app/tools/__init__.py:23-35 | neither 'WeighSensor' nor 'vibration' is a key |
| ConverterRegistry.MapModuleTypes | app/tools/__init__.py:25-28 | every other class is found under its own MODULE_TYPE |
| ConverterRegistry.UnknownKeys | app/tools/__init__.py:54-55 | 'WeighSensor' and 'vibration' raise |
| ConverterRegistry.Idempotent | app/tools/__init__.py:58-60 | a second call with the same key returns the same object and changes nothing |
| ConverterRegistry.AliasesDistinct | app/tools/__init__.py:38-59 | two different keys never share an object, even for the same class |
| ConverterRegistry.ElectricityAliases | app/tools/__init__.py:25-59 | 'ElectricityMeter' and 'electricity' give two different electricity converters |
| ConverterRegistry.Run | app/tools/__init__.py:41-60 | any sequence of calls keeps the cache valid |
| ConverterRegistry.RunKeys | app/tools/__init__.py:54-60 | after any calls, the cached keys are the earlier ones plus the requested keys that are in the map |
| FeedingDetector.Rebound | app/services/feeding_analysis_service.py:215-226 | the lookahead finds the first of the next three points back at or above the current value, and none when there is no such point before the series ends |
| FeedingDetector.Step | app/services/feeding_analysis_service.py:202-243 | each pass moves the peak strictly forward, and the rise ends exactly on a drop of more than 5.0 with no rebound in the lookahead |
| FeedingDetector.Track | app/services/feeding_analysis_service.py:201-243 | the peak is at or after the start and inside the series |
| FeedingDetector.TrackStops | app/services/feeding_analysis_service.py:202-243 | tracking stops at the last point or before a drop of more than 5.0 with no rebound |
| FeedingDetector.ConsumptionRate | app/services/feeding_analysis_service.py:264-271 | the rate is the fall into the valley when positive, and 0 otherwise, including at the start of the series |
| FeedingDetector.MakeEvent | app/services/feeding_analysis_service.py:253-293 | the event is stamped at the valley; duration = peak - valley >= 1; compensation = rate times duration >= 0; added = raw increase + compensation >= raw increase |
| FeedingDetector.Scan | app/services/feeding_analysis_service.py:184-307 | the scan from past the end finds nothing |
| FeedingDetector.ScanStep | app/services/feeding_analysis_service.py:195-307 | one outer step: no rise moves on; a rise reaching the last point ends the scan; a rise over 10.0 emits an event and resumes after the peak; a smaller rise moves on |
| FeedingDetector.RiseValid | app/services/feeding_analysis_service.py:195-293 | the event of a completed rise of more than 10.0 satisfies the event invariant |
| FeedingDetector.ScanValid | app/services/feeding_analysis_service.py:184-307 | every event satisfies the invariant: it starts with a step of more than 5.0, its peak is before the last point and more than 10.0 above the valley, and its fields are computed from those two points |
| FeedingDetector.ScanStarts | app/services/feeding_analysis_service.py:184-307 | events found from index i have their valleys at i-1 or later |
| FeedingDetector.ConsOrdered | app/services/feeding_analysis_service.py:295-300 | an event followed by events starting at or after its peak stays ordered |
| FeedingDetector.ScanOrdered | app/services/feeding_analysis_service.py:295-300 | the events come in order and their rises do not overlap |
| FeedingDetector.Detect | app/services/feeding_analysis_service.py:172-175 | fewer than 2 points give no events |
| FeedingDetector.DetectValid | app/services/feeding_analysis_service.py:157-309 | every detected event is valid and the events are ordered |
| FeedingDetector.ValleysIncrease | app/services/feeding_analysis_service.py:295-300 | a later event's valley is at or after an earlier event's peak, which is after its valley |
| FeedingDetector.EventBounds | app/services/feeding_analysis_service.py:257-282 | every event adds at least its raw rise, which exceeds 10.0, over at least one interval |
| FeedingDetector.CooldownInert | app/services/feeding_analysis_service.py:186-300 | the cooldown mark is always behind the index, so the scan equals one without it |
| FeedingDetector.EdgeEndsScan | app/services/feeding_analysis_service.py:248-251 | a rise still going at the last point ends the whole scan |
| FeedingDetector.Example | app/services/feeding_analysis_service.py:157-309 | 100, 100, 120, 140, 125, 125 holds one feeding of 40.0 over two intervals, stamped at point 1 |
| FeedingDetector.Lookahead | app/services/feeding_analysis_service.py:213-230 | the lookahead loop reports a rebound exactly when there is one, and the jump to it |
| FeedingDetector.TrackPeak | app/services/feeding_analysis_service.py:201-243 | the peak-tracking loop stops where the recursive definition stops |
| FeedingDetector.DetectFeeding | app/services/feeding_analysis_service.py:157-309 | the detection loop returns exactly the events of the recursive definition |
| ConfigManager.ByteSize | app/plc/config_manager.py:48-59 | BOOL/BYTE take 1 byte, WORD/INT 2, DWORD/DINT/REAL 4, each in both directions |
| ConfigManager.ByteSizeMatchesDecoders | app/plc/config_manager.py:48-59 | the configured size of every decoded type is the width its decoder reads |
| ConfigManager.Enabled | app/plc/config_manager.py:166-167 | the filtered list holds exactly the enabled points |
| ConfigManager.EnabledAppend | app/plc/config_manager.py:166-167 | filtering preserves order: it distributes over concatenation |
| ConfigManager.EnabledCount | app/plc/config_manager.py:166-167 | the filtered list is as long as the enabled count, and no longer than the list |
| ConfigManager.GetDevicePoints | app/plc/config_manager.py:147-169 | an unknown device gives []; without enabled_only the device's list as is; with it only enabled points, all from that device |
| ConfigManager.GetDevicePointsEnabled | app/plc/config_manager.py:166-167 | a device point is selected with enabled_only exactly when it is enabled |
| ConfigManager.SetOfSize | app/plc/config_manager.py:186-187 | the set of ids is no larger than the list and as large exactly when the ids are distinct |
| ConfigManager.PointIds | app/plc/config_manager.py:186 | one id per point, in order |
| ConfigManager.PointErrors | app/plc/config_manager.py:191-201 | one error for an offset outside 0..65535 and one for a BOOL without bit_offset |
| ConfigManager.DeviceErrors | app/plc/config_manager.py:182-201 | the duplicate message comes first, exactly when ids repeat, followed by the point errors |
| ConfigManager.NoDuplicateMessage | app/plc/config_manager.py:191-201 | no point error reads as the duplicate message |
| ConfigManager.DeviceErrorCount | app/plc/config_manager.py:186-201 | the error count is one for duplicates plus one per bad offset plus one per BOOL without bit_offset |
| ConfigManager.PointsErrorCount | app/plc/config_manager.py:191-201 | the point loop gives one error per bad offset and one per BOOL without bit_offset |
| ConfigManager.StoreErrors | app/plc/config_manager.py:182-204 | the device loop of `validate_config`; StoreErrorsGet states which devices are stored and with what |
| ConfigManager.StoreErrorsGet | app/plc/config_manager.py:182-204 | a device is stored with its errors exactly when it has some; other keys are untouched |
| ConfigManager.ValidateConfig | app/plc/config_manager.py:174-206 | `validate_config()`; ValidateConfigGet and ValidateConfigKeys state exactly which devices it reports |
| ConfigManager.ValidateConfigGet | app/plc/config_manager.py:174-206 | a device appears in the result exactly when it has an error, with its error list |
| ConfigManager.ValidateConfigKeys | app/plc/config_manager.py:174-206 | nothing but configured devices is reported |
| ConfigManager.InfluxType | app/plc/config_manager.py:251-262 | REAL maps to 'float' and every other type to 'integer' |
| ConfigManager.AddPoint | app/plc/config_manager.py:220-243 | a point changes only its own measurement, and a disabled point changes nothing |
| ConfigManager.WrittenSnoc | app/plc/config_manager.py:220-226 | a measurement is written by a longer list exactly when the earlier points or the last enabled point write it |
| ConfigManager.TagsOfSnoc | app/plc/config_manager.py:233-235 | the tags of a longer list add the last enabled point's tag keys |
| ConfigManager.FirstFieldSnoc | app/plc/config_manager.py:237-243 | a later point defines a field only when no earlier point did |
| ConfigManager.SchemaOfKeys | app/plc/config_manager.py:219-231 | the schema has an entry exactly for each measurement some enabled point writes |
| ConfigManager.SchemaOf | app/plc/config_manager.py:219-249 | the point loop of `generate_schema`; SchemaOfKeys and SchemaOfSpec state it against an independent definition |
| ConfigManager.SchemaOfSpec | app/plc/config_manager.py:219-249 | a measurement's entry has its name, the union of the tag keys of its enabled points, and for each field the entry of the first enabled point defining it |
| ConfigManager.NotWrittenEmpty | app/plc/config_manager.py:220-222 | a measurement no enabled point writes has no tags and no fields |
| ConfigManager.GenerateSchema | app/plc/config_manager.py:211-249 | `generate_schema()`; GenerateSchemaSpec states it over the whole configuration |
| ConfigManager.GenerateSchemaSpec | app/plc/config_manager.py:211-249 | the same over the whole configuration, device after device |
| ConfigManager.SummaryOf | app/plc/config_manager.py:413-421 | enabled + disabled = total, disabled >= 0, and the type and DB number are the device's |
| ConfigManager.StoreSummaries | app/plc/config_manager.py:412-422 | the summary keys are the earlier keys and the device keys |
| ConfigManager.GetSummary | app/plc/config_manager.py:408-424 | the summary has exactly the configured devices |
| ConfigManager.StoreSummariesGet | app/plc/config_manager.py:412-422 | each device's entry is its own summary |
| ConfigManager.StoreSummariesKeep | app/plc/config_manager.py:412-422 | keys that are not devices are untouched |
| ConfigManager.SummaryCounts | app/plc/config_manager.py:413-421 | the counts are the list length and the number of enabled points |
| ConfigManager.StrLessIrreflexive | app/plc/config_manager.py:435 | no string sorts before itself |
| ConfigManager.StrLessTransitive | app/plc/config_manager.py:435 | string order is transitive |
| ConfigManager.StrLessTotal | app/plc/config_manager.py:435 | of two different strings one sorts first |
| ConfigManager.StrLessAsymmetric | app/plc/config_manager.py:435 | no two strings sort before each other |
| ConfigManager.SortedLess | app/plc/config_manager.py:435 | in a strictly sorted list every earlier element is smaller |
| ConfigManager.HeadLeast | app/plc/config_manager.py:435 | the head of a strictly sorted list is its least element |
| ConfigManager.Insert | app/plc/config_manager.py:428-433 | adding to a strictly sorted set listing keeps it strictly sorted with the same elements plus the new one |
| ConfigManager.SortedSet | app/plc/config_manager.py:435 | the listing is strictly sorted with exactly the given elements |
| ConfigManager.ListMeasurements | app/plc/config_manager.py:426-435 | the measurements of the enabled points, each once, in ascending order |
| ConfigManager.SortedUnique | app/plc/config_manager.py:435 | a set has exactly one strictly sorted listing, whatever sort is used |
| PlcService.FindDevice | app/services/plc_service.py:233-243 | the first entry matching both id and type, and none exactly when no entry matches |
| PlcService.GetDeviceConfig | app/services/plc_service.py:230-245 | 'mappings' is searched first and `'{type}_modules'` only when it has no match; a result always matches id and type |
| PlcService.GetDeviceConfigNone | app/services/plc_service.py:230-245 | None exactly when neither list has a match |
| PlcService.Prefixed | app/services/plc_service.py:206-210 | each Struct member is stored under the prefixed key, in order |
| PlcService.Emit | app/services/plc_service.py:189-216 | a key is emitted exactly as a Struct member's `{key}_{subkey}` or as the key of a kept int/float/bool/str scalar; a Struct gives its members' values in order, a scalar at most one pair holding itself |
| PlcService.StoreFields | app/services/plc_service.py:189-216 | the field loop of `_flatten_fields`; StoreFieldsUpdate states it is a last-wins update with the emitted pairs |
| PlcService.StoreFieldsUpdate | app/services/plc_service.py:189-216 | the field loop is the dict update with everything emitted |
| PlcService.FlattenFields | app/services/plc_service.py:189-218 | the flattened fields are unique, and each key holds the last value emitted for it |
| PlcService.Emitted | app/services/plc_service.py:189-216 | the pairs all fields emit, in order; EmittedKeys states which keys occur |
| PlcService.EmittedKeys | app/services/plc_service.py:189-216 | a key is emitted exactly when some field produces it |
| PlcService.FlattenKeys | app/services/plc_service.py:189-218 | a key is flattened exactly when some field produces it |
| PlcService.FlattenDistinct | app/services/plc_service.py:189-218 | without clashes the flattened fields are the emitted ones, in order |
| PlcService.TagPairs | app/services/plc_service.py:168-171 | the configured (module name, tags) pairs of a device, one per `modules` entry, in order |
| PlcService.TagsMap | app/services/plc_service.py:168-171 | the tags map has exactly the configured module names, each holding the tags of its last `modules` entry |
| PlcService.TagsFor | app/services/plc_service.py:176-184 | a module's tags are the base tags, overridden by its configured tags on a clash |
| PlcService.PointOf | app/services/plc_service.py:220-226 | a module gives one point exactly when it has fields left, measured as `{device_type}_data` |
| PlcService.ModulePoints | app/services/plc_service.py:174-226 | at most one point per module, each non-empty and measured as `{device_type}_data` |
| PlcService.ModulePointsAppend | app/services/plc_service.py:174-226 | modules contribute independently, in order |
| PlcService.ModulePointsCount | app/services/plc_service.py:174-226 | one point per module with fields left |
| PlcService.ModulePointOf | app/services/plc_service.py:176-226 | a single module's point has its tags and flattened fields |
| PlcService.BaseTagsModule | app/services/plc_service.py:176-181 | the base tags name the module |
| PlcService.FlattenDeviceData | app/services/plc_service.py:131-228 | data with 'error' flattens to []; `int(device_id)` raises exactly on a non-numeric id; otherwise one point per module with fields left, each measured as `{device_type}_data` |
| PlcService.FlattenTags | app/services/plc_service.py:167-184 | without a matching device only the base tags apply; with one, a module's map entry is its last configured tags and a configured tag holds its configured value over the base tags; 'module' names the module unless a configured tag replaces it |
| PlcService.ConfiguredTagWins | app/services/plc_service.py:167-184 | a tag in the last `modules` entry of a module of the matching device reaches that module's point tags with its configured value |

## Left out

- I/O and configuration files: YAML loading and saving (`load_config`, `_load_config`, `_save_config`, `add_data_point`, `update_data_point`, `reload_config`), reading blocks from the PLC (`read_device_data`), database writes and queries, polling, WebSocket fan-out, HTTP routers and the UI are outside the data path. The layouts, the configuration and the byte blocks are parameters.
- Logging, `print` and `datetime.now()` timestamps are left out. The vibration range warnings are returned as a list of output keys instead of being logged. Timestamps are optional strings passed in.
- Database `Point` objects are records (`FeedingDetector.Event`, `PlcService.FlatPoint`). The tag list of a schema entry, which comes from a Python set, is a set.
- PyBytes.UnpackF32: the contract states only when a Real decodes. The value is a concrete IEEE-754 single decoding for finite patterns, with NaN and infinities taken as 0.0, and no property of it is proved.
- Rounding is exact half-even on reals. The binary representation error of Python floats, which can flip a tie, is not modelled.
- PyRuntime.ParseInt: `int()` of a string accepts only an optional minus sign and ASCII digits; surrounding whitespace, a plus sign and underscores are not modelled.
- `float()` of a string in the converters is not modelled: a non-number reading fails where Python would parse a numeric string. Multiplying a string reading by an int keyword (which Python answers by repeating the string) is also modelled as a failure. `int()` of the status word does parse decimal strings (WeightConverter.StatusWordOf).
- PyRuntime.Lower: lowers the ASCII letters A-Z only; Python's Unicode case mapping (such as 'Ä' to 'ä', or 'İ' to two code points) is not modelled, so fallback vibration keys with non-ASCII capitals keep them.
- Layout entries are typed records, so every key the parsers index directly is always present: the KeyError Python raises for a field without `offset` or `data_type`, or a module entry without `offset`, `module_type` or `size` (module_parser.py, parser_hopper.py, parser_roller_kiln.py, parser_hopper_4.py, parser_hopper_sensor.py and the DB6 parser), is not modelled.
- WeightConverter keyword arguments (`previous_weight`, `interval`, `force_scale`) are typed `real` and the electricity flags `is_scr`/`is_roller_kiln` are typed `bool`, so a non-numeric or non-boolean value for those is not modelled. The electricity `current_ratio` and the temperature `scale` are arbitrary values: a non-number makes the conversion fail (ElectricityConverter.Convert, TemperatureConverter.Convert).
- DeviceStatus.ParseModuleStatus: offsets are natural numbers; a negative offset, which Python would index from the end, is not modelled.
- The fallback branches of `size_map.get(..., 0)` and `type_map.get(..., 'float')` cannot be reached with the enumerated types and are not modelled separately.
- PlcService.FlattenDeviceData: a missing `device_type` or `device_name` (None in Python) is not modelled; a module entry without `module_name` (a KeyError) is not modelled; the `modules` value of a device entry is always a list.
- FeedingDetector.Track: the contract bounds the peak only; where tracking stops is stated separately by `FeedingDetector.TrackStops`.
- The feeding job's scheduling, history query and database writes around `_detect_and_calculate_feeding` are left out; the detector takes the weight series as a parameter.
