/** Reading one PLC scalar out of a byte block: the S7 types the parsers
    understand, the spellings each parser accepts for them, and the value a
    big-endian read produces. Every parser reads `data[off:off+width]` and
    hands the slice to `struct.unpack`, so a read fails exactly when the
    clamped slice is shorter than the type. */
module Scalar {
  import opened Results
  import opened PyBytes
  import opened PyRuntime

  /** The S7 data types a field can declare. */
  datatype Kind = Word | DWord | Int | DInt | Real | Bit

  /** Bytes occupied by a value of kind `k`. */
  function Width(k: Kind): nat {
    match k
    case Word => 2
    case Int => 2
    case DWord => 4
    case DInt => 4
    case Real => 4
    case Bit => 1
  }

  /** The name of each kind as spelled in the module layouts. */
  function CamelName(k: Kind): string {
    match k
    case Word => "Word"
    case DWord => "DWord"
    case Int => "Int"
    case DInt => "DInt"
    case Real => "Real"
    case Bit => "Bool"
  }

  /** The upper-case spelling the DB4 and DB6 layouts may use instead. */
  function UpperName(k: Kind): string {
    match k
    case Word => "WORD"
    case DWord => "DWORD"
    case Int => "INT"
    case DInt => "DINT"
    case Real => "REAL"
    case Bit => "BOOL"
  }

  /** The kind a layout type name denotes, in the layout spelling only. */
  function KindCamel(t: string): (r: Option<Kind>)
    ensures r.Some? ==> CamelName(r.value) == t
  {
    if t == "Word" then Some(Word)
    else if t == "DWord" then Some(DWord)
    else if t == "Int" then Some(Int)
    else if t == "DInt" then Some(DInt)
    else if t == "Real" then Some(Real)
    else if t == "Bool" then Some(Bit)
    else None
  }

  /** The kind a type name denotes in either spelling, as the DB4 and DB6
      parsers accept them. */
  function KindEither(t: string): (r: Option<Kind>)
    ensures KindCamel(t).Some? ==> r == KindCamel(t)
    ensures r.Some? ==> CamelName(r.value) == t || UpperName(r.value) == t
  {
    if t == "WORD" then Some(Word)
    else if t == "DWORD" then Some(DWord)
    else if t == "INT" then Some(Int)
    else if t == "DINT" then Some(DInt)
    else if t == "REAL" then Some(Real)
    else if t == "BOOL" then Some(Bit)
    else KindCamel(t)
  }

  /** Every kind is recognised under each of its names, so a name no kind
      carries is exactly one that is not recognised. */
  lemma KindNames(k: Kind)
    ensures KindCamel(CamelName(k)) == Some(k)
    ensures KindEither(CamelName(k)) == Some(k)
    ensures KindEither(UpperName(k)) == Some(k)
  {
  }

  /** The value stored in the bytes `b` (exactly `Width(k)` of them) read as
      kind `k`; the reference every read agrees with. */
  function Reference(b: Bytes, k: Kind, bit: int): Value
    requires |b| == Width(k)
  {
    match k
    case Word => VInt(BigEndian(b))
    case DWord => VInt(BigEndian(b))
    case Int => VInt(Signed(BigEndian(b), 0x8000))
    case DInt => VInt(Signed(BigEndian(b), 0x8000_0000))
    case Real =>
      assert Pow256(4) == 0x1_0000_0000;
      VFloat(Float32Value(BigEndian(b)))
    case Bit => VBool(bit >= 0 && BitSet(b[0], bit))
  }

  /** `struct.unpack('>?', data[off:off+width])[0]` for the four integer
      kinds and Real, and `bool(data[off] & (1 << bit))` for Bit. None is the
      exception the read raises: struct.error on a short slice, IndexError
      on a byte outside the buffer, ValueError on a negative shift count. */
  function ReadRaw(data: Bytes, off: int, k: Kind, bit: int): (r: Option<Value>)
    ensures k != Bit ==> (r.Some? <==> |Slice(data, off, off + Width(k))| == Width(k))
    ensures 0 <= off ==>
      (r.Some? <==> off + Width(k) <= |data| && (k == Bit ==> bit >= 0))
    ensures 0 <= off && r.Some? ==> r.value == Reference(data[off..off + Width(k)], k, bit)
    ensures r.Some? ==> IsNumber(r.value)
  {
    match k
    case Word => (match UnpackU16(Slice(data, off, off + 2))
                  case Some(u) => Some(VInt(u)) case None => None)
    case DWord => (match UnpackU32(Slice(data, off, off + 4))
                   case Some(u) => Some(VInt(u)) case None => None)
    case Int => (match UnpackI16(Slice(data, off, off + 2))
                 case Some(u) => Some(VInt(u)) case None => None)
    case DInt => (match UnpackI32(Slice(data, off, off + 4))
                  case Some(u) => Some(VInt(u)) case None => None)
    case Real => (match UnpackF32(Slice(data, off, off + 4))
                  case Some(u) => Some(VFloat(u)) case None => None)
    case Bit =>
      (match Index(data, off)
       case None => None
       case Some(b) => if bit < 0 then None else Some(VBool(BitSet(b, bit))))
  }

  /** A read of kind `k` at `at` stays inside `data` (and a Bit read has a
      shift count `1 << bit` accepts). */
  predicate Fits(data: Bytes, at: int, k: Kind, bit: int) {
    0 <= at && at + Width(k) <= |data| && (k == Bit ==> bit >= 0)
  }

  /** Reading at `off` inside the slice `data[lo:hi]` is reading at
      `lo + off` in `data`. */
  lemma ReadInSlice(data: Bytes, lo: nat, hi: nat, off: nat, k: Kind, bit: int)
    requires lo <= hi <= |data| && off + Width(k) <= hi - lo && (k == Bit ==> bit >= 0)
    ensures ReadRaw(Slice(data, lo, hi), off, k, bit) ==
      Some(Reference(data[lo + off..lo + off + Width(k)], k, bit))
  {
    var sl := Slice(data, lo, hi);
    assert sl == data[lo..hi];
    SliceOfSlice(data, lo, hi, off, off + Width(k));
    assert sl[off..off + Width(k)] == data[lo + off..lo + off + Width(k)];
    assert ReadRaw(sl, off, k, bit) == Some(Reference(sl[off..off + Width(k)], k, bit));
  }

  /** The integer kinds: the ones `struct.pack` can write back. */
  predicate IsIntKind(k: Kind) {
    k == Word || k == DWord || k == Int || k == DInt
  }

  /** The range of integers a kind holds. */
  predicate InRange(k: Kind, x: int)
    requires IsIntKind(k)
  {
    match k
    case Word => 0 <= x < 0x1_0000
    case DWord => 0 <= x < 0x1_0000_0000
    case Int => -0x8000 <= x < 0x8000
    case DInt => -0x8000_0000 <= x < 0x8000_0000
  }

  /** `struct.pack` with the big-endian format of kind `k`. */
  function Pack(k: Kind, x: int): (r: Bytes)
    requires IsIntKind(k) && InRange(k, x)
    ensures |r| == Width(k)
  {
    match k
    case Word => PackU16(x)
    case DWord => PackU32(x)
    case Int => PackI16(x)
    case DInt => PackI32(x)
  }

  /** Every integer read is lossless: packing the value read gives back the
      bytes it was read from. */
  lemma ReadThenPack(data: Bytes, off: nat, k: Kind)
    requires IsIntKind(k) && off + Width(k) <= |data|
    ensures ReadRaw(data, off, k, 0).Some?
    ensures var v := ReadRaw(data, off, k, 0).value;
      v.VInt? && InRange(k, v.i) && Pack(k, v.i) == data[off..off + Width(k)]
  {
    var b := data[off..off + Width(k)];
    if Width(k) == 2 {
      UnpackPack16(b);
    } else {
      UnpackPack32(b);
    }
  }

  /** Writing an in-range integer into a block and reading it back at the
      same offset gives the integer. */
  lemma PackThenRead(data: Bytes, off: nat, k: Kind, x: int)
    requires IsIntKind(k) && InRange(k, x) && off + Width(k) <= |data|
    ensures ReadRaw(data[..off] + Pack(k, x) + data[off + Width(k)..], off, k, 0) == Some(VInt(x))
  {
    var d := data[..off] + Pack(k, x) + data[off + Width(k)..];
    assert Slice(d, off, off + Width(k)) == Pack(k, x);
  }
}
