/** Python `bytes` as the decoders see them: slicing with Python's index
    rules, `struct.unpack`/`struct.pack` in big-endian order (the byte order of
    the S7 PLC family), and single-bit tests. */
module PyBytes {
  import opened Results

  type byte = x: int | 0 <= x < 0x100
  type Bytes = seq<byte>

  function Pow2(n: nat): (r: nat)
    ensures r >= 1
  {
    if n == 0 then 1 else 2 * Pow2(n - 1)
  }

  function Pow256(n: nat): (r: nat)
    ensures r >= 1
  {
    if n == 0 then 1 else 0x100 * Pow256(n - 1)
  }

  /** Python's normalisation of a slice bound `i` for a sequence of length
      `n`: a negative bound counts from the end, and the result is clamped
      into 0..n. */
  function ClampBound(i: int, n: nat): (r: nat)
    ensures r <= n
  {
    if i < 0 then (if i + n < 0 then 0 else i + n)
    else if i > n then n else i
  }

  /** `s[lo:hi]`. Slicing never raises: bounds are clamped to the buffer, and
      crossed bounds give an empty result. */
  function Slice(s: Bytes, lo: int, hi: int): (r: Bytes)
    ensures 0 <= lo <= hi ==>
      |r| == (if hi <= |s| then hi - lo else if lo <= |s| then |s| - lo else 0)
    ensures 0 <= lo <= hi <= |s| ==> r == s[lo..hi]
  {
    var a := ClampBound(lo, |s|);
    var b := ClampBound(hi, |s|);
    if a <= b then s[a..b] else []
  }

  /** A slice of a slice is a slice of the original. */
  lemma SliceOfSlice(s: Bytes, a: nat, b: nat, c: nat, d: nat)
    requires a <= b <= |s| && c <= d <= b - a
    ensures s[a..b][c..d] == s[a + c..a + d]
  {
    assert forall j :: 0 <= j < d - c ==> s[a..b][c..d][j] == s[a + c + j];
  }

  /** `s[i]`: a negative index counts from the end; an index outside the
      buffer raises IndexError (None). */
  function Index(s: Bytes, i: int): (r: Option<byte>)
    ensures 0 <= i ==> (r.Some? <==> i < |s|)
    ensures 0 <= i < |s| ==> r == Some(s[i])
  {
    if 0 <= i < |s| then Some(s[i])
    else if -|s| <= i < 0 then Some(s[|s| + i])
    else None
  }

  /** The unsigned big-endian value of a byte string: the reference reading
      that every fixed-width decoder below agrees with. */
  function BigEndian(s: Bytes): (r: nat)
    ensures r < Pow256(|s|)
  {
    if s == [] then 0 else BigEndian(s[..|s| - 1]) * 0x100 + s[|s| - 1]
  }

  /** `struct.unpack('>H', s)[0]`; struct.error (None) unless |s| == 2. */
  function UnpackU16(s: Bytes): (r: Option<int>)
    ensures r.Some? <==> |s| == 2
    ensures r.Some? ==> r.value == BigEndian(s) && 0 <= r.value < 0x1_0000
  {
    if |s| == 2 then
      assert s[..1][..0] == [];
      assert BigEndian(s[..1]) == s[0] as int;
      Some(s[0] as int * 0x100 + s[1] as int)
    else None
  }

  /** Appending a byte to a big-endian reading shifts the high part by one
      more byte. */
  lemma ShiftStep(x: int, p: int, y: int, z: int)
    ensures (x * p + y) * 0x100 + z == x * (p * 0x100) + (y * 0x100 + z)
  {
  }

  /** Reading the concatenation of two byte strings: the first is shifted
      up by the width of the second. */
  lemma {:induction false} BigEndianAppend(a: Bytes, b: Bytes)
    ensures BigEndian(a + b) == BigEndian(a) * Pow256(|b|) + BigEndian(b)
  {
    if b != [] {
      var c := a + b;
      var b' := b[..|b| - 1];
      var z := b[|b| - 1];
      assert c[..|c| - 1] == a + b' && c[|c| - 1] == z;
      BigEndianAppend(a, b');
      ShiftStep(BigEndian(a), Pow256(|b'|), BigEndian(b'), z);
    } else {
      assert a + b == a;
    }
  }

  /** `struct.unpack('>I', s)[0]`; struct.error (None) unless |s| == 4. */
  function UnpackU32(s: Bytes): (r: Option<int>)
    ensures r.Some? <==> |s| == 4
    ensures r.Some? ==> r.value == BigEndian(s) && 0 <= r.value < 0x1_0000_0000
  {
    if |s| == 4 then
      var hi := UnpackU16(s[..2]).value;
      var lo := UnpackU16(s[2..]).value;
      assert s == s[..2] + s[2..];
      BigEndianAppend(s[..2], s[2..]);
      assert Pow256(2) == 0x1_0000;
      Some(hi * 0x1_0000 + lo)
    else None
  }

  /** Two's-complement reinterpretation of an unsigned `width`-bit value. */
  function Signed(u: int, half: nat): int
  {
    if u >= half then u - 2 * half else u
  }

  /** `struct.unpack('>h', s)[0]`: the two's-complement reading of the two bytes. */
  function UnpackI16(s: Bytes): (r: Option<int>)
    ensures r.Some? <==> |s| == 2
    ensures r.Some? ==> -0x8000 <= r.value < 0x8000 && r.value % 0x1_0000 == BigEndian(s)
  {
    match UnpackU16(s)
    case None => None
    case Some(u) => Some(Signed(u, 0x8000))
  }

  /** `struct.unpack('>i', s)[0]`: the two's-complement reading of the four bytes. */
  function UnpackI32(s: Bytes): (r: Option<int>)
    ensures r.Some? <==> |s| == 4
    ensures r.Some? ==>
      -0x8000_0000 <= r.value < 0x8000_0000 && r.value % 0x1_0000_0000 == BigEndian(s)
  {
    match UnpackU32(s)
    case None => None
    case Some(u) => Some(Signed(u, 0x8000_0000))
  }

  /** 2^e for any integer exponent, as a real. */
  function Pow2Real(e: int): (r: real)
    ensures r > 0.0
    decreases if e < 0 then -e else e
  {
    if e == 0 then 1.0
    else if e > 0 then 2.0 * Pow2Real(e - 1)
    else Pow2Real(e + 1) / 2.0
  }

  /** `x >> n`: floor division by 2^n, which Dafny's `/` by a positive
      divisor also is, so negative `x` shift as in Python. */
  function Shr(x: int, n: nat): (r: int)
    ensures x >= 0 ==> r >= 0
    decreases n
  {
    if n == 0 then x else Shr(x / 2, n - 1)
  }

  /** `x & ((1 << n) - 1)`: the low `n` bits of `x` (of its two's-complement
      expansion when `x` is negative). */
  function Low(x: int, n: nat): (r: nat)
    ensures r < Pow2(n)
    decreases n
  {
    if n == 0 then 0 else x % 2 + 2 * Low(x / 2, n - 1)
  }

  /** The IEEE-754 single-precision number with bit pattern `bits`, for the
      finite patterns (normal and subnormal). Infinities and NaNs have no
      counterpart among the reals and read as 0.0. */
  function Float32Value(bits: nat): real
    requires bits < 0x1_0000_0000
  {
    var sign := if Shr(bits, 31) % 2 == 1 then -1.0 else 1.0;
    var exponent := Low(Shr(bits, 23), 8);
    var fraction := Low(bits, 23);
    if exponent == 0 then sign * (fraction as real) * Pow2Real(-149)
    else if exponent == 0xFF then 0.0
    else sign * ((Pow2(23) + fraction) as real) * Pow2Real(exponent - 150)
  }

  /** `struct.unpack('>f', s)[0]`; struct.error (None) unless |s| == 4. */
  function UnpackF32(s: Bytes): (r: Option<real>)
    ensures r.Some? <==> |s| == 4
  {
    match UnpackU32(s)
    case None => None
    case Some(u) => Some(Float32Value(u))
  }

  /** `struct.pack('>H', x)`; decoding the packed bytes gives `x` back. */
  function PackU16(x: int): (r: Bytes)
    requires 0 <= x < 0x1_0000
    ensures |r| == 2 && UnpackU16(r) == Some(x)
  {
    [x / 0x100, x % 0x100]
  }

  /** `struct.pack('>I', x)`; decoding the packed bytes gives `x` back. */
  function PackU32(x: int): (r: Bytes)
    requires 0 <= x < 0x1_0000_0000
    ensures |r| == 4 && UnpackU32(r) == Some(x)
  {
    var r := PackU16(x / 0x1_0000) + PackU16(x % 0x1_0000);
    assert r[..2] == PackU16(x / 0x1_0000) && r[2..] == PackU16(x % 0x1_0000);
    r
  }

  /** `struct.pack('>h', x)`; decoding the packed bytes gives `x` back. */
  function PackI16(x: int): (r: Bytes)
    requires -0x8000 <= x < 0x8000
    ensures |r| == 2 && UnpackI16(r) == Some(x)
  {
    PackU16(if x < 0 then x + 0x1_0000 else x)
  }

  /** `struct.pack('>i', x)`; decoding the packed bytes gives `x` back. */
  function PackI32(x: int): (r: Bytes)
    requires -0x8000_0000 <= x < 0x8000_0000
    ensures |r| == 4 && UnpackI32(r) == Some(x)
  {
    PackU32(if x < 0 then x + 0x1_0000_0000 else x)
  }

  /** Every two-byte string is the packing of what it decodes to, unsigned
      and signed alike: decoding loses nothing. */
  lemma UnpackPack16(s: Bytes)
    requires |s| == 2
    ensures PackU16(UnpackU16(s).value) == s
    ensures PackI16(UnpackI16(s).value) == s
  {
  }

  /** Every four-byte string is the packing of what it decodes to. */
  lemma UnpackPack32(s: Bytes)
    requires |s| == 4
    ensures PackU32(UnpackU32(s).value) == s
    ensures PackI32(UnpackI32(s).value) == s
  {
    var hi := UnpackU16(s[..2]).value;
    var lo := UnpackU16(s[2..]).value;
    var u := UnpackU32(s).value;
    assert u / 0x1_0000 == hi && u % 0x1_0000 == lo;
    UnpackPack16(s[..2]);
    UnpackPack16(s[2..]);
    assert s == s[..2] + s[2..];
  }

  /** `bool(b & (1 << bit))` for a non-negative shift count: bit `bit` of
      the binary (for negative `b`, two's-complement) expansion of `b`. */
  predicate BitSet(b: int, bit: nat)
    decreases bit
  {
    if bit == 0 then b % 2 == 1 else BitSet(b / 2, bit - 1)
  }

  /** Zero has no bit set. */
  lemma {:induction false} NoBitOfZero(q: nat)
    ensures !BitSet(0, q)
  {
    if q > 0 {
      NoBitOfZero(q - 1);
    }
  }

  /** `1 << p` tests true at `p` and false at every other position,
      including positions past the byte it fits in. */
  lemma {:induction false} SingleBit(p: nat, q: nat)
    ensures BitSet(Pow2(p), q) <==> p == q
  {
    if q == 0 {
    } else if p == 0 {
      NoBitOfZero(q - 1);
    } else {
      assert Pow2(p) / 2 == Pow2(p - 1);
      SingleBit(p - 1, q - 1);
    }
  }
}
