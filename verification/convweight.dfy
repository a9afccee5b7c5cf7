/** The weighing-instrument converter (`WeightConverter`): register 40003,
    the status word, carries output and input flags and, in bits 8-11, the
    division code that scales the raw gross weight; the feed rate is the
    weight lost per hour since the previous reading, negative while the
    hopper is being filled. */
module WeightConverter {
  import opened Results
  import opened PyDict
  import opened PyBytes
  import opened PyRuntime
  import opened ConverterBase

  /** `DEFAULT_INTERVAL`, the polling interval in seconds. */
  const DefaultInterval: real := 5.0

  /** `DIVISION_MAP`: the division value of each 4-bit code; code 15 is
      undefined by the instrument and counts as 1. */
  const DivisionMap: seq<real> :=
    [1.0, 2.0, 5.0, 10.0, 20.0, 50.0, 0.1, 0.2, 0.5, 0.01, 0.02, 0.05, 0.001, 0.002, 0.005, 1.0]

  /** `DIVISION_MAP.get(code, 1.0)`. */
  function DivisionValue(code: int): real {
    if 0 <= code < |DivisionMap| then DivisionMap[code] else 1.0
  }

  /** `(status_word >> 8) & 0x0F`. */
  function DivisionCode(sw: int): (r: int)
    ensures 0 <= r < 16
  {
    assert Pow2(4) == 16;
    Low(Shr(sw, 8), 4)
  }

  /** The dict `parse_status_word` returns. */
  datatype Status = Status(
    outs: seq<bool>, isStable: bool, isZero: bool, isOverload: bool,
    divisionCode: int, divisionValue: real, ins: seq<bool>, batchComplete: bool)

  /** The low `n` bits of `x`, bit 0 first. */
  function BitsOf(x: int, n: nat): (r: seq<bool>)
    ensures |r| == n
    decreases n
  {
    if n == 0 then [] else [x % 2 == 1] + BitsOf(x / 2, n - 1)
  }

  /** `parse_status_word(status_word)`: OUT1-OUT5 are bits 0-4, the stable,
      zero and overload flags bits 5-7, the division code bits 8-11, IN1-IN3
      bits 12-14 and the batch-complete flag bit 15. The code is always in
      the table, so the 1.0 default of the lookup is never taken. */
  function ParseStatusWord(sw: int): (r: Status)
    ensures WellFormed(r)
  {
    var b := BitsOf(sw, 16);
    var code := DivisionCode(sw);
    Status(b[..5], b[5], b[6], b[7], code, DivisionValue(code), b[12..15], b[15])
  }

  /** A status some 16-bit word decodes to: five outputs, three inputs, a
      4-bit code and the division value the table gives it. */
  predicate WellFormed(s: Status) {
    |s.outs| == 5 && |s.ins| == 3 && 0 <= s.divisionCode < 16 &&
    s.divisionValue == DivisionMap[s.divisionCode]
  }

  /** The number whose binary digits are `bits`, bit 0 first. */
  function FromBits(bits: seq<bool>): (r: nat)
    ensures r < Pow2(|bits|)
  {
    if bits == [] then 0 else (if bits[0] then 1 else 0) + 2 * FromBits(bits[1..])
  }

  /** The sixteen bits of a status, in register order. */
  function StatusBits(s: Status): (r: seq<bool>)
    requires WellFormed(s)
    ensures |r| == 16
  {
    s.outs + [s.isStable, s.isZero, s.isOverload] + BitsOf(s.divisionCode, 4) + s.ins + [s.batchComplete]
  }

  /** The status word an instrument reports for the status `s`. */
  function EncodeStatus(s: Status): (r: int)
    requires WellFormed(s)
    ensures 0 <= r < 0x1_0000
  {
    Pow2Sixteen();
    FromBits(StatusBits(s))
  }

  lemma Pow2Sixteen()
    ensures Pow2(16) == 0x1_0000
  {
    assert Pow2(4) == 16;
    assert Pow2(8) == 256;
    assert Pow2(12) == 4096;
  }

  /** Bit `i` of `BitsOf(x, n)` is bit `i` of `x`. */
  lemma {:induction false} BitsOfIndex(x: int, n: nat, i: nat)
    requires i < n
    ensures BitsOf(x, n)[i] == BitSet(x, i)
    decreases n
  {
    if i > 0 {
      BitsOfIndex(x / 2, n - 1, i - 1);
    }
  }

  /** The first `n + m` bits are the first `n` followed by the first `m`
      of `x >> n`. */
  lemma {:induction false} BitsOfSplit(x: int, n: nat, m: nat)
    ensures BitsOf(x, n + m) == BitsOf(x, n) + BitsOf(Shr(x, n), m)
    decreases n
  {
    if n > 0 {
      BitsOfSplit(x / 2, n - 1, m);
    }
  }

  /** Reading the bits back gives the low `n` bits of `x`, as a number. */
  lemma {:induction false} FromBitsOf(x: int, n: nat)
    ensures FromBits(BitsOf(x, n)) == Low(x, n)
    decreases n
  {
    if n > 0 {
      assert BitsOf(x, n)[1..] == BitsOf(x / 2, n - 1);
      FromBitsOf(x / 2, n - 1);
    }
  }

  /** The low `n` bits of a number below 2^n are the number itself. */
  lemma {:induction false} LowOfSmall(x: int, n: nat)
    requires 0 <= x < Pow2(n)
    ensures Low(x, n) == x
    decreases n
  {
    if n > 0 {
      LowOfSmall(x / 2, n - 1);
    }
  }

  /** Masking keeps the bits it masks. */
  lemma {:induction false} BitsOfLow(x: int, n: nat)
    ensures BitsOf(Low(x, n), n) == BitsOf(x, n)
    decreases n
  {
    if n > 0 {
      var l := Low(x, n);
      assert l % 2 == x % 2 && l / 2 == Low(x / 2, n - 1);
      BitsOfLow(x / 2, n - 1);
    }
  }

  /** The bits of a number built from `bits` are `bits`. */
  lemma {:induction false} BitsOfFromBits(bits: seq<bool>)
    ensures BitsOf(FromBits(bits), |bits|) == bits
  {
    if bits != [] {
      var f := FromBits(bits);
      assert f % 2 == (if bits[0] then 1 else 0) && f / 2 == FromBits(bits[1..]);
      BitsOfFromBits(bits[1..]);
    }
  }

  /** The four bits of the division code are bits 8-11 of the word. */
  lemma CodeBits(sw: int)
    ensures BitsOf(DivisionCode(sw), 4) == BitsOf(sw, 16)[8..12]
  {
    var y := Shr(sw, 8);
    BitsOfLow(y, 4);
    BitsOfSplit(sw, 8, 8);
    BitsOfSplit(y, 4, 4);
  }

  /** Each decoded flag is its bit of the status word. */
  lemma StatusFlags(sw: int)
    ensures var r := ParseStatusWord(sw);
      (forall i :: 0 <= i < 5 ==> r.outs[i] == BitSet(sw, i)) &&
      r.isStable == BitSet(sw, 5) && r.isZero == BitSet(sw, 6) && r.isOverload == BitSet(sw, 7) &&
      (forall i :: 0 <= i < 3 ==> r.ins[i] == BitSet(sw, 12 + i)) &&
      r.batchComplete == BitSet(sw, 15)
  {
    var b, r := BitsOf(sw, 16), ParseStatusWord(sw);
    assert r.outs == b[..5] && r.ins == b[12..15];
    forall i | 0 <= i < 16
      ensures b[i] == BitSet(sw, i)
    {
      BitsOfIndex(sw, 16, i);
    }
    forall i | 0 <= i < 5
      ensures r.outs[i] == BitSet(sw, i)
    {
      assert r.outs[i] == b[i];
    }
    forall i | 0 <= i < 3
      ensures r.ins[i] == BitSet(sw, 12 + i)
    {
      assert r.ins[i] == b[12 + i];
    }
  }

  /** The bits of an encoded status are the status's bits. */
  lemma EncodeBits(s: Status)
    requires WellFormed(s)
    ensures BitsOf(EncodeStatus(s), 16) == StatusBits(s)
  {
    Pow2Sixteen();
    BitsOfFromBits(StatusBits(s));
  }

  /** The division code of an encoded status is the status's code. */
  lemma EncodeCode(s: Status)
    requires WellFormed(s)
    ensures DivisionCode(EncodeStatus(s)) == s.divisionCode
  {
    var w := EncodeStatus(s);
    EncodeBits(s);
    CodeBits(w);
    StatusBitsCode(s);
    SameNibble(DivisionCode(w), s.divisionCode);
  }

  /** Bits 8-11 of a status are its division code. */
  lemma StatusBitsCode(s: Status)
    requires WellFormed(s)
    ensures StatusBits(s)[8..12] == BitsOf(s.divisionCode, 4)
  {
    var head := s.outs + [s.isStable, s.isZero, s.isOverload];
    assert |head| == 8;
    assert StatusBits(s) == head + BitsOf(s.divisionCode, 4) + (s.ins + [s.batchComplete]);
  }

  /** Two codes below 16 with the same four bits are equal. */
  lemma SameNibble(a: int, b: int)
    requires 0 <= a < 16 && 0 <= b < 16 && BitsOf(a, 4) == BitsOf(b, 4)
    ensures a == b
  {
    assert Pow2(4) == 16;
    FromBitsOf(a, 4);
    FromBitsOf(b, 4);
    LowOfSmall(a, 4);
    LowOfSmall(b, 4);
  }

  /** Decoding an encoded status gives it back: each flag and the division
      code sit at their own bits of the word. */
  lemma ParseEncode(s: Status)
    requires WellFormed(s)
    ensures ParseStatusWord(EncodeStatus(s)) == s
  {
    var w := EncodeStatus(s);
    EncodeBits(s);
    EncodeCode(s);
    var bits := StatusBits(s);
    assert bits[..5] == s.outs && bits[12..15] == s.ins;
    assert bits[5] == s.isStable && bits[6] == s.isZero && bits[7] == s.isOverload && bits[15] == s.batchComplete;
  }

  /** Sixteen bits cut where the status fields begin and glued back. */
  lemma Regroup(b: seq<bool>)
    requires |b| == 16
    ensures b[..5] + [b[5], b[6], b[7]] + b[8..12] + b[12..15] + [b[15]] == b
  {
  }

  /** Encoding a decoded 16-bit word gives the word back: the decoded
      fields account for every bit. */
  lemma EncodeParse(sw: int)
    requires 0 <= sw < 0x1_0000
    ensures EncodeStatus(ParseStatusWord(sw)) == sw
  {
    var s := ParseStatusWord(sw);
    var b := BitsOf(sw, 16);
    calc {
      EncodeStatus(s);
      FromBits(StatusBits(s));
      { CodeBits(sw); Regroup(b); }
      FromBits(b);
      { FromBitsOf(sw, 16); }
      Low(sw, 16);
      { Pow2Sixteen(); LowOfSmall(sw, 16); }
      sw;
    }
  }

  /** `int(get_field_value(raw_data, "StatusWord", 0))`: a number is
      truncated, a decimal string parsed; None is the error `int()` raises. */
  function StatusWordOf(raw: Dict<Value>): (r: Option<int>)
    ensures IsNumber(GetFieldValue(raw, "StatusWord", VInt(0))) ==>
      r == ToInt(GetFieldValue(raw, "StatusWord", VInt(0)))
    ensures GetFieldValue(raw, "StatusWord", VInt(0)).VStr? ==>
      r == ParseInt(GetFieldValue(raw, "StatusWord", VInt(0)).s)
    ensures r.Some? <==> (IsNumber(GetFieldValue(raw, "StatusWord", VInt(0))) ||
      (GetFieldValue(raw, "StatusWord", VInt(0)).VStr? && ParseInt(GetFieldValue(raw, "StatusWord", VInt(0)).s).Some?))
  {
    var v := GetFieldValue(raw, "StatusWord", VInt(0));
    if v.VStr? then ParseInt(v.s) else ToInt(v)
  }

  /** A status word stored as the decimal text `str(n)` reads as `n`, as
      `int(str(n))` does. */
  lemma StatusWordDecimal(raw: Dict<Value>, n: int)
    requires GetFieldValue(raw, "StatusWord", VInt(0)) == VStr(IntToDecimal(n))
    ensures StatusWordOf(raw) == Some(n)
  {
    ParseIntRoundTrip(n);
  }

  /** The raw weight: the DWord `GrossWeight`, falling back to the Word
      `GrossWeight_W` only when the former equals 0. */
  function RawWeight(raw: Dict<Value>): Value {
    var gross := GetFieldValue(raw, "GrossWeight", VFloat(0.0));
    if EqualsZero(gross) then GetFieldValue(raw, "GrossWeight_W", VFloat(0.0)) else gross
  }

  /** The feed rate in kg/h before rounding: the weight lost per second
      since `previous`, times 3600, when there is a previous weight and a
      positive interval; 0.0 otherwise. */
  function FeedRate(previous: Option<real>, interval: real, current: real): real {
    if previous.Some? && interval > 0.0 then (previous.value - current) / interval * 3600.0 else 0.0
  }

  /** The scale `convert` applies: `force_scale` when given, else the
      status word's division value. */
  function Scale(sw: int, forceScale: Option<real>): real {
    forceScale.GetOr(DivisionValue(DivisionCode(sw)))
  }

  /** The dict `convert` returns. */
  function Output(weight: Value, feed: Value, stable: Value, overload: Value): (r: Dict<Value>)
    ensures Keys(r) == OutputFieldNames(Weight)
  {
    var e := [("weight", weight), ("feed_rate", feed), ("is_stable", stable), ("is_overload", overload)];
    assert Keys(e[3..]) == ["is_overload"];
    assert Keys(e[2..]) == ["is_stable", "is_overload"];
    assert Keys(e[1..]) == ["feed_rate", "is_stable", "is_overload"];
    e
  }

  /** Each key of the output holds its own argument. */
  lemma OutputGet(weight: Value, feed: Value, stable: Value, overload: Value)
    ensures var r := Output(weight, feed, stable, overload);
      Get(r, "weight") == Some(weight) && Get(r, "feed_rate") == Some(feed) &&
      Get(r, "is_stable") == Some(stable) && Get(r, "is_overload") == Some(overload)
  {
  }

  /** The dict `convert` stores for the decoded status and the scaled
      weight `current`: the weight to three places, the feed rate (from the
      unrounded weight) to two, and the stable and overload flags. */
  function Stored(status: Status, current: real, previous: Option<real>, interval: real): (r: Dict<Value>)
    ensures Keys(r) == OutputFieldNames(Weight)
  {
    Output(VFloat(RoundHalfEven(current, 3)), VFloat(RoundHalfEven(FeedRate(previous, interval, current), 2)),
           VBool(status.isStable), VBool(status.isOverload))
  }

  /** `float(raw_weight) * scale`, the current weight in kg. */
  function Current(raw: Dict<Value>, forceScale: Option<real>): real
    requires StatusWordOf(raw).Some? && IsNumber(RawWeight(raw))
  {
    Weighed(RawWeight(raw), Scale(StatusWordOf(raw).value, forceScale))
  }

  /** `float(raw) * scale`. */
  function Weighed(w: Value, scale: real): real
    requires IsNumber(w)
  {
    NumValue(w) * scale
  }

  /** `convert(raw_data, previous_weight=.., interval=.., force_scale=..)`.
      None is the error `int()` or `float()` raises on the status word or
      the raw weight. */
  function Convert(raw: Dict<Value>, previous: Option<real>, intervalArg: Option<real>, forceScale: Option<real>): (r: Option<Dict<Value>>)
    ensures r.Some? <==> StatusWordOf(raw).Some? && IsNumber(RawWeight(raw))
    ensures r.Some? ==> Keys(r.value) == OutputFieldNames(Weight)
  {
    if StatusWordOf(raw).None? || !IsNumber(RawWeight(raw)) then None
    else Some(Stored(ParseStatusWord(StatusWordOf(raw).value), Current(raw, forceScale),
                     previous, intervalArg.GetOr(DefaultInterval)))
  }

  /** The stored fields: the weight is the raw weight times the scale to
      three places, the feed rate is computed from the unrounded weight to
      two places, and the flags are bits 5 and 7 of the status word. */
  lemma ConvertFields(raw: Dict<Value>, previous: Option<real>, intervalArg: Option<real>, forceScale: Option<real>)
    requires Convert(raw, previous, intervalArg, forceScale).Some?
    ensures var sw := StatusWordOf(raw).value;
      var current := Current(raw, forceScale);
      var out := Convert(raw, previous, intervalArg, forceScale).value;
      Get(out, "weight") == Some(VFloat(RoundHalfEven(current, 3))) &&
      Get(out, "feed_rate") == Some(VFloat(RoundHalfEven(FeedRate(previous, intervalArg.GetOr(DefaultInterval), current), 2))) &&
      Get(out, "is_stable") == Some(VBool(BitSet(sw, 5))) &&
      Get(out, "is_overload") == Some(VBool(BitSet(sw, 7)))
  {
    var sw := StatusWordOf(raw).value;
    var current := Current(raw, forceScale);
    var status := ParseStatusWord(sw);
    var interval := intervalArg.GetOr(DefaultInterval);
    assert Convert(raw, previous, intervalArg, forceScale).value == Stored(status, current, previous, interval);
    OutputGet(VFloat(RoundHalfEven(current, 3)), VFloat(RoundHalfEven(FeedRate(previous, interval, current), 2)),
              VBool(status.isStable), VBool(status.isOverload));
    BitsOfIndex(sw, 16, 5);
    BitsOfIndex(sw, 16, 7);
  }

  /** The stored weight alone. */
  lemma ConvertWeight(raw: Dict<Value>, previous: Option<real>, intervalArg: Option<real>, forceScale: Option<real>)
    requires Convert(raw, previous, intervalArg, forceScale).Some?
    ensures Get(Convert(raw, previous, intervalArg, forceScale).value, "weight") ==
      Some(VFloat(RoundHalfEven(Current(raw, forceScale), 3)))
  {
    ConvertFields(raw, previous, intervalArg, forceScale);
  }

  /** A given `force_scale` replaces the division value whatever the
      status word says. */
  lemma ForceScaleOverrides(sw: int, sw': int, s: real)
    ensures Scale(sw, Some(s)) == Scale(sw', Some(s)) == s
  {
  }

  /** Without `force_scale` the scale is the table entry of bits 8-11. */
  lemma ScaleFromCode(sw: int)
    ensures Scale(sw, None) == ParseStatusWord(sw).divisionValue == DivisionMap[DivisionCode(sw)]
    ensures DivisionCode(sw) == 6 ==> Scale(sw, None) == 0.1
    ensures DivisionCode(sw) == 15 ==> Scale(sw, None) == 1.0
  {
  }

  /** `GrossWeight_W` is read only when `GrossWeight` is missing or 0. */
  lemma GrossWeightPreferred(raw: Dict<Value>)
    requires !EqualsZero(GetFieldValue(raw, "GrossWeight", VFloat(0.0)))
    ensures RawWeight(raw) == GetFieldValue(raw, "GrossWeight", VFloat(0.0))
  {
  }

  /** The stored weight is on the 0.001 grid, within half a step of the
      exact product of raw weight and scale. */
  lemma WeightNear(raw: Dict<Value>, previous: Option<real>, intervalArg: Option<real>, forceScale: Option<real>)
    requires Convert(raw, previous, intervalArg, forceScale).Some?
    ensures var current := Current(raw, forceScale);
      var w := Get(Convert(raw, previous, intervalArg, forceScale).value, "weight");
      w.Some? && w.value.VFloat? && OnGrid(w.value.r, 3) &&
      -0.5 <= ScaleBy(w.value.r, 3) - ScaleBy(current, 3) <= 0.5
  {
    ConvertFields(raw, previous, intervalArg, forceScale);
    RoundHalfEvenSpec(Current(raw, forceScale), 3);
  }

  /** The feed rate keeps its sign: swapping the two weights negates it,
      and it is 0 without a previous weight or a positive interval. */
  lemma FeedRateSign(a: real, b: real, interval: real)
    ensures FeedRate(Some(a), interval, b) == -FeedRate(Some(b), interval, a)
    ensures interval > 0.0 ==> (FeedRate(Some(a), interval, b) > 0.0 <==> a > b)
    ensures FeedRate(None, interval, b) == 0.0
    ensures interval <= 0.0 ==> FeedRate(Some(a), interval, b) == 0.0
  {
    if interval > 0.0 {
      assert (a - b) / interval == -((b - a) / interval);
      if a > b {
        assert (a - b) / interval > 0.0;
      } else {
        assert (a - b) / interval <= 0.0;
      }
    }
  }

  /** Code 6 sits in bits 8-11 of the word 0x600: its scale is 0.1, and the
      word 0 has scale 1. */
  lemma CodeOf600()
    ensures DivisionCode(0x600) == 6 && DivisionCode(0) == 0
    ensures Scale(0x600, None) == 0.1 && Scale(0, None) == 1.0
  {
    assert Shr(0x600, 8) == 6;
    assert Shr(0, 8) == 0;
  }

  /** A status word stored as an int is read unchanged. */
  lemma ExampleStatus(raw: Dict<Value>, sw: int)
    requires Get(raw, "StatusWord") == Some(VInt(sw))
    ensures StatusWordOf(raw) == Some(sw)
  {
  }

  /** A non-zero gross weight is the raw weight. */
  lemma ExampleGross(raw: Dict<Value>)
    requires Get(raw, "GrossWeight") == Some(VInt(1000))
    ensures RawWeight(raw) == VInt(1000)
  {
  }

  /** A raw weight of 1000 reads 1000.0 with code 0 (status word 0). */
  lemma WeightExampleCode0(raw: Dict<Value>)
    requires Get(raw, "GrossWeight") == Some(VInt(1000)) && Get(raw, "StatusWord") == Some(VInt(0))
    ensures Get(Convert(raw, None, None, None).value, "weight") == Some(VFloat(1000.0))
  {
    ExampleStatus(raw, 0);
    ExampleGross(raw);
    assert Convert(raw, None, None, None).Some?;
    ConvertWeight(raw, None, None, None);
    assert Current(raw, None) == Weighed(VInt(1000), Scale(0, None));
    calc {
      Get(Convert(raw, None, None, None).value, "weight");
      Some(VFloat(RoundHalfEven(Weighed(VInt(1000), Scale(0, None)), 3)));
      { CodeOf600(); }
      Some(VFloat(RoundHalfEven(Weighed(VInt(1000), 1.0), 3)));
      { assert ScaleBy(1000.0, 3) == 1000000.0; RoundOnGrid(1000.0, 3); }
      Some(VFloat(1000.0));
    }
  }

  /** A raw weight of 1000 reads 100.0 with code 6 (status word 0x600). */
  lemma WeightExampleCode6(raw: Dict<Value>)
    requires Get(raw, "GrossWeight") == Some(VInt(1000)) && Get(raw, "StatusWord") == Some(VInt(0x600))
    ensures Get(Convert(raw, None, None, None).value, "weight") == Some(VFloat(100.0))
  {
    ExampleStatus(raw, 0x600);
    ExampleGross(raw);
    assert Convert(raw, None, None, None).Some?;
    ConvertWeight(raw, None, None, None);
    assert Current(raw, None) == Weighed(VInt(1000), Scale(0x600, None));
    calc {
      Get(Convert(raw, None, None, None).value, "weight");
      Some(VFloat(RoundHalfEven(Weighed(VInt(1000), Scale(0x600, None)), 3)));
      { CodeOf600(); }
      Some(VFloat(RoundHalfEven(Weighed(VInt(1000), 0.1), 3)));
      { assert ScaleBy(100.0, 3) == 100000.0; RoundOnGrid(100.0, 3); }
      Some(VFloat(100.0));
    }
  }

  /** A drop from 100 to 90 kg in the default 5 s is 7200 kg/h; the rise
      back is -7200 kg/h. */
  lemma FeedExamples()
    ensures FeedRate(Some(100.0), DefaultInterval, 90.0) == 7200.0
    ensures FeedRate(Some(90.0), DefaultInterval, 100.0) == -7200.0
  {
  }
}
