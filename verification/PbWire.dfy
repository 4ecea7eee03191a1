/** The integer encodings of Protocol Buffers ("Base 128 Varints") as nanopb reads and writes them:
    the specification that the stream methods meet. Words wrap as the C types do. */
module PbWire {
  import opened Bytes

  const TWO31 := 0x8000_0000
  const TWO32 := 0x1_0000_0000
  const TWO63 := 0x8000_0000_0000_0000
  const TWO64 := 0x1_0000_0000_0000_0000

  /** A value and the bytes after it, or the reason enough to stop. */
  datatype Parsed<+T> = Good(value: T, rest: seq<Byte>) | Bad

  function Pow2(n: nat): (r: nat)
    ensures r > 0
  {
    if n == 0 then 1 else 2 * Pow2(n - 1)
  }

  lemma {:induction false} Pow2Add(a: nat, b: nat)
    ensures Pow2(a + b) == Pow2(a) * Pow2(b)
  {
    if b > 0 {
      Pow2Add(a, b - 1);
      assert Pow2(a + b) == 2 * (Pow2(a) * Pow2(b - 1)) == Pow2(a) * (2 * Pow2(b - 1));
    }
  }

  lemma Pow2Values()
    ensures Pow2(7) == 128 && Pow2(31) == TWO31 && Pow2(32) == TWO32 && Pow2(63) == TWO63 && Pow2(64) == TWO64
  {
    assert Pow2(7) == 128 && Pow2(8) == 256;
    assert Pow2(32) == 2 * Pow2(31) && Pow2(64) == 2 * Pow2(63);
    hide Pow2;
    Pow2Add(8, 8);
    Pow2Add(16, 16);
    Pow2Add(32, 32);
  }

  lemma {:induction false} Pow2Monotone(a: nat, b: nat)
    requires a <= b
    ensures Pow2(a) <= Pow2(b)
  {
    if a < b {
      Pow2Monotone(a, b - 1);
    }
  }

  // ---------- Varints ----------

  /** pb_encode_varint: seven bits a byte, the lowest first, all but the last byte marked. */
  function VarintBytes(v: nat): seq<Byte> {
    if v <= 0x7F then [v] else [v % 128 + 128] + VarintBytes(v / 128)
  }

  lemma {:induction false} VarintLength(v: nat, k: nat)
    requires 0 < k && v < Pow2(7 * k)
    ensures 1 <= |VarintBytes(v)| <= k
  {
    if v > 0x7F {
      assert Pow2(7) == 128;
      Pow2Add(7 * (k - 1), 7);
      assert 7 * k == 7 * (k - 1) + 7;
      VarintLength(v / 128, k - 1);
    }
  }

  /** A digit above the bits already there, which are below bitpos, so that "or" is addition. */
  function Placed(result: nat, digit: nat, bitpos: nat): nat {
    result + digit * Pow2(bitpos)
  }

  /** pb_decode_varint from bit `bitpos` on; what does not fit in 64 bits is shifted out. */
  function Varint64From(b: seq<Byte>, bitpos: nat, result: nat): (r: Parsed<nat>)
    requires result < Pow2(bitpos)
    ensures r.Good? ==> r.value < TWO64 && |r.rest| < |b| && r.rest == b[|b| - |r.rest|..]
    decreases |b|
  {
    if bitpos >= 64 || b == [] then Bad
    else
      var next := Placed(result, b[0] % 128, bitpos);
      StillBelow(b[0] % 128, bitpos, result);
      if b[0] >= 128 then Varint64From(b[1..], bitpos + 7, next) else Good(next % TWO64, b[1..])
  }

  function Varint64(b: seq<Byte>): (r: Parsed<nat>)
    ensures r.Good? ==> r.value < TWO64 && |r.rest| < |b| && r.rest == b[|b| - |r.rest|..]
  {
    Varint64From(b, 0, 0)
  }

  lemma StillBelow(digit: nat, bitpos: nat, result: nat)
    requires digit < 128 && result < Pow2(bitpos)
    ensures Placed(result, digit, bitpos) < Pow2(bitpos + 7)
  {
    Pow2Add(bitpos, 7);
    assert Pow2(7) == 128;
    assert digit * Pow2(bitpos) <= 127 * Pow2(bitpos);
  }

  /** A varint is its lowest digit and, if it needs more, the varint of the rest. */
  lemma Digits(w: nat, tail: seq<Byte>) returns (low: nat, high: nat)
    ensures w == low + 128 * high && low < 128
    ensures high == 0 ==> VarintBytes(w) + tail == [low] + tail
    ensures high > 0 ==> VarintBytes(w) + tail == [low + 128] + (VarintBytes(high) + tail)
  {
    low, high := w % 128, w / 128;
  }

  lemma MoreBytes64(digit: nat, rest: seq<Byte>, bitpos: nat, result: nat)
    requires digit < 128 && bitpos < 64 && result < Pow2(bitpos)
    ensures Placed(result, digit, bitpos) < Pow2(bitpos + 7)
    ensures Varint64From([digit + 128] + rest, bitpos, result) == Varint64From(rest, bitpos + 7, Placed(result, digit, bitpos))
  {
    StillBelow(digit, bitpos, result);
    hide Placed, Pow2;
    var b: seq<Byte> := [digit + 128] + rest;
    assert b[1..] == rest && b[0] % 128 == digit;
  }

  lemma LastByte64(digit: nat, tail: seq<Byte>, bitpos: nat, result: nat)
    requires digit < 128 && bitpos < 64 && result < Pow2(bitpos)
    ensures Varint64From([digit] + tail, bitpos, result) == Good(Placed(result, digit, bitpos) % TWO64, tail)
  {
    hide Placed, Pow2;
    var b: seq<Byte> := [digit] + tail;
    assert b[1..] == tail && b[0] % 128 == digit;
  }

  /** Every 64-bit value survives, and exactly its own bytes are taken. */
  lemma {:induction false} VarintRoundTripFrom(v: nat, bitpos: nat, result: nat, total: nat, tail: seq<Byte>)
    requires result < Pow2(bitpos) && Placed(result, v, bitpos) == total < TWO64 && (v > 0 || bitpos == 0)
    ensures Varint64From(VarintBytes(v) + tail, bitpos, result) == Good(total, tail)
    decreases v
  {
    hide *;
    BelowBit64(v, bitpos, result);
    var low, high := Digits(v, tail);
    if high > 0 {
      MoreBytes64(low, VarintBytes(high) + tail, bitpos, result);
      Regroup(result, low, high, bitpos);
      VarintRoundTripFrom(high, bitpos + 7, Placed(result, low, bitpos), total, tail);
    } else {
      assert low == v && total % TWO64 == total;
      LastByte64(low, tail, bitpos, result);
    }
  }

  lemma BelowBit64(v: nat, bitpos: nat, result: nat)
    requires Placed(result, v, bitpos) < TWO64 && (v > 0 || bitpos == 0)
    ensures bitpos < 64
  {
    hide Pow2;
    if bitpos >= 64 {
      Pow2Monotone(64, bitpos);
      Pow2Values();
      AtLeast(v, Pow2(bitpos));
    }
  }

  lemma AtLeast(v: nat, p: nat)
    ensures v == 0 || v * p >= p
  {}

  lemma Regroup(result: nat, low: nat, high: nat, bitpos: nat)
    ensures Placed(result, low + 128 * high, bitpos) == Placed(Placed(result, low, bitpos), high, bitpos + 7)
  {
    hide Pow2;
    Pow2Add(bitpos, 7);
    Pow2Values();
    var p := Pow2(bitpos);
    assert (low + 128 * high) * p == low * p + high * (128 * p);
  }

  lemma VarintRoundTrip(v: nat, tail: seq<Byte>)
    requires v < TWO64
    ensures Varint64(VarintBytes(v) + tail) == Good(v, tail)
    ensures 1 <= |VarintBytes(v)| <= 10
  {
    assert Pow2(0) == 1;
    hide Pow2;
    VarintRoundTripFrom(v, 0, 0, v, tail);
    Pow2Values();
    Pow2Monotone(64, 70);
    VarintLength(v, 10);
  }

  // ---------- Zigzag ----------

  /** A 64-bit word read as unsigned or as signed, and its complement. */
  function ToU64(v: int): nat {
    v % TWO64
  }

  function ToI64(u: nat): int
    requires u < TWO64
  {
    if u < TWO63 then u else u - TWO64
  }

  function Not(u: nat): nat
    requires u < TWO64
  {
    TWO64 - 1 - u
  }

  predicate IsI64(v: int) {
    -TWO63 <= v < TWO63
  }

  /** pb_encode_svarint. */
  function Zigzag(v: int): (u: nat)
    requires IsI64(v)
    ensures u < TWO64
    ensures u == if v >= 0 then 2 * v else -2 * v - 1
  {
    if v < 0 then Not(2 * ToU64(v) % TWO64) else 2 * ToU64(v) % TWO64
  }

  /** pb_decode_svarint. */
  function Unzigzag(u: nat): (v: int)
    requires u < TWO64
    ensures IsI64(v)
  {
    if u % 2 == 1 then ToI64(Not(u / 2)) else ToI64(u / 2)
  }

  /** The two are inverse on all 64-bit words, the least signed one included. */
  lemma ZigzagInverts(v: int, u: nat)
    requires IsI64(v) && u < TWO64
    ensures Unzigzag(Zigzag(v)) == v && Zigzag(Unzigzag(u)) == u
  {}

  // ---------- Fixed-size integers ----------

  function LittleEndian(v: nat, k: nat): (b: seq<Byte>)
    ensures |b| == k
  {
    if k == 0 then [] else [v % 256] + LittleEndian(v / 256, k - 1)
  }

  function FromLittleEndian(b: seq<Byte>): nat {
    if b == [] then 0 else b[0] + 256 * FromLittleEndian(b[1..])
  }

  lemma {:induction false} FixedRoundTrip(v: nat, k: nat)
    requires v < Pow256(k)
    ensures FromLittleEndian(LittleEndian(v, k)) == v
  {
    if k > 0 {
      FixedRoundTrip(v / 256, k - 1);
      assert LittleEndian(v, k)[1..] == LittleEndian(v / 256, k - 1);
    }
  }

  /** The number that seven-bit groups stand for, lowest first. */
  function GroupsValue(b: seq<Byte>): nat {
    if b == [] then 0 else b[0] % 128 + 128 * GroupsValue(b[1..])
  }

  /** Byte k is the first one that is not marked. */
  predicate EndsAt(b: seq<Byte>, k: nat) {
    k < |b| && b[k] < 128 && forall i | 0 <= i < k :: b[i] >= 128
  }

  /** Canonical or not, any varint of up to ten bytes is taken for its value modulo 2^64, to its last byte; a longer
      one, or one that does not end, is refused. */
  lemma Varint64Any(b: seq<Byte>, k: nat)
    requires EndsAt(b, k)
    ensures Varint64(b) == if k < 10 then Good(GroupsValue(b[..k + 1]) % TWO64, b[k + 1..]) else Bad
  {
    Varint64FromAny(b, 0, 0, k);
    assert Above(0, GroupsValue(b[..k + 1]), 0) == GroupsValue(b[..k + 1]) * 1;
  }

  /** A number on top of the first j groups. */
  function Above(result: nat, high: nat, j: nat): nat {
    result + high * Pow2(7 * j)
  }

  lemma {:induction false} Varint64FromAny(b: seq<Byte>, j: nat, result: nat, k: nat)
    requires result < Pow2(7 * j) && EndsAt(b, k)
    ensures Varint64From(b, 7 * j, result)
            == if j + k < 10 then Good(Above(result, GroupsValue(b[..k + 1]), j) % TWO64, b[k + 1..]) else Bad
    decreases |b|
  {
    OneGroup(b, 7 * j, result);
    FirstGroup(b, k);
    hide *;
    var digit := b[0] % 128;
    if j < 10 {
      StillBelow(digit, 7 * j, result);
      if k > 0 {
        EndsLater(b, k);
        assert 7 * (j + 1) == 7 * j + 7;
        Varint64FromAny(b[1..], j + 1, Placed(result, digit, 7 * j), k - 1);
        assert b[1..][..k] == b[1..k + 1] && b[1..][k..] == b[k + 1..];
        NextGroup(result, digit, GroupsValue(b[1..k + 1]), j);
      } else {
        LastGroup(result, digit, j);
      }
    }
  }

  lemma EndsLater(b: seq<Byte>, k: nat)
    requires EndsAt(b, k) && k > 0
    ensures b[0] >= 128 && EndsAt(b[1..], k - 1)
  {}

  lemma OneGroup(b: seq<Byte>, bitpos: nat, result: nat)
    requires result < Pow2(bitpos) && b != []
    ensures Placed(result, b[0] % 128, bitpos) < Pow2(bitpos + 7)
    ensures Varint64From(b, bitpos, result)
            == if bitpos >= 64 then Bad
               else if b[0] >= 128 then Varint64From(b[1..], bitpos + 7, Placed(result, b[0] % 128, bitpos))
               else Good(Placed(result, b[0] % 128, bitpos) % TWO64, b[1..])
  {
    StillBelow(b[0] % 128, bitpos, result);
    hide Placed, Pow2;
  }

  lemma FirstGroup(b: seq<Byte>, k: nat)
    requires k < |b|
    ensures GroupsValue(b[..k + 1]) == b[0] % 128 + 128 * GroupsValue(b[1..k + 1])
    ensures k == 0 ==> GroupsValue(b[..1]) == b[0] % 128
  {
    assert b[..k + 1][0] == b[0] && b[..k + 1][1..] == b[1..k + 1];
  }

  lemma LastGroup(result: nat, digit: nat, j: nat)
    ensures Placed(result, digit, 7 * j) == Above(result, digit, j)
  {}

  lemma NextGroup(result: nat, digit: nat, high: nat, j: nat)
    ensures Above(Placed(result, digit, 7 * j), high, j + 1) == Above(result, digit + 128 * high, j)
  {
    Pow2Add(7 * j, 7);
    assert Pow2(7) == 128 && 7 * (j + 1) == 7 * j + 7;
    Shifts(result, digit, high, Pow2(7 * j), Pow2(7 * (j + 1)));
  }

  lemma Shifts(result: nat, digit: nat, high: nat, scale: nat, next: nat)
    requires next == scale * 128
    ensures result + digit * scale + high * next == result + (digit + 128 * high) * scale
  {
    assert high * (scale * 128) == 128 * high * scale;
    assert (digit + 128 * high) * scale == digit * scale + 128 * high * scale;
  }

  lemma {:induction false} Varint64Endless(b: seq<Byte>, bitpos: nat, result: nat)
    requires result < Pow2(bitpos) && forall i | 0 <= i < |b| :: b[i] >= 128
    ensures Varint64From(b, bitpos, result).Bad?
    decreases |b|
  {
    if bitpos < 64 && b != [] {
      StillBelow(b[0] % 128, bitpos, result);
      Varint64Endless(b[1..], bitpos + 7, Placed(result, b[0] % 128, bitpos));
    }
  }

  // ---------- The 32-bit decoder ----------

  /** Bitwise "or". */
  function Or(a: nat, b: nat): (r: nat)
    ensures a > 0 || b > 0 ==> r > 0
    decreases a + b
  {
    if a == 0 then b else if b == 0 then a
    else 2 * Or(a / 2, b / 2) + (if a % 2 == 1 || b % 2 == 1 then 1 else 0)
  }

  lemma {:induction false} OrDisjoint(a: nat, c: nat, k: nat)
    requires a < Pow2(k)
    ensures Or(a, c * Pow2(k)) == a + c * Pow2(k)
    decreases k
  {
    if k > 0 && a > 0 && c > 0 {
      var p := Pow2(k - 1);
      assert c * Pow2(k) == 2 * (c * p) by {
        assert c * (2 * p) == 2 * (c * p);
      }
      OrDisjoint(a / 2, c, k - 1);
    }
  }

  /** Bits 32 and up of a varint may only repeat a sign bit: all-ones bytes, ending in 0x01. */
  function SignExtension(bitpos: nat): Byte {
    if bitpos < 63 then 0xFF else 0x01
  }

  /** A digit shifted to its place in a 32-bit word. */
  function Insert(result: nat, digit: nat, bitpos: nat): nat {
    Or(result, digit * Pow2(bitpos) % TWO32)
  }

  /** The loop of pb_decode_varint32_eof. The bit position is an 8-bit counter. */
  function Varint32From(b: seq<Byte>, bitpos: nat, result: nat): (r: Parsed<nat>)
    requires bitpos < 256
    ensures r.Good? ==> |r.rest| < |b| && r.rest == b[|b| - |r.rest|..]
    decreases |b|
  {
    if b == [] then Bad
    else if bitpos >= 32 && b[0] % 128 != 0 && (result < TWO31 || b[0] != SignExtension(bitpos)) then Bad
    else
      var next := if bitpos >= 32 then result else Insert(result, b[0] % 128, bitpos);
      var bits := (bitpos + 7) % 256;
      if b[0] >= 128 then Varint32From(b[1..], bits, next)
      else if bits == 35 && b[0] / 16 % 8 != 0 then Bad
      else Good(next, b[1..])
  }

  function Varint32(b: seq<Byte>): (r: Parsed<nat>)
    ensures r.Good? ==> |r.rest| < |b| && r.rest == b[|b| - |r.rest|..]
  {
    if b == [] then Bad
    else if b[0] < 128 then Good(b[0], b[1..])
    else Varint32From(b[1..], 7, b[0] % 128)
  }

  /** The seven-bit groups of w, which starts at `bitpos`, are all ones or all zeros up to bit 63. */
  predicate AllOrNothing(w: nat, bitpos: nat)
    decreases w
  {
    if bitpos >= 63 then w == 1
    else w >= 128 && (w % 128 == 0 || w % 128 == 127) && AllOrNothing(w / 128, bitpos + 7)
  }

  /** The 64-bit values of which the decoder takes the low 32 bits though they do not fit. */
  predicate Slips(v: nat) {
    v / TWO31 % 2 == 1 && AllOrNothing(v / 0x8_0000_0000, 35)
  }

  lemma MoreBytes(digit: nat, rest: seq<Byte>, bitpos: nat, result: nat)
    requires digit < 128 && bitpos < 64
    ensures Varint32From([digit + 128] + rest, bitpos, result)
            == if bitpos < 32 then Varint32From(rest, bitpos + 7, Insert(result, digit, bitpos))
               else if digit != 0 && (result < TWO31 || digit + 128 != SignExtension(bitpos)) then Bad
               else Varint32From(rest, bitpos + 7, result)
  {
    hide Insert, Pow2, Or, SignExtension;
    var b: seq<Byte> := [digit + 128] + rest;
    assert b[1..] == rest && b[0] == digit + 128;
    assert b[0] % 128 == digit && (bitpos + 7) % 256 == bitpos + 7;
  }

  lemma LastByte(digit: nat, tail: seq<Byte>, bitpos: nat, result: nat)
    requires digit < 128 && bitpos < 64
    ensures Varint32From([digit] + tail, bitpos, result)
            == if bitpos < 32 then
                 (if bitpos == 28 && digit >= 16 then Bad else Good(Insert(result, digit, bitpos), tail))
               else if digit != 0 && (result < TWO31 || digit != SignExtension(bitpos)) then Bad
               else Good(result, tail)
  {
    hide Insert;
    var b: seq<Byte> := [digit] + tail;
    assert b[1..] == tail && b[0] % 128 == digit;
  }

  /** Above bit 35 the bytes are only checked. */
  lemma {:induction false} High32(w: nat, bitpos: nat, result: nat, tail: seq<Byte>)
    requires bitpos == 35 || bitpos == 42 || bitpos == 49 || bitpos == 56 || bitpos == 63
    requires w > 0 && (bitpos == 63 ==> w == 1)
    requires bitpos == 56 ==> w < 256
    requires bitpos == 49 ==> w < 0x8000
    requires bitpos == 42 ==> w < 0x40_0000
    requires bitpos == 35 ==> w < 0x2000_0000
    ensures Varint32From(VarintBytes(w) + tail, bitpos, result)
            == if result >= TWO31 && AllOrNothing(w, bitpos) then Good(result, tail) else Bad
    decreases w
  {
    hide Varint32From, VarintBytes, Insert;
    var low, high := Digits(w, tail);
    if high > 0 {
      MoreBytes(low, VarintBytes(high) + tail, bitpos, result);
      High32(high, bitpos + 7, result, tail);
    } else {
      LastByte(low, tail, bitpos, result);
    }
  }

  /** Up to bit 28 the bytes are collected; the fifth has room for four bits. */
  lemma Low32At28(w: nat, result: nat, v: nat, tail: seq<Byte>)
    requires 0 < w && result < 0x1000_0000 && v == result + w * 0x1000_0000 < TWO64
    ensures Varint32From(VarintBytes(w) + tail, 28, result) == Canonical32(v, tail)
  {
    hide Varint32From, VarintBytes, Insert, AllOrNothing;
    var low, high := Digits(w, tail);
    CollectDigit(low, 28, 0x1000_0000, result);
    var kept := FifthDigit(low, high, result, v);
    if high == 0 {
      LastByte(low, tail, 28, result);
      NothingSlips();
    } else {
      MoreBytes(low, VarintBytes(high) + tail, 28, result);
      High32(high, 35, kept, tail);
    }
  }

  lemma LowHalf(kept: nat, m: nat, v: nat)
    requires kept < TWO32 && v == kept + m * TWO32
    ensures v % TWO32 == kept && v / TWO31 % 2 == kept / TWO31 && (v < TWO32 <==> m == 0)
  {
    assert v / TWO31 == kept / TWO31 + 2 * m;
  }

  lemma HighPart(low: nat, high: nat, v: nat)
    requires low < 0x8_0000_0000 && v == low + high * 0x8_0000_0000
    ensures v / 0x8_0000_0000 == high
  {}

  lemma FifthDigit(low: nat, high: nat, result: nat, v: nat) returns (kept: nat)
    requires low < 128 && result < 0x1000_0000 && v == result + (low + 128 * high) * 0x1000_0000
    ensures kept == result + (low % 16) * 0x1000_0000 == v % TWO32 && high == v / 0x8_0000_0000
    ensures (kept >= TWO31) == (v / TWO31 % 2 == 1)
    ensures v < TWO32 <==> high == 0 && low < 16
  {
    kept := result + (low % 16) * 0x1000_0000;
    var fifth, top := low % 16, low / 16;
    assert low == fifth + 16 * top;
    LowHalf(kept, top + 8 * high, v);
    HighPart(kept + top * TWO32, high, v);
  }

  lemma Low32At21(w: nat, result: nat, v: nat, tail: seq<Byte>)
    requires 0 < w && result < 0x20_0000 && v == result + w * 0x20_0000 < TWO64
    ensures Varint32From(VarintBytes(w) + tail, 21, result) == Canonical32(v, tail)
  {
    hide Varint32From, VarintBytes, Insert, AllOrNothing;
    var low, high := Digits(w, tail);
    CollectDigit(low, 21, 0x20_0000, result);
    if high == 0 {
      LastByte(low, tail, 21, result);
    } else {
      MoreBytes(low, VarintBytes(high) + tail, 21, result);
      Low32At28(high, result + low * 0x20_0000, v, tail);
    }
  }

  lemma Low32At14(w: nat, result: nat, v: nat, tail: seq<Byte>)
    requires 0 < w && result < 0x4000 && v == result + w * 0x4000 < TWO64
    ensures Varint32From(VarintBytes(w) + tail, 14, result) == Canonical32(v, tail)
  {
    hide Varint32From, VarintBytes, Insert, AllOrNothing;
    var low, high := Digits(w, tail);
    CollectDigit(low, 14, 0x4000, result);
    if high == 0 {
      LastByte(low, tail, 14, result);
    } else {
      MoreBytes(low, VarintBytes(high) + tail, 14, result);
      Low32At21(high, result + low * 0x4000, v, tail);
    }
  }

  lemma Low32At7(w: nat, result: nat, v: nat, tail: seq<Byte>)
    requires 0 < w && result < 0x80 && v == result + w * 0x80 < TWO64
    ensures Varint32From(VarintBytes(w) + tail, 7, result) == Canonical32(v, tail)
  {
    hide Varint32From, VarintBytes, Insert, AllOrNothing;
    var low, high := Digits(w, tail);
    CollectDigit(low, 7, 0x80, result);
    if high == 0 {
      LastByte(low, tail, 7, result);
    } else {
      MoreBytes(low, VarintBytes(high) + tail, 7, result);
      Low32At14(high, result + low * 0x80, v, tail);
    }
  }

  lemma NothingSlips()
    ensures !AllOrNothing(0, 35)
  {}

  lemma CollectDigit(digit: nat, bitpos: nat, scale: nat, result: nat)
    requires (bitpos == 7 && scale == 0x80) || (bitpos == 14 && scale == 0x4000) || (bitpos == 21 && scale == 0x20_0000)
             || (bitpos == 28 && scale == 0x1000_0000)
    requires digit < 128 && result < scale
    ensures Pow2(bitpos) == scale
    ensures Insert(result, digit, bitpos) == result + (if bitpos == 28 then digit % 16 else digit) * scale
  {
    hide Pow2, Or;
    SmallPowers();
    var kept := if bitpos == 28 then digit % 16 else digit;
    if bitpos == 28 {
      assert digit * 0x1000_0000 == kept * 0x1000_0000 + (digit / 16) * TWO32;
    }
    assert digit * scale % TWO32 == kept * scale;
    OrDisjoint(result, kept, bitpos);
  }

  lemma SmallPowers()
    ensures Pow2(7) == 0x80 && Pow2(14) == 0x4000 && Pow2(21) == 0x20_0000 && Pow2(28) == 0x1000_0000
  {
    assert Pow2(7) == 0x80;
    hide Pow2;
    Pow2Add(7, 7);
    Pow2Add(14, 7);
    Pow2Add(14, 14);
  }

  /** What the 32-bit decoder makes of the canonical encoding of v. */
  function Canonical32(v: nat, tail: seq<Byte>): Parsed<nat> {
    if v < TWO32 then Good(v, tail)
    else if Slips(v) then Good(v % TWO32, tail)
    else Bad
  }

  /** On canonical encodings the 32-bit decoder is exact on 32-bit values, and it accepts a larger one,
      keeping its low half, exactly when that one slips through the check for a sign extension. */
  lemma Varint32Exact(v: nat, tail: seq<Byte>)
    requires v < TWO64
    ensures Varint32(VarintBytes(v) + tail) == Canonical32(v, tail)
  {
    hide AllOrNothing, Varint32From, VarintBytes;
    var low, high := Digits(v, tail);
    if high > 0 {
      assert ([low + 128] + (VarintBytes(high) + tail))[1..] == VarintBytes(high) + tail;
      Low32At7(high, low, v, tail);
    } else {
      assert ([low] + tail)[1..] == tail;
    }
  }

  lemma Varint32RoundTrip(v: nat, tail: seq<Byte>)
    requires v < TWO32
    ensures Varint32(VarintBytes(v) + tail) == Good(v, tail)
  {
    Varint32Exact(v, tail);
  }

  /** The check is there for the negative 32-bit integers, which are sent sign-extended: all of them
      are taken. */
  lemma SignExtendedIsAccepted(n: int, tail: seq<Byte>)
    requires -TWO31 <= n < 0
    ensures Varint32(VarintBytes(ToU64(n)) + tail) == Good(n + TWO32, tail)
  {
    hide Varint32, VarintBytes;
    var v := ToU64(n);
    assert v == n + TWO64;
    assert v / 0x8_0000_0000 == 0x1FFF_FFFF;
    assert AllOrNothing(0x1FFF_FFFF, 35);
    Varint32Exact(v, tail);
  }

  /** But not only they: this value is no sign extension, and is taken for 2^31. */
  lemma OtherValuesSlipThrough()
    ensures Varint32(VarintBytes(TWO63 + TWO31)) == Good(TWO31, [])
  {
    hide Slips, Canonical32, Varint32, VarintBytes, AllOrNothing;
    Slipping();
    var v: nat := 0x8000_0000_8000_0000;
    CanonicalOfSlipping();
    Varint32Exact(v, []);
    assert VarintBytes(v) + [] == VarintBytes(v);
  }

  lemma CanonicalOfSlipping()
    requires Slips(0x8000_0000_8000_0000)
    ensures Canonical32(0x8000_0000_8000_0000, []) == Good(TWO31, [])
  {
    hide Slips;
  }

  lemma Slipping()
    ensures Slips(0x8000_0000_8000_0000)
  {
    hide AllOrNothing;
    AllZerosThenOne();
  }

  lemma AllZerosThenOne()
    ensures AllOrNothing(0x1000_0000, 35)
  {
    assert AllOrNothing(1, 63);
    assert AllOrNothing(0x80, 56);
    assert AllOrNothing(0x4000, 49);
    assert AllOrNothing(0x20_0000, 42);
  }

  /** Five bytes FF and a 00: the encoding of 2^35 - 1 with its last byte continued for no reason. */
  function Stretched(): seq<Byte> {
    [0xFF] + ([0xFF] + ([0xFF] + ([0xFF] + ([0xFF] + ([0x00] + [])))))
  }

  /** Nor is the decoder exact on encodings that are longer than they need be, because bits 4 to 6 of
      a fifth byte that is continued are not looked at: 2^35 - 1 is refused, and its stretched form is
      taken for 2^32 - 1. */
  lemma ContinuedFifthByteIsUnchecked()
    ensures Varint32(VarintBytes(0x7_FFFF_FFFF)) == Bad
    ensures VarintBytes(0x7_FFFF_FFFF)[..4] + [VarintBytes(0x7_FFFF_FFFF)[4] + 128, 0] == Stretched()
    ensures Varint32(Stretched()) == Good(TWO32 - 1, [])
  {
    StretchedIn32Bits();
    hide Varint32;
    NothingSlips();
    Varint32Exact(0x7_FFFF_FFFF, []);
    assert VarintBytes(0x7_FFFF_FFFF) + [] == VarintBytes(0x7_FFFF_FFFF);
    assert VarintBytes(0x7_FFFF_FFFF) == [0xFF, 0xFF, 0xFF, 0xFF, 0x7F];
  }

  lemma StretchedIn32Bits()
    ensures Varint32(Stretched()) == Good(TWO32 - 1, [])
  {
    hide Varint32From, Insert;
    CollectDigit(127, 7, 0x80, 0x7F);
    CollectDigit(127, 14, 0x4000, 0x3FFF);
    CollectDigit(127, 21, 0x20_0000, 0x1F_FFFF);
    CollectDigit(127, 28, 0x1000_0000, 0xFFF_FFFF);
    var five: seq<Byte> := [0x00] + [];
    var four := [0xFF] + five;
    var three := [0xFF] + four;
    var two := [0xFF] + three;
    LastByte(0, [], 35, TWO32 - 1);
    MoreBytes(127, five, 28, 0xFFF_FFFF);
    MoreBytes(127, four, 21, 0x1F_FFFF);
    MoreBytes(127, three, 14, 0x3FFF);
    MoreBytes(127, two, 7, 0x7F);
    assert Stretched()[1..] == [0xFF] + two;
  }
}
