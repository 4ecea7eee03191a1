/** Every scalar field survives encoding and decoding, whatever follows it in the stream. */
module PbScalars {
  import opened Bytes
  import opened PbWire
  import opened PbFields
  import opened PbMessage

  /** The values a scalar field can hold: its C type's range, and strings that end within it. */
  predicate TypedScalar(f: Field, v: Value) {
    match f.ltype
    case Varint => v.Int? && IntSize(f.dataSize) && 0 - Half(f.dataSize) <= v.i && v.i < Half(f.dataSize)
    case Uvarint => v.Int? && IntSize(f.dataSize) && 0 <= v.i && v.i < 2 * Half(f.dataSize)
    case Svarint => v.Int? && IntSize(f.dataSize) && 0 - Half(f.dataSize) <= v.i && v.i < Half(f.dataSize)
    case Fixed32 => v.Int? && 0 <= v.i < TWO32
    case Fixed64 => v.Int? && 0 <= v.i < TWO64
    case ByteArray => v.Data? && |v.d| + 4 <= f.dataSize
    case CString => v.Data? && |v.d| + 1 <= f.dataSize && 0 !in v.d
    case FixedLengthBytes => v.Data? && |v.d| == f.dataSize
    case Submessage(_) => false
  }

  /** Signed integers of every size, negative ones included. */
  lemma SignedRoundTrip(n: nat, i: int)
    requires IntSize(n) && 0 - Half(n) <= i && i < Half(n)
    ensures Signed(n, ToU64(i)) == Some(Int(i))
  {
    if n != 8 {
      var w := ToU64(i) % TWO32;
      assert w == if i >= 0 then i else i + TWO32 by {
        if i < 0 {
          assert ToU64(i) == i + TWO64;
        }
      }
    }
  }

  lemma DelimitedRoundTrip(d: seq<Byte>, tail: seq<Byte>)
    requires |d| < TWO32
    ensures Varint32(Delimited(d) + tail) == Good(|d|, d + tail)
    ensures (d + tail)[..|d|] == d && (d + tail)[|d|..] == tail
    ensures Substring(Delimited(d) + tail) == Good(d, tail)
  {
    assert Delimited(d) + tail == VarintBytes(|d|) + (d + tail);
    Varint32RoundTrip(|d|, d + tail);
  }

  lemma {:induction false} NoNul(d: seq<Byte>)
    requires 0 !in d
    ensures UpToNul(d) == d
  {
    if d != [] {
      assert d[0] in d;
      NoNul(d[1..]);
      assert d == [d[0]] + d[1..];
    }
  }

  lemma FixedTail(v: nat, k: nat, tail: seq<Byte>)
    requires v < Pow256(k)
    ensures var b := LittleEndian(v, k) + tail;
            |b| >= k && FromLittleEndian(b[..k]) == v && b[k..] == tail
  {
    FixedRoundTrip(v, k);
    var b := LittleEndian(v, k) + tail;
    assert b[..k] == LittleEndian(v, k) && b[k..] == tail;
  }

  lemma EmptyIsZeros(d: seq<Byte>)
    requires d == []
    ensures Zeros(|d|) == d
  {}

  lemma FixedBounds()
    ensures Pow256(4) == TWO32 && Pow256(8) == TWO64
  {
    assert Pow256(2) == 0x1_0000;
    assert Pow256(4) == 256 * (256 * Pow256(2));
    assert Pow256(8) == 256 * (256 * (256 * (256 * Pow256(4))));
  }

  lemma ScalarEncodes(f: Field, v: Value)
    requires TypedScalar(f, v)
    ensures EncScalar(f, v).Some? && |EncScalar(f, v).value| > 0
  {
    match f.ltype
    case Varint => VarintRoundTrip(ToU64(v.i), []);
    case Uvarint => VarintRoundTrip(ToU64(v.i), []);
    case Svarint => VarintRoundTrip(Zigzag(v.i), []);
    case _ =>
  }

  lemma ScalarRoundTrip(f: Field, v: Value, tail: seq<Byte>)
    requires TypedScalar(f, v) && f.dataSize < TWO32
    ensures EncScalar(f, v).Some? && DecScalar(f, EncScalar(f, v).value + tail) == Good(v, tail)
  {
    if f.ltype.Packable() {
      IntegerRoundTrip(f, v, tail);
    } else {
      StringRoundTrip(f, v, tail);
    }
  }

  lemma IntegerRoundTrip(f: Field, v: Value, tail: seq<Byte>)
    requires TypedScalar(f, v) && f.ltype.Packable()
    ensures EncScalar(f, v).Some? && DecScalar(f, EncScalar(f, v).value + tail) == Good(v, tail)
  {
    hide VarintBytes, Varint64, Varint32, LittleEndian, FromLittleEndian, Pow256;
    match f.ltype
    case Varint =>
      VarintRoundTrip(ToU64(v.i), tail);
      SignedRoundTrip(f.dataSize, v.i);
      hide Signed, ToU64;
    case Uvarint =>
      VarintRoundTrip(ToU64(v.i), tail);
    case Svarint =>
      VarintRoundTrip(Zigzag(v.i), tail);
      ZigzagInverts(v.i, 0);
      hide Zigzag, Unzigzag;
    case Fixed32 =>
      FixedBounds();
      FixedTail(v.i, 4, tail);
    case Fixed64 =>
      FixedBounds();
      FixedTail(v.i, 8, tail);
  }

  lemma StringRoundTrip(f: Field, v: Value, tail: seq<Byte>)
    requires TypedScalar(f, v) && f.dataSize < TWO32 && !f.ltype.Packable()
    ensures EncScalar(f, v).Some? && DecScalar(f, EncScalar(f, v).value + tail) == Good(v, tail)
  {
    hide Varint32, Delimited;
    DelimitedRoundTrip(v.d, tail);
    match f.ltype
    case ByteArray =>
    case CString =>
      NoNul(v.d);
    case FixedLengthBytes =>
      if v.d == [] {
        EmptyIsZeros(v.d);
      }
  }

  /** A packed array comes back item by item. */
  lemma {:induction false} PackedRoundTrip(f: Field, done: seq<Value>, items: seq<Value>)
    requires f.dataSize < TWO32 && |done| + |items| <= f.arraySize
    requires forall i :: 0 <= i < |items| ==> TypedScalar(f, items[i])
    ensures EncPacked(f, items).Some? && DecPacked(f, done, EncPacked(f, items).value) == Some(done + items)
    decreases |items|
  {
    hide TypedScalar, EncScalar, DecScalar;
    if items == [] {
      assert done + items == done;
    } else {
      PackedRoundTrip(f, done + [items[0]], items[1..]);
      ScalarRoundTrip(f, items[0], EncPacked(f, items[1..]).value);
      ScalarEncodes(f, items[0]);
      assert done + [items[0]] + items[1..] == done + items;
    }
  }
}
