/** pb_encode over a stream. The same code runs twice for a submessage, first to count and then to
    write; every method is tied to the bytes that stand for its argument, so the two passes agree. */
module PbEncoder {
  import opened Bytes
  import opened PbWire
  import opened PbFields
  import opened PbMessage

  /** The next byte of a varint, after those before it. */
  lemma OneMore(was: seq<Byte>, rest: nat)
    requires rest > 0
    ensures |was + VarintBytes(rest)| > |was|
    ensures rest / 128 != 0 ==> (was + [rest % 128 + 128]) + VarintBytes(rest / 128) == was + VarintBytes(rest)
    ensures rest / 128 == 0 ==> was + [rest % 128] == was + VarintBytes(rest)
  {}

  /** pb_ostream_t. A stream without a callback only counts. */
  class OStream {
    const writes: bool
    const maxSize: nat
    var bytesWritten: nat
    var state: seq<Byte>

    /** PB_OSTREAM_SIZING. */
    constructor Sizing()
      ensures !writes && bytesWritten == 0 && state == []
    {
      writes, maxSize, bytesWritten, state := false, 0, 0, [];
    }

    /** pb_ostream_from_buffer, behind what has been written there. */
    constructor Into(state: seq<Byte>, maxSize: nat)
      ensures writes && this.maxSize == maxSize && bytesWritten == 0 && this.state == state
    {
      writes, this.maxSize, bytesWritten, this.state := true, maxSize, 0, state;
    }

    ghost predicate HasRoom(n: nat)
      reads this
    {
      writes ==> bytesWritten + n <= maxSize
    }

    /** The effect of encoding something as e. */
    twostate predicate Wrote(e: seq<Byte>)
      reads this
    {
      bytesWritten == old(bytesWritten) + |e| && state == old(state) + (if writes then e else [])
    }

    /** pb_write. */
    method Write(buf: seq<Byte>) returns (ok: bool)
      modifies this
      ensures ok == old(HasRoom(|buf|)) && (ok ==> Wrote(buf))
    {
      if writes {
        if bytesWritten + |buf| > maxSize {
          return false;
        }
        state := state + buf;
      }
      bytesWritten := bytesWritten + |buf|;
      return true;
    }

    /** pb_write without data, on a stream that only counts. */
    method Count(size: nat)
      requires !writes
      modifies this
      ensures bytesWritten == old(bytesWritten) + size && state == old(state)
    {
      bytesWritten := bytesWritten + size;
    }

    /** pb_encode_varint: the buffer has room for every 64-bit value. */
    method EncodeVarint(value: nat) returns (ok: bool)
      requires value < TWO64
      modifies this
      ensures ok == old(HasRoom(|VarintBytes(value)|)) && (ok ==> Wrote(VarintBytes(value)))
    {
      if value <= 0x7F {
        ok := Write([value]);
        return;
      }
      hide VarintBytes;
      VarintRoundTrip(value, []);
      var buffer := new Byte[10](_ => 0);
      var i, rest := 0, value;
      while rest != 0
        invariant 0 <= i <= 10
        invariant rest != 0 ==> buffer[..i] + VarintBytes(rest) == VarintBytes(value)
        invariant rest == 0 ==> i > 0 && buffer[i - 1] >= 128 && buffer[..i - 1] + [buffer[i - 1] - 128] == VarintBytes(value)
        invariant bytesWritten == old(bytesWritten) && state == old(state)
        decreases rest
      {
        ghost var was := buffer[..i];
        OneMore(was, rest);
        buffer[i] := rest % 128 + 128;
        assert buffer[..i] == was && buffer[..i + 1] == was + [rest % 128 + 128];
        rest, i := rest / 128, i + 1;
      }
      buffer[i - 1] := buffer[i - 1] - 128;
      assert buffer[..i] == VarintBytes(value);
      ok := Write(buffer[..i]);
    }

    /** pb_encode_tag. */
    method EncodeTag(wireType: nat, tag: nat) returns (ok: bool)
      requires 8 * tag + wireType < TWO64
      modifies this
      ensures ok == old(HasRoom(|TagBytes(wireType, tag)|)) && (ok ==> Wrote(TagBytes(wireType, tag)))
    {
      ok := EncodeVarint(8 * tag + wireType);
    }

    /** pb_encode_string. */
    method EncodeString(d: seq<Byte>) returns (ok: bool)
      requires |d| < TWO64
      modifies this
      ensures ok == old(HasRoom(|Delimited(d)|)) && (ok ==> Wrote(Delimited(d)))
    {
      ok := EncodeVarint(|d|);
      if ok {
        ok := Write(d);
      }
    }
  }

  // ---------- What size_t can count ----------

  /** Every part of the encoding has a size that fits size_t, every tag fits its 32-bit member, and items
      of fixed size are numbers. */
  ghost predicate CountableValue(f: Field, v: Value, peek: Peek)
    decreases v
  {
    && (v.Data? ==> |v.d| < TWO64)
    && (f.ltype.Submessage? && v.Msg? ==>
          && Countable(f.ltype.fields, v.cells, peek)
          && SizeFits(EncFields(f.ltype.fields, v.cells, 0, peek)))
  }

  ghost predicate SizeFits(e: Option<seq<Byte>>) {
    e.Some? ==> |e.value| < TWO64
  }

  ghost predicate CountableCell(f: Field, cell: Cell, peek: Peek)
    decreases cell
  {
    match cell
    case One(v) => CountableValue(f, v, peek)
    case Maybe(o) => o.Some? ==> CountableValue(f, o.value, peek)
    case Many(items) =>
      && SizeFits(EncPacked(f, items))
      && (f.ltype.Fixed32? || f.ltype.Fixed64? ==> forall i :: 0 <= i < |items| ==> items[i].Int?)
      && forall i :: 0 <= i < |items| ==> CountableValue(f, items[i], peek)
    case Choice(_, v) => CountableValue(f, v, peek)
    case _ => true
  }

  ghost predicate Countable(fields: seq<Field>, cells: seq<Cell>, peek: Peek)
    decreases cells
  {
    forall i: nat :: i < |fields| && CellOf(fields, i) < |cells| ==>
      fields[i].tag <= PB_SIZE_MAX && CountableCell(fields[i], cells[CellOf(fields, i)], peek)
  }

  // ---------- The field encoders ----------

  /** pb_enc_varint and the other encoders of scalars. */
  method EncodeScalar(stream: OStream, f: Field, v: Value) returns (ok: bool)
    requires v.Data? ==> |v.d| < TWO64
    modifies stream
    ensures var e := EncScalar(f, v);
            ok == (e.Some? && old(stream.HasRoom(|e.value|))) && (ok ==> stream.Wrote(e.value))
  {
    match v
    case Int(i) =>
      if f.ltype.Fixed32? {
        ok := stream.Write(LittleEndian(i % TWO32, 4));
      } else if f.ltype.Fixed64? {
        ok := stream.Write(LittleEndian(i % TWO64, 8));
      } else if !(f.ltype.Varint? || f.ltype.Uvarint? || f.ltype.Svarint?) || !IntSize(f.dataSize) {
        ok := false;
      } else if f.ltype.Svarint? {
        ok := false;
        if IsI64(i) {
          ok := stream.EncodeVarint(Zigzag(i));
        }
      } else {
        ok := stream.EncodeVarint(ToU64(i));
      }
    case Data(d) =>
      ok := false;
      if (f.ltype.ByteArray? && |d| + 4 <= f.dataSize) || (f.ltype.CString? && |d| <= f.dataSize)
         || (f.ltype.FixedLengthBytes? && |d| == f.dataSize) {
        ok := stream.EncodeString(d);
      }
    case Msg(_) =>
      ok := false;
  }

  /** pb_encode_submessage: once to count, once to write, with the room that was counted. */
  method EncodeSubmessage(stream: OStream, fields: seq<Field>, cells: seq<Cell>, peek: Peek) returns (ok: bool)
    requires stream.HasRoom(0) && Countable(fields, cells, peek) && SizeFits(EncFields(fields, cells, 0, peek))
    modifies stream
    ensures var e := EncFields(fields, cells, 0, peek);
            ok == (e.Some? && old(stream.HasRoom(|Delimited(e.value)|))) && (ok ==> stream.Wrote(Delimited(e.value)))
    decreases cells, |fields| + 2
  {
    hide Countable, EncFields, VarintBytes;
    var sizing := new OStream.Sizing();
    ok := EncodeAll(sizing, fields, cells, peek);
    if !ok {
      return;
    }
    var size := sizing.bytesWritten;
    ok := stream.EncodeVarint(size);
    if !ok {
      return;
    }
    if !stream.writes {
      stream.Count(size);
      return;
    }
    if stream.bytesWritten + size > stream.maxSize {
      return false;
    }
    var substream := new OStream.Into(stream.state, size);
    ok := EncodeAll(substream, fields, cells, peek);
    stream.bytesWritten := stream.bytesWritten + substream.bytesWritten;
    stream.state := substream.state;
    // The size has not changed, and the second pass cannot fail.
    assert ok && substream.bytesWritten == size;
  }

  method EncodeValue(stream: OStream, f: Field, v: Value, peek: Peek) returns (ok: bool)
    requires stream.HasRoom(0) && CountableValue(f, v, peek)
    modifies stream
    ensures var e := EncValue(f, v, peek);
            ok == (e.Some? && old(stream.HasRoom(|e.value|))) && (ok ==> stream.Wrote(e.value))
    decreases v, 0
  {
    hide Countable, EncFields, EncScalar, Delimited;
    if f.ltype.Submessage? {
      ok := false;
      if v.Msg? {
        ok := EncodeSubmessage(stream, f.ltype.fields, v.cells, peek);
      }
    } else {
      ok := EncodeScalar(stream, f, v);
    }
  }

  /** The tag of a field and then its value. */
  method EncodeTagged(stream: OStream, f: Field, v: Value, peek: Peek) returns (ok: bool)
    requires stream.HasRoom(0) && CountableValue(f, v, peek) && f.tag <= PB_SIZE_MAX
    modifies stream
    ensures var e := Tagged(f, EncValue(f, v, peek));
            ok == (e.Some? && old(stream.HasRoom(|e.value|))) && (ok ==> stream.Wrote(e.value))
    decreases v, 1
  {
    hide CountableValue, EncValue, TagBytes;
    ok := stream.EncodeTag(WireType(f.ltype), f.tag);
    if ok {
      ok := EncodeValue(stream, f, v, peek);
    }
  }

  // ---------- Arrays ----------

  lemma {:induction false} PackedPrefix(f: Field, items: seq<Value>, i: nat, done: seq<Byte>)
    requires i < |items|
    requires EncPacked(f, items) == Join(Some(done), EncPacked(f, items[i..]))
    ensures EncScalar(f, items[i]).None? ==> EncPacked(f, items).None?
    ensures EncScalar(f, items[i]).Some? ==>
              EncPacked(f, items) == Join(Some(done + EncScalar(f, items[i]).value), EncPacked(f, items[i + 1..]))
  {
    hide EncScalar;
    assert items[i..][1..] == items[i + 1..] && items[i..][0] == items[i];
    if EncScalar(f, items[i]).Some? && EncPacked(f, items[i + 1..]).Some? {
      var e, rest := EncScalar(f, items[i]).value, EncPacked(f, items[i + 1..]).value;
      assert done + (e + rest) == (done + e) + rest;
    }
  }

  lemma PackedStart(f: Field, items: seq<Value>)
    ensures EncPacked(f, items) == Join(Some([]), EncPacked(f, items[0..]))
  {
    assert items[0..] == items;
    var e := EncPacked(f, items);
    assert e.Some? ==> [] + e.value == e.value;
  }

  lemma PackedEnd(f: Field, items: seq<Value>, done: seq<Byte>)
    requires EncPacked(f, items) == Join(Some(done), EncPacked(f, items[|items|..]))
    ensures EncPacked(f, items) == Some(done)
  {
    assert done + [] == done;
  }

  /** The items of a packed array, one after another. */
  method EncodePacked(stream: OStream, f: Field, items: seq<Value>, peek: Peek) returns (ok: bool)
    requires stream.HasRoom(0) && forall i :: 0 <= i < |items| ==> CountableValue(f, items[i], peek)
    modifies stream
    ensures var e := EncPacked(f, items);
            ok == (e.Some? && old(stream.HasRoom(|e.value|))) && (ok ==> stream.Wrote(e.value))
  {
    hide EncScalar, EncPacked, Countable;
    ghost var done: seq<Byte> := [];
    PackedStart(f, items);
    var i := 0;
    ok := true;
    while i < |items|
      invariant 0 <= i <= |items| && ok && stream.HasRoom(0)
      invariant EncPacked(f, items) == Join(Some(done), EncPacked(f, items[i..]))
      invariant stream.bytesWritten == old(stream.bytesWritten) + |done|
      invariant stream.state == old(stream.state) + (if stream.writes then done else [])
    {
      PackedPrefix(f, items, i, done);
      ok := EncodeScalar(stream, f, items[i]);
      if !ok {
        return;
      }
      done := done + EncScalar(f, items[i]).value;
      i := i + 1;
    }
    PackedEnd(f, items, done);
  }

  /** The items of an array one after another, each with its tag. */
  lemma ItemsPrefix(f: Field, items: seq<Value>, i: nat, done: seq<Byte>, peek: Peek)
    requires i < |items|
    requires EncItems(f, items, peek) == Join(Some(done), EncItems(f, items[i..], peek))
    ensures var e := Tagged(f, EncValue(f, items[i], peek));
            && (e.None? ==> EncItems(f, items, peek).None?)
            && (e.Some? ==> EncItems(f, items, peek) == Join(Some(done + e.value), EncItems(f, items[i + 1..], peek)))
  {
    hide EncValue, Tagged;
    assert items[i..][1..] == items[i + 1..] && items[i..][0] == items[i];
    var e, rest := Tagged(f, EncValue(f, items[i], peek)), EncItems(f, items[i + 1..], peek);
    if e.Some? && rest.Some? {
      assert done + (e.value + rest.value) == (done + e.value) + rest.value;
    }
  }

  lemma ItemsStart(f: Field, items: seq<Value>, peek: Peek)
    ensures EncItems(f, items, peek) == Join(Some([]), EncItems(f, items[0..], peek))
  {
    assert items[0..] == items;
    var e := EncItems(f, items, peek);
    assert e.Some? ==> [] + e.value == e.value;
  }

  lemma ItemsEnd(f: Field, items: seq<Value>, done: seq<Byte>, peek: Peek)
    requires EncItems(f, items, peek) == Join(Some(done), EncItems(f, items[|items|..], peek))
    ensures EncItems(f, items, peek) == Some(done)
  {
    assert done + [] == done;
  }

  method EncodeItems(stream: OStream, f: Field, items: seq<Value>, peek: Peek) returns (ok: bool)
    requires stream.HasRoom(0) && forall i :: 0 <= i < |items| ==> CountableValue(f, items[i], peek)
    requires f.tag <= PB_SIZE_MAX
    modifies stream
    ensures var e := EncItems(f, items, peek);
            ok == (e.Some? && old(stream.HasRoom(|e.value|))) && (ok ==> stream.Wrote(e.value))
    decreases items, 0
  {
    hide EncValue, Tagged, EncItems, CountableValue;
    ghost var done: seq<Byte> := [];
    ItemsStart(f, items, peek);
    var i := 0;
    ok := true;
    while i < |items|
      invariant 0 <= i <= |items| && ok && stream.HasRoom(0)
      invariant EncItems(f, items, peek) == Join(Some(done), EncItems(f, items[i..], peek))
      invariant stream.bytesWritten == old(stream.bytesWritten) + |done|
      invariant stream.state == old(stream.state) + (if stream.writes then done else [])
    {
      ItemsPrefix(f, items, i, done, peek);
      ok := EncodeTagged(stream, f, items[i], peek);
      if !ok {
        return;
      }
      done := done + Tagged(f, EncValue(f, items[i], peek)).value;
      i := i + 1;
    }
    ItemsEnd(f, items, done, peek);
  }

  /** The size of a packed array: known for fixed-size items, counted otherwise. */
  method PackedSize(f: Field, items: seq<Value>, peek: Peek) returns (ok: bool, size: nat)
    requires f.ltype.Packable() && CountableCell(f, Many(items), peek)
    ensures ok == EncPacked(f, items).Some?
    ensures ok ==> size == |EncPacked(f, items).value| < TWO64
  {
    if f.ltype.Fixed32? {
      FixedSize(f, items, 4);
      return true, 4 * |items|;
    } else if f.ltype.Fixed64? {
      FixedSize(f, items, 8);
      return true, 8 * |items|;
    }
    var sizing := new OStream.Sizing();
    ok := EncodePacked(sizing, f, items, peek);
    size := sizing.bytesWritten;
  }

  lemma {:induction false} FixedSize(f: Field, items: seq<Value>, n: nat)
    requires (f.ltype.Fixed32? && n == 4) || (f.ltype.Fixed64? && n == 8)
    requires forall i :: 0 <= i < |items| ==> items[i].Int?
    ensures EncPacked(f, items).Some? && |EncPacked(f, items).value| == n * |items|
  {
    if items != [] {
      FixedSize(f, items[1..], n);
    }
  }

  /** encode_array. */
  method EncodeArray(stream: OStream, f: Field, items: seq<Value>, peek: Peek) returns (ok: bool)
    requires stream.HasRoom(0) && CountableCell(f, Many(items), peek) && f.tag <= PB_SIZE_MAX
    modifies stream
    ensures var e := EncArray(f, items, peek);
            ok == (e.Some? && old(stream.HasRoom(|e.value|))) && (ok ==> stream.Wrote(e.value))
    decreases items, 1
  {
    hide EncPacked, EncItems, CountableValue, TagBytes, VarintBytes;
    if items == [] {
      return true;
    }
    if |items| > f.arraySize {
      return false;
    }
    if !f.ltype.Packable() {
      ok := EncodeItems(stream, f, items, peek);
      return;
    }
    ok := stream.EncodeTag(WT_STRING, f.tag);
    if !ok {
      return;
    }
    var size: nat;
    ok, size := PackedSize(f, items, peek);
    if !ok {
      return;
    }
    ok := stream.EncodeVarint(size);
    if !ok {
      return;
    }
    if !stream.writes {
      stream.Count(size);
      return;
    }
    ok := EncodePacked(stream, f, items, peek);
  }

  // ---------- The proto3 check for zero ----------

  /** pb_check_proto3_default_value. */
  method CheckDefault(f: Field, cell: Cell, peek: Peek) returns (zero: bool)
    ensures zero == IsZero(f, cell, peek)
    decreases cell, 1
  {
    hide IsZeroValue;
    match f.htype
    case Required =>
      zero := false;
    case Repeated =>
      zero := if f.HasSize() then cell == Many([]) else peek(f, cell);
    case Oneof =>
      zero := cell.NoChoice?;
    case Optional =>
      if f.HasSize() {
        zero := cell == Maybe(None);
      } else if cell.One? {
        zero := CheckDefaultValue(f, cell.v, peek);
      } else {
        zero := false;
      }
  }

  method CheckDefaultValue(f: Field, v: Value, peek: Peek) returns (zero: bool)
    ensures zero == IsZeroValue(f, v, peek)
    decreases v, 0
  {
    match f.ltype
    case Submessage(fields) =>
      if !v.Msg? || |v.cells| != CellCount(fields) {
        return false;
      }
      zero := CheckDefaultCells(fields, v.cells, peek);
    case FixedLengthBytes =>
      zero := f.dataSize == 0;
    case ByteArray =>
      zero := v == Data([]);
    case CString =>
      zero := v == Data([]);
    case _ =>
      zero := v == Int(0);
  }

  ghost predicate ZeroUpTo(fields: seq<Field>, cells: seq<Cell>, n: nat, peek: Peek) {
    forall i: nat :: i < n && i < |fields| && CellOf(fields, i) < |cells| ==> IsZero(fields[i], cells[CellOf(fields, i)], peek)
  }

  /** The walk over a submessage's fields; it stops at the first that is not zero. */
  method CheckDefaultCells(fields: seq<Field>, cells: seq<Cell>, peek: Peek) returns (zero: bool)
    requires |cells| == CellCount(fields)
    ensures zero == ZeroUpTo(fields, cells, |fields|, peek)
    decreases cells, |fields|
  {
    hide IsZero, CellOf, CellCount;
    var iter := new FieldIter(fields);
    if fields == [] {
      return true;
    }
    while true
      invariant iter.Valid() && iter.fields == fields && fresh(iter) && ZeroUpTo(fields, cells, iter.pos, peek)
      decreases |fields| - iter.pos
    {
      CellInRange(fields, iter.pos);
      var c := CellOf(fields, iter.pos);
      zero := CheckDefault(fields[iter.pos], cells[c], peek);
      if !zero {
        return;
      }
      var more := iter.Next();
      if !more {
        return;
      }
    }
  }

  // ---------- Fields and messages ----------

  /** encode_basic_field. */
  method EncodeBasicField(stream: OStream, f: Field, cell: Cell, peek: Peek) returns (ok: bool)
    requires stream.HasRoom(0) && CountableCell(f, cell, peek) && f.tag <= PB_SIZE_MAX
    modifies stream
    ensures var e := EncCell(f, cell, peek);
            ok == (e.Some? && old(stream.HasRoom(|e.value|))) && (ok ==> stream.Wrote(e.value))
    decreases cell
  {
    hide CountableValue, EncValue, EncArray, Tagged, IsZeroValue, EncPacked;
    match f.htype
    case Required =>
      ok := false;
      if cell.One? {
        ok := EncodeTagged(stream, f, cell.v, peek);
      }
    case Optional =>
      ok := cell.Maybe? || cell.One?;
      if f.HasSize() {
        if !cell.Maybe? {
          return false;
        }
        if cell.o.Some? {
          ok := EncodeTagged(stream, f, cell.o.value, peek);
        }
      } else {
        if !cell.One? {
          return false;
        }
        var zero := CheckDefault(f, cell, peek);
        if !zero {
          ok := EncodeTagged(stream, f, cell.v, peek);
        }
      }
    case Repeated =>
      if !cell.Many? || (!f.HasSize() && |cell.items| != f.arraySize) {
        return false;
      }
      ok := EncodeArray(stream, f, cell.items, peek);
    case Oneof =>
      ok := true;
      if cell.Choice? && cell.which == f.tag {
        ok := EncodeTagged(stream, f, cell.v, peek);
      }
  }

  lemma FieldsStart(fields: seq<Field>, cells: seq<Cell>, peek: Peek)
    ensures EncFields(fields, cells, 0, peek) == Join(Some([]), EncFields(fields, cells, 0, peek))
  {
    var e := EncFields(fields, cells, 0, peek);
    assert e.Some? ==> [] + e.value == e.value;
  }

  lemma FieldsNext(fields: seq<Field>, cells: seq<Cell>, i: nat, done: seq<Byte>, peek: Peek)
    requires i < |fields|
    requires EncFields(fields, cells, 0, peek) == Join(Some(done), EncFields(fields, cells, i, peek))
    ensures CellOf(fields, i) >= |cells| ==> EncFields(fields, cells, 0, peek).None?
    ensures CellOf(fields, i) < |cells| ==>
              var e := EncCell(fields[i], cells[CellOf(fields, i)], peek);
              && (e.None? ==> EncFields(fields, cells, 0, peek).None?)
              && (e.Some? ==> EncFields(fields, cells, 0, peek) == Join(Some(done + e.value), EncFields(fields, cells, i + 1, peek)))
  {
    hide EncCell, CellOf;
    if CellOf(fields, i) < |cells| {
      var e, rest := EncCell(fields[i], cells[CellOf(fields, i)], peek), EncFields(fields, cells, i + 1, peek);
      if e.Some? && rest.Some? {
        assert done + (e.value + rest.value) == (done + e.value) + rest.value;
      }
    }
  }

  lemma FieldsEnd(fields: seq<Field>, cells: seq<Cell>, done: seq<Byte>, peek: Peek)
    requires EncFields(fields, cells, 0, peek) == Join(Some(done), EncFields(fields, cells, |fields|, peek))
    ensures EncFields(fields, cells, 0, peek) == Some(done)
  {
    assert done + [] == done;
  }

  lemma CountableAt(fields: seq<Field>, cells: seq<Cell>, i: nat, peek: Peek)
    requires Countable(fields, cells, peek) && i < |fields| && CellOf(fields, i) < |cells|
    ensures fields[i].tag <= PB_SIZE_MAX && CountableCell(fields[i], cells[CellOf(fields, i)], peek)
  {}

  /** The field at position i, after those before it. */
  method EncodeFieldAt(stream: OStream, fields: seq<Field>, cells: seq<Cell>, i: nat, peek: Peek, ghost done: seq<Byte>)
    returns (ok: bool, ghost e: seq<Byte>)
    requires stream.HasRoom(0) && Countable(fields, cells, peek) && i < |fields|
    requires EncFields(fields, cells, 0, peek) == Join(Some(done), EncFields(fields, cells, i, peek))
    modifies stream
    ensures ok ==> stream.Wrote(e) && stream.HasRoom(0)
                   && EncFields(fields, cells, 0, peek) == Join(Some(done + e), EncFields(fields, cells, i + 1, peek))
    ensures !ok ==> var whole := EncFields(fields, cells, 0, peek);
                    whole.None? || !old(stream.HasRoom(|whole.value| - |done|))
    decreases cells, |fields|, 0
  {
    hide Countable, CountableCell, EncFields, EncCell, CellOf;
    e := [];
    FieldsNext(fields, cells, i, done, peek);
    var c := CellOf(fields, i);
    // Storage of another shape than the descriptor's is not encoded.
    if c >= |cells| {
      return false, e;
    }
    CountableAt(fields, cells, i, peek);
    ok := EncodeBasicField(stream, fields[i], cells[c], peek);
    if ok {
      e := EncCell(fields[i], cells[c], peek).value;
    }
  }

  /** The stream has written `done` since it held `state` and had counted `count`. */
  ghost predicate Since(stream: OStream, count: nat, state: seq<Byte>, done: seq<Byte>)
    reads stream
  {
    && stream.bytesWritten == count + |done| && stream.HasRoom(0)
    && stream.state == state + (if stream.writes then done else [])
  }

  lemma SinceThen(stream: OStream, count: nat, state: seq<Byte>, done: seq<Byte>, e: seq<Byte>)
    requires stream.bytesWritten == count + |done| + |e| && stream.HasRoom(0)
    requires stream.state == state + (if stream.writes then done else []) + (if stream.writes then e else [])
    ensures Since(stream, count, state, done + e)
  {}

  /** pb_encode: the iterator visits every field once. */
  method EncodeAll(stream: OStream, fields: seq<Field>, cells: seq<Cell>, peek: Peek) returns (ok: bool)
    requires stream.HasRoom(0) && Countable(fields, cells, peek)
    modifies stream
    ensures var e := EncFields(fields, cells, 0, peek);
            ok == (e.Some? && old(stream.HasRoom(|e.value|))) && (ok ==> stream.Wrote(e.value))
    decreases cells, |fields| + 1
  {
    if fields == [] {
      return true;
    }
    ok := EncodeLoop(stream, fields, cells, peek);
  }

  method EncodeLoop(stream: OStream, fields: seq<Field>, cells: seq<Cell>, peek: Peek) returns (ok: bool)
    requires stream.HasRoom(0) && Countable(fields, cells, peek) && fields != []
    modifies stream
    ensures var e := EncFields(fields, cells, 0, peek);
            ok == (e.Some? && old(stream.HasRoom(|e.value|))) && (ok ==> stream.Wrote(e.value))
    decreases cells, |fields|, 1
  {
    hide Countable, EncFields, CellOf, FieldIter.Valid, Since;
    var iter := new FieldIter(fields);
    ghost var done: seq<Byte> := [];
    ghost var count, state := stream.bytesWritten, stream.state;
    FieldsStart(fields, cells, peek);
    SinceStart(stream);
    ok := true;
    var more := true;
    while more
      invariant iter.Valid() && iter.fields == fields && fresh(iter) && iter.pos < |fields|
      invariant EncFields(fields, cells, 0, peek)
                == Join(Some(done), EncFields(fields, cells, if more then iter.pos else |fields|, peek))
      invariant Since(stream, count, state, done)
      decreases more, |fields| - iter.pos
    {
      SinceRoom(stream, count, state, done);
      ghost var e: seq<Byte>;
      ok, e := EncodeFieldAt(stream, fields, cells, iter.pos, peek, done);
      if !ok {
        return;
      }
      SinceThen(stream, count, state, done, e);
      done := done + e;
      more := iter.Next();
    }
    FieldsEnd(fields, cells, done, peek);
    SinceRoom(stream, count, state, done);
    ok := true;
  }

  lemma SinceStart(stream: OStream)
    requires stream.HasRoom(0)
    ensures Since(stream, stream.bytesWritten, stream.state, [])
  {}

  lemma SinceRoom(stream: OStream, count: nat, state: seq<Byte>, done: seq<Byte>)
    requires Since(stream, count, state, done)
    ensures stream.bytesWritten == count + |done| && stream.HasRoom(0)
    ensures stream.state == state + (if stream.writes then done else [])
  {}

  /** pb_get_encoded_size: the size it reports is the number of bytes that pb_encode writes. */
  method GetEncodedSize(fields: seq<Field>, cells: seq<Cell>, peek: Peek) returns (ok: bool, size: nat)
    requires Countable(fields, cells, peek)
    ensures ok == Encode(fields, cells, peek).Some?
    ensures ok ==> size == |Encode(fields, cells, peek).value|
  {
    var sizing := new OStream.Sizing();
    ok := EncodeAll(sizing, fields, cells, peek);
    size := sizing.bytesWritten;
  }
}
