/** What the encoding demands beyond the round trip: bytes from other writers and for other readers
    ("Message Structure", "Packed Repeated Fields" and "Last One Wins" of the Protocol Buffers encoding). */
module PbConformance {
  import opened Bytes
  import opened PbWire
  import opened PbFields
  import opened PbMessage
  import opened PbScalars
  import opened PbTransparency
  import opened PbRoundTrip

  // ---------- Arrays, packed or not ----------

  /** A stretch of an array of integers, as some writer may send it. */
  datatype Chunk = Packed(items: seq<Value>) | OneByOne(items: seq<Value>)

  function EncChunk(f: Field, chunk: Chunk, peek: Peek): Option<seq<Byte>> {
    match chunk
    case Packed(items) =>
      var body := EncPacked(f, items);
      if body.None? then None else Some(TagBytes(WT_STRING, f.tag) + Delimited(body.value))
    case OneByOne(items) => EncItems(f, items, peek)
  }

  function EncChunks(f: Field, chunks: seq<Chunk>, peek: Peek): Option<seq<Byte>> {
    if chunks == [] then Some([]) else Join(EncChunk(f, chunks[0], peek), EncChunks(f, chunks[1..], peek))
  }

  function AllItems(chunks: seq<Chunk>): seq<Value> {
    if chunks == [] then [] else chunks[0].items + AllItems(chunks[1..])
  }

  /** The state after more items of array n. */
  function Longer(fields: seq<Field>, p: Progress, n: nat, items: seq<Value>): Progress
    requires n < |fields| && CellOf(fields, n) < |p.cells|
  {
    p.(cells := p.cells[CellOf(fields, n) := Many(items)], next := Advance(fields, p.next, n))
  }

  /** Array n is being decoded, and holds `done`. */
  ghost predicate Holding(fields: seq<Field>, p: Progress, n: nat, done: seq<Value>) {
    && ValidFields(fields) && n < |fields| && fields[n].htype == Repeated && fields[n].ltype.Packable()
    && CellOf(fields, n) < |p.cells| && p.cells[CellOf(fields, n)] == Many(done)
    && (IsFixedArray(fields[n]) ==> p.filling == Some(n))
  }

  lemma OneByOneTurn(fields: seq<Field>, p: Progress, n: nat, done: seq<Value>, items: seq<Value>, peek: Peek, e: seq<Byte>, rest: seq<Byte>)
    requires Holding(fields, p, n, done) && |done| + |items| <= fields[n].arraySize && items != []
    requires forall i :: 0 <= i < |items| ==> TypedScalar(fields[n], items[i])
    requires EncItems(fields[n], items, peek) == Some(e) && |e| < TWO32
    ensures Steps(fields, p, e + rest) == Steps(fields, Longer(fields, p, n, done + items), rest)
  {
    HeldIs(fields, p, n, done);
    LongerIs(fields, p, n, done + items);
    hide *;
    ValidAt(fields, n);
    NotSubmessage(fields[n].ltype);
    ScalarsAreValues(fields[n], items);
    ScalarsRestored(fields[n], items, peek, n >= p.next);
    ItemsTurns(fields, p, n, done, items, peek, n >= p.next, e, rest);
  }

  lemma PackedTurnAfter(fields: seq<Field>, p: Progress, n: nat, done: seq<Value>, items: seq<Value>, body: seq<Byte>, rest: seq<Byte>)
    requires Holding(fields, p, n, done) && |done| + |items| <= fields[n].arraySize
    requires forall i :: 0 <= i < |items| ==> TypedScalar(fields[n], items[i])
    requires EncPacked(fields[n], items) == Some(body) && |body| < TWO32
    ensures Steps(fields, p, TagBytes(WT_STRING, fields[n].tag) + (Delimited(body) + rest))
            == Steps(fields, Longer(fields, p, n, done + items), rest)
  {
    HeldIs(fields, p, n, done);
    LongerIs(fields, p, n, done + items);
    SizeOf(fields, n);
    hide *;
    StringType();
    PackedRoundTrip(fields[n], done, items);
    DecodesPacked(fields, p, n, done, done + items, body, rest);
    FieldTurn(fields, p, n, WT_STRING, Delimited(body) + rest);
  }

  lemma SizeOf(fields: seq<Field>, n: nat)
    requires ValidFields(fields) && n < |fields|
    ensures fields[n].dataSize < TWO32
  {
    ValidAt(fields, n);
  }

  lemma HeldIs(fields: seq<Field>, p: Progress, n: nat, done: seq<Value>)
    requires Holding(fields, p, n, done)
    ensures ValidFields(fields) && n < |fields| && fields[n].htype == Repeated && fields[n].ltype.Packable()
    ensures CellOf(fields, n) < |p.cells| && ItemsOf(p.cells[CellOf(fields, n)]) == done
    ensures IsFixedArray(fields[n]) ==> p.filling == Some(n)
  {
    hide ValidFields, CellOf;
  }

  lemma LongerIs(fields: seq<Field>, p: Progress, n: nat, items: seq<Value>)
    requires n < |fields| && CellOf(fields, n) < |p.cells|
    ensures Longer(fields, p, n, items) == p.(cells := p.cells[CellOf(fields, n) := Many(items)], next := Advance(fields, p.next, n))
  {}

  /** More items after more items. */
  lemma LongerStill(fields: seq<Field>, p: Progress, n: nat, done: seq<Value>, more: seq<Value>)
    requires Holding(fields, p, n, done)
    ensures Holding(fields, Longer(fields, p, n, more), n, more)
    ensures forall items: seq<Value> :: Longer(fields, Longer(fields, p, n, more), n, items) == Longer(fields, p, n, items)
  {
    hide ValidFields, CellOf;
    AdvanceAgain(fields, p.next, n);
  }

  lemma ChunkTurn(fields: seq<Field>, p: Progress, n: nat, done: seq<Value>, chunk: Chunk, peek: Peek, e: seq<Byte>, rest: seq<Byte>)
    requires Holding(fields, p, n, done) && |done| + |chunk.items| <= fields[n].arraySize && chunk.items != []
    requires forall i :: 0 <= i < |chunk.items| ==> TypedScalar(fields[n], chunk.items[i])
    requires EncChunk(fields[n], chunk, peek) == Some(e) && |e| < TWO32
    ensures Steps(fields, p, e + rest) == Steps(fields, Longer(fields, p, n, done + chunk.items), rest)
  {
    hide Steps, EncPacked, EncItems, TagBytes, TypedScalar, Holding, Longer, CellOf;
    HeldIs(fields, p, n, done);
    match chunk
    case OneByOne(items) => OneByOneTurn(fields, p, n, done, items, peek, e, rest);
    case Packed(items) =>
      var body := EncPacked(fields[n], items).value;
      PackedTurnAfter(fields, p, n, done, items, body, rest);
      assert e + rest == TagBytes(WT_STRING, fields[n].tag) + (Delimited(body) + rest);
  }

  lemma ScalarsAreValues(f: Field, items: seq<Value>)
    requires !f.ltype.Submessage? && forall i :: 0 <= i < |items| ==> TypedScalar(f, items[i])
    ensures forall i :: 0 <= i < |items| ==> TypedValue(f, items[i])
  {}

  lemma ChunksSplit(f: Field, chunks: seq<Chunk>, peek: Peek, e: seq<Byte>) returns (first: seq<Byte>, more: seq<Byte>)
    requires EncChunks(f, chunks, peek) == Some(e) && chunks != []
    ensures EncChunk(f, chunks[0], peek) == Some(first) && EncChunks(f, chunks[1..], peek) == Some(more) && e == first + more
  {
    first, more := EncChunk(f, chunks[0], peek).value, EncChunks(f, chunks[1..], peek).value;
  }

  /** An array decodes alike whether its items come packed, each under its own key, or in any mixture of both:
      they are appended in the order of the wire. */
  lemma {:induction false} PackedOrNot(fields: seq<Field>, p: Progress, n: nat, done: seq<Value>, chunks: seq<Chunk>, peek: Peek,
                                       e: seq<Byte>, rest: seq<Byte>)
    requires Holding(fields, p, n, done) && |done| + |AllItems(chunks)| <= fields[n].arraySize
    requires forall ch <- chunks :: ch.items != [] && forall i :: 0 <= i < |ch.items| ==> TypedScalar(fields[n], ch.items[i])
    requires EncChunks(fields[n], chunks, peek) == Some(e) && |e| < TWO32
    ensures Steps(fields, p, e + rest)
            == Steps(fields, if chunks == [] then p else Longer(fields, p, n, done + AllItems(chunks)), rest)
    decreases |chunks|
  {
    hide Steps, EncChunk, Holding, Longer, TypedScalar, CellOf;
    HeldIs(fields, p, n, done);
    if chunks == [] {
      assert e + rest == rest;
    } else {
      var first, more := ChunksSplit(fields[n], chunks, peek, e);
      assert chunks[0] in chunks;
      ChunkTurn(fields, p, n, done, chunks[0], peek, first, more + rest);
      assert e + rest == first + (more + rest);
      var so := done + chunks[0].items;
      var q := Longer(fields, p, n, so);
      LongerStill(fields, p, n, done, so);
      PackedOrNot(fields, q, n, so, chunks[1..], peek, more, rest);
      assert so + AllItems(chunks[1..]) == done + AllItems(chunks);
      if chunks[1..] == [] {
        assert done + AllItems(chunks) == so;
      }
    }
  }

  /** One item more than there is room for is refused in either form. */
  lemma OverflowIsRefused(fields: seq<Field>, p: Progress, n: nat, done: seq<Value>, b: seq<Byte>, rest: seq<Byte>)
    requires Holding(fields, p, n, done) && |done| == fields[n].arraySize
    ensures DecField(fields, p, n, WireType(fields[n].ltype), b).Bad?
    ensures b != [] && |b| < TWO32 ==> DecField(fields, p, n, WT_STRING, Delimited(b) + rest).Bad?
  {
    hide Delimited, Substring;
    if b != [] && |b| < TWO32 {
      DelimitedRoundTrip(b, rest);
    }
  }

  // ---------- Readers that do not know a field ----------

  lemma {:induction false} VarintSkips(v: nat, tail: seq<Byte>)
    ensures SkipVarint(VarintBytes(v) + tail) == Some(tail)
  {
    var b := VarintBytes(v) + tail;
    if v >= 128 {
      VarintSkips(v / 128, tail);
      assert b[1..] == VarintBytes(v / 128) + tail;
    } else {
      assert b[1..] == tail;
    }
  }

  lemma VarintNonEmpty(v: nat)
    ensures |VarintBytes(v)| >= 1
  {}

  lemma LittleEndianLength(v: nat, k: nat)
    ensures |LittleEndian(v, k)| == k
  {}

  /** The wire type in a key says how long what follows is. */
  lemma PayloadSkips(f: Field, v: Value, peek: Peek, payload: seq<Byte>, tail: seq<Byte>)
    requires EncValue(f, v, peek) == Some(payload) && |payload| < TWO32
    ensures SkipField(payload + tail, WireType(f.ltype)) == Some(tail)
  {
    hide VarintBytes, LittleEndian, EncFields, SkipVarint, Varint32;
    match f.ltype
    case Varint => VarintSkips(ToU64(v.i), tail);
    case Uvarint => VarintSkips(ToU64(v.i), tail);
    case Svarint => VarintSkips(Zigzag(v.i), tail);
    case Fixed32 =>
      LittleEndianLength(v.i % TWO32, 4);
      assert (payload + tail)[4..] == tail;
    case Fixed64 =>
      LittleEndianLength(v.i % TWO64, 8);
      assert (payload + tail)[8..] == tail;
    case Submessage(fields) =>
      var body := EncFields(fields, v.cells, 0, peek).value;
      DelimitedIsLonger(body);
      DelimitedRoundTrip(body, tail);
    case _ =>
      DelimitedIsLonger(v.d);
      DelimitedRoundTrip(v.d, tail);
  }

  lemma DelimitedIsLonger(d: seq<Byte>)
    ensures |d| < |Delimited(d)|
  {
    VarintNonEmpty(|d|);
  }

  predicate Knows(fields: seq<Field>, tag: nat) {
    exists i :: 0 <= i < |fields| && fields[i].tag == tag
  }

  /** A key that the reader does not know, and what it covers. */
  lemma UnknownTurn(reader: seq<Field>, p: Progress, tag: nat, wireType: nat, payload: seq<Byte>, rest: seq<Byte>)
    requires 1 <= tag < TAG_LIMIT && wireType < 8 && !Knows(reader, tag)
    requires SkipField(payload + rest, wireType) == Some(rest)
    ensures Steps(reader, p, TagBytes(wireType, tag) + payload + rest) == Steps(reader, p, rest)
  {
    hide VarintBytes, Varint32, SkipField, DecField;
    var key := 8 * tag + wireType;
    var b := TagBytes(wireType, tag) + payload + rest;
    assert b == VarintBytes(key) + (payload + rest);
    Varint32RoundTrip(key, payload + rest);
    VarintNonEmpty(key);
    assert key / 8 == tag && key % 8 == wireType;
    assert FindIn(reader, 0, |reader|, tag) == |reader|;
    assert DecTurn(reader, p, b) == Next(p, rest);
  }

  lemma ValueSkips(reader: seq<Field>, p: Progress, f: Field, v: Value, peek: Peek, e: seq<Byte>, rest: seq<Byte>)
    requires 1 <= f.tag < TAG_LIMIT && !Knows(reader, f.tag)
    requires Tagged(f, EncValue(f, v, peek)) == Some(e) && |e| < TWO32
    ensures Steps(reader, p, e + rest) == Steps(reader, p, rest)
  {
    hide Knows, EncValue, Steps, SkipField, TagBytes;
    var payload := TaggedIs(f, v, peek, e);
    PayloadSkips(f, v, peek, payload, rest);
    WireTypes(f.ltype);
    UnknownTurn(reader, p, f.tag, WireType(f.ltype), payload, rest);
  }

  lemma {:induction false} ItemsSkip(reader: seq<Field>, p: Progress, f: Field, items: seq<Value>, peek: Peek, e: seq<Byte>, rest: seq<Byte>)
    requires 1 <= f.tag < TAG_LIMIT && !Knows(reader, f.tag)
    requires EncItems(f, items, peek) == Some(e) && |e| < TWO32
    ensures Steps(reader, p, e + rest) == Steps(reader, p, rest)
    decreases |items|
  {
    hide Knows, EncValue, Steps, TagBytes;
    if items == [] {
      assert e + rest == rest;
    } else {
      var first := Tagged(f, EncValue(f, items[0], peek)).value;
      var more := EncItems(f, items[1..], peek).value;
      assert e + rest == first + (more + rest);
      ValueSkips(reader, p, f, items[0], peek, first, more + rest);
      ItemsSkip(reader, p, f, items[1..], peek, more, rest);
    }
  }

  lemma ArraySkips(reader: seq<Field>, p: Progress, f: Field, items: seq<Value>, peek: Peek, e: seq<Byte>, rest: seq<Byte>)
    requires 1 <= f.tag < TAG_LIMIT && !Knows(reader, f.tag)
    requires EncArray(f, items, peek) == Some(e) && |e| < TWO32
    ensures Steps(reader, p, e + rest) == Steps(reader, p, rest)
  {
    hide Knows, EncItems, EncPacked, Steps, SkipField, TagBytes, Delimited;
    if items == [] {
      assert e + rest == rest;
    } else if f.ltype.Packable() {
      var body := EncPacked(f, items).value;
      DelimitedIsLonger(body);
      DelimitedRoundTrip(body, rest);
      DelimitedSkips(body, rest);
      UnknownTurn(reader, p, f.tag, WT_STRING, Delimited(body), rest);
    } else {
      ItemsSkip(reader, p, f, items, peek, e, rest);
    }
  }

  lemma DelimitedSkips(body: seq<Byte>, rest: seq<Byte>)
    requires |body| < TWO32
    ensures SkipField(Delimited(body) + rest, WT_STRING) == Some(rest)
  {
    hide Delimited;
    DelimitedRoundTrip(body, rest);
  }

  lemma CellSkips(reader: seq<Field>, p: Progress, f: Field, cell: Cell, peek: Peek, e: seq<Byte>, rest: seq<Byte>)
    requires 1 <= f.tag < TAG_LIMIT && !Knows(reader, f.tag)
    requires EncCell(f, cell, peek) == Some(e) && |e| < TWO32
    ensures Steps(reader, p, e + rest) == Steps(reader, p, rest)
  {
    hide Knows, EncValue, EncArray, Steps, IsZeroValue, Tagged;
    if e == [] {
      assert e + rest == rest;
    } else {
      match cell
      case One(v) => ValueSkips(reader, p, f, v, peek, e, rest);
      case Maybe(o) => ValueSkips(reader, p, f, o.value, peek, e, rest);
      case Many(items) => ArraySkips(reader, p, f, items, peek, e, rest);
      case Choice(_, v) => ValueSkips(reader, p, f, v, peek, e, rest);
      case _ =>
    }
  }

  /** A reader that knows none of the fields of a message skips its encoding to the last byte, whatever state it is
      in: later versions of a message may have fields that earlier readers do not know. */
  lemma {:induction false} OthersAreSkipped(reader: seq<Field>, p: Progress, fields: seq<Field>, cells: seq<Cell>, i: nat, peek: Peek,
                                            e: seq<Byte>, rest: seq<Byte>)
    requires forall k :: i <= k < |fields| ==> 1 <= fields[k].tag < TAG_LIMIT && !Knows(reader, fields[k].tag)
    requires EncFields(fields, cells, i, peek) == Some(e) && |e| < TWO32
    ensures Steps(reader, p, e + rest) == Steps(reader, p, rest)
    decreases |fields| - i
  {
    hide Knows, Steps, EncCell, CellOf;
    if i >= |fields| {
      assert e + rest == rest;
    } else {
      var first, more := FieldsSplit(fields, cells, i, peek, e);
      assert e + rest == first + (more + rest);
      CellSkips(reader, p, fields[i], cells[CellOf(fields, i)], peek, first, more + rest);
      OthersAreSkipped(reader, p, fields, cells, i + 1, peek, more, rest);
    }
  }

  // ---------- A submessage that comes twice ----------

  /** The second occurrence of a submessage goes on from what the first left, instead of from the default. */
  lemma SecondMerges(fields: seq<Field>, p: Progress, n: nat, first: seq<Byte>, second: seq<Byte>, rest: seq<Byte>, was: seq<Cell>)
    requires ValidFields(fields) && n < |fields| && CellOf(fields, n) < |p.cells| && |first| < TWO32 && |second| < TWO32
    requires var f := fields[n];
             && f.ltype.Submessage? && (f.htype == Required || f.htype == Optional)
             && Base(f, p.cells[CellOf(fields, n)], n >= p.next) == Msg(was)
    ensures var f, key, zero := fields[n], TagBytes(WT_STRING, fields[n].tag), n >= p.next;
            var once := DecMessage(f.ltype.fields, was, zero, first);
            once.Some? ==>
              var twice := DecMessage(f.ltype.fields, once.value, false, second);
              var both := DecField(fields, p, n, WT_STRING, Delimited(first) + (key + Delimited(second) + rest));
              && both.Good? && both.rest == key + Delimited(second) + rest
              && var again := DecField(fields, both.value, n, WT_STRING, Delimited(second) + rest);
                 (again.Good? <==> twice.Some?)
                 && (twice.Some? ==> again.rest == rest && again.value.cells
                                     == p.cells[CellOf(fields, n) := Stored(f, Unset, Msg(twice.value))])
  {
    var f, c, key := fields[n], CellOf(fields, n), TagBytes(WT_STRING, fields[n].tag);
    var tail := key + Delimited(second) + rest;
    SubmessageField(fields, p, n, first, tail, was);
    var once := DecMessage(f.ltype.fields, was, n >= p.next, first);
    if once.Some? {
      var both := DecField(fields, p, n, WT_STRING, Delimited(first) + tail);
      StaleAfter(fields, p.next, n);
      hide DecMessage, DecField, TagBytes, Delimited, ValidFields;
      SubmessageField(fields, both.value, n, second, rest, once.value);
    }
  }

  lemma StaleAfter(fields: seq<Field>, next: nat, n: nat)
    requires n < |fields| && fields[n].htype != Repeated
    ensures n < Advance(fields, next, n)
  {}

  lemma SubmessageField(fields: seq<Field>, p: Progress, n: nat, body: seq<Byte>, rest: seq<Byte>, was: seq<Cell>)
    requires n < |fields| && CellOf(fields, n) < |p.cells| && |body| < TWO32
    requires var f := fields[n];
             && f.ltype.Submessage? && (f.htype == Required || f.htype == Optional)
             && Base(f, p.cells[CellOf(fields, n)], n >= p.next) == Msg(was)
    ensures var f, r := fields[n], DecField(fields, p, n, WT_STRING, Delimited(body) + rest);
            var m := DecMessage(f.ltype.fields, was, n >= p.next, body);
            && (r.Good? <==> m.Some?)
            && (m.Some? ==>
                  && r.rest == rest && r.value.next == Advance(fields, p.next, n)
                  && r.value.cells == p.cells[CellOf(fields, n) := Stored(f, Unset, Msg(m.value))])
  {
    SubmessageValue(fields[n], was, n >= p.next, body, rest);
    hide Delimited, DecValue, DecMessage, Base, CellOf, RequiredBefore, Filled;
  }

  lemma SubmessageValue(f: Field, was: seq<Cell>, zero: bool, body: seq<Byte>, rest: seq<Byte>)
    requires f.ltype.Submessage? && |body| < TWO32
    ensures var m := DecMessage(f.ltype.fields, was, zero, body);
            DecValue(f, Msg(was), zero, Delimited(body) + rest) == if m.None? then Bad else Good(Msg(m.value), rest)
  {
    hide Delimited, Substring, DecMessage;
    DelimitedRoundTrip(body, rest);
  }

  // ---------- The numbers on the wire ----------

  /** The wire types of the encoding. */
  lemma WireTypeNumbers(l: Ltype)
    ensures WireType(l) == match l
                           case Varint => 0
                           case Uvarint => 0
                           case Svarint => 0
                           case Fixed64 => 1
                           case ByteArray => 2
                           case CString => 2
                           case FixedLengthBytes => 2
                           case Submessage(_) => 2
                           case Fixed32 => 5
  {}

  function Only(l: Ltype, tag: nat, size: nat): seq<Field> {
    [Field(tag, l, Required, 0, 0, size, 0)]
  }

  lemma EncodesOne(l: Ltype, tag: nat, size: nat, v: Value, peek: Peek)
    ensures Encode(Only(l, tag, size), [One(v)], peek) == Tagged(Only(l, tag, size)[0], EncValue(Only(l, tag, size)[0], v, peek))
  {
    var fields := Only(l, tag, size);
    hide EncValue;
    assert EncFields(fields, [One(v)], 1, peek) == Some([]) && CellOf(fields, 0) == 0;
    var t := Tagged(fields[0], EncValue(fields[0], v, peek));
    assert EncCell(fields[0], One(v), peek) == t;
    assert EncFields(fields, [One(v)], 0, peek) == Join(t, Some([]));
    if t.Some? {
      assert t.value + [] == t.value;
    }
  }

  lemma SmallVarints()
    ensures VarintBytes(8) == [8] && VarintBytes(9) == [9] && VarintBytes(13) == [13] && VarintBytes(18) == [18] && VarintBytes(34) == [34]
    ensures VarintBytes(1) == [1] && VarintBytes(3) == [3] && VarintBytes(6) == [6] && VarintBytes(7) == [7]
    ensures VarintBytes(150) == [0x96, 1] && VarintBytes(270) == [0x8E, 2] && VarintBytes(86942) == [0x9E, 0xA7, 5]
  {
    assert VarintBytes(679) == [0xA7, 5];
  }

  /** The examples that the description of the encoding gives, and one for each fixed width. */
  lemma KnownMessages(peek: Peek)
    ensures Encode(Only(Varint, 1, 4), [One(Int(150))], peek) == Some([8, 0x96, 1])
    ensures Encode(Only(CString, 2, 16), [One(Data([116, 101, 115, 116, 105, 110, 103]))], peek)
            == Some([0x12, 7, 116, 101, 115, 116, 105, 110, 103])
    ensures Encode(Only(Svarint, 1, 4), [One(Int(-2))], peek) == Some([8, 3])
    ensures Encode(Only(Fixed32, 1, 4), [One(Int(7))], peek) == Some([13, 7, 0, 0, 0])
    ensures Encode(Only(Fixed64, 1, 8), [One(Int(0x0102))], peek) == Some([9, 2, 1, 0, 0, 0, 0, 0, 0])
  {
    hide Encode, EncFields, VarintBytes, LittleEndian;
    SmallVarints();
    EncodesOne(Varint, 1, 4, Int(150), peek);
    EncodesOne(CString, 2, 16, Data([116, 101, 115, 116, 105, 110, 103]), peek);
    EncodesOne(Svarint, 1, 4, Int(-2), peek);
    EncodesOne(Fixed32, 1, 4, Int(7), peek);
    EncodesOne(Fixed64, 1, 8, Int(0x0102), peek);
    FixedOctets();
    assert Zigzag(-2) == 3 by {
      ZigzagValues();
    }
    var text := [116, 101, 115, 116, 105, 110, 103];
    assert [8] + [0x96, 1] == [8, 0x96, 1] && [8] + [3] == [8, 3];
    assert [0x12] + ([7] + text) == [0x12, 7, 116, 101, 115, 116, 105, 110, 103];
    assert [13] + [7, 0, 0, 0] == [13, 7, 0, 0, 0];
    assert [9] + [2, 1, 0, 0, 0, 0, 0, 0] == [9, 2, 1, 0, 0, 0, 0, 0, 0];
  }

  lemma FixedOctets()
    ensures LittleEndian(7, 4) == [7, 0, 0, 0] && LittleEndian(0x0102, 8) == [2, 1, 0, 0, 0, 0, 0, 0]
  {
    assert LittleEndian(0, 1) == [0] && LittleEndian(0, 2) == [0, 0] && LittleEndian(0, 3) == [0, 0, 0];
    assert LittleEndian(0, 4) == [0, 0, 0, 0] && LittleEndian(0, 5) == [0, 0, 0, 0, 0];
    assert LittleEndian(0, 6) == [0, 0, 0, 0, 0, 0];
    assert LittleEndian(1, 7) == [1, 0, 0, 0, 0, 0, 0];
  }

  lemma ZigzagValues()
    ensures Zigzag(0) == 0 && Zigzag(-1) == 1 && Zigzag(1) == 2 && Zigzag(-2) == 3
  {}

  /** A packed array, field 4 with 3, 270 and 86942. */
  lemma KnownPackedArray(peek: Peek)
    ensures EncArray(Field(4, Varint, Repeated, 0, -4, 4, 3), [Int(3), Int(270), Int(86942)], peek)
            == Some([0x22, 6, 3, 0x8E, 2, 0x9E, 0xA7, 5])
  {
    hide VarintBytes;
    SmallVarints();
    var f := Field(4, Varint, Repeated, 0, -4, 4, 3);
    var items := [Int(3), Int(270), Int(86942)];
    assert EncPacked(f, []) == Some([]);
    assert items[2..] == [Int(86942)] && items[1..][1..] == items[2..] && items[2..][1..] == [];
    var none: seq<Byte> := [];
    assert EncPacked(f, items[2..]) == Some([0x9E, 0xA7, 5] + none) && [0x9E, 0xA7, 5] + none == [0x9E, 0xA7, 5];
    assert EncPacked(f, items[1..]) == Some([0x8E, 2] + [0x9E, 0xA7, 5]);
    assert EncPacked(f, items) == Some([3] + ([0x8E, 2] + [0x9E, 0xA7, 5]));
    var body := [3, 0x8E, 2, 0x9E, 0xA7, 5];
    assert [3] + ([0x8E, 2] + [0x9E, 0xA7, 5]) == body;
    assert Delimited(body) == [6] + body;
    assert [34] + ([6] + body) == [0x22, 6, 3, 0x8E, 2, 0x9E, 0xA7, 5];
  }

  // ---------- What is left out, and what is refused ----------

  /** A scalar without a has flag is left out exactly when it is the default that its absence stands for; one of
      fixed length only when that length is none. */
  lemma LeftOutExactly(f: Field, v: Value, peek: Peek)
    requires f.htype == Optional && !f.HasSize() && !f.ltype.Submessage? && TypedScalar(f, v)
    ensures EncCell(f, One(v), peek) == Some([])
            <==> if f.ltype.FixedLengthBytes? then f.dataSize == 0 else v == DefaultValue(f, false)
  {
    ScalarEncodes(f, v);
    hide EncScalar;
  }

  lemma TaggedIsWritten(f: Field, payload: Option<seq<Byte>>)
    ensures Tagged(f, payload) != Some([])
  {
    VarintNonEmpty(8 * f.tag + WireType(f.ltype));
  }

  lemma PackedIsWritten(f: Field, body: seq<Byte>)
    ensures TagBytes(WT_STRING, f.tag) + Delimited(body) != []
  {
    VarintNonEmpty(8 * f.tag + WT_STRING);
  }

  lemma JoinedIsWritten(a: Option<seq<Byte>>, b: Option<seq<Byte>>)
    ensures Join(a, b) == Some([]) <==> a == Some([]) && b == Some([])
  {
    var none: seq<Byte> := [];
    assert none + none == none;
    if a.Some? && b.Some? {
      assert |a.value + b.value| == |a.value| + |b.value|;
      assert |a.value| == 0 <==> a.value == none;
    }
  }

  lemma ItemsAreWritten(f: Field, items: seq<Value>, peek: Peek)
    requires items != []
    ensures EncArray(f, items, peek) != Some([])
  {
    hide EncValue;
    if f.ltype.Packable() {
      if EncPacked(f, items).Some? {
        PackedIsWritten(f, EncPacked(f, items).value);
      }
    } else {
      TaggedIsWritten(f, EncValue(f, items[0], peek));
      JoinedIsWritten(Tagged(f, EncValue(f, items[0], peek)), EncItems(f, items[1..], peek));
    }
  }

  /** The storage of a field, but for a union that holds another member. */
  lemma CellLeftOut(f: Field, cell: Cell, peek: Peek)
    requires TypedCell(f, cell) && !IsFixedArray(f) && (cell.Choice? ==> cell.which == f.tag)
    ensures IsZero(f, cell, peek) <==> EncCell(f, cell, peek) == Some([])
  {
    match cell
    case One(v) => TaggedIsWritten(f, EncValue(f, v, peek));
    case Maybe(o) => if o.Some? { TaggedIsWritten(f, EncValue(f, o.value, peek)); }
    case Many(items) => if items != [] { ItemsAreWritten(f, items, peek); }
    case Choice(_, v) => TaggedIsWritten(f, EncValue(f, v, peek));
    case _ =>
    hide EncValue, EncArray, IsZeroValue, TypedValue, Tagged;
  }

  lemma {:induction false} EmptyWhenAllAre(fields: seq<Field>, cells: seq<Cell>, n: nat, peek: Peek)
    requires n <= |fields| && forall i: nat :: n <= i < |fields| ==> CellOf(fields, i) < |cells|
    ensures EncFields(fields, cells, n, peek) == Some([])
            <==> forall i: nat :: n <= i < |fields| ==> EncCell(fields[i], cells[CellOf(fields, i)], peek) == Some([])
    decreases |fields| - n
  {
    hide EncCell;
    if n < |fields| {
      EmptyWhenAllAre(fields, cells, n + 1, peek);
      JoinedIsWritten(EncCell(fields[n], cells[CellOf(fields, n)], peek), EncFields(fields, cells, n + 1, peek));
    }
  }

  /** A submessage without a has flag is left out exactly when nothing would be written inside it; fixed-count arrays,
      whose first word is taken for a count, are the exception. */
  lemma LeftOutWhenEmpty(f: Field, v: Value, peek: Peek)
    requires TypedValue(f, v) && f.ltype.Submessage? && forall i :: 0 <= i < |f.ltype.fields| ==> !IsFixedArray(f.ltype.fields[i])
    ensures IsZeroValue(f, v, peek) <==> EncFields(f.ltype.fields, v.cells, 0, peek) == Some([])
  {
    var fields, cells := f.ltype.fields, v.cells;
    AllFieldsIn(fields, cells);
    ZeroMessage(f, fields, cells, peek);
    EmptyWhenAllAre(fields, cells, 0, peek);
    FieldsLeftOut(fields, cells, peek);
    hide *;
  }

  lemma AllFieldsIn(fields: seq<Field>, cells: seq<Cell>)
    requires TypedCells(fields, cells)
    ensures |cells| == CellCount(fields) && forall i: nat :: i < |fields| ==> CellOf(fields, i) < |cells|
  {
    hide TypedCell;
  }

  lemma ZeroMessage(f: Field, fields: seq<Field>, cells: seq<Cell>, peek: Peek)
    requires f.ltype == Submessage(fields) && |cells| == CellCount(fields)
    requires forall i: nat :: i < |fields| ==> CellOf(fields, i) < |cells|
    ensures IsZeroValue(f, Msg(cells), peek) <==> forall i: nat :: i < |fields| ==> IsZero(fields[i], cells[CellOf(fields, i)], peek)
  {
    hide IsZero;
  }

  lemma FieldsLeftOut(fields: seq<Field>, cells: seq<Cell>, peek: Peek)
    requires TypedCells(fields, cells) && forall i :: 0 <= i < |fields| ==> !IsFixedArray(fields[i])
    requires forall i: nat :: i < |fields| ==> CellOf(fields, i) < |cells|
    ensures (forall i: nat :: i < |fields| ==> IsZero(fields[i], cells[CellOf(fields, i)], peek))
            <==> forall i: nat :: i < |fields| ==> EncCell(fields[i], cells[CellOf(fields, i)], peek) == Some([])
  {
    hide EncCell, IsZero, TypedCells, IsFixedArray;
    if forall i: nat :: i < |fields| ==> EncCell(fields[i], cells[CellOf(fields, i)], peek) == Some([]) {
      forall i: nat | i < |fields|
        ensures IsZero(fields[i], cells[CellOf(fields, i)], peek)
      {
        var j := Decides(fields, cells, CellOf(fields, i));
        LeftOutIsZero(fields, cells, i, j, peek);
      }
    }
    if forall i: nat :: i < |fields| ==> IsZero(fields[i], cells[CellOf(fields, i)], peek) {
      forall i: nat | i < |fields|
        ensures EncCell(fields[i], cells[CellOf(fields, i)], peek) == Some([])
      {
        TypedAt(fields, cells, i);
        ZeroIsLeftOut(fields[i], cells[CellOf(fields, i)], peek);
      }
    }
  }

  lemma ZeroIsLeftOut(f: Field, cell: Cell, peek: Peek)
    requires TypedCell(f, cell) && !IsFixedArray(f) && IsZero(f, cell, peek)
    ensures EncCell(f, cell, peek) == Some([])
  {
    ZeroShape(f, cell, peek);
    CellLeftOut(f, cell, peek);
  }

  lemma ZeroShape(f: Field, cell: Cell, peek: Peek)
    requires TypedCell(f, cell) && IsZero(f, cell, peek)
    ensures !cell.Choice?
  {}

  /** In a union the member that is held decides, elsewhere the field itself. */
  lemma LeftOutIsZero(fields: seq<Field>, cells: seq<Cell>, i: nat, j: nat, peek: Peek)
    requires TypedCells(fields, cells) && i < |fields| && j < |fields|
    requires CellOf(fields, i) == CellOf(fields, j) < |cells| && !IsFixedArray(fields[i]) && !IsFixedArray(fields[j])
    requires fields[j].htype == Oneof ==> var cell := cells[CellOf(fields, j)];
             cell.NoChoice? || (cell.Choice? && cell.which == fields[j].tag)
    requires EncCell(fields[i], cells[CellOf(fields, i)], peek) == Some([])
    requires EncCell(fields[j], cells[CellOf(fields, j)], peek) == Some([])
    ensures IsZero(fields[i], cells[CellOf(fields, i)], peek)
  {
    TypedAt(fields, cells, i);
    TypedAt(fields, cells, j);
    if i < j {
      CellShared(fields, i, j);
    } else if j < i {
      CellShared(fields, j, i);
    }
    var cell := cells[CellOf(fields, i)];
    NotOneof(fields[i], cell);
    NotOneof(fields[j], cell);
    if fields[i].htype == Oneof {
      CellLeftOut(fields[j], cell, peek);
      NoChoiceIsZero(fields[i], fields[j], cell, peek);
    } else {
      CellLeftOut(fields[i], cell, peek);
    }
  }

  lemma NotOneof(f: Field, cell: Cell)
    requires TypedCell(f, cell)
    ensures cell.Choice? ==> f.htype == Oneof
  {}

  lemma NoChoiceIsZero(f: Field, g: Field, cell: Cell, peek: Peek)
    requires f.htype == Oneof && g.htype == Oneof && IsZero(g, cell, peek)
    ensures IsZero(f, cell, peek)
  {}

  /** An array with more items than the structure has room for, or of a fixed count with another number of them, is an
      error. */
  lemma OversizeIsRefused(f: Field, items: seq<Value>, peek: Peek)
    requires f.htype == Repeated && (|items| > f.arraySize || (IsFixedArray(f) && |items| != f.arraySize))
    ensures EncCell(f, Many(items), peek) == None
  {}

  /** So are byte arrays exactly if they do not fit. A string may fill its storage, without a NUL; what the storage of a
      string or of fixed-length bytes cannot hold has no encoding. */
  lemma MisfitIsRefused(f: Field, d: seq<Byte>, peek: Peek)
    ensures f.ltype.ByteArray? ==> (EncValue(f, Data(d), peek) == None <==> |d| > f.dataSize - 4)
    ensures f.ltype.CString? ==> (EncValue(f, Data(d), peek) == None <==> |d| > f.dataSize)
    ensures f.ltype.FixedLengthBytes? ==> (EncValue(f, Data(d), peek) == None <==> |d| != f.dataSize)
  {}

  // ---------- Keys and values that readers skip ----------

  /** What a reader skips for each wire type: a varint to its end, 8 or 4 bytes, a length and as many bytes; groups
      and the two unused types are errors. */
  lemma SkipsExactly(b: seq<Byte>, wireType: nat)
    ensures wireType == 0 ==>
              && (SkipField(b, wireType).Some? <==> exists k: nat :: EndsAt(b, k))
              && forall k: nat :: EndsAt(b, k) ==> SkipField(b, wireType) == Some(b[k + 1..])
    ensures wireType == 1 ==> SkipField(b, wireType) == if |b| >= 8 then Some(b[8..]) else None
    ensures wireType == 5 ==> SkipField(b, wireType) == if |b| >= 4 then Some(b[4..]) else None
    ensures wireType == 2 ==>
              var size := Varint32(b);
              SkipField(b, wireType) == if size.Good? && size.value <= |size.rest| then Some(size.rest[size.value..]) else None
    ensures wireType == 3 || wireType == 4 || wireType == 6 || wireType == 7 ==> SkipField(b, wireType) == None
  {
    hide Varint32;
    SkipVarintExactly(b);
  }

  lemma {:induction false} SkipVarintExactly(b: seq<Byte>)
    ensures SkipVarint(b).Some? <==> exists k: nat :: EndsAt(b, k)
    ensures forall k: nat :: EndsAt(b, k) ==> SkipVarint(b) == Some(b[k + 1..])
  {
    if b != [] {
      SkipVarintExactly(b[1..]);
      if b[0] < 128 {
        assert EndsAt(b, 0);
      } else {
        forall k: nat | EndsAt(b, k)
          ensures k > 0 && EndsAt(b[1..], k - 1) && b[1..][k..] == b[k + 1..]
        {
          assert k != 0;
          assert forall i | 0 <= i < k - 1 :: b[1..][i] == b[i + 1];
        }
        if SkipVarint(b[1..]).Some? {
          var k: nat :| EndsAt(b[1..], k);
          assert b[k + 1] == b[1..][k];
          assert forall i | 0 < i < k + 1 :: b[i] == b[1..][i - 1];
          assert EndsAt(b, k + 1);
        }
      }
    }
  }

  /** A zero byte where a key is expected ends the message, whatever follows. */
  lemma ZeroKeyEnds(fields: seq<Field>, p: Progress, rest: seq<Byte>)
    ensures DecFields(fields, p, [0] + rest) == Some(p)
  {
    assert ([0] + rest)[0] == 0;
  }

  /** A key with tag zero and another wire type does not: it is skipped like that of any unknown field, but is an error
      in a message without fields, where the end of the descriptors is taken for a field. */
  lemma ZeroTagIsSkipped(fields: seq<Field>, p: Progress, wireType: nat, rest: seq<Byte>)
    requires 0 < wireType < 8 && forall i: nat :: i < |fields| ==> fields[i].tag != 0
    ensures DecFields(fields, p, [wireType] + rest)
            == if fields == [] then None
               else
                 var skipped := SkipField(rest, wireType);
                 if skipped.None? then None else DecFields(fields, p, skipped.value)
  {
    hide SkipField, DecField;
    var b := [wireType] + rest;
    assert Varint32(b) == Good(wireType, rest) by {
      assert b[1..] == rest;
    }
    assert FindIn(fields, 0, |fields|, 0) == |fields|;
  }

  // ---------- The last one wins ----------

  /** Of a member of a union only the last occurrence counts: it starts from zeroed memory, not from an earlier one,
      and from no other member either. */
  lemma LastMemberWins(fields: seq<Field>, p: Progress, q: Progress, n: nat, wireType: nat, b: seq<Byte>)
    requires n < |fields| && fields[n].htype == Oneof && CellOf(fields, n) < |p.cells| && CellOf(fields, n) < |q.cells|
    ensures var f, c := fields[n], CellOf(fields, n);
            var r, t, v := DecField(fields, p, n, wireType, b), DecField(fields, q, n, wireType, b),
                           DecValue(f, DefaultValue(f, true), true, b);
            && (r.Good? <==> v.Good?) && (t.Good? <==> v.Good?)
            && (v.Good? ==> r.value.cells[c] == t.value.cells[c] == Choice(f.tag, v.value) && r.rest == t.rest == v.rest)
  {
    hide DecValue, DefaultValue, Filled, RequiredBefore;
  }

  /** Of a single scalar, too, whatever was there. */
  lemma LastScalarWins(fields: seq<Field>, p: Progress, n: nat, wireType: nat, b: seq<Byte>)
    requires n < |fields| && CellOf(fields, n) < |p.cells| && !fields[n].ltype.Submessage?
    requires fields[n].htype == Required || fields[n].htype == Optional
    ensures var f, r, v := fields[n], DecField(fields, p, n, wireType, b), DecScalar(fields[n], b);
            && (r.Good? <==> v.Good?)
            && (v.Good? ==>
                  && r.rest == v.rest
                  && r.value.cells == p.cells[CellOf(fields, n) :=
                                                if f.htype == Optional && f.HasSize() then Maybe(Some(v.value)) else One(v.value)])
  {
    ScalarValue(fields[n], Base(fields[n], p.cells[CellOf(fields, n)], n >= p.next), StartsZero(fields[n], n >= p.next), b);
    hide DecValue, DecScalar, Base, Filled, RequiredBefore;
  }

  lemma ScalarValue(f: Field, start: Value, zero: bool, b: seq<Byte>)
    requires !f.ltype.Submessage?
    ensures DecValue(f, start, zero, b) == DecScalar(f, b)
  {
    hide DecScalar;
  }

  // ---------- What clearing a word settles ----------

  /** Arrays of which the first word says all there is to say, and arrays of which it does not. */
  lemma ClearingSettles()
    ensures ClearedItems(Field(1, CString, Repeated, 0, 0, 16, 1), 1, COUNT_SIZE) == Some([Data([])])
    ensures ClearedItems(Field(1, ByteArray, Repeated, 0, 0, 16, 1), 1, COUNT_SIZE) == Some([Data([])])
    ensures ClearedItems(Field(1, FixedLengthBytes, Repeated, 0, 0, 4, 1), 1, COUNT_SIZE) == Some([Data([0, 0, 0, 0])])
    ensures ClearedItems(Field(1, FixedLengthBytes, Repeated, 0, 0, 5, 1), 1, COUNT_SIZE) == None
    ensures ClearedItems(Field(1, Varint, Repeated, 0, 0, 2, 2), 2, COUNT_SIZE) == Some([Int(0), Int(0)])
    ensures ClearedItems(Field(1, Varint, Repeated, 0, 0, 2, 3), 3, COUNT_SIZE) == None
    ensures ClearedItems(Field(1, CString, Repeated, 0, 0, 4, 2), 2, COUNT_SIZE) == None
    ensures ClearedItems(Field(1, Fixed64, Repeated, 0, 0, 8, 1), 1, COUNT_SIZE) == None
  {
    ClearedOne(Field(1, CString, Repeated, 0, 0, 16, 1));
    ClearedOne(Field(1, ByteArray, Repeated, 0, 0, 16, 1));
    ClearedOne(Field(1, FixedLengthBytes, Repeated, 0, 0, 4, 1));
    ClearedOne(Field(1, FixedLengthBytes, Repeated, 0, 0, 5, 1));
    ClearedOne(Field(1, Fixed64, Repeated, 0, 0, 8, 1));
    assert Zeros(4) == [0, 0, 0, 0];
    var small := Field(1, Varint, Repeated, 0, 0, 2, 2);
    var three := Field(1, Varint, Repeated, 0, 0, 2, 3);
    var text := Field(1, CString, Repeated, 0, 0, 4, 2);
    assert Less(4, 2) == 2 && Less(2, 2) == 0 && Less(4, 4) == 0;
    assert ClearedItems(small, 0, 0) == Some([]) && ClearedItems(small, 1, 2) == Some([Int(0)] + []);
    assert [Int(0)] + [] == [Int(0)] && [Int(0)] + [Int(0)] == [Int(0), Int(0)];
    assert ClearedItems(three, 1, 0) == None && ClearedItems(three, 2, 2) == None;
    assert ClearedItems(text, 1, 0) == None;
  }

  lemma ClearedOne(f: Field)
    ensures ClearedItems(f, 1, COUNT_SIZE)
            == if ClearedValue(f, COUNT_SIZE).None? then None else Some([ClearedValue(f, COUNT_SIZE).value])
  {
    hide ClearedValue;
    assert ClearedItems(f, 0, Less(COUNT_SIZE, f.dataSize)) == Some([]);
    if ClearedValue(f, COUNT_SIZE).Some? {
      var v := ClearedValue(f, COUNT_SIZE).value;
      assert [v] + [] == [v];
    }
  }
}
