/** pb_decode over a stream: the loop with its iterator, its bit array of required fields and its
    bookkeeping of fixed-count arrays. Each method is tied to the function that says what the bytes
    mean. */
module PbDecoder {
  import opened Bytes
  import opened PbWire
  import opened PbFields
  import opened PbMessage
  import opened PbStreams
  import opened PbTransparency

  /** Tags are distinct, also within submessages. */
  ghost predicate DistinctDeep(fields: seq<Field>)
    decreases fields
  {
    DistinctTags(fields) && forall i :: 0 <= i < |fields| ==> DistinctInside(fields[i])
  }

  ghost predicate DistinctInside(f: Field)
    decreases f
  {
    f.ltype.Submessage? ==> DistinctDeep(f.ltype.fields)
  }

  /** pb_decode_tag. A zero key ends the message like the end of the stream. */
  method DecodeTag(stream: IStream) returns (ok: bool, wireType: nat, tag: nat, eof: bool)
    requires stream.Valid()
    modifies stream
    ensures stream.Valid() && stream.End() == old(stream.End()) && stream.bytesLeft <= old(stream.bytesLeft)
    ensures var key := Varint32(old(stream.Left()));
            && ok == (key.Good? && key.value != 0)
            && (ok ==> key == Good(8 * tag + wireType, stream.Left()) && wireType < 8)
            && (!ok ==> eof == (old(stream.Left()) == [] || key.Good?))
  {
    hide Varint32;
    var temp: nat;
    ok, temp, eof := stream.DecodeVarint32();
    wireType, tag := 0, 0;
    if !ok {
      return;
    }
    if temp == 0 {
      return false, 0, 0, true;
    }
    tag, wireType := temp / 8, temp % 8;
  }

  // ---------- The field decoders ----------

  /** pb_dec_varint, pb_dec_uvarint and pb_dec_svarint. */
  method DecodeInteger(stream: IStream, f: Field) returns (ok: bool, v: Value)
    requires stream.Valid() && (f.ltype.Varint? || f.ltype.Uvarint? || f.ltype.Svarint?)
    modifies stream
    ensures stream.Valid() && stream.End() == old(stream.End()) && stream.bytesLeft <= old(stream.bytesLeft)
    ensures ok == DecScalar(f, old(stream.Left())).Good?
    ensures ok ==> DecScalar(f, old(stream.Left())) == Good(v, stream.Left())
  {
    hide Varint64;
    var value: nat;
    v := Int(0);
    ok, value := stream.DecodeVarint();
    if !ok {
      return;
    }
    var r :=
      if f.ltype.Varint? then Signed(f.dataSize, value)
      else if f.ltype.Uvarint? then Unsigned(f.dataSize, value)
      else Narrow(f.dataSize, Unzigzag(value));
    if r.None? {
      ok := false;
      return;
    }
    v := r.value;
  }

  /** pb_decode_fixed32 and pb_decode_fixed64. */
  method DecodeFixed(stream: IStream, f: Field) returns (ok: bool, v: Value)
    requires stream.Valid() && (f.ltype.Fixed32? || f.ltype.Fixed64?)
    modifies stream
    ensures stream.Valid() && stream.End() == old(stream.End()) && stream.bytesLeft <= old(stream.bytesLeft)
    ensures ok == DecScalar(f, old(stream.Left())).Good?
    ensures ok ==> DecScalar(f, old(stream.Left())) == Good(v, stream.Left())
  {
    var bytes: seq<Byte>;
    ok, bytes := stream.Read(if f.ltype.Fixed32? then 4 else 8);
    v := Int(FromLittleEndian(bytes));
  }

  /** pb_dec_bytes, pb_dec_string and pb_dec_fixed_length_bytes. */
  method DecodeString(stream: IStream, f: Field) returns (ok: bool, v: Value)
    requires stream.Valid() && (f.ltype.ByteArray? || f.ltype.CString? || f.ltype.FixedLengthBytes?)
    modifies stream
    ensures stream.Valid() && stream.End() == old(stream.End()) && stream.bytesLeft <= old(stream.bytesLeft)
    ensures ok == DecScalar(f, old(stream.Left())).Good?
    ensures ok ==> DecScalar(f, old(stream.Left())) == Good(v, stream.Left())
  {
    hide Varint32;
    var size: nat;
    var eof: bool;
    v := Data([]);
    ok, size, eof := stream.DecodeVarint32();
    if !ok {
      return;
    }
    if f.ltype.FixedLengthBytes? {
      if size == 0 {
        return true, Data(Zeros(f.dataSize));
      }
      if size != f.dataSize {
        return false, v;
      }
    } else if size + (if f.ltype.ByteArray? then 4 else 1) > f.dataSize {
      return false, v;
    }
    var bytes: seq<Byte>;
    ok, bytes := stream.Read(size);
    v := Data(if f.ltype.CString? then UpToNul(bytes) else bytes);
  }

  method DecodeScalar(stream: IStream, f: Field) returns (ok: bool, v: Value)
    requires stream.Valid() && !f.ltype.Submessage?
    modifies stream
    ensures stream.Valid() && stream.End() == old(stream.End()) && stream.bytesLeft <= old(stream.bytesLeft)
    ensures ok == DecScalar(f, old(stream.Left())).Good?
    ensures ok ==> DecScalar(f, old(stream.Left())) == Good(v, stream.Left())
  {
    hide DecScalar;
    if f.ltype.Varint? || f.ltype.Uvarint? || f.ltype.Svarint? {
      ok, v := DecodeInteger(stream, f);
    } else if f.ltype.Fixed32? || f.ltype.Fixed64? {
      ok, v := DecodeFixed(stream, f);
    } else {
      ok, v := DecodeString(stream, f);
    }
  }

  /** The packed branch of decode_static_field: items are taken while there are bytes and room. */
  method DecodePackedArray(stream: IStream, f: Field, start: seq<Value>) returns (ok: bool, items: seq<Value>)
    requires stream.Valid() && f.ltype.Packable()
    modifies stream
    ensures stream.Valid()
    ensures ok == (Substring(old(stream.Left())).Good?
                   && DecPacked(f, start, Substring(old(stream.Left())).value).Some?)
    ensures ok ==> DecPacked(f, start, Substring(old(stream.Left())).value) == Some(items)
    ensures ok ==> stream.Left() == Substring(old(stream.Left())).rest && stream.End() == old(stream.End())
    ensures stream.bytesLeft <= old(stream.bytesLeft) && stream.End() <= old(stream.End())
  {
    hide Substring, DecScalar;
    var sub: IStream;
    items := start;
    ok, sub := stream.MakeStringSubstream();
    if !ok {
      return;
    }
    ghost var whole, end, left := DecPacked(f, start, sub.Left()), sub.End(), stream.bytesLeft;
    while sub.bytesLeft > 0 && |items| < f.arraySize
      invariant sub.Valid() && sub.buf == stream.buf && sub.End() == end && ok && fresh(sub)
      invariant stream.Valid() && stream.bytesLeft == left && stream.End() <= old(stream.End())
      invariant DecPacked(f, items, sub.Left()) == whole
      decreases sub.bytesLeft
    {
      var item: Value;
      ok, item := DecodeScalar(sub, f);
      if !ok {
        return;
      }
      items := items + [item];
    }
    if sub.bytesLeft != 0 {
      ok := false;
      return;
    }
    stream.CloseStringSubstream(sub);
  }

  // ---------- Submessages and messages ----------

  /** pb_dec_submessage, for the value that a field decoder starts from; and the other decoders. */
  method DecodeValue(stream: IStream, f: Field, start: Value, zero: bool) returns (ok: bool, v: Value)
    requires stream.Valid() && DistinctInside(f)
    modifies stream
    ensures stream.Valid() && stream.bytesLeft <= old(stream.bytesLeft) && stream.End() <= old(stream.End())
    ensures ok == DecValue(f, start, zero, old(stream.Left())).Good?
    ensures ok ==> DecValue(f, start, zero, old(stream.Left())) == Good(v, stream.Left()) && stream.End() == old(stream.End())
    decreases stream.bytesLeft, 0
  {
    hide DecMessage, DecScalar, Substring;
    if !f.ltype.Submessage? {
      ok, v := DecodeScalar(stream, f);
      return;
    }
    v := start;
    var sub: IStream;
    ok, sub := stream.MakeStringSubstream();
    if !ok {
      return;
    }
    if !start.Msg? {
      ok := false;
      return;
    }
    var cells: seq<Cell>;
    ok, cells := DecodeNoinit(sub, f.ltype.fields, start.cells, zero);
    v := Msg(cells);
    stream.CloseStringSubstream(sub);
  }

  /** decode_static_field. The counter of an array is the one beside it, or the local one for a
      fixed-count array. `zero` says that the storage was zeroed and is untouched. */
  method DecodeStaticField(stream: IStream, f: Field, wireType: nat, cell: Cell, size: nat, zero: bool)
    returns (ok: bool, r: Cell, newSize: nat)
    requires stream.Valid() && DistinctInside(f) && (f.htype == Repeated ==> size == |ItemsOf(cell)|)
    modifies stream
    ensures stream.Valid() && stream.bytesLeft <= old(stream.bytesLeft) && stream.End() <= old(stream.End())
    ensures ok == StaticField(f, cell, zero, wireType, old(stream.Left())).Good?
    ensures ok ==> StaticField(f, cell, zero, wireType, old(stream.Left())) == Good(r, stream.Left()) && stream.End() == old(stream.End())
    ensures ok && f.htype == Repeated ==> newSize == |ItemsOf(r)|
    decreases stream.bytesLeft, 1
  {
    hide DecValue, DecPacked, Substring, DefaultValue, DistinctInside;
    r, newSize := cell, size;
    var v: Value;
    match f.htype
    case Required =>
      ok, v := DecodeValue(stream, f, Base(f, cell, zero), zero);
      r := One(v);
    case Optional =>
      ok, v := DecodeValue(stream, f, Base(f, cell, zero), zero);
      r := if f.HasSize() then Maybe(Some(v)) else One(v);
    case Repeated =>
      if wireType == WT_STRING && f.ltype.Packable() {
        var items: seq<Value>;
        ok, items := DecodePackedArray(stream, f, ItemsOf(cell));
        r, newSize := Many(items), |items|;
      } else {
        if size >= f.arraySize {
          return false, cell, size;
        }
        ok, v := DecodeValue(stream, f, DefaultValue(f, zero), zero);
        r, newSize := Many(ItemsOf(cell) + [v]), size + 1;
      }
    case Oneof =>
      // The member is zeroed before its defaults are set.
      ok, v := DecodeValue(stream, f, DefaultValue(f, true), true);
      r := Choice(f.tag, v);
  }

  /** The bits of fields_seen as a set. */
  ghost function Seen(bits: seq<bool>): (s: set<nat>) {
    set n | n in Range(0, |bits|) && bits[n]
  }

  lemma SeenMore(bits: seq<bool>, n: nat)
    requires n < |bits|
    ensures Seen(bits[n := true]) == Seen(bits) + {n}
  {}

  /** Nothing but a fixed-count array itself lies in its cell. */
  lemma OwnCell(fields: seq<Field>, i: nat, j: nat)
    requires i < |fields| && j < |fields| && i != j && fields[j].htype != Oneof
    ensures CellOf(fields, i) != CellOf(fields, j)
  {
    if i < j {
      CellShared(fields, i, j);
    } else {
      CellShared(fields, j, i);
    }
  }

  /** The local variables of the loop stand for the progress. */
  ghost predicate Counts(fields: seq<Field>, cells: seq<Cell>, filling: Option<nat>, size: nat) {
    filling.Some? ==>
      && filling.value < |fields| && IsFixedArray(fields[filling.value]) && CellOf(fields, filling.value) < |cells|
      && size == |ItemsOf(cells[CellOf(fields, filling.value)])|
  }

  lemma CountsKept(fields: seq<Field>, cells: seq<Cell>, filling: Option<nat>, size: nat, i: nat, r: Cell)
    requires Counts(fields, cells, filling, size) && i < |fields| && CellOf(fields, i) < |cells| && !IsFixedArray(fields[i])
    ensures Counts(fields, cells[CellOf(fields, i) := r], filling, size)
  {
    if filling.Some? {
      OwnCell(fields, i, filling.value);
    }
  }

  /** One field of the message, found at position i: the bookkeeping and the field decoder. */
  method DecodeOne(stream: IStream, fields: seq<Field>, i: nat, wireType: nat, requiredIndex: nat, cells: seq<Cell>,
                   fieldsSeen: array<bool>, filling: Option<nat>, size: nat, next: nat)
    returns (ok: bool, newCells: seq<Cell>, newFilling: Option<nat>, newSize: nat, newNext: nat)
    requires stream.Valid() && DistinctDeep(fields) && i < |fields| && requiredIndex == RequiredBefore(fields, i)
    requires fieldsSeen.Length == MAX_REQUIRED && Counts(fields, cells, filling, size)
    modifies stream, fieldsSeen
    ensures stream.Valid() && stream.bytesLeft <= old(stream.bytesLeft) && stream.End() <= old(stream.End())
    ensures var p := Progress(cells, Seen(old(fieldsSeen[..])), filling, next);
            && ok == DecField(fields, p, i, wireType, old(stream.Left())).Good?
            && (ok ==> DecField(fields, p, i, wireType, old(stream.Left()))
                       == Good(Progress(newCells, Seen(fieldsSeen[..]), newFilling, newNext), stream.Left()))
    ensures ok ==> stream.End() == old(stream.End()) && Counts(fields, newCells, newFilling, newSize)
    decreases stream.bytesLeft, 2
  {
    hide StaticField, DistinctDeep, DistinctInside, CellOf, Seen;
    newCells, newFilling, newSize, newNext := cells, filling, size, Advance(fields, next, i);
    var f, c := fields[i], CellOf(fields, i);
    // Storage of another shape than the descriptor's is not decoded into.
    if c >= |cells| {
      return false, newCells, newFilling, newSize, newNext;
    }
    var cell := cells[c];
    if IsFixedArray(f) && filling != Some(i) {
      if filling.Some? && size != fields[filling.value].arraySize {
        return false, newCells, newFilling, newSize, newNext;
      }
      newFilling, newSize, cell := Some(i), 0, Many([]);
    }
    ghost var seen := Seen(fieldsSeen[..]);
    if f.htype == Required && requiredIndex < MAX_REQUIRED {
      SeenMore(fieldsSeen[..], requiredIndex);
      ghost var bits := fieldsSeen[..];
      fieldsSeen[requiredIndex] := true;
      assert fieldsSeen[..] == bits[requiredIndex := true];
    }
    var count := if IsFixedArray(f) then newSize else |ItemsOf(cell)|;
    var r: Cell;
    InsideOf(fields, i);
    ok, r, count := DecodeStaticField(stream, f, wireType, cell, count, i >= next);
    if !ok {
      return;
    }
    newCells := cells[c := r];
    if IsFixedArray(f) {
      newSize := count;
    } else {
      CountsKept(fields, cells, filling, size, i, r);
    }
  }

  lemma InsideOf(fields: seq<Field>, i: nat)
    requires DistinctDeep(fields) && i < |fields|
    ensures DistinctInside(fields[i])
  {}

  // ---------- The loop ----------

  lemma FindSame(fields: seq<Field>, start: nat, tag: nat)
    requires start < |fields| && DistinctDeep(fields)
    ensures FindFrom(fields, start, tag) == FindIn(fields, 0, |fields|, tag)
  {
    hide DistinctInside;
    FindIsIndependentOfStart(fields, start, tag, FindIn(fields, 0, |fields|, tag));
  }

  /** One turn, by what the key is. */
  lemma TurnOf(fields: seq<Field>, p: Progress, b: seq<Byte>, tag: nat, wireType: nat, rest: seq<Byte>)
    requires b != [] && Varint32(b) == Good(8 * tag + wireType, rest) && wireType < 8 && 8 * tag + wireType != 0
    ensures var i := FindIn(fields, 0, |fields|, tag);
            DecFields(fields, p, b)
            == if i < |fields| then
                 var r := DecField(fields, p, i, wireType, rest);
                 if r.Bad? then None else DecFields(fields, r.value, r.rest)
               else if fields == [] && tag == 0 then None
               else
                 var r := SkipField(rest, wireType);
                 if r.None? then None else DecFields(fields, p, r.value)
  {
    hide Varint32, DecField, SkipField;
    var key := 8 * tag + wireType;
    assert key / 8 == tag && key % 8 == wireType;
  }

  lemma NoMoreTurns(fields: seq<Field>, p: Progress, b: seq<Byte>)
    requires b != [] && (Varint32(b).Bad? || Varint32(b).value == 0)
    ensures DecFields(fields, p, b) == if Varint32(b).Bad? then None else Some(p)
  {
    hide Varint32;
  }

  /** The loop of pb_decode_noinit. */
  method DecodeLoop(stream: IStream, fields: seq<Field>, cells: seq<Cell>, zero: bool, iter: FieldIter, fieldsSeen: array<bool>)
    returns (ok: bool, result: seq<Cell>, filling: Option<nat>, size: nat, next: nat)
    requires stream.Valid() && DistinctDeep(fields) && iter.Valid() && iter.fields == fields
    requires fieldsSeen.Length == MAX_REQUIRED && Seen(fieldsSeen[..]) == {}
    modifies stream, iter, fieldsSeen
    ensures stream.Valid() && stream.bytesLeft <= old(stream.bytesLeft) && stream.End() <= old(stream.End()) && iter.Valid()
    ensures ok == DecFields(fields, Begin(fields, cells, zero), old(stream.Left())).Some?
    ensures ok ==> DecFields(fields, Begin(fields, cells, zero), old(stream.Left()))
                   == Some(Progress(result, Seen(fieldsSeen[..]), filling, next))
    ensures ok ==> Counts(fields, result, filling, size) && stream.End() == old(stream.End())
    decreases stream.bytesLeft, 3
  {
    hide DecField, SkipField, Varint32, DistinctDeep, Seen, FindIn, FindFrom, DecFields;
    result, filling, size, next := cells, None, 0, if zero then 0 else |fields|;
    ghost var whole := DecFields(fields, Begin(fields, cells, zero), stream.Left());
    while stream.bytesLeft > 0
      invariant stream.Valid() && stream.End() == old(stream.End()) && stream.bytesLeft <= old(stream.bytesLeft)
      invariant iter.Valid() && Counts(fields, result, filling, size)
      invariant DecFields(fields, Progress(result, Seen(fieldsSeen[..]), filling, next), stream.Left()) == whole
      decreases stream.bytesLeft
    {
      ghost var p, b := Progress(result, Seen(fieldsSeen[..]), filling, next), stream.Left();
      var wireType: nat, tag: nat, eof: bool;
      ok, wireType, tag, eof := DecodeTag(stream);
      if !ok {
        NoMoreTurns(fields, p, b);
        ok := eof;
        return;
      }
      TurnOf(fields, p, b, tag, wireType, stream.Left());
      if fields != [] {
        FindSame(fields, iter.pos, tag);
      }
      var found := iter.Find(tag);
      EmptyFind(fields, tag);
      if !found {
        ok := stream.Skip(wireType);
        if !ok {
          return;
        }
        continue;
      }
      // In an empty message the terminator was found, an integer of no valid size.
      if fields == [] {
        return false, result, filling, size, next;
      }
      ok, result, filling, size, next :=
        DecodeOne(stream, fields, iter.pos, wireType, iter.requiredFieldIndex, result, fieldsSeen, filling, size, next);
      if !ok {
        return;
      }
    }
    NothingLeft(fields, Progress(result, Seen(fieldsSeen[..]), filling, next), stream.Left());
    ok := true;
  }

  lemma EmptyFind(fields: seq<Field>, tag: nat)
    ensures fields == [] ==> FindIn(fields, 0, |fields|, tag) == |fields|
  {}

  lemma NothingLeft(fields: seq<Field>, p: Progress, b: seq<Byte>)
    ensures b == [] ==> DecFields(fields, p, b) == Some(p)
  {}

  // ---------- The checks after the loop ----------

  /** The required fields, counted by taking the iterator to the end. */
  method CountRequired(iter: FieldIter) returns (count: nat)
    requires iter.Valid()
    modifies iter
    ensures count == RequiredBefore(iter.fields, |iter.fields|)
  {
    count := iter.requiredFieldIndex;
    if iter.fields == [] {
      return;
    }
    var last := iter.fields[iter.pos].htype;
    var more := iter.Next();
    while more
      invariant iter.Valid() && iter.fields != []
      invariant if more then iter.pos > 0 && count == RequiredBefore(iter.fields, iter.pos - 1)
                else count == RequiredBefore(iter.fields, |iter.fields| - 1) && last == iter.fields[|iter.fields| - 1].htype
      decreases more, |iter.fields| - iter.pos
    {
      count := iter.requiredFieldIndex;
      last := iter.fields[iter.pos].htype;
      more := iter.Next();
    }
    if last == Required {
      count := count + 1;
    }
  }

  /** A word of fields_seen equals one whose lowest `ones` bits are set. */
  predicate WordIs(word: seq<bool>, ones: nat) {
    forall k :: 0 <= k < |word| ==> word[k] == (k < ones)
  }

  /** The words are compared whole: that is right because no bit above the last required field is ever
      set. */
  method CheckRequired(count: nat, fieldsSeen: array<bool>) returns (ok: bool)
    requires fieldsSeen.Length == MAX_REQUIRED
    requires forall n :: 0 <= n < MAX_REQUIRED && fieldsSeen[n] ==> n < count
    ensures ok == AllBelow(Min(count, MAX_REQUIRED), Seen(fieldsSeen[..]))
  {
    var limit := if count > MAX_REQUIRED then MAX_REQUIRED else count;
    var bits := fieldsSeen[..];
    var i := 0;
    while i < limit / 32
      invariant 0 <= i <= limit / 32
      invariant forall n :: 0 <= n < 32 * i ==> bits[n]
    {
      if !WordIs(bits[32 * i..32 * i + 32], 32) {
        ghost var n := UnsetBit(bits, i, 32);
        assert n < Min(count, MAX_REQUIRED) && n !in Seen(bits);
        return false;
      }
      WordSet(bits, i, 32);
      i := i + 1;
    }
    if limit % 32 != 0 {
      if !WordIs(bits[32 * i..32 * i + 32], limit % 32) {
        ghost var n := UnsetBit(bits, i, limit % 32);
        assert n < Min(count, MAX_REQUIRED) && n !in Seen(bits);
        return false;
      }
      WordSet(bits, i, limit % 32);
    }
    return true;
  }

  lemma WordSet(bits: seq<bool>, i: nat, ones: nat)
    requires 32 * i + 32 <= |bits| && ones <= 32 && WordIs(bits[32 * i..32 * i + 32], ones)
    ensures forall n :: 32 * i <= n < 32 * i + ones ==> bits[n]
  {
    var word := bits[32 * i..32 * i + 32];
    assert forall n :: 32 * i <= n < 32 * i + 32 ==> bits[n] == word[n - 32 * i];
  }

  lemma UnsetBit(bits: seq<bool>, i: nat, ones: nat) returns (n: nat)
    requires 32 * i + 32 <= |bits| && ones <= 32 && !WordIs(bits[32 * i..32 * i + 32], ones)
    requires forall n :: 32 * i + ones <= n < 32 * i + 32 ==> !bits[n]
    ensures 32 * i <= n < 32 * i + ones && n !in Seen(bits)
  {
    var word := bits[32 * i..32 * i + 32];
    var k :| 0 <= k < 32 && word[k] != (k < ones);
    assert word[k] == bits[32 * i + k];
    n := 32 * i + k;
  }

  /** Only required fields are marked. */
  lemma SeenBelow(fields: seq<Field>, cells: seq<Cell>, zero: bool, b: seq<Byte>)
    requires DecFields(fields, Begin(fields, cells, zero), b).Some?
    ensures forall n :: n in DecFields(fields, Begin(fields, cells, zero), b).value.seen ==> n < RequiredBefore(fields, |fields|)
  {
    hide DecFields, Met, RequiredBefore, MarksExactly;
    var p := Begin(fields, cells, zero);
    SeenIsMet(fields, p, b);
    MarkedBelow(fields, DecFields(fields, p, b).value.seen, Met(fields, p, b));
  }

  lemma MarkedBelow(fields: seq<Field>, seen: set<nat>, met: set<nat>)
    requires MarksExactly(fields, seen, {}, met)
    ensures forall n :: n in seen ==> n < RequiredBefore(fields, |fields|)
  {
    forall n | n in seen
      ensures n < RequiredBefore(fields, |fields|)
    {
      var i :| i in met && i < |fields| && fields[i].htype == Required && RequiredBefore(fields, i) == n;
      RequiredMonotone(fields, i + 1, |fields|);
    }
  }

  lemma NoneSeen(bits: seq<bool>)
    requires forall n :: 0 <= n < |bits| ==> !bits[n]
    ensures Seen(bits) == {}
  {}

  lemma FilledIs(fields: seq<Field>, p: Progress, size: nat)
    requires Counts(fields, p.cells, p.filling, size)
    ensures Filled(fields, p) <==> (p.filling.Some? ==> size == fields[p.filling.value].arraySize)
  {}

  /** pb_decode_noinit, over a structure that was zeroed or not before its defaults were set. */
  method DecodeNoinit(stream: IStream, fields: seq<Field>, cells: seq<Cell>, zero: bool) returns (ok: bool, result: seq<Cell>)
    requires stream.Valid() && DistinctDeep(fields)
    modifies stream
    ensures stream.Valid() && stream.bytesLeft <= old(stream.bytesLeft) && stream.End() <= old(stream.End())
    ensures ok == DecMessage(fields, cells, zero, old(stream.Left())).Some?
    ensures ok ==> DecMessage(fields, cells, zero, old(stream.Left())) == Some(result) && stream.End() == old(stream.End())
    decreases stream.bytesLeft, 4
  {
    hide DecFields, DistinctDeep, Filled, AllBelow;
    var fieldsSeen := new bool[MAX_REQUIRED](i => false);
    var iter := new FieldIter(fields);
    var filling: Option<nat>, size: nat, next: nat;
    NoneSeen(fieldsSeen[..]);
    ok, result, filling, size, next := DecodeLoop(stream, fields, cells, zero, iter, fieldsSeen);
    if !ok {
      return;
    }
    ghost var p := Progress(result, Seen(fieldsSeen[..]), filling, next);
    FilledIs(fields, p, size);
    SeenBelow(fields, cells, zero, old(stream.Left()));
    assert forall n :: 0 <= n < MAX_REQUIRED && fieldsSeen[n] ==> n in p.seen;
    hide Seen;
    if filling.Some? && size != fields[filling.value].arraySize {
      ok := false;
      return;
    }
    var count := CountRequired(iter);
    ok := CheckRequired(count, fieldsSeen);
  }

  /** pb_decode. */
  method DecodeAll(stream: IStream, fields: seq<Field>) returns (ok: bool, result: seq<Cell>)
    requires stream.Valid() && DistinctDeep(fields)
    modifies stream
    ensures stream.Valid()
    ensures ok == Decode(fields, old(stream.Left())).Some?
    ensures ok ==> Decode(fields, old(stream.Left())) == Some(result)
  {
    hide *;
    DecodeIs(fields, stream.Left());
    ok, result := DecodeNoinit(stream, fields, Defaults(fields, |fields|, false), false);
  }

  lemma DecodeIs(fields: seq<Field>, b: seq<Byte>)
    ensures Decode(fields, b) == DecMessage(fields, Defaults(fields, |fields|, false), false, b)
  {}
}
