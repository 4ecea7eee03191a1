/** pb_decode of what pb_encode wrote: what comes back, for every descriptor tree and every message
    that fits it, and exactly when that is the message itself. */
module PbRoundTrip {
  import opened Bytes
  import opened PbWire
  import opened PbFields
  import opened PbMessage
  import opened PbScalars
  import opened PbTransparency

  const TAG_LIMIT := 0x2000_0000

  /** What the generator emits: distinct tags that leave room for the wire type, sizes that fit
      pb_size_t, fixed-count arrays with room, and the same inside submessages. */
  ghost predicate ValidFields(fields: seq<Field>)
    decreases fields
  {
    && DistinctTags(fields)
    && forall i :: 0 <= i < |fields| ==> ValidField(fields[i])
  }

  ghost predicate ValidField(f: Field)
    decreases f
  {
    && 1 <= f.tag < TAG_LIMIT && f.dataSize < TWO32
    && (IsFixedArray(f) ==> f.arraySize > 0)
    && (f.ltype.Submessage? ==> ValidFields(f.ltype.fields))
  }

  /** The message structure can hold the value: integers in range, strings that end within their
      array, no more items than there is room for, unions that hold one of their members. */
  ghost predicate TypedValue(f: Field, v: Value)
    decreases v
  {
    match f.ltype
    case Submessage(fields) => v.Msg? && TypedCells(fields, v.cells)
    case _ => TypedScalar(f, v)
  }

  ghost predicate TypedCell(f: Field, cell: Cell)
    decreases cell
  {
    match f.htype
    case Required => cell.One? && TypedValue(f, cell.v)
    case Optional =>
      if f.HasSize() then cell.Maybe? && (cell.o.Some? ==> TypedValue(f, cell.o.value))
      else cell.One? && TypedValue(f, cell.v)
    case Repeated =>
      && cell.Many? && |cell.items| <= f.arraySize
      && (IsFixedArray(f) ==> |cell.items| == f.arraySize)
      && forall i :: 0 <= i < |cell.items| ==> TypedValue(f, cell.items[i])
    case Oneof => cell.NoChoice? || (cell.Choice? && (cell.which == f.tag ==> TypedValue(f, cell.v)))
  }

  ghost predicate TypedCells(fields: seq<Field>, cells: seq<Cell>)
    decreases cells
  {
    && |cells| == CellCount(fields)
    && (forall i: nat :: i < |fields| ==> CellOf(fields, i) < |cells| && TypedCell(fields[i], cells[CellOf(fields, i)]))
    && (forall c: nat :: c < |cells| && cells[c].Choice? ==> IsMember(fields, c, cells[c].which))
  }

  ghost predicate IsMember(fields: seq<Field>, c: nat, tag: nat) {
    exists i: nat :: i < |fields| && CellOf(fields, i) == c && fields[i].tag == tag
  }

  // ---------- What comes back ----------

  // Where `zero` is set, the structure decoded into was zeroed before its defaults were set.

  function RestoredValue(f: Field, v: Value, peek: Peek, zero: bool): Value
    decreases v, 0
  {
    match f.ltype
    case Submessage(fields) => if v.Msg? then Msg(RestoredCells(fields, v.cells, |fields|, peek, zero)) else v
    case _ => v
  }

  function RestoredItems(f: Field, items: seq<Value>, peek: Peek, zero: bool): (r: seq<Value>)
    ensures |r| == |items|
    decreases items
  {
    if items == [] then [] else [RestoredValue(f, items[0], peek, zero)] + RestoredItems(f, items[1..], peek, zero)
  }

  /** The storage of a field once its encoding has been decoded; a field that was not encoded leaves
      what was there. */
  function RestoredCell(f: Field, cell: Cell, was: Cell, peek: Peek, zero: bool): Cell
    decreases cell
  {
    match f.htype
    case Required => if cell.One? then One(RestoredValue(f, cell.v, peek, zero)) else was
    case Optional =>
      if f.HasSize() then
        if cell.Maybe? && cell.o.Some? then Maybe(Some(RestoredValue(f, cell.o.value, peek, zero))) else was
      else if cell.One? && !IsZeroValue(f, cell.v, peek) then One(RestoredValue(f, cell.v, peek, zero))
      else was
    case Repeated => if cell.Many? && cell.items != [] then Many(RestoredItems(f, cell.items, peek, zero)) else was
    case Oneof => if cell.Choice? && cell.which == f.tag then Choice(f.tag, RestoredValue(f, cell.v, peek, true)) else was
  }

  /** The message once the first n fields have been decoded. */
  function RestoredCells(fields: seq<Field>, cells: seq<Cell>, n: nat, peek: Peek, zero: bool): (r: seq<Cell>)
    requires n <= |fields|
    ensures |r| == CellCount(fields)
    decreases cells, n
  {
    if n == 0 then Defaults(fields, |fields|, zero)
    else
      var r := RestoredCells(fields, cells, n - 1, peek, zero);
      var c := CellOf(fields, n - 1);
      if c < |cells| && c < |r| then r[c := RestoredCell(fields[n - 1], cells[c], r[c], peek, zero)] else r
  }

  /** The cells of fields before n that lie elsewhere do not matter to cell c. */
  lemma {:induction false} Untouched(fields: seq<Field>, cells: seq<Cell>, n: nat, c: nat, peek: Peek, zero: bool)
    requires n <= |fields| && c < CellCount(fields)
    requires forall j: nat :: j < n ==> CellOf(fields, j) != c
    ensures RestoredCells(fields, cells, n, peek, zero)[c] == Defaults(fields, |fields|, zero)[c]
  {
    if n > 0 {
      Untouched(fields, cells, n - 1, c, peek, zero);
    }
  }

  lemma {:induction false} DefaultAt(fields: seq<Field>, i: nat, n: nat, zero: bool)
    requires i < n <= |fields|
    ensures CellOf(fields, i) < |Defaults(fields, n, zero)|
    ensures Defaults(fields, n, zero)[CellOf(fields, i)] == DefaultCell(fields[i], zero)
    decreases n
  {
    if i < n - 1 {
      DefaultAt(fields, i, n - 1, zero);
    } else if Joined(fields, i) {
      DefaultAt(fields, i - 1, n - 1, zero);
    }
  }

  /** When its turn comes, the storage of a field that is in no union holds its default. */
  lemma StartsDefault(fields: seq<Field>, cells: seq<Cell>, n: nat, peek: Peek, zero: bool)
    requires n < |fields| && fields[n].htype != Oneof
    ensures CellOf(fields, n) < CellCount(fields)
    ensures RestoredCells(fields, cells, n, peek, zero)[CellOf(fields, n)] == DefaultCell(fields[n], zero)
  {
    CellInRange(fields, n);
    forall j: nat | j < n
      ensures CellOf(fields, j) != CellOf(fields, n)
    {
      CellShared(fields, j, n);
    }
    Untouched(fields, cells, n, CellOf(fields, n), peek, zero);
    DefaultAt(fields, n, |fields|, zero);
  }

  // ---------- The state of the decoder between fields ----------

  function LastFixed(fields: seq<Field>, n: nat): (r: Option<nat>)
    requires n <= |fields|
    ensures r.Some? ==> r.value < n && IsFixedArray(fields[r.value])
  {
    if n == 0 then None
    else if IsFixedArray(fields[n - 1]) then Some(n - 1)
    else LastFixed(fields, n - 1)
  }

  /** How far the fields on the wire have touched the structure. */
  function Reached(fields: seq<Field>, cells: seq<Cell>, n: nat, peek: Peek, zero: bool): (r: nat)
    requires n <= |fields|
    ensures if zero then r <= n else r == |fields|
  {
    if n == 0 then if zero then 0 else |fields|
    else
      var before, c := Reached(fields, cells, n - 1, peek, zero), CellOf(fields, n - 1);
      if c < |cells| && Encoded(fields[n - 1], cells[c], peek) then Advance(fields, before, n - 1) else before
  }

  function Between(fields: seq<Field>, cells: seq<Cell>, n: nat, peek: Peek, zero: bool): Progress
    requires n <= |fields|
  {
    Progress(RestoredCells(fields, cells, n, peek, zero), Range(0, Min(RequiredBefore(fields, n), MAX_REQUIRED)), LastFixed(fields, n),
             Reached(fields, cells, n, peek, zero))
  }

  /** A fixed-count array stays full once it is decoded. */
  lemma StaysFilled(fields: seq<Field>, cells: seq<Cell>, n: nat, peek: Peek, zero: bool)
    requires n <= |fields| && TypedCells(fields, cells) && ValidFields(fields)
    ensures Filled(fields, Between(fields, cells, n, peek, zero))
  {
    var last := LastFixed(fields, n);
    if last.Some? {
      var i := last.value;
      StartsDefault(fields, cells, i, peek, zero);
      FilledAt(fields, cells, i, peek, zero);
      KeepsCell(fields, cells, i, n, peek, zero);
    }
  }

  lemma FilledAt(fields: seq<Field>, cells: seq<Cell>, i: nat, peek: Peek, zero: bool)
    requires i < |fields| && IsFixedArray(fields[i]) && TypedCells(fields, cells) && ValidFields(fields)
    ensures CellOf(fields, i) < CellCount(fields)
    ensures |ItemsOf(RestoredCells(fields, cells, i + 1, peek, zero)[CellOf(fields, i)])| == fields[i].arraySize
  {
    CellInRange(fields, i);
    assert TypedCell(fields[i], cells[CellOf(fields, i)]);
    assert ValidField(fields[i]);
  }

  /** Later fields leave the cell of a field that is in no union alone. */
  lemma {:induction false} KeepsCell(fields: seq<Field>, cells: seq<Cell>, i: nat, n: nat, peek: Peek, zero: bool)
    requires i < n <= |fields| && fields[i].htype != Oneof
    ensures CellOf(fields, i) < CellCount(fields)
    ensures RestoredCells(fields, cells, n, peek, zero)[CellOf(fields, i)] == RestoredCells(fields, cells, i + 1, peek, zero)[CellOf(fields, i)]
    decreases n
  {
    CellInRange(fields, i);
    if i + 1 < n {
      KeepsCell(fields, cells, i, n - 1, peek, zero);
      CellShared(fields, i, n - 1);
    }
  }

  // ---------- One field after another ----------

  /** A described tag is found, and its field is decoded. */
  lemma FieldTurn(fields: seq<Field>, p: Progress, i: nat, wireType: nat, b: seq<Byte>)
    requires ValidFields(fields) && i < |fields| && wireType < 8
    requires DecField(fields, p, i, wireType, b).Good?
    ensures var r := DecField(fields, p, i, wireType, b);
            Steps(fields, p, TagBytes(wireType, fields[i].tag) + b) == Steps(fields, r.value, r.rest)
  {
    hide DecField, VarintBytes, Varint32;
    assert ValidField(fields[i]);
    var key := 8 * fields[i].tag + wireType;
    VarintRoundTrip(key, []);
    Varint32RoundTrip(key, b);
    var tag := key / 8;
    assert tag == fields[i].tag && key % 8 == wireType;
    var found := FindIn(fields, 0, |fields|, tag);
    assert found == i;
  }

  /** The required index that field n adds. */
  lemma SeenGrows(fields: seq<Field>, n: nat)
    requires n < |fields|
    ensures var was := Range(0, Min(RequiredBefore(fields, n), MAX_REQUIRED));
            Range(0, Min(RequiredBefore(fields, n + 1), MAX_REQUIRED))
            == if fields[n].htype == Required && RequiredBefore(fields, n) < MAX_REQUIRED then was + {RequiredBefore(fields, n)} else was
  {}

  /** decode_static_field for a single value. */
  lemma DecodesSingle(fields: seq<Field>, p: Progress, n: nat, b: seq<Byte>, v: Value, rest: seq<Byte>)
    requires n < |fields| && CellOf(fields, n) < |p.cells| && fields[n].htype != Repeated
    requires var f, zero := fields[n], n >= p.next;
             DecValue(f, Base(f, p.cells[CellOf(fields, n)], zero), StartsZero(f, zero), b) == Good(v, rest)
    ensures var f, c := fields[n], CellOf(fields, n);
            var seen := if f.htype == Required && RequiredBefore(fields, n) < MAX_REQUIRED then p.seen + {RequiredBefore(fields, n)}
                        else p.seen;
            DecField(fields, p, n, WireType(f.ltype), b)
            == Good(Progress(p.cells[c := Stored(f, p.cells[c], v)], seen, p.filling, Advance(fields, p.next, n)), rest)
  {
    hide DecValue, Stored, Base, Filled, DefaultValue;
  }

  /** decode_static_field for one item of an array under its own key. */
  lemma DecodesItem(fields: seq<Field>, p: Progress, n: nat, b: seq<Byte>, v: Value, rest: seq<Byte>)
    requires n < |fields| && CellOf(fields, n) < |p.cells| && fields[n].htype == Repeated
    requires |ItemsOf(p.cells[CellOf(fields, n)])| < fields[n].arraySize
    requires IsFixedArray(fields[n]) ==> p.filling == Some(n)
    requires DecValue(fields[n], DefaultValue(fields[n], n >= p.next), n >= p.next, b) == Good(v, rest)
    ensures var c := CellOf(fields, n);
            DecField(fields, p, n, WireType(fields[n].ltype), b)
            == Good(p.(cells := p.cells[c := Many(ItemsOf(p.cells[c]) + [v])], next := Advance(fields, p.next, n)), rest)
  {
    hide DecValue, Filled, DefaultValue;
  }

  /** What decoding a single value makes of the state between fields. */
  lemma SingleStep(fields: seq<Field>, cells: seq<Cell>, n: nat, v: Value, peek: Peek, zero: bool)
    requires TypedCells(fields, cells) && n < |fields|
    requires var f, cell := fields[n], cells[CellOf(fields, n)];
             && f.htype != Repeated
             && RestoredCell(f, cell, DefaultCell(f, zero), peek, zero) == Stored(f, DefaultCell(f, zero), RestoredValue(f, v, peek, StartsZero(f, zero)))
             && (f.htype == Oneof ==> cell == Choice(f.tag, v))
             && Encoded(f, cell, peek)
    ensures var p, f, c := Between(fields, cells, n, peek, zero), fields[n], CellOf(fields, n);
            && c < |p.cells| && Base(f, p.cells[c], zero) == DefaultValue(f, StartsZero(f, zero))
            && Between(fields, cells, n + 1, peek, zero)
               == Progress(p.cells[c := Stored(f, p.cells[c], RestoredValue(f, v, peek, StartsZero(f, zero)))],
                           if f.htype == Required && RequiredBefore(fields, n) < MAX_REQUIRED then p.seen + {RequiredBefore(fields, n)} else p.seen,
                           p.filling, Advance(fields, p.next, n))
  {
    hide *;
    BetweenStep(fields, cells, n, peek, zero);
    SingleCell(fields[n], cells[CellOf(fields, n)], Between(fields, cells, n, peek, zero).cells[CellOf(fields, n)], v, peek, zero);
  }

  lemma SingleCell(f: Field, cell: Cell, was: Cell, v: Value, peek: Peek, zero: bool)
    requires f.htype != Repeated && (f.htype != Oneof ==> was == DefaultCell(f, zero))
    requires RestoredCell(f, cell, DefaultCell(f, zero), peek, zero) == Stored(f, DefaultCell(f, zero), RestoredValue(f, v, peek, StartsZero(f, zero)))
    requires f.htype == Oneof ==> cell == Choice(f.tag, v)
    ensures RestoredCell(f, cell, was, peek, zero) == Stored(f, was, RestoredValue(f, v, peek, StartsZero(f, zero)))
    ensures Base(f, was, zero) == DefaultValue(f, StartsZero(f, zero)) && !IsFixedArray(f)
  {
    hide RestoredValue, DefaultValue, IsZeroValue;
  }

  /** How the state between fields advances over field n. */
  lemma BetweenStep(fields: seq<Field>, cells: seq<Cell>, n: nat, peek: Peek, zero: bool)
    requires TypedCells(fields, cells) && n < |fields|
    ensures var p, q, f, c := Between(fields, cells, n, peek, zero), Between(fields, cells, n + 1, peek, zero), fields[n], CellOf(fields, n);
            && c < |p.cells| == |cells|
            && (f.htype != Oneof ==> p.cells[c] == DefaultCell(f, zero))
            && q == Progress(p.cells[c := RestoredCell(f, cells[c], p.cells[c], peek, zero)],
                             if f.htype == Required && RequiredBefore(fields, n) < MAX_REQUIRED then p.seen + {RequiredBefore(fields, n)} else p.seen,
                             if IsFixedArray(f) then Some(n) else p.filling,
                             if Encoded(f, cells[c], peek) then Advance(fields, p.next, n) else p.next)
            && (n >= p.next <==> zero)
  {
    CellInRange(fields, n);
    SeenGrows(fields, n);
    SameSize(fields, cells);
    if fields[n].htype != Oneof {
      StartsDefault(fields, cells, n, peek, zero);
    }
    hide RestoredValue, RestoredCell, TypedCells, Range, DefaultValue, DefaultCell, Defaults, CellCount, CellOf, RequiredBefore, Encoded, Advance;
  }

  lemma SameSize(fields: seq<Field>, cells: seq<Cell>)
    requires TypedCells(fields, cells)
    ensures |cells| == CellCount(fields)
  {}

  /** A field with one value, under its tag. */
  lemma SingleTurn(fields: seq<Field>, cells: seq<Cell>, n: nat, v: Value, peek: Peek, zero: bool, e: seq<Byte>, rest: seq<Byte>)
    requires ValidFields(fields) && TypedCells(fields, cells) && n < |fields| && TypedValue(fields[n], v)
    requires var f, cell := fields[n], cells[CellOf(fields, n)];
             && f.htype != Repeated
             && RestoredCell(f, cell, DefaultCell(f, zero), peek, zero) == Stored(f, DefaultCell(f, zero), RestoredValue(f, v, peek, StartsZero(f, zero)))
             && (f.htype == Oneof ==> cell == Choice(f.tag, v))
             && Encoded(f, cell, peek)
    requires Tagged(fields[n], EncValue(fields[n], v, peek)) == Some(e) && |e| < TWO32
    ensures Steps(fields, Between(fields, cells, n, peek, zero), e + rest)
            == Steps(fields, Between(fields, cells, n + 1, peek, zero), rest)
    decreases v, 1
  {
    hide *;
    var f := fields[n];
    var p := Between(fields, cells, n, peek, zero);
    var payload := TaggedIs(f, v, peek, e);
    ValidAt(fields, n);
    ValueRoundTrip(f, v, peek, StartsZero(f, zero), payload, rest);
    BetweenStep(fields, cells, n, peek, zero);
    SingleStep(fields, cells, n, v, peek, zero);
    DecodesSingle(fields, p, n, payload + rest, RestoredValue(f, v, peek, StartsZero(f, zero)), rest);
    WireTypes(f.ltype);
    FieldTurn(fields, p, n, WireType(f.ltype), payload + rest);
    assert e + rest == TagBytes(WireType(f.ltype), f.tag) + (payload + rest);
  }

  lemma TaggedIs(f: Field, v: Value, peek: Peek, e: seq<Byte>) returns (payload: seq<Byte>)
    requires Tagged(f, EncValue(f, v, peek)) == Some(e)
    ensures EncValue(f, v, peek) == Some(payload) && e == TagBytes(WireType(f.ltype), f.tag) + payload
  {
    payload := EncValue(f, v, peek).value;
  }

  lemma ValidAt(fields: seq<Field>, n: nat)
    requires ValidFields(fields) && n < |fields|
    ensures ValidField(fields[n])
  {}

  lemma ValueRoundTrip(f: Field, v: Value, peek: Peek, zero: bool, e: seq<Byte>, tail: seq<Byte>)
    requires ValidField(f) && TypedValue(f, v)
    requires EncValue(f, v, peek) == Some(e) && |e| < TWO32
    ensures DecValue(f, DefaultValue(f, zero), zero, e + tail) == Good(RestoredValue(f, v, peek, zero), tail)
    decreases v, 0
  {
    match f.ltype
    case Submessage(fields) =>
      var body := EncFields(fields, v.cells, 0, peek).value;
      DelimitedRoundTrip(body, tail);
      MessageRoundTrip(fields, v.cells, peek, zero, body);
    case _ =>
      ScalarRoundTrip(f, v, tail);
  }

  lemma Regrouped(a: seq<Byte>, b: seq<Byte>, c: seq<Byte>, d: seq<Byte>)
    ensures (a + (b + c)) + d == a + (b + (c + d))
  {}

  lemma ItemsSplit(f: Field, items: seq<Value>, peek: Peek, zero: bool, e: seq<Byte>) returns (payload: seq<Byte>, more: seq<Byte>)
    requires EncItems(f, items, peek) == Some(e) && items != []
    ensures EncValue(f, items[0], peek) == Some(payload) && EncItems(f, items[1..], peek) == Some(more)
    ensures e == TagBytes(WireType(f.ltype), f.tag) + (payload + more)
    ensures RestoredItems(f, items, peek, zero) == [RestoredValue(f, items[0], peek, zero)] + RestoredItems(f, items[1..], peek, zero)
  {
    payload, more := EncValue(f, items[0], peek).value, EncItems(f, items[1..], peek).value;
  }

  /** The items of one array do not get in each other's way. */
  lemma AdvanceAgain(fields: seq<Field>, next: nat, n: nat)
    requires n < |fields| && fields[n].htype == Repeated
    ensures var a := Advance(fields, next, n);
            Advance(fields, a, n) == a && (n >= a <==> n >= next)
  {}

  /** An array whose items come one by one, each under the tag, after those already done. */
  lemma {:induction false} ItemsTurns(fields: seq<Field>, p: Progress, n: nat, done: seq<Value>, items: seq<Value>, peek: Peek, zero: bool,
                                      e: seq<Byte>, rest: seq<Byte>)
    requires ValidFields(fields) && n < |fields| && fields[n].htype == Repeated
    requires ValidField(fields[n]) && (zero <==> n >= p.next)
    requires CellOf(fields, n) < |p.cells| && ItemsOf(p.cells[CellOf(fields, n)]) == done && |done| + |items| <= fields[n].arraySize
    requires IsFixedArray(fields[n]) ==> p.filling == Some(n)
    requires forall i :: 0 <= i < |items| ==> TypedValue(fields[n], items[i])
    requires EncItems(fields[n], items, peek) == Some(e) && |e| < TWO32 && items != []
    ensures Steps(fields, p, e + rest)
            == Steps(fields, p.(cells := p.cells[CellOf(fields, n) := Many(done + RestoredItems(fields[n], items, peek, zero))],
                                next := Advance(fields, p.next, n)), rest)
    decreases items, 0
  {
    hide *;
    var f, c := fields[n], CellOf(fields, n);
    var payload, more := ItemsSplit(f, items, peek, zero, e);
    ValueRoundTrip(f, items[0], peek, zero, payload, more + rest);
    var v := RestoredValue(f, items[0], peek, zero);
    var q := p.(cells := p.cells[c := Many(done + [v])], next := Advance(fields, p.next, n));
    AdvanceAgain(fields, p.next, n);
    DecodesItem(fields, p, n, payload + (more + rest), v, more + rest);
    WireTypes(f.ltype);
    FieldTurn(fields, p, n, WireType(f.ltype), payload + (more + rest));
    Regrouped(TagBytes(WireType(f.ltype), f.tag), payload, more, rest);
    assert Steps(fields, p, e + rest) == Steps(fields, q, more + rest);
    var tail := RestoredItems(f, items[1..], peek, zero);
    assert done + RestoredItems(f, items, peek, zero) == (done + [v]) + tail;
    if items[1..] == [] {
      NoItems(f, peek, zero);
      assert more + rest == rest;
      assert (done + [v]) + tail == done + [v];
    } else {
      IsDone(done + [v]);
      ItemsTurns(fields, q, n, done + [v], items[1..], peek, zero, more, rest);
      assert q.cells[c := Many((done + [v]) + tail)] == p.cells[c := Many((done + [v]) + tail)];
    }
  }

  lemma StringType()
    ensures 0 <= WT_STRING < 8
  {}

  lemma WireTypes(l: Ltype)
    ensures WireType(l) < 8
  {}

  lemma NoItems(f: Field, peek: Peek, zero: bool)
    ensures EncItems(f, [], peek) == Some([]) && RestoredItems(f, [], peek, zero) == []
  {}

  lemma IsDone(done: seq<Value>)
    ensures ItemsOf(Many(done)) == done
  {}

  /** Scalars come back as they are. */
  lemma {:induction false} ScalarsRestored(f: Field, items: seq<Value>, peek: Peek, zero: bool)
    requires !f.ltype.Submessage?
    ensures RestoredItems(f, items, peek, zero) == items
  {
    if items != [] {
      ScalarsRestored(f, items[1..], peek, zero);
    }
  }

  /** The state in which the first item of array n is decoded: a fixed-count array starts afresh. */
  function Opened(fields: seq<Field>, p: Progress, n: nat): Progress
    requires n < |fields| && CellOf(fields, n) < |p.cells|
  {
    if IsFixedArray(fields[n]) then p.(cells := p.cells[CellOf(fields, n) := Many([])], filling := Some(n)) else p
  }

  lemma OpensArray(fields: seq<Field>, p: Progress, n: nat, wireType: nat, b: seq<Byte>)
    requires ValidFields(fields) && n < |fields| && wireType < 8 && CellOf(fields, n) < |p.cells| && fields[n].htype == Repeated
    requires IsFixedArray(fields[n]) ==> Filled(fields, p) && p.filling != Some(n)
    requires DecField(fields, Opened(fields, p, n), n, wireType, b).Good?
    ensures Steps(fields, p, TagBytes(wireType, fields[n].tag) + b)
            == Steps(fields, Opened(fields, p, n), TagBytes(wireType, fields[n].tag) + b)
  {
    OpensField(fields, p, n, wireType, b);
    hide *;
    FieldTurn(fields, p, n, wireType, b);
    FieldTurn(fields, Opened(fields, p, n), n, wireType, b);
  }

  lemma OpensField(fields: seq<Field>, p: Progress, n: nat, wireType: nat, b: seq<Byte>)
    requires n < |fields| && CellOf(fields, n) < |p.cells| && fields[n].htype == Repeated
    requires IsFixedArray(fields[n]) ==> Filled(fields, p) && p.filling != Some(n)
    ensures DecField(fields, Opened(fields, p, n), n, wireType, b) == DecField(fields, p, n, wireType, b)
  {
    hide StaticField, Filled, CellOf;
    var r := StaticField(fields[n], Many([]), n >= p.next, wireType, b);
    if IsFixedArray(fields[n]) && r.Good? {
      Overwrites(p.cells, CellOf(fields, n), Many([]), r.value);
    }
  }

  lemma Overwrites(cells: seq<Cell>, c: nat, x: Cell, y: Cell)
    requires c < |cells|
    ensures cells[c := x][c := y] == cells[c := y]
  {}

  /** A packed array, all at once, after the items already there. */
  lemma DecodesPacked(fields: seq<Field>, p: Progress, n: nat, done: seq<Value>, items: seq<Value>, body: seq<Byte>, rest: seq<Byte>)
    requires n < |fields| && CellOf(fields, n) < |p.cells| && fields[n].htype == Repeated && fields[n].ltype.Packable()
    requires ItemsOf(p.cells[CellOf(fields, n)]) == done && (IsFixedArray(fields[n]) ==> p.filling == Some(n))
    requires |body| < TWO32 && DecPacked(fields[n], done, body) == Some(items)
    ensures DecField(fields, p, n, WT_STRING, Delimited(body) + rest)
            == Good(p.(cells := p.cells[CellOf(fields, n) := Many(items)], next := Advance(fields, p.next, n)), rest)
  {
    hide Delimited, DecValue, DecPacked, Substring, Filled, DefaultValue, CellOf;
    DelimitedRoundTrip(body, rest);
  }

  lemma PackedBody(f: Field, items: seq<Value>, peek: Peek, e: seq<Byte>) returns (body: seq<Byte>)
    requires f.ltype.Packable() && items != [] && ValidField(f)
    requires EncArray(f, items, peek) == Some(e) && forall i :: 0 <= i < |items| ==> TypedValue(f, items[i])
    ensures e == TagBytes(WT_STRING, f.tag) + Delimited(body) && |body| <= |e|
    ensures DecPacked(f, [], body) == Some(items)
  {
    body := EncPacked(f, items).value;
    PackedRoundTrip(f, [], items);
    assert [] + items == items;
  }

  lemma PackedTurn(fields: seq<Field>, p: Progress, n: nat, items: seq<Value>, peek: Peek, e: seq<Byte>, rest: seq<Byte>)
    requires ValidFields(fields) && n < |fields| && fields[n].htype == Repeated && fields[n].ltype.Packable() && items != []
    requires CellOf(fields, n) < |p.cells| && (IsFixedArray(fields[n]) ==> Filled(fields, p) && p.filling != Some(n))
    requires !IsFixedArray(fields[n]) ==> p.cells[CellOf(fields, n)] == Many([])
    requires EncArray(fields[n], items, peek) == Some(e) && forall i :: 0 <= i < |items| ==> TypedValue(fields[n], items[i])
    requires |e| < TWO32
    ensures Steps(fields, p, e + rest)
            == Steps(fields, Finished(fields, p, n, items), rest)
  {
    hide *;
    ValidAt(fields, n);
    var body := PackedBody(fields[n], items, peek, e);
    PackedBodyTurn(fields, p, n, items, body, rest);
    StringType();
    assert e + rest == TagBytes(WT_STRING, fields[n].tag) + (Delimited(body) + rest);
  }

  lemma PackedBodyTurn(fields: seq<Field>, p: Progress, n: nat, items: seq<Value>, body: seq<Byte>, rest: seq<Byte>)
    requires ValidFields(fields) && n < |fields| && fields[n].htype == Repeated && fields[n].ltype.Packable()
    requires CellOf(fields, n) < |p.cells| && (IsFixedArray(fields[n]) ==> Filled(fields, p) && p.filling != Some(n))
    requires !IsFixedArray(fields[n]) ==> p.cells[CellOf(fields, n)] == Many([])
    requires |body| < TWO32 && DecPacked(fields[n], [], body) == Some(items)
    ensures Steps(fields, p, TagBytes(WT_STRING, fields[n].tag) + (Delimited(body) + rest))
            == Steps(fields, Finished(fields, p, n, items), rest)
  {
    hide *;
    OpenedIs(fields, p, n);
    var o := Opened(fields, p, n);
    FinishedIs(fields, p, n, items);
    StringType();
    DecodesPacked(fields, o, n, [], items, body, rest);
    OpensArray(fields, p, n, WT_STRING, Delimited(body) + rest);
    FieldTurn(fields, o, n, WT_STRING, Delimited(body) + rest);
  }

  /** The state after array n. */
  function Finished(fields: seq<Field>, p: Progress, n: nat, items: seq<Value>): Progress
    requires n < |fields| && CellOf(fields, n) < |p.cells|
  {
    Progress(p.cells[CellOf(fields, n) := Many(items)], p.seen, if IsFixedArray(fields[n]) then Some(n) else p.filling,
             Advance(fields, p.next, n))
  }

  lemma OpenedIs(fields: seq<Field>, p: Progress, n: nat)
    requires n < |fields| && CellOf(fields, n) < |p.cells| && (!IsFixedArray(fields[n]) ==> p.cells[CellOf(fields, n)] == Many([]))
    ensures var o := Opened(fields, p, n);
            && |o.cells| == |p.cells| && ItemsOf(o.cells[CellOf(fields, n)]) == []
            && (IsFixedArray(fields[n]) ==> o.filling == Some(n)) && o.next == p.next
  {}

  lemma FinishedIs(fields: seq<Field>, p: Progress, n: nat, items: seq<Value>)
    requires n < |fields| && CellOf(fields, n) < |p.cells|
    ensures var o := Opened(fields, p, n);
            o.(cells := o.cells[CellOf(fields, n) := Many(items)], next := Advance(fields, o.next, n)) == Finished(fields, p, n, items)
  {}

  /** An array whose items come one by one. */
  lemma UnpackedTurns(fields: seq<Field>, p: Progress, n: nat, items: seq<Value>, peek: Peek, zero: bool, e: seq<Byte>, rest: seq<Byte>)
    requires ValidFields(fields) && n < |fields| && fields[n].htype == Repeated && items != []
    requires CellOf(fields, n) < |p.cells| && (IsFixedArray(fields[n]) ==> Filled(fields, p) && p.filling != Some(n))
    requires !IsFixedArray(fields[n]) ==> p.cells[CellOf(fields, n)] == Many([])
    requires zero <==> n >= p.next
    requires EncItems(fields[n], items, peek) == Some(e) && forall i :: 0 <= i < |items| ==> TypedValue(fields[n], items[i])
    requires |e| < TWO32 && |items| <= fields[n].arraySize
    ensures Steps(fields, p, e + rest)
            == Steps(fields, Finished(fields, p, n, RestoredItems(fields[n], items, peek, zero)), rest)
    decreases items, 1
  {
    hide *;
    var f, c := fields[n], CellOf(fields, n);
    ValidAt(fields, n);
    OpenedIs(fields, p, n);
    var o := Opened(fields, p, n);
    FinishedIs(fields, p, n, RestoredItems(f, items, peek, zero));
    ItemsTurns(fields, o, n, [], items, peek, zero, e, rest);
    OpensItems(fields, p, n, items, peek, zero, e, rest);
    assert [] + RestoredItems(f, items, peek, zero) == RestoredItems(f, items, peek, zero);
  }

  /** The first item opens the array. */
  lemma OpensItems(fields: seq<Field>, p: Progress, n: nat, items: seq<Value>, peek: Peek, zero: bool, e: seq<Byte>, rest: seq<Byte>)
    requires ValidFields(fields) && n < |fields| && fields[n].htype == Repeated
    requires ValidField(fields[n]) && items != [] && |items| <= fields[n].arraySize && TypedValue(fields[n], items[0])
    requires CellOf(fields, n) < |p.cells| && (IsFixedArray(fields[n]) ==> Filled(fields, p) && p.filling != Some(n))
    requires !IsFixedArray(fields[n]) ==> p.cells[CellOf(fields, n)] == Many([])
    requires zero <==> n >= p.next
    requires EncItems(fields[n], items, peek) == Some(e) && |e| < TWO32
    ensures Steps(fields, p, e + rest) == Steps(fields, Opened(fields, p, n), e + rest)
    decreases items, 0
  {
    hide *;
    var f, o := fields[n], Opened(fields, p, n);
    OpenedIs(fields, p, n);
    var payload, more := ItemsSplit(f, items, peek, zero, e);
    ValueRoundTrip(f, items[0], peek, zero, payload, more + rest);
    DecodesItem(fields, o, n, payload + (more + rest), RestoredValue(f, items[0], peek, zero), more + rest);
    WireTypes(f.ltype);
    OpensArray(fields, p, n, WireType(f.ltype), payload + (more + rest));
    Regrouped(TagBytes(WireType(f.ltype), f.tag), payload, more, rest);
  }

  lemma NotYetFilling(fields: seq<Field>, cells: seq<Cell>, n: nat, peek: Peek, zero: bool)
    requires n < |fields|
    ensures Between(fields, cells, n, peek, zero).filling != Some(n)
  {}

  lemma ArrayTurns(fields: seq<Field>, cells: seq<Cell>, n: nat, items: seq<Value>, peek: Peek, zero: bool, e: seq<Byte>, rest: seq<Byte>)
    requires ValidFields(fields) && TypedCells(fields, cells) && n < |fields| && fields[n].htype == Repeated
    requires CellOf(fields, n) < |cells| && cells[CellOf(fields, n)] == Many(items) && items != []
    requires TypedCell(fields[n], Many(items)) && EncArray(fields[n], items, peek) == Some(e) && |e| < TWO32
    ensures Steps(fields, Between(fields, cells, n, peek, zero), e + rest)
            == Steps(fields, Between(fields, cells, n + 1, peek, zero), rest)
    decreases items, 2
  {
    var f := fields[n];
    var p := Between(fields, cells, n, peek, zero);
    StaysFilled(fields, cells, n, peek, zero);
    BetweenStep(fields, cells, n, peek, zero);
    NotYetFilling(fields, cells, n, peek, zero);
    ArrayFinishes(fields, cells, n, items, peek, zero);
    ArrayItems(f, items);
    ArrayStarts(f, zero);
    var unpacked := !f.ltype.Packable();
    assert unpacked ==> EncItems(f, items, peek) == Some(e);
    hide *;
    if f.ltype.Packable() {
      NotSubmessage(f.ltype);
      ScalarsRestored(f, items, peek, zero);
      PackedTurn(fields, p, n, items, peek, e, rest);
    } else {
      UnpackedTurns(fields, p, n, items, peek, zero, e, rest);
    }
  }

  lemma NotSubmessage(l: Ltype)
    requires l.Packable()
    ensures !l.Submessage?
  {}

  lemma ArrayStarts(f: Field, zero: bool)
    requires f.htype == Repeated
    ensures !IsFixedArray(f) ==> DefaultCell(f, zero) == Many([])
  {}

  lemma ArrayItems(f: Field, items: seq<Value>)
    requires TypedCell(f, Many(items)) && f.htype == Repeated
    ensures |items| <= f.arraySize && forall i :: 0 <= i < |items| ==> TypedValue(f, items[i])
  {}

  lemma ArrayFinishes(fields: seq<Field>, cells: seq<Cell>, n: nat, items: seq<Value>, peek: Peek, zero: bool)
    requires TypedCells(fields, cells) && n < |fields| && fields[n].htype == Repeated
    requires CellOf(fields, n) < |cells| && cells[CellOf(fields, n)] == Many(items) && items != []
    ensures CellOf(fields, n) < |Between(fields, cells, n, peek, zero).cells|
    ensures Between(fields, cells, n + 1, peek, zero)
            == Finished(fields, Between(fields, cells, n, peek, zero), n, RestoredItems(fields[n], items, peek, zero))
  {
    hide *;
    BetweenStep(fields, cells, n, peek, zero);
    ArrayEncoded(fields[n], items, peek);
    ArrayRestored(fields[n], items, Between(fields, cells, n, peek, zero).cells[CellOf(fields, n)], peek, zero);
    FinishedHas(fields, Between(fields, cells, n, peek, zero), n, RestoredItems(fields[n], items, peek, zero));
  }

  lemma ArrayEncoded(f: Field, items: seq<Value>, peek: Peek)
    requires f.htype == Repeated && items != []
    ensures Encoded(f, Many(items), peek)
  {}

  lemma FinishedHas(fields: seq<Field>, p: Progress, n: nat, items: seq<Value>)
    requires n < |fields| && CellOf(fields, n) < |p.cells|
    ensures Finished(fields, p, n, items)
            == Progress(p.cells[CellOf(fields, n) := Many(items)], p.seen, if IsFixedArray(fields[n]) then Some(n) else p.filling,
                        Advance(fields, p.next, n))
  {}

  lemma ArrayRestored(f: Field, items: seq<Value>, was: Cell, peek: Peek, zero: bool)
    requires f.htype == Repeated && items != []
    ensures RestoredCell(f, Many(items), was, peek, zero) == Many(RestoredItems(f, items, peek, zero))
  {}

  /** A field that is encoded as nothing leaves everything as it was. */
  lemma NothingTurn(fields: seq<Field>, cells: seq<Cell>, n: nat, peek: Peek, zero: bool)
    requires ValidFields(fields) && TypedCells(fields, cells) && n < |fields|
    requires CellOf(fields, n) < |cells| && TypedCell(fields[n], cells[CellOf(fields, n)])
    requires !Encoded(fields[n], cells[CellOf(fields, n)], peek)
    ensures Between(fields, cells, n + 1, peek, zero) == Between(fields, cells, n, peek, zero)
  {
    var f, c, p := fields[n], CellOf(fields, n), Between(fields, cells, n, peek, zero);
    BetweenStep(fields, cells, n, peek, zero);
    ValidAt(fields, n);
    assert RestoredCell(f, cells[c], p.cells[c], peek, zero) == p.cells[c] && f.htype != Required && !IsFixedArray(f) by {
      hide RestoredValue, IsZeroValue, TypedValue, Between;
    }
    hide *;
    assert p.cells[c := p.cells[c]] == p.cells;
  }

  /** The field appears on the wire. */
  predicate Encoded(f: Field, cell: Cell, peek: Peek) {
    match f.htype
    case Required => true
    case Optional =>
      if f.HasSize() then cell.Maybe? && cell.o.Some? else cell.One? && !IsZeroValue(f, cell.v, peek)
    case Repeated => cell.Many? && cell.items != []
    case Oneof => cell.Choice? && cell.which == f.tag
  }

  /** The single value of a field that appears on the wire. */
  function TheValue(cell: Cell): Value {
    match cell
    case One(v) => v
    case Maybe(Some(v)) => v
    case Choice(_, v) => v
    case _ => Int(0)
  }

  lemma EncodedSingle(f: Field, cell: Cell, peek: Peek, zero: bool, e: seq<Byte>)
    requires TypedCell(f, cell) && Encoded(f, cell, peek) && f.htype != Repeated && EncCell(f, cell, peek) == Some(e)
    ensures var v := TheValue(cell);
            && TypedValue(f, v) && Tagged(f, EncValue(f, v, peek)) == Some(e)
            && RestoredCell(f, cell, DefaultCell(f, zero), peek, zero) == Stored(f, DefaultCell(f, zero), RestoredValue(f, v, peek, StartsZero(f, zero)))
            && (f.htype == Oneof ==> cell == Choice(f.tag, v))
  {
    hide RestoredValue, EncValue, TypedValue, DefaultValue;
  }

  lemma ValueIsSmaller(cell: Cell)
    requires cell.One? || cell.Choice? || (cell.Maybe? && cell.o.Some?)
    ensures cell.One? ==> TheValue(cell) == cell.v
    ensures cell.Choice? ==> TheValue(cell) == cell.v
    ensures cell.Maybe? ==> TheValue(cell) == cell.o.value
  {}

  lemma EncodedNothing(f: Field, cell: Cell, peek: Peek)
    requires TypedCell(f, cell) && !Encoded(f, cell, peek)
    ensures EncCell(f, cell, peek) == Some([])
  {
    hide EncValue, TypedValue;
  }

  lemma EncodedArray(f: Field, cell: Cell, peek: Peek, e: seq<Byte>)
    requires TypedCell(f, cell) && Encoded(f, cell, peek) && f.htype == Repeated && EncCell(f, cell, peek) == Some(e)
    ensures cell.Many? && cell.items != [] && EncArray(f, cell.items, peek) == Some(e)
  {
    hide TypedValue, EncArray;
  }

  lemma EncodedShape(f: Field, cell: Cell, peek: Peek)
    requires TypedCell(f, cell) && Encoded(f, cell, peek) && f.htype != Repeated
    ensures cell.One? || cell.Choice? || (cell.Maybe? && cell.o.Some?)
  {
    hide TypedValue, IsZeroValue;
  }

  lemma TypedAt(fields: seq<Field>, cells: seq<Cell>, n: nat)
    requires TypedCells(fields, cells) && n < |fields|
    ensures CellOf(fields, n) < |cells| && TypedCell(fields[n], cells[CellOf(fields, n)])
  {}

  /** Decoding one field's bytes takes the state between fields one field further. */
  lemma CellTurns(fields: seq<Field>, cells: seq<Cell>, n: nat, cell: Cell, peek: Peek, zero: bool, e: seq<Byte>, rest: seq<Byte>)
    requires ValidFields(fields) && TypedCells(fields, cells) && n < |fields|
    requires CellOf(fields, n) < |cells| && cell == cells[CellOf(fields, n)]
    requires EncCell(fields[n], cell, peek) == Some(e) && |e| < TWO32
    ensures Steps(fields, Between(fields, cells, n, peek, zero), e + rest)
            == Steps(fields, Between(fields, cells, n + 1, peek, zero), rest)
    decreases cell
  {
    hide *;
    var f := fields[n];
    TypedAt(fields, cells, n);
    if !Encoded(f, cell, peek) {
      EncodedNothing(f, cell, peek);
      NothingTurn(fields, cells, n, peek, zero);
      assert e + rest == rest;
    } else if f.htype == Repeated {
      EncodedArray(f, cell, peek, e);
      assert cell == Many(cell.items);
      ArrayTurns(fields, cells, n, cell.items, peek, zero, e, rest);
    } else {
      EncodedSingle(f, cell, peek, zero, e);
      EncodedShape(f, cell, peek);
      ValueIsSmaller(cell);
      if cell.Maybe? {
        SingleTurn(fields, cells, n, cell.o.value, peek, zero, e, rest);
      } else {
        SingleTurn(fields, cells, n, cell.v, peek, zero, e, rest);
      }
    }
  }

  lemma FieldsSplit(fields: seq<Field>, cells: seq<Cell>, n: nat, peek: Peek, e: seq<Byte>) returns (first: seq<Byte>, more: seq<Byte>)
    requires n < |fields| && EncFields(fields, cells, n, peek) == Some(e)
    ensures CellOf(fields, n) < |cells| && EncCell(fields[n], cells[CellOf(fields, n)], peek) == Some(first)
    ensures EncFields(fields, cells, n + 1, peek) == Some(more) && e == first + more
  {
    first := EncCell(fields[n], cells[CellOf(fields, n)], peek).value;
    more := EncFields(fields, cells, n + 1, peek).value;
  }

  lemma NoFieldsLeft(fields: seq<Field>, cells: seq<Cell>, peek: Peek, p: Progress)
    ensures EncFields(fields, cells, |fields|, peek) == Some([]) && Steps(fields, p, []) == Some(p)
  {}

  lemma {:induction false} FieldsRoundTrip(fields: seq<Field>, cells: seq<Cell>, n: nat, peek: Peek, zero: bool, e: seq<Byte>)
    requires ValidFields(fields) && TypedCells(fields, cells) && n <= |fields|
    requires EncFields(fields, cells, n, peek) == Some(e) && |e| < TWO32
    ensures Steps(fields, Between(fields, cells, n, peek, zero), e) == Some(Between(fields, cells, |fields|, peek, zero))
    decreases cells, |fields| - n
  {
    hide *;
    if n == |fields| {
      NoFieldsLeft(fields, cells, peek, Between(fields, cells, n, peek, zero));
    } else {
      var first, more := FieldsSplit(fields, cells, n, peek, e);
      CellTurns(fields, cells, n, cells[CellOf(fields, n)], peek, zero, first, more);
      FieldsRoundTrip(fields, cells, n + 1, peek, zero, more);
    }
  }

  lemma StartsBetween(fields: seq<Field>, cells: seq<Cell>, peek: Peek, zero: bool)
    ensures Between(fields, cells, 0, peek, zero) == Begin(fields, Defaults(fields, |fields|, zero), zero)
  {}

  /** The checks after the loop pass. */
  lemma EndsComplete(fields: seq<Field>, cells: seq<Cell>, peek: Peek, zero: bool)
    requires ValidFields(fields) && TypedCells(fields, cells)
    ensures Complete(fields, Between(fields, cells, |fields|, peek, zero))
  {
    StaysFilled(fields, cells, |fields|, peek, zero);
    hide Filled, RestoredCells, LastFixed;
  }

  lemma MessageRoundTrip(fields: seq<Field>, cells: seq<Cell>, peek: Peek, zero: bool, e: seq<Byte>)
    requires ValidFields(fields) && TypedCells(fields, cells)
    requires EncFields(fields, cells, 0, peek) == Some(e) && |e| < TWO32
    ensures DecMessage(fields, Defaults(fields, |fields|, zero), zero, e) == Some(RestoredCells(fields, cells, |fields|, peek, zero))
    decreases cells, |fields| + 1
  {
    FieldsRoundTrip(fields, cells, 0, peek, zero, e);
    StartsBetween(fields, cells, peek, zero);
    EndsComplete(fields, cells, peek, zero);
    StepsAll(fields, Between(fields, cells, 0, peek, zero), e);
    hide DecFields, ValidFields, TypedCells, EncFields, Steps, Complete, RestoredCells, Defaults, LastFixed;
  }

  // ---------- When it is the message itself ----------

  /** Every fixed-count array in the submessage itself, or in one below it that has no has flag either, holds
      what setting defaults leaves there whatever was in memory before: zeros where the memory was zeroed,
      and elsewhere exactly what clearing the first word makes sure of. */
  ghost predicate ArraysCleared(f: Field, v: Value, zero: bool)
    decreases v
  {
    f.ltype.Submessage? && v.Msg? ==>
      forall i: nat :: i < |f.ltype.fields| && CellOf(f.ltype.fields, i) < |v.cells| ==>
        ClearedAt(f.ltype.fields[i], v.cells[CellOf(f.ltype.fields, i)], zero)
  }

  ghost predicate ClearedAt(f: Field, cell: Cell, zero: bool)
    decreases cell
  {
    match cell
    case Many(items) =>
      IsFixedArray(f) ==>
        if zero then forall i :: 0 <= i < |items| ==> items[i] == DefaultValue(f, true)
        else ClearedItems(f, f.arraySize, COUNT_SIZE) == Some(items)
    case One(v) => f.htype == Optional && !f.HasSize() ==> ArraysCleared(f, v, zero)
    case _ => true
  }

  /** No submessage that is left out for being zero has a fixed-count array in it with other contents than
      setting defaults leaves. The members of unions are zeroed before. */
  ghost predicate NothingLost(f: Field, v: Value, peek: Peek, zero: bool)
    decreases v, 0
  {
    f.ltype.Submessage? && v.Msg? ==> NothingLostIn(f.ltype.fields, v.cells, peek, zero)
  }

  ghost predicate NothingLostIn(fields: seq<Field>, cells: seq<Cell>, peek: Peek, zero: bool)
    decreases cells
  {
    forall i: nat :: i < |fields| && CellOf(fields, i) < |cells| ==> NothingLostAt(fields[i], cells[CellOf(fields, i)], peek, zero)
  }

  ghost predicate NothingLostAt(f: Field, cell: Cell, peek: Peek, zero: bool)
    decreases cell
  {
    match cell
    case One(v) =>
      if f.htype == Optional && !f.HasSize() && IsZeroValue(f, v, peek) then ArraysCleared(f, v, zero)
      else NothingLost(f, v, peek, zero)
    case Maybe(o) => o.Some? ==> NothingLost(f, o.value, peek, zero)
    case Many(items) => forall i :: 0 <= i < |items| ==> NothingLost(f, items[i], peek, zero)
    case Choice(which, v) => which == f.tag ==> NothingLost(f, v, peek, true)
    case _ => true
  }

  /** A value that counts as zero is the default value exactly when the fixed-count arrays in it are as
      clearing leaves them. */
  lemma {:induction false} ZeroIsDefault(f: Field, v: Value, peek: Peek, zero: bool)
    requires ValidField(f) && TypedValue(f, v) && IsZeroValue(f, v, peek)
    ensures v == DefaultValue(f, zero) <==> ArraysCleared(f, v, zero)
    decreases v
  {
    match f.ltype
    case Submessage(fields) =>
      var cells := v.cells;
      assert v == Msg(cells) && ValidFields(fields) && TypedCells(fields, cells);
      assert DefaultValue(f, zero) == Msg(Defaults(fields, |fields|, zero));
      SameSize(fields, cells);
      hide IsZeroValue, TypedValue, TypedCells, ValidFields, ValidField, DefaultValue, Defaults, CellCount, ClearedAt;
      forall i: nat | i < |fields|
        ensures CellOf(fields, i) < |cells|
        ensures cells[CellOf(fields, i)] == DefaultCell(fields[i], zero) <==> ClearedAt(fields[i], cells[CellOf(fields, i)], zero)
      {
        TypedAt(fields, cells, i);
        ValidAt(fields, i);
        ZeroAt(fields, cells, f, i, peek);
        ZeroCellIsDefault(fields[i], cells[CellOf(fields, i)], peek, zero);
      }
      DefaultByCells(fields, cells, zero);
    case _ =>
      ZeroScalarIsDefault(f, v, peek, zero);
  }

  lemma ZeroScalarIsDefault(f: Field, v: Value, peek: Peek, zero: bool)
    requires TypedValue(f, v) && IsZeroValue(f, v, peek) && !f.ltype.Submessage?
    ensures v == DefaultValue(f, zero) && ArraysCleared(f, v, zero)
  {}

  lemma ZeroCellIsDefault(f: Field, cell: Cell, peek: Peek, zero: bool)
    requires ValidField(f) && TypedCell(f, cell) && IsZero(f, cell, peek)
    ensures cell == DefaultCell(f, zero) <==> ClearedAt(f, cell, zero)
    decreases cell
  {
    if f.htype == Optional && !f.HasSize() {
      ZeroIsDefault(f, cell.v, peek, zero);
    }
    hide IsZeroValue, DefaultValue, ClearedItems, ArraysCleared, TypedValue, ValidFields;
  }

  lemma ZeroAt(fields: seq<Field>, cells: seq<Cell>, f: Field, i: nat, peek: Peek)
    requires f.ltype == Submessage(fields) && IsZeroValue(f, Msg(cells), peek) && i < |fields| && CellOf(fields, i) < |cells|
    ensures IsZero(fields[i], cells[CellOf(fields, i)], peek)
  {}

  lemma {:induction false} CellOwner(fields: seq<Field>, c: nat, n: nat) returns (i: nat)
    requires n <= |fields| && n > 0 && c <= CellOf(fields, n - 1)
    ensures i < n && CellOf(fields, i) == c
    decreases n
  {
    if CellOf(fields, n - 1) == c {
      i := n - 1;
    } else {
      i := CellOwner(fields, c, n - 1);
    }
  }

  /** A message is the default when every field's storage is. */
  lemma DefaultByCells(fields: seq<Field>, cells: seq<Cell>, zero: bool)
    requires |cells| == CellCount(fields)
    ensures cells == Defaults(fields, |fields|, zero)
            <==> forall i: nat :: i < |fields| && CellOf(fields, i) < |cells| ==> cells[CellOf(fields, i)] == DefaultCell(fields[i], zero)
  {
    forall i: nat | i < |fields|
      ensures CellOf(fields, i) < |cells| && Defaults(fields, |fields|, zero)[CellOf(fields, i)] == DefaultCell(fields[i], zero)
    {
      CellInRange(fields, i);
      DefaultAt(fields, i, |fields|, zero);
    }
    if forall i: nat :: i < |fields| && CellOf(fields, i) < |cells| ==> cells[CellOf(fields, i)] == DefaultCell(fields[i], zero) {
      forall c: nat | c < |cells|
        ensures cells[c] == Defaults(fields, |fields|, zero)[c]
      {
        var i := CellOwner(fields, c, |fields|);
        DefaultAt(fields, i, |fields|, zero);
      }
    }
  }

  // ---------- Cell by cell ----------

  /** The cell of a field that is in no union. */
  lemma FinalOf(fields: seq<Field>, cells: seq<Cell>, i: nat, peek: Peek, zero: bool)
    requires TypedCells(fields, cells) && i < |fields| && fields[i].htype != Oneof
    ensures CellOf(fields, i) < |cells| == CellCount(fields)
    ensures RestoredCells(fields, cells, |fields|, peek, zero)[CellOf(fields, i)]
            == RestoredCell(fields[i], cells[CellOf(fields, i)], DefaultCell(fields[i], zero), peek, zero)
  {
    SameSize(fields, cells);
    CellInRange(fields, i);
    StartsDefault(fields, cells, i, peek, zero);
    KeepsCell(fields, cells, i, |fields|, peek, zero);
    hide RestoredCell, DefaultCell, Defaults, TypedCells, CellOf, CellCount;
  }

  /** A union that holds member i. */
  lemma {:induction false} UnionHolds(fields: seq<Field>, cells: seq<Cell>, i: nat, n: nat, v: Value, peek: Peek, zero: bool)
    requires DistinctTags(fields) && i < |fields| && n <= |fields| && fields[i].htype == Oneof
    requires |cells| == CellCount(fields) && CellOf(fields, i) < |cells|
    requires cells[CellOf(fields, i)] == Choice(fields[i].tag, v)
    ensures RestoredCells(fields, cells, n, peek, zero)[CellOf(fields, i)]
            == if n <= i then NoChoice else Choice(fields[i].tag, RestoredValue(fields[i], v, peek, true))
    decreases n
  {
    if n == 0 {
      DefaultAt(fields, i, |fields|, zero);
    } else {
      UnionHolds(fields, cells, i, n - 1, v, peek, zero);
      if CellOf(fields, i) == CellOf(fields, n - 1) {
        SharesUnion(fields, i, n - 1);
      }
      hide RestoredValue;
    }
  }

  /** Fields in one cell with a union member are members. */
  lemma SharesUnion(fields: seq<Field>, i: nat, j: nat)
    requires i < |fields| && j < |fields| && fields[i].htype == Oneof && CellOf(fields, i) == CellOf(fields, j)
    ensures fields[j].htype == Oneof
  {
    if i < j {
      CellShared(fields, i, j);
    } else if j < i {
      CellShared(fields, j, i);
    }
  }

  lemma {:induction false} UnionEmpty(fields: seq<Field>, cells: seq<Cell>, i: nat, n: nat, peek: Peek, zero: bool)
    requires i < |fields| && n <= |fields| && fields[i].htype == Oneof
    requires |cells| == CellCount(fields) && CellOf(fields, i) < |cells| && cells[CellOf(fields, i)] == NoChoice
    ensures RestoredCells(fields, cells, n, peek, zero)[CellOf(fields, i)] == NoChoice
    decreases n
  {
    if n == 0 {
      DefaultAt(fields, i, |fields|, zero);
    } else {
      UnionEmpty(fields, cells, i, n - 1, peek, zero);
      if CellOf(fields, i) == CellOf(fields, n - 1) {
        SharesUnion(fields, i, n - 1);
      }
    }
  }

  // ---------- Exactly when nothing is lost ----------

  lemma {:induction false} ItemsRestored(f: Field, items: seq<Value>, peek: Peek, zero: bool)
    requires ValidField(f) && forall i :: 0 <= i < |items| ==> TypedValue(f, items[i])
    ensures RestoredItems(f, items, peek, zero) == items <==> forall i :: 0 <= i < |items| ==> NothingLost(f, items[i], peek, zero)
    decreases items
  {
    hide NothingLost, TypedValue, ValidField, RestoredValue, RestoredItems;
    if items == [] {
      NoItems(f, peek, zero);
    } else {
      ValueRestored(f, items[0], peek, zero);
      ItemsRestored(f, items[1..], peek, zero);
      FirstRestored(f, items, peek, zero);
      var more := items[1..];
      assert forall i :: 0 <= i < |more| ==> more[i] == items[i + 1];
      assert forall i :: 1 <= i < |items| ==> items[i] == more[i - 1];
    }
  }

  lemma FirstRestored(f: Field, items: seq<Value>, peek: Peek, zero: bool)
    requires items != []
    ensures RestoredItems(f, items, peek, zero) == items
            <==> RestoredValue(f, items[0], peek, zero) == items[0] && RestoredItems(f, items[1..], peek, zero) == items[1..]
  {
    hide RestoredValue;
    assert items == [items[0]] + items[1..];
    assert RestoredItems(f, items, peek, zero)[1..] == RestoredItems(f, items[1..], peek, zero);
  }

  lemma ValueRestored(f: Field, v: Value, peek: Peek, zero: bool)
    requires ValidField(f) && TypedValue(f, v)
    ensures RestoredValue(f, v, peek, zero) == v <==> NothingLost(f, v, peek, zero)
    decreases v
  {
    match f.ltype
    case Submessage(fields) =>
      MessageRestored(fields, v.cells, peek, zero);
    case _ =>
  }

  lemma CellRestored(f: Field, cell: Cell, peek: Peek, zero: bool)
    requires ValidField(f) && TypedCell(f, cell) && f.htype != Oneof
    ensures RestoredCell(f, cell, DefaultCell(f, zero), peek, zero) == cell <==> NothingLostAt(f, cell, peek, zero)
    decreases cell
  {
    match cell
    case One(v) =>
      ValueRestored(f, v, peek, zero);
      if f.htype == Optional && IsZeroValue(f, v, peek) {
        ZeroIsDefault(f, v, peek, zero);
      }
    case Maybe(o) =>
      if o.Some? {
        ValueRestored(f, o.value, peek, zero);
      }
    case Many(items) =>
      ItemsRestored(f, items, peek, zero);
    case _ =>
  }

  lemma UnionRestored(fields: seq<Field>, cells: seq<Cell>, i: nat, peek: Peek, zero: bool)
    requires ValidFields(fields) && TypedCells(fields, cells) && i < |fields| && fields[i].htype == Oneof
    requires CellOf(fields, i) < |cells| == CellCount(fields)
    requires var cell := cells[CellOf(fields, i)];
             cell.NoChoice? || (cell.Choice? && cell.which == fields[i].tag)
    ensures RestoredCells(fields, cells, |fields|, peek, zero)[CellOf(fields, i)] == cells[CellOf(fields, i)]
            <==> NothingLostAt(fields[i], cells[CellOf(fields, i)], peek, zero)
    decreases cells, 0
  {
    hide *;
    var f, cell := fields[i], cells[CellOf(fields, i)];
    TypedAt(fields, cells, i);
    ValidAt(fields, i);
    if cell.NoChoice? {
      UnionEmpty(fields, cells, i, |fields|, peek, zero);
      NothingInUnion(f, peek, zero);
    } else {
      MemberRestored(f, cell, peek, zero);
      Distinct(fields);
      assert cell == Choice(f.tag, cell.v);
      UnionHolds(fields, cells, i, |fields|, cell.v, peek, zero);
    }
  }

  lemma Distinct(fields: seq<Field>)
    requires ValidFields(fields)
    ensures DistinctTags(fields)
  {}

  lemma MemberRestored(f: Field, cell: Cell, peek: Peek, zero: bool)
    requires ValidField(f) && TypedCell(f, cell) && f.htype == Oneof && cell.Choice? && cell.which == f.tag
    ensures RestoredValue(f, cell.v, peek, true) == cell.v <==> NothingLostAt(f, cell, peek, zero)
    decreases cell
  {
    ValueRestored(f, cell.v, peek, true);
    hide RestoredValue, NothingLost;
  }

  lemma NothingInUnion(f: Field, peek: Peek, zero: bool)
    ensures NothingLostAt(f, NoChoice, peek, zero)
  {}

  /** The field whose storage decides over cell c: its owner, or the member that a union holds. */
  lemma Decides(fields: seq<Field>, cells: seq<Cell>, c: nat) returns (i: nat)
    requires TypedCells(fields, cells) && c < |cells|
    ensures i < |fields| && CellOf(fields, i) == c
    ensures fields[i].htype == Oneof ==> cells[c].NoChoice? || (cells[c].Choice? && cells[c].which == fields[i].tag)
  {
    i := CellOwner(fields, c, |fields|);
    if cells[c].Choice? {
      assert IsMember(fields, c, cells[c].which);
      i :| 0 <= i < |fields| && CellOf(fields, i) == c && fields[i].tag == cells[c].which;
    }
    TypedAt(fields, cells, i);
  }

  lemma FieldRestored(fields: seq<Field>, cells: seq<Cell>, i: nat, peek: Peek, zero: bool)
    requires ValidFields(fields) && TypedCells(fields, cells) && i < |fields| && CellOf(fields, i) < |cells| == CellCount(fields)
    requires fields[i].htype == Oneof ==> var cell := cells[CellOf(fields, i)];
             cell.NoChoice? || (cell.Choice? && cell.which == fields[i].tag)
    ensures RestoredCells(fields, cells, |fields|, peek, zero)[CellOf(fields, i)] == cells[CellOf(fields, i)]
            <==> NothingLostAt(fields[i], cells[CellOf(fields, i)], peek, zero)
    decreases cells, 1
  {
    hide *;
    if fields[i].htype == Oneof {
      UnionRestored(fields, cells, i, peek, zero);
    } else {
      TypedAt(fields, cells, i);
      ValidAt(fields, i);
      FinalOf(fields, cells, i, peek, zero);
      CellRestored(fields[i], cells[CellOf(fields, i)], peek, zero);
    }
  }

  /** A member that the union does not hold loses nothing. */
  lemma OtherMember(f: Field, cell: Cell, peek: Peek, zero: bool)
    requires TypedCell(f, cell) && f.htype == Oneof && !cell.NoChoice? && cell.which != f.tag
    ensures NothingLostAt(f, cell, peek, zero)
  {}

  lemma MessageRestored(fields: seq<Field>, cells: seq<Cell>, peek: Peek, zero: bool)
    requires ValidFields(fields) && TypedCells(fields, cells)
    ensures RestoredCells(fields, cells, |fields|, peek, zero) == cells <==> NothingLostIn(fields, cells, peek, zero)
    decreases cells, 3
  {
    hide *;
    var r := RestoredCells(fields, cells, |fields|, peek, zero);
    SameSize(fields, cells);
    if NothingLostIn(fields, cells, peek, zero) {
      forall c: nat | c < |cells|
        ensures r[c] == cells[c]
      {
        var i := Decides(fields, cells, c);
        NothingLostEach(fields, cells, i, peek, zero);
        FieldRestored(fields, cells, i, peek, zero);
      }
    } else {
      var i := SomethingLost(fields, cells, peek, zero);
      LosesSomething(fields, cells, i, peek, zero);
    }
  }

  lemma NothingLostEach(fields: seq<Field>, cells: seq<Cell>, i: nat, peek: Peek, zero: bool)
    requires NothingLostIn(fields, cells, peek, zero) && i < |fields| && CellOf(fields, i) < |cells|
    ensures NothingLostAt(fields[i], cells[CellOf(fields, i)], peek, zero)
  {}

  lemma SomethingLost(fields: seq<Field>, cells: seq<Cell>, peek: Peek, zero: bool) returns (i: nat)
    requires !NothingLostIn(fields, cells, peek, zero)
    ensures i < |fields| && CellOf(fields, i) < |cells| && !NothingLostAt(fields[i], cells[CellOf(fields, i)], peek, zero)
  {
    i :| 0 <= i < |fields| && CellOf(fields, i) < |cells| && !NothingLostAt(fields[i], cells[CellOf(fields, i)], peek, zero);
  }

  lemma LosesSomething(fields: seq<Field>, cells: seq<Cell>, i: nat, peek: Peek, zero: bool)
    requires ValidFields(fields) && TypedCells(fields, cells) && i < |fields| && CellOf(fields, i) < |cells| == CellCount(fields)
    requires !NothingLostAt(fields[i], cells[CellOf(fields, i)], peek, zero)
    ensures RestoredCells(fields, cells, |fields|, peek, zero)[CellOf(fields, i)] != cells[CellOf(fields, i)]
    decreases cells, 2
  {
    hide *;
    TypedAt(fields, cells, i);
    var f, cell := fields[i], cells[CellOf(fields, i)];
    if f.htype == Oneof {
      OneofShape(f, cell);
      if !cell.NoChoice? && cell.which != f.tag {
        OtherMember(f, cell, peek, zero);
      }
    }
    FieldRestored(fields, cells, i, peek, zero);
  }

  lemma OneofShape(f: Field, cell: Cell)
    requires TypedCell(f, cell) && f.htype == Oneof
    ensures cell.NoChoice? || cell.Choice?
  {}

  // ---------- The main results ----------

  /** pb_decode takes back what pb_encode wrote, field by field to its last byte, and yields the
      message with every submessage that was left out for being zero replaced by its default. */
  lemma DecodeOfEncode(fields: seq<Field>, cells: seq<Cell>, peek: Peek, e: seq<Byte>)
    requires ValidFields(fields) && TypedCells(fields, cells)
    requires Encode(fields, cells, peek) == Some(e) && |e| < TWO32
    ensures Decode(fields, e) == Some(RestoredCells(fields, cells, |fields|, peek, false))
    ensures Steps(fields, Begin(fields, Defaults(fields, |fields|, false), false), e).Some?
  {
    hide ValidFields, TypedCells, EncFields, Steps, DecMessage, RestoredCells, Defaults;
    MessageRoundTrip(fields, cells, peek, false, e);
    FieldsRoundTrip(fields, cells, 0, peek, false, e);
    StartsBetween(fields, cells, peek, false);
  }

  /** It is the message itself, whatever was in memory before, if and only if every fixed-count array in a
      submessage that was left out holds what setting defaults leaves: what clearing its first word makes
      sure of or, below a member of a union, zeros. */
  lemma RoundTripExact(fields: seq<Field>, cells: seq<Cell>, peek: Peek, e: seq<Byte>)
    requires ValidFields(fields) && TypedCells(fields, cells)
    requires Encode(fields, cells, peek) == Some(e) && |e| < TWO32
    ensures Decode(fields, e) == Some(cells) <==> NothingLostIn(fields, cells, peek, false)
  {
    hide *;
    DecodeOfEncode(fields, cells, peek, e);
    MessageRestored(fields, cells, peek, false);
  }

  /** A fixed-count array lies in the submessage itself, or in one that has no has flag either. */
  predicate FixedArrayInside(l: Ltype)
    decreases l
  {
    l.Submessage? && exists i :: 0 <= i < |l.fields| && HasFixedArray(l.fields[i])
  }

  predicate HasFixedArray(f: Field)
    decreases f
  {
    IsFixedArray(f) || (f.htype == Optional && !f.HasSize() && FixedArrayInside(f.ltype))
  }

  /** Without fixed-count arrays below submessages that have no has flag, every message round-trips. */
  ghost predicate NoHiddenFixedArray(fields: seq<Field>)
    decreases fields
  {
    forall i :: 0 <= i < |fields| ==> NoneHiddenBy(fields[i])
  }

  ghost predicate NoneHiddenBy(f: Field)
    decreases f
  {
    f.ltype.Submessage? ==>
      && !(f.htype == Optional && !f.HasSize() && FixedArrayInside(f.ltype))
      && NoHiddenFixedArray(f.ltype.fields)
  }

  lemma {:induction false} NoneHidden(f: Field, v: Value, peek: Peek, zero: bool)
    requires f.ltype.Submessage? ==> NoHiddenFixedArray(f.ltype.fields)
    ensures NothingLost(f, v, peek, zero)
    decreases v, 0
  {
    if f.ltype.Submessage? && v.Msg? {
      NoneHiddenIn(f.ltype.fields, v.cells, peek, zero);
    }
  }

  lemma NoneHiddenIn(fields: seq<Field>, cells: seq<Cell>, peek: Peek, zero: bool)
    requires NoHiddenFixedArray(fields)
    ensures NothingLostIn(fields, cells, peek, zero)
    decreases cells
  {
    forall i: nat | i < |fields| && CellOf(fields, i) < |cells|
      ensures NothingLostAt(fields[i], cells[CellOf(fields, i)], peek, zero)
    {
      NoneHiddenAt(fields[i], cells[CellOf(fields, i)], peek, zero);
    }
  }

  lemma {:induction false} NoneInside(f: Field, v: Value, zero: bool)
    requires !FixedArrayInside(f.ltype)
    ensures ArraysCleared(f, v, zero)
    decreases v
  {
    if f.ltype.Submessage? && v.Msg? {
      var fields := f.ltype.fields;
      forall i: nat | i < |fields| && CellOf(fields, i) < |v.cells|
        ensures ClearedAt(fields[i], v.cells[CellOf(fields, i)], zero)
      {
        assert !HasFixedArray(fields[i]);
        var cell := v.cells[CellOf(fields, i)];
        if cell.One? && fields[i].htype == Optional && !fields[i].HasSize() {
          NoneInside(fields[i], cell.v, zero);
        }
      }
    }
  }

  lemma NoneHiddenAt(f: Field, cell: Cell, peek: Peek, zero: bool)
    requires NoneHiddenBy(f)
    ensures NothingLostAt(f, cell, peek, zero)
    decreases cell
  {
    match cell
    case One(v) =>
      NoneHidden(f, v, peek, zero);
      if f.htype == Optional && !f.HasSize() {
        NoneInside(f, v, zero);
      }
    case Maybe(o) =>
      if o.Some? {
        NoneHidden(f, o.value, peek, zero);
      }
    case Many(items) =>
      forall i | 0 <= i < |items|
        ensures NothingLost(f, items[i], peek, zero)
      {
        NoneHidden(f, items[i], peek, zero);
      }
    case Choice(_, v) => NoneHidden(f, v, peek, true);
    case _ =>
  }

  /** Round trip for such descriptors. */
  lemma RoundTrip(fields: seq<Field>, cells: seq<Cell>, peek: Peek, e: seq<Byte>)
    requires ValidFields(fields) && NoHiddenFixedArray(fields) && TypedCells(fields, cells)
    requires Encode(fields, cells, peek) == Some(e) && |e| < TWO32
    ensures Decode(fields, e) == Some(cells)
  {
    hide *;
    NoneHiddenIn(fields, cells, peek, false);
    RoundTripExact(fields, cells, peek, e);
  }

  /** Two encodings of one descriptor are the same bytes only if they stand for the same message. */
  lemma EncodingIsInjective(fields: seq<Field>, a: seq<Cell>, b: seq<Cell>, peek: Peek)
    requires ValidFields(fields) && NoHiddenFixedArray(fields) && TypedCells(fields, a) && TypedCells(fields, b)
    requires Encode(fields, a, peek).Some? && Encode(fields, a, peek) == Encode(fields, b, peek)
    requires |Encode(fields, a, peek).value| < TWO32
    ensures a == b
  {
    hide *;
    RoundTrip(fields, a, peek, Encode(fields, a, peek).value);
    RoundTrip(fields, b, peek, Encode(fields, a, peek).value);
  }

  /** The first word of an array of 32-bit integers. */
  predicate FirstIsZero(f: Field, cell: Cell) {
    cell.Many? && cell.items != [] && cell.items[0] == Int(0)
  }

  /** A submessage without a has flag that holds the fixed-count array 0, 5: the array's first element
      is taken for its count, nothing is written, and the array does not come back. */
  lemma HiddenFixedArrayIsLost()
    ensures var inner := Field(1, Varint, Repeated, 0, 0, 4, 2);
            var sub := Field(1, Submessage([inner]), Optional, 0, 0, 8, 0);
            var cells := [One(Msg([Many([Int(0), Int(5)])]))];
            var peek: Peek := FirstIsZero;
            && ValidFields([sub]) && TypedCells([sub], cells)
            && Encode([sub], cells, peek) == Some([])
            && Decode([sub], []) == Some([One(Msg([Unset]))])
  {
    var inner := Field(1, Varint, Repeated, 0, 0, 4, 2);
    var sub := Field(1, Submessage([inner]), Optional, 0, 0, 8, 0);
    var peek: Peek := FirstIsZero;
    assert ValidField(inner) && ValidFields([inner]) && ValidField(sub);
    assert IsZero(inner, Many([Int(0), Int(5)]), peek);
    assert IsZeroValue(sub, Msg([Many([Int(0), Int(5)])]), peek);
    assert TypedCell(inner, Many([Int(0), Int(5)]));
    assert TypedCells([inner], [Many([Int(0), Int(5)])]);
    assert TypedCell(sub, One(Msg([Many([Int(0), Int(5)])])));
    var cells := [One(Msg([Many([Int(0), Int(5)])]))];
    assert TypedCells([sub], cells);
    assert EncCell(sub, cells[0], peek) == Some([]);
    assert EncFields([sub], cells, 1, peek) == Some([]);
    assert EncFields([sub], cells, 0, peek) == Join(Some([]), Some([])) && CellOf([sub], 0) == 0;
    var none: seq<Byte> := [];
    assert none + none == none;
    assert RequiredBefore([sub], 1) == RequiredBefore([sub], 0) == 0;
    assert ClearedItems(inner, 2, 4).None? by {
      assert Less(4, 4) == 0 && ClearedItems(inner, 1, 0).None?;
    }
    assert Defaults([inner], 1, false) == Defaults([inner], 0, false) + [Unset] == [Unset];
    assert DefaultCell(sub, false) == One(Msg([Unset]));
    assert Defaults([sub], 1, false) == Defaults([sub], 0, false) + [DefaultCell(sub, false)] == [One(Msg([Unset]))];
  }

  /** With one element instead of two, clearing the word is clearing the array, and it does come back. */
  lemma ClearedArrayComesBack()
    ensures var inner := Field(1, Varint, Repeated, 0, 0, 4, 1);
            var sub := Field(1, Submessage([inner]), Optional, 0, 0, 4, 0);
            var cells := [One(Msg([Many([Int(0)])]))];
            && Encode([sub], cells, FirstIsZero) == Some([])
            && Decode([sub], []) == Some(cells)
  {
    var inner := Field(1, Varint, Repeated, 0, 0, 4, 1);
    var sub := Field(1, Submessage([inner]), Optional, 0, 0, 4, 0);
    var cells := [One(Msg([Many([Int(0)])]))];
    assert IsZero(inner, Many([Int(0)]), FirstIsZero);
    assert IsZeroValue(sub, Msg([Many([Int(0)])]), FirstIsZero);
    assert EncCell(sub, cells[0], FirstIsZero) == Some([]);
    assert EncFields([sub], cells, 1, FirstIsZero) == Some([]);
    assert EncFields([sub], cells, 0, FirstIsZero) == Join(Some([]), Some([])) && CellOf([sub], 0) == 0;
    var none: seq<Byte> := [];
    assert none + none == none;
    assert RequiredBefore([sub], 1) == RequiredBefore([sub], 0) == 0;
    assert ClearedItems(inner, 0, Less(4, 4)) == Some([]) && ClearedValue(inner, 4) == Some(Int(0));
    assert [Int(0)] + [] == [Int(0)];
    assert ClearedItems(inner, 1, COUNT_SIZE) == Some([Int(0)]);
    assert Defaults([inner], 1, false) == Defaults([inner], 0, false) + [Many([Int(0)])] == [Many([Int(0)])];
    assert DefaultCell(sub, false) == One(Msg([Many([Int(0)])]));
    assert Defaults([sub], 1, false) == Defaults([sub], 0, false) + [DefaultCell(sub, false)] == cells;
  }

  /** The same array of two integers in such a submessage, now below the member of a union. */
  const INNER := Field(1, Varint, Repeated, 0, 0, 4, 2)
  const MIDDLE := Field(1, Submessage([INNER]), Optional, 0, 0, 8, 0)
  const MEMBER := Field(1, Submessage([MIDDLE]), Oneof, 0, -4, 8, 0)

  function InUnion(x: int): Cell {
    Choice(1, Msg([One(Msg([Many([Int(0), Int(x)])]))]))
  }

  lemma InUnionIsTyped(x: int)
    requires 0 <= x < TWO31
    ensures ValidFields([MEMBER]) && TypedCells([MEMBER], [InUnion(x)])
  {
    assert ValidField(INNER) && ValidFields([INNER]) && ValidField(MIDDLE) && ValidFields([MIDDLE]) && ValidField(MEMBER);
    var items := [Int(0), Int(x)];
    assert TypedCell(INNER, Many(items)) && TypedCells([INNER], [Many(items)]);
    assert TypedValue(MIDDLE, Msg([Many(items)])) && TypedCell(MIDDLE, One(Msg([Many(items)])));
    assert TypedCells([MIDDLE], [One(Msg([Many(items)]))]);
    assert TypedValue(MEMBER, Msg([One(Msg([Many(items)]))])) && TypedCell(MEMBER, InUnion(x));
    assert IsMember([MEMBER], 0, 1) by {
      assert CellOf([MEMBER], 0) == 0 && [MEMBER][0].tag == 1;
    }
  }

  lemma InUnionEncodes(x: int)
    ensures Encode([MEMBER], [InUnion(x)], FirstIsZero) == Some([10, 0])
  {
    var items := [Int(0), Int(x)];
    assert IsZero(INNER, Many(items), FirstIsZero);
    assert IsZeroValue(MIDDLE, Msg([Many(items)]), FirstIsZero);
    assert EncCell(MIDDLE, One(Msg([Many(items)])), FirstIsZero) == Some([]);
    var none: seq<Byte> := [];
    assert none + none == none;
    var body := [One(Msg([Many(items)]))];
    assert EncFields([MIDDLE], body, 1, FirstIsZero) == Some([]) && CellOf([MIDDLE], 0) == 0;
    assert EncFields([MIDDLE], body, 0, FirstIsZero) == Some([]);
    assert EncValue(MEMBER, Msg(body), FirstIsZero) == Some(Delimited([]));
    assert VarintBytes(0) == [0] && VarintBytes(10) == [10] && Delimited([]) == [0] + none == [0];
    assert EncCell(MEMBER, InUnion(x), FirstIsZero) == Some([10] + [0]);
    assert EncFields([MEMBER], [InUnion(x)], 1, FirstIsZero) == Some([]) && CellOf([MEMBER], 0) == 0;
    assert [10] + [0] == [10, 0] && [10, 0] + none == [10, 0];
  }

  /** The member is zeroed before it is decoded, so two zeros come back whatever was in memory, and so they do
      in place of any other second element. */
  lemma UnionMemberIsZeroed(x: int)
    requires 0 <= x < TWO31
    ensures ValidFields([MEMBER]) && TypedCells([MEMBER], [InUnion(x)])
    ensures Encode([MEMBER], [InUnion(x)], FirstIsZero) == Some([10, 0])
    ensures Decode([MEMBER], [10, 0]) == Some([InUnion(0)])
  {
    InUnionIsTyped(x);
    InUnionEncodes(x);
    InUnionIsTyped(0);
    InUnionEncodes(0);
    ZeroInUnionLosesNothing();
    RoundTripExact([MEMBER], [InUnion(0)], FirstIsZero, [10, 0]);
  }

  lemma ZeroInUnionLosesNothing()
    ensures NothingLostIn([MEMBER], [InUnion(0)], FirstIsZero, false)
  {
    var items := [Int(0), Int(0)];
    assert ClearedAt(INNER, Many(items), true);
    assert ArraysCleared(MIDDLE, Msg([Many(items)]), true);
    assert IsZero(INNER, Many(items), FirstIsZero) && IsZeroValue(MIDDLE, Msg([Many(items)]), FirstIsZero);
    assert NothingLostAt(MIDDLE, One(Msg([Many(items)])), FirstIsZero, true);
    assert NothingLost(MEMBER, Msg([One(Msg([Many(items)]))]), FirstIsZero, true);
    assert NothingLostAt(MEMBER, InUnion(0), FirstIsZero, false);
  }

  // ---------- Whatever fits its structure is encoded ----------

  lemma {:induction false} ItemsEncode(f: Field, items: seq<Value>, peek: Peek)
    requires forall i :: 0 <= i < |items| ==> TypedValue(f, items[i])
    ensures EncItems(f, items, peek).Some? && (f.ltype.Packable() ==> EncPacked(f, items).Some?)
    decreases items
  {
    if items != [] {
      ValueEncodes(f, items[0], peek);
      ItemsEncode(f, items[1..], peek);
    }
  }

  lemma ValueEncodes(f: Field, v: Value, peek: Peek)
    requires TypedValue(f, v)
    ensures EncValue(f, v, peek).Some?
    decreases v
  {
    match f.ltype
    case Submessage(fields) => FieldsEncode(fields, v.cells, 0, peek);
    case _ => ScalarEncodes(f, v);
  }

  lemma CellEncodes(f: Field, cell: Cell, peek: Peek)
    requires TypedCell(f, cell)
    ensures EncCell(f, cell, peek).Some?
    decreases cell
  {
    match cell
    case One(v) => ValueEncodes(f, v, peek);
    case Maybe(o) =>
      if o.Some? {
        ValueEncodes(f, o.value, peek);
      }
    case Many(items) => ItemsEncode(f, items, peek);
    case Choice(which, v) =>
      if which == f.tag {
        ValueEncodes(f, v, peek);
      }
    case _ =>
  }

  lemma {:induction false} FieldsEncode(fields: seq<Field>, cells: seq<Cell>, n: nat, peek: Peek)
    requires TypedCells(fields, cells) && n <= |fields|
    ensures EncFields(fields, cells, n, peek).Some?
    decreases cells, |fields| - n
  {
    hide *;
    if n < |fields| {
      TypedAt(fields, cells, n);
      CellEncodes(fields[n], cells[CellOf(fields, n)], peek);
      FieldsEncode(fields, cells, n + 1, peek);
    }
    FieldsJoin(fields, cells, n, peek);
  }

  lemma FieldsJoin(fields: seq<Field>, cells: seq<Cell>, n: nat, peek: Peek)
    requires n <= |fields|
    requires n < |fields| ==> CellOf(fields, n) < |cells| && EncCell(fields[n], cells[CellOf(fields, n)], peek).Some?
    requires n < |fields| ==> EncFields(fields, cells, n + 1, peek).Some?
    ensures EncFields(fields, cells, n, peek).Some?
  {
    hide EncCell, CellOf;
  }
}
