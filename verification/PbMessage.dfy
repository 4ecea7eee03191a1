/** Messages as values, and the bytes that stand for them: what pb_encode writes and what pb_decode
    makes of any bytes ("Message Structure" of the Protocol Buffers encoding). */
module PbMessage {
  import opened Bytes
  import opened PbWire
  import opened PbFields

  datatype Value = Int(i: int) | Data(d: seq<Byte>) | Msg(cells: seq<Cell>)

  /** The storage of a field: a value, a value with its has flag, an array with its count, or a union
      with its which tag. A fixed-count array is Unset while its contents may depend on what was in memory
      before. */
  datatype Cell =
    | One(v: Value)
    | Maybe(o: Option<Value>)
    | Many(items: seq<Value>)
    | NoChoice
    | Choice(which: nat, v: Value)
    | Unset

  /** What the first word of an array's storage reads as, zero or not: that depends on the C layout. */
  type Peek = (Field, Cell) -> bool

  const WT_VARINT := 0
  const WT_64BIT := 1
  const WT_STRING := 2
  const WT_32BIT := 5

  predicate IntSize(n: nat) {
    n == 1 || n == 2 || n == 4 || n == 8
  }

  /** Half the number of values of an integer of n bytes. */
  function Half(n: nat): nat
    requires IntSize(n)
  {
    if n == 1 then 0x80 else if n == 2 then 0x8000 else if n == 4 then TWO31 else TWO63
  }

  function CellCount(fields: seq<Field>): nat {
    if fields == [] then 0 else CellOf(fields, |fields| - 1) + 1
  }

  lemma CellInRange(fields: seq<Field>, i: nat)
    requires i < |fields|
    ensures CellOf(fields, i) < CellCount(fields)
  {
    if i < |fields| - 1 {
      CellShared(fields, i, |fields| - 1);
    }
  }

  // ---------- pb_message_set_to_defaults ----------

  const COUNT_SIZE := 4        // sizeof(pb_size_t) under PB_FIELD_32BIT

  /** What `count` array items read as when the first `zero` bytes of their storage are zero and the others
      are whatever was there before; None when that is not settled. */
  function ClearedItems(f: Field, count: nat, zero: nat): Option<seq<Value>>
    decreases f, 1, count
  {
    if count == 0 then Some([])
    else
      var first, more := ClearedValue(f, zero), ClearedItems(f, count - 1, Less(zero, f.dataSize));
      if first.None? || more.None? then None else Some([first.value] + more.value)
  }

  function Less(a: nat, b: nat): nat {
    if a < b then 0 else a - b
  }

  function ClearedValue(f: Field, zero: nat): Option<Value>
    decreases f, 0, 0
  {
    match f.ltype
    case ByteArray => if COUNT_SIZE <= zero then Some(Data([])) else None
    case CString => if 1 <= zero then Some(Data([])) else None
    case FixedLengthBytes => if f.dataSize <= zero then Some(Data(Zeros(f.dataSize))) else None
    case Submessage(fields) =>
      var cells := ClearedCells(fields, |fields|, zero);
      if cells.None? then None else Some(Msg(cells.value))
    case Fixed32 => if 4 <= zero then Some(Int(0)) else None
    case Fixed64 => if 8 <= zero then Some(Int(0)) else None
    case _ => if f.dataSize <= zero then Some(Int(0)) else None
  }

  /** The same for a field of a structure, at `at` from its start. */
  function ClearedCell(f: Field, at: nat, zero: nat): Option<Cell>
    decreases f, 2, 0
  {
    match f.htype
    case Required => (var v := ClearedValue(f, Less(zero, at)); if v.None? then None else Some(One(v.value)))
    case Optional =>
      if f.HasSize() then if 0 <= at + f.sizeOffset < zero then Some(Maybe(None)) else None
      else
        var v := ClearedValue(f, Less(zero, at));
        if v.None? then None else Some(One(v.value))
    case Repeated =>
      if f.HasSize() then if 0 <= at + f.sizeOffset && at + f.sizeOffset + COUNT_SIZE <= zero then Some(Many([])) else None
      else
        var items := ClearedItems(f, f.arraySize, Less(zero, at));
        if items.None? then None else Some(Many(items.value))
    case Oneof => if 0 <= at + f.sizeOffset && at + f.sizeOffset + COUNT_SIZE <= zero then Some(NoChoice) else None
  }

  /** The same for the first n fields of a structure. */
  function ClearedCells(fields: seq<Field>, n: nat, zero: nat): Option<seq<Cell>>
    requires n <= |fields|
    decreases fields, n, 0
  {
    if n == 0 then Some([])
    else if Joined(fields, n - 1) then ClearedCells(fields, n - 1, zero)
    else
      var before, last := ClearedCells(fields, n - 1, zero), ClearedCell(fields[n - 1], DataAt(fields, n - 1), zero);
      if before.None? || last.None? then None else Some(before.value + [last.value])
  }

  /** The default, where the storage was zeroed before or held anything. */
  function DefaultValue(f: Field, zero: bool): Value
    decreases f, 0
  {
    match f.ltype
    case ByteArray => Data([])
    case CString => Data([])
    case FixedLengthBytes => Data(Zeros(f.dataSize))
    case Submessage(fields) => Msg(Defaults(fields, |fields|, zero))
    case _ => Int(0)
  }

  function Copies(v: Value, n: nat): (r: seq<Value>)
    ensures |r| == n && forall i | 0 <= i < n :: r[i] == v
  {
    if n == 0 then [] else Copies(v, n - 1) + [v]
  }

  function DefaultCell(f: Field, zero: bool): Cell
    decreases f, 1
  {
    match f.htype
    case Required => One(DefaultValue(f, zero))
    case Optional => if f.HasSize() then Maybe(None) else One(DefaultValue(f, zero))
    case Repeated =>
      if f.HasSize() then Many([])
      else if zero then Many(Copies(DefaultValue(f, true), f.arraySize))
      else
        var items := ClearedItems(f, f.arraySize, COUNT_SIZE);
        if items.Some? then Many(items.value) else Unset
    case Oneof => NoChoice
  }

  /** The cells of the first n fields. */
  function Defaults(fields: seq<Field>, n: nat, zero: bool): (cells: seq<Cell>)
    requires n <= |fields|
    ensures |cells| == if n == 0 then 0 else CellOf(fields, n - 1) + 1
    decreases fields, n
  {
    if n == 0 then []
    else if Joined(fields, n - 1) then Defaults(fields, n - 1, zero)
    else Defaults(fields, n - 1, zero) + [DefaultCell(fields[n - 1], zero)]
  }

  // ---------- pb_encode ----------

  function WireType(l: Ltype): nat {
    match l
    case Varint => WT_VARINT
    case Uvarint => WT_VARINT
    case Svarint => WT_VARINT
    case Fixed32 => WT_32BIT
    case Fixed64 => WT_64BIT
    case _ => WT_STRING
  }

  function TagBytes(wireType: nat, tag: nat): seq<Byte> {
    VarintBytes(8 * tag + wireType)
  }

  /** pb_encode_string. */
  function Delimited(b: seq<Byte>): seq<Byte> {
    VarintBytes(|b|) + b
  }

  /** pb_check_proto3_default_value. For a fixed-count array it takes the first word of the contents
      for the count. */
  predicate IsZero(f: Field, cell: Cell, peek: Peek)
    decreases cell
  {
    match f.htype
    case Required => false
    case Repeated => if f.HasSize() then cell == Many([]) else peek(f, cell)
    case Oneof => cell.NoChoice?
    case Optional =>
      if f.HasSize() then cell == Maybe(None)
      else cell.One? && IsZeroValue(f, cell.v, peek)
  }

  predicate IsZeroValue(f: Field, v: Value, peek: Peek)
    decreases v
  {
    match f.ltype
    case ByteArray => v == Data([])
    case CString => v == Data([])
    case FixedLengthBytes => f.dataSize == 0
    case Submessage(fields) =>
      v.Msg? && |v.cells| == CellCount(fields)
      && forall i: nat :: i < |fields| && CellOf(fields, i) < |v.cells| ==> IsZero(fields[i], v.cells[CellOf(fields, i)], peek)
    case _ => v == Int(0)
  }

  /** What follows the tag; none when the encoder reports an error. */
  function EncValue(f: Field, v: Value, peek: Peek): Option<seq<Byte>>
    decreases v
  {
    match f.ltype
    case Submessage(fields) =>
      if !v.Msg? then None
      else
        var body := EncFields(fields, v.cells, 0, peek);
        if body.None? then None else Some(Delimited(body.value))
    case _ => EncScalar(f, v)
  }

  function EncScalar(f: Field, v: Value): Option<seq<Byte>> {
    match f.ltype
    case Varint => if v.Int? && IntSize(f.dataSize) then Some(VarintBytes(ToU64(v.i))) else None
    case Uvarint => if v.Int? && IntSize(f.dataSize) then Some(VarintBytes(ToU64(v.i))) else None
    case Svarint => if v.Int? && IntSize(f.dataSize) && IsI64(v.i) then Some(VarintBytes(Zigzag(v.i))) else None
    case Fixed32 => if v.Int? then Some(LittleEndian(v.i % TWO32, 4)) else None
    case Fixed64 => if v.Int? then Some(LittleEndian(v.i % TWO64, 8)) else None
    case ByteArray => if v.Data? && |v.d| + 4 <= f.dataSize then Some(Delimited(v.d)) else None
    case CString => if v.Data? && |v.d| <= f.dataSize then Some(Delimited(v.d)) else None
    case FixedLengthBytes => if v.Data? && |v.d| == f.dataSize then Some(Delimited(v.d)) else None
    case Submessage(_) => None
  }

  function Tagged(f: Field, payload: Option<seq<Byte>>): Option<seq<Byte>> {
    if payload.None? then None else Some(TagBytes(WireType(f.ltype), f.tag) + payload.value)
  }

  function Join(a: Option<seq<Byte>>, b: Option<seq<Byte>>): Option<seq<Byte>> {
    if a.None? || b.None? then None else Some(a.value + b.value)
  }

  /** The items of an array one after another, each with its tag. */
  function EncItems(f: Field, items: seq<Value>, peek: Peek): Option<seq<Byte>>
    decreases items, 0
  {
    if items == [] then Some([])
    else Join(Tagged(f, EncValue(f, items[0], peek)), EncItems(f, items[1..], peek))
  }

  /** The items of a packed array. */
  function EncPacked(f: Field, items: seq<Value>): Option<seq<Byte>> {
    if items == [] then Some([]) else Join(EncScalar(f, items[0]), EncPacked(f, items[1..]))
  }

  /** encode_array. */
  function EncArray(f: Field, items: seq<Value>, peek: Peek): Option<seq<Byte>>
    decreases items, 1
  {
    if items == [] then Some([])
    else if |items| > f.arraySize then None
    else if f.ltype.Packable() then
      var body := EncPacked(f, items);
      if body.None? then None else Some(TagBytes(WT_STRING, f.tag) + Delimited(body.value))
    else EncItems(f, items, peek)
  }

  /** encode_basic_field. */
  function EncCell(f: Field, cell: Cell, peek: Peek): Option<seq<Byte>>
    decreases cell
  {
    match f.htype
    case Required => if cell.One? then Tagged(f, EncValue(f, cell.v, peek)) else None
    case Optional =>
      if f.HasSize() then
        if !cell.Maybe? then None else if cell.o.None? then Some([]) else Tagged(f, EncValue(f, cell.o.value, peek))
      else if !cell.One? then None
      else if IsZeroValue(f, cell.v, peek) then Some([])
      else Tagged(f, EncValue(f, cell.v, peek))
    case Repeated =>
      if !cell.Many? || (!f.HasSize() && |cell.items| != f.arraySize) then None
      else EncArray(f, cell.items, peek)
    case Oneof =>
      if cell.Choice? && cell.which == f.tag then Tagged(f, EncValue(f, cell.v, peek)) else Some([])
  }

  /** The fields from i on. */
  function EncFields(fields: seq<Field>, cells: seq<Cell>, i: nat, peek: Peek): Option<seq<Byte>>
    decreases cells, |fields| - i
  {
    if i >= |fields| then Some([])
    else if CellOf(fields, i) >= |cells| then None
    else Join(EncCell(fields[i], cells[CellOf(fields, i)], peek), EncFields(fields, cells, i + 1, peek))
  }

  // ---------- pb_decode ----------

  function SkipVarint(b: seq<Byte>): (r: Option<seq<Byte>>)
    ensures r.Some? ==> |r.value| < |b|
  {
    if b == [] then None else if b[0] < 128 then Some(b[1..]) else SkipVarint(b[1..])
  }

  function Drop(b: seq<Byte>, n: nat): Option<seq<Byte>> {
    if n > |b| then None else Some(b[n..])
  }

  /** pb_make_string_substream. */
  function Substring(b: seq<Byte>): (r: Parsed<seq<Byte>>)
    ensures r.Good? ==> |r.value| < |b| && |r.rest| < |b|
  {
    var size := Varint32(b);
    if size.Bad? || size.value > |size.rest| then Bad
    else Good(size.rest[..size.value], size.rest[size.value..])
  }

  /** pb_skip_field. */
  function SkipField(b: seq<Byte>, wireType: nat): (r: Option<seq<Byte>>)
    ensures r.Some? ==> |r.value| <= |b|
  {
    if wireType == WT_VARINT then SkipVarint(b)
    else if wireType == WT_64BIT then Drop(b, 8)
    else if wireType == WT_STRING then (var s := Substring(b); if s.Bad? then None else Some(s.rest))
    else if wireType == WT_32BIT then Drop(b, 4)
    else None
  }

  /** The cast to the field's size, with its overflow check; up to 32 bits the value is first read as
      a 32-bit one. */
  function Signed(n: nat, u: nat): Option<Value>
    requires u < TWO64
  {
    if !IntSize(n) then None
    else if n == 8 then Some(Int(ToI64(u)))
    else
      var w := u % TWO32;
      Narrow(n, if w < TWO31 then w else w - TWO32)
  }

  function Narrow(n: nat, v: int): Option<Value> {
    if IntSize(n) && 0 - Half(n) <= v && v < Half(n) then Some(Int(v)) else None
  }

  function Unsigned(n: nat, u: nat): Option<Value> {
    if IntSize(n) && u < 2 * Half(n) then Some(Int(u)) else None
  }

  /** The characters before the first NUL. */
  function UpToNul(d: seq<Byte>): seq<Byte> {
    if d == [] || d[0] == 0 then [] else [d[0]] + UpToNul(d[1..])
  }

  function Accept(v: Option<Value>, rest: seq<Byte>): Parsed<Value> {
    if v.None? then Bad else Good(v.value, rest)
  }

  /** The field decoders but that of submessages. */
  function DecScalar(f: Field, b: seq<Byte>): (r: Parsed<Value>)
    ensures r.Good? ==> |r.rest| < |b|
  {
    match f.ltype
    case Varint => (var u := Varint64(b); if u.Bad? then Bad else Accept(Signed(f.dataSize, u.value), u.rest))
    case Uvarint => (var u := Varint64(b); if u.Bad? then Bad else Accept(Unsigned(f.dataSize, u.value), u.rest))
    case Svarint => (var u := Varint64(b); if u.Bad? then Bad else Accept(Narrow(f.dataSize, Unzigzag(u.value)), u.rest))
    case Fixed32 => if |b| < 4 then Bad else Good(Int(FromLittleEndian(b[..4])), b[4..])
    case Fixed64 => if |b| < 8 then Bad else Good(Int(FromLittleEndian(b[..8])), b[8..])
    case ByteArray =>
      var size := Varint32(b);
      if size.Bad? || size.value + 4 > f.dataSize || size.value > |size.rest| then Bad
      else Good(Data(size.rest[..size.value]), size.rest[size.value..])
    case CString =>
      var size := Varint32(b);
      if size.Bad? || size.value + 1 > f.dataSize || size.value > |size.rest| then Bad
      else Good(Data(UpToNul(size.rest[..size.value])), size.rest[size.value..])
    case FixedLengthBytes =>
      var size := Varint32(b);
      if size.Bad? then Bad
      else if size.value == 0 then Good(Data(Zeros(f.dataSize)), size.rest)
      else if size.value != f.dataSize || size.value > |size.rest| then Bad
      else Good(Data(size.rest[..size.value]), size.rest[size.value..])
    case Submessage(_) => Bad
  }

  /** A packed array: as many items as fit, and nothing may be left. */
  function DecPacked(f: Field, items: seq<Value>, b: seq<Byte>): Option<seq<Value>>
    decreases |b|
  {
    if b == [] then Some(items)
    else if |items| >= f.arraySize then None
    else
      var item := DecScalar(f, b);
      if item.Bad? then None else DecPacked(f, items + [item.value], item.rest)
  }

  /** The message so far, the required fields seen, and the fixed-count array being filled. In a structure that
      was zeroed, the storage of the fields from `next` on is still untouched; elsewhere `next` is the number of
      fields. */
  datatype Progress = Progress(cells: seq<Cell>, seen: set<nat>, filling: Option<nat>, next: nat)

  function Begin(fields: seq<Field>, cells: seq<Cell>, zero: bool): Progress {
    Progress(cells, {}, None, if zero then 0 else |fields|)
  }

  /** What is still untouched after an occurrence of field i. Out of the order of the descriptors nothing is
      taken to be. */
  function Advance(fields: seq<Field>, next: nat, i: nat): nat
    requires i < |fields|
  {
    if i < next then |fields| else if fields[i].htype == Repeated then i else i + 1
  }

  /** decode_static_field zeroes the member of a union before it sets its defaults. */
  predicate StartsZero(f: Field, zero: bool) {
    zero || f.htype == Oneof
  }

  const MAX_REQUIRED := 64

  function ItemsOf(cell: Cell): seq<Value> {
    if cell.Many? then cell.items else []
  }

  /** The value that a field decoder starts from. */
  function Base(f: Field, cell: Cell, zero: bool): Value {
    if f.htype == Required && cell.One? then cell.v
    else if f.htype == Optional && cell.One? then cell.v
    else if f.htype == Optional && cell.Maybe? && cell.o.Some? then cell.o.value
    else DefaultValue(f, StartsZero(f, zero))
  }

  function DecValue(f: Field, start: Value, zero: bool, b: seq<Byte>): (r: Parsed<Value>)
    ensures r.Good? ==> |r.rest| < |b|
    decreases |b|, 0
  {
    match f.ltype
    case Submessage(fields) =>
      var body := Substring(b);
      if body.Bad? || !start.Msg? then Bad
      else
        var m := DecMessage(fields, start.cells, zero, body.value);
        if m.None? then Bad else Good(Msg(m.value), body.rest)
    case _ => DecScalar(f, b)
  }

  predicate IsFixedArray(f: Field) {
    f.htype == Repeated && !f.HasSize()
  }

  /** A fixed-count array may be left for another only when it is full. */
  predicate Filled(fields: seq<Field>, p: Progress) {
    p.filling.Some? && p.filling.value < |fields| && CellOf(fields, p.filling.value) < |p.cells| ==>
      |ItemsOf(p.cells[CellOf(fields, p.filling.value)])| == fields[p.filling.value].arraySize
  }

  /** decode_static_field, on the storage of the field, zeroed and untouched or not. */
  function StaticField(f: Field, cell: Cell, zero: bool, wireType: nat, b: seq<Byte>): (r: Parsed<Cell>)
    ensures r.Good? ==> |r.rest| < |b|
    decreases |b|, 1
  {
    if f.htype == Repeated && wireType == WT_STRING && f.ltype.Packable() then
      var body := Substring(b);
      if body.Bad? then Bad
      else
        var items := DecPacked(f, ItemsOf(cell), body.value);
        if items.None? then Bad else Good(Many(items.value), body.rest)
    else if f.htype == Repeated && |ItemsOf(cell)| >= f.arraySize then Bad
    else
      var v := DecValue(f, Base(f, cell, zero), StartsZero(f, zero), b);
      if v.Bad? then Bad else Good(Stored(f, cell, v.value), v.rest)
  }

  /** The bookkeeping of pb_decode_noinit around it: the fixed-count array being filled, the required fields
      seen, and what is untouched. */
  function DecField(fields: seq<Field>, p: Progress, i: nat, wireType: nat, b: seq<Byte>): (r: Parsed<Progress>)
    requires i < |fields|
    ensures r.Good? ==> |r.rest| < |b|
    decreases |b|, 2
  {
    var f := fields[i];
    var c := CellOf(fields, i);
    if c >= |p.cells| then Bad
    else if IsFixedArray(f) && p.filling != Some(i) && !Filled(fields, p) then Bad
    else
      var cell := if IsFixedArray(f) && p.filling != Some(i) then Many([]) else p.cells[c];
      var filling := if IsFixedArray(f) then Some(i) else p.filling;
      var seen := if f.htype == Required && RequiredBefore(fields, i) < MAX_REQUIRED then p.seen + {RequiredBefore(fields, i)}
                  else p.seen;
      var r := StaticField(f, cell, i >= p.next, wireType, b);
      if r.Bad? then Bad else Good(Progress(p.cells[c := r.value], seen, filling, Advance(fields, p.next, i)), r.rest)
  }

  function Stored(f: Field, cell: Cell, v: Value): Cell {
    match f.htype
    case Required => One(v)
    case Optional => if f.HasSize() then Maybe(Some(v)) else One(v)
    case Repeated => Many(ItemsOf(cell) + [v])
    case Oneof => Choice(f.tag, v)
  }

  /** One turn of the loop in pb_decode_noinit. */
  datatype Turn = Next(p: Progress, rest: seq<Byte>) | Stop | Fail

  function DecTurn(fields: seq<Field>, p: Progress, b: seq<Byte>): (r: Turn)
    ensures r.Next? ==> |r.rest| < |b|
    decreases |b|, 0
  {
    var key := Varint32(b);
    if key.Bad? then Fail
    else if key.value == 0 then Stop
    else
      var tag, wireType := key.value / 8, key.value % 8;
      var i := FindIn(fields, 0, |fields|, tag);
      if i < |fields| then
        var r := DecField(fields, p, i, wireType, key.rest);
        if r.Bad? then Fail else Next(r.value, r.rest)
      else if fields == [] && tag == 0 then Fail
      else
        var r := SkipField(key.rest, wireType);
        if r.None? then Fail else Next(p, r.value)
  }

  /** The loop: to the end of the stream or to a zero tag. */
  function DecFields(fields: seq<Field>, p: Progress, b: seq<Byte>): Option<Progress>
    decreases |b|, 1
  {
    if b == [] then Some(p)
    else
      match DecTurn(fields, p, b)
      case Next(q, rest) => DecFields(fields, q, rest)
      case Stop => Some(p)
      case Fail => None
  }

  predicate AllBelow(limit: nat, seen: set<nat>) {
    forall n: nat :: n < limit ==> n in seen
  }

  /** The checks after the loop. */
  predicate Complete(fields: seq<Field>, p: Progress) {
    && Filled(fields, p)
    && AllBelow(Min(RequiredBefore(fields, |fields|), MAX_REQUIRED), p.seen)
  }

  /** pb_decode_noinit. */
  function DecMessage(fields: seq<Field>, cells: seq<Cell>, zero: bool, b: seq<Byte>): Option<seq<Cell>>
    decreases |b|, 2
  {
    var p := DecFields(fields, Begin(fields, cells, zero), b);
    if p.Some? && Complete(fields, p.value) then Some(p.value.cells) else None
  }

  /** pb_decode, into memory that holds anything. */
  function Decode(fields: seq<Field>, b: seq<Byte>): Option<seq<Cell>> {
    DecMessage(fields, Defaults(fields, |fields|, false), false, b)
  }

  /** pb_encode. */
  function Encode(fields: seq<Field>, cells: seq<Cell>, peek: Peek): Option<seq<Byte>> {
    EncFields(fields, cells, 0, peek)
  }
}
