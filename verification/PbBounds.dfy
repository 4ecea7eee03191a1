/** Whatever the bytes, a message that pb_decode accepts fits the structure it is decoded into: no integer out of
    range, no string without room for its end, no array with more items than there are places. */
module PbBounds {
  import opened Bytes
  import opened PbWire
  import opened PbFields
  import opened PbMessage
  import opened PbScalars
  import opened PbTransparency
  import opened PbRoundTrip

  /** The sizes that the generator gives to integers, byte arrays and strings. */
  ghost predicate SizedFields(fields: seq<Field>)
    decreases fields
  {
    forall i :: 0 <= i < |fields| ==> SizedField(fields[i])
  }

  ghost predicate SizedField(f: Field)
    decreases f
  {
    match f.ltype
    case Varint => IntSize(f.dataSize)
    case Uvarint => IntSize(f.dataSize)
    case Svarint => IntSize(f.dataSize)
    case ByteArray => 4 <= f.dataSize
    case CString => 1 <= f.dataSize
    case Submessage(fields) => SizedFields(fields)
    case _ => true
  }

  // ---------- Messages that fit ----------

  /** As TypedValue, except that a fixed-count array nobody has written may hold anything. */
  ghost predicate HoldsValue(f: Field, v: Value)
    decreases v
  {
    match f.ltype
    case Submessage(fields) => v.Msg? && HoldsCells(fields, v.cells)
    case _ => TypedScalar(f, v)
  }

  ghost predicate HoldsItems(f: Field, items: seq<Value>)
    decreases items
  {
    forall i :: 0 <= i < |items| ==> HoldsValue(f, items[i])
  }

  ghost predicate HoldsCell(f: Field, cell: Cell)
    decreases cell
  {
    match f.htype
    case Required => cell.One? && HoldsValue(f, cell.v)
    case Optional =>
      if f.HasSize() then cell.Maybe? && (cell.o.Some? ==> HoldsValue(f, cell.o.value)) else cell.One? && HoldsValue(f, cell.v)
    case Repeated =>
      if f.HasSize() then cell.Many? && |cell.items| <= f.arraySize && HoldsItems(f, cell.items)
      else cell.Unset? || (cell.Many? && |cell.items| == f.arraySize && HoldsItems(f, cell.items))
    case Oneof => cell.NoChoice? || (cell.Choice? && (cell.which == f.tag ==> HoldsValue(f, cell.v)))
  }

  ghost predicate HoldsCells(fields: seq<Field>, cells: seq<Cell>)
    decreases cells
  {
    && |cells| == CellCount(fields)
    && forall i: nat :: i < |fields| ==> CellOf(fields, i) < |cells| && HoldsCell(fields[i], cells[CellOf(fields, i)])
  }

  // ---------- Scalars ----------

  lemma {:induction false} NulEnds(d: seq<Byte>)
    ensures |UpToNul(d)| <= |d| && 0 !in UpToNul(d)
  {
    if d != [] && d[0] != 0 {
      NulEnds(d[1..]);
    }
  }

  lemma {:induction false} FixedIsBounded(b: seq<Byte>)
    ensures FromLittleEndian(b) < Pow256(|b|)
  {
    if b != [] {
      FixedIsBounded(b[1..]);
    }
  }

  lemma ScalarHolds(f: Field, b: seq<Byte>)
    requires DecScalar(f, b).Good?
    ensures TypedScalar(f, DecScalar(f, b).value)
  {
    hide Varint32, Varint64From, Unzigzag, Pow256, FromLittleEndian, UpToNul;
    match f.ltype
    case Fixed32 =>
      FixedBounds();
      FixedIsBounded(b[..4]);
    case Fixed64 =>
      FixedBounds();
      FixedIsBounded(b[..8]);
    case CString =>
      var size := Varint32(b);
      NulEnds(size.rest[..size.value]);
    case _ =>
  }

  lemma {:induction false} PackedHolds(f: Field, items: seq<Value>, b: seq<Byte>)
    requires f.ltype.Packable() && HoldsItems(f, items) && |items| <= f.arraySize && DecPacked(f, items, b).Some?
    ensures HoldsItems(f, DecPacked(f, items, b).value) && |DecPacked(f, items, b).value| <= f.arraySize
    decreases |b|
  {
    hide TypedScalar, DecScalar;
    if b != [] {
      var item := DecScalar(f, b);
      ScalarHolds(f, b);
      PackedHolds(f, items + [item.value], item.rest);
    }
  }

  // ---------- Defaults ----------

  lemma ClearedItemsHold(f: Field, count: nat, zero: nat)
    requires SizedField(f) && ClearedItems(f, count, zero).Some?
    ensures |ClearedItems(f, count, zero).value| == count && HoldsItems(f, ClearedItems(f, count, zero).value)
    decreases f, 1, count
  {
    hide ClearedValue, HoldsValue;
    if count > 0 {
      ClearedValueHolds(f, zero);
      ClearedItemsHold(f, count - 1, Less(zero, f.dataSize));
    }
  }

  lemma ClearedValueHolds(f: Field, zero: nat)
    requires SizedField(f) && ClearedValue(f, zero).Some?
    ensures HoldsValue(f, ClearedValue(f, zero).value)
    decreases f, 0, 0
  {
    match f.ltype
    case Submessage(fields) =>
      ClearedCellsHold(fields, zero);
      hide ClearedCells, HoldsCells;
    case _ =>
  }

  lemma ClearedCellHolds(f: Field, at: nat, zero: nat)
    requires SizedField(f) && ClearedCell(f, at, zero).Some?
    ensures HoldsCell(f, ClearedCell(f, at, zero).value)
    decreases f, 2, 0
  {
    hide ClearedValue, ClearedItems, HoldsValue, HoldsItems;
    match f.htype
    case Repeated =>
      if !f.HasSize() {
        ClearedItemsHold(f, f.arraySize, Less(zero, at));
      } else {
        NoItemsHold(f);
      }
    case Oneof =>
    case _ =>
      if !(f.htype == Optional && f.HasSize()) {
        ClearedValueHolds(f, Less(zero, at));
      }
  }

  lemma NoItemsHold(f: Field)
    ensures HoldsItems(f, [])
  {}

  lemma {:induction false} ClearedAt(fields: seq<Field>, n: nat, zero: nat, i: nat)
    requires i < n <= |fields| && ClearedCells(fields, n, zero).Some?
    ensures |ClearedCells(fields, n, zero).value| == CellOf(fields, n - 1) + 1
    ensures CellOf(fields, i) <= CellOf(fields, n - 1)
    ensures (ClearedCells(fields, n, zero).value[CellOf(fields, i)] == NoChoice && fields[i].htype == Oneof)
            || ClearedCell(fields[i], DataAt(fields, i), zero) == Some(ClearedCells(fields, n, zero).value[CellOf(fields, i)])
    decreases n
  {
    hide ClearedCell;
    if n > 1 {
      ClearedAt(fields, n - 1, zero, if i < n - 1 then i else n - 2);
    }
    if Joined(fields, n - 1) {
      ClearedAt(fields, n - 1, zero, n - 2);
      if ClearedCell(fields[n - 2], DataAt(fields, n - 2), zero).Some? {
        UnionCleared(fields[n - 2], DataAt(fields, n - 2), zero);
      }
    }
  }

  lemma UnionCleared(f: Field, at: nat, zero: nat)
    requires f.htype == Oneof && ClearedCell(f, at, zero).Some?
    ensures ClearedCell(f, at, zero) == Some(NoChoice)
  {}

  lemma ClearedCellsHold(fields: seq<Field>, zero: nat)
    requires SizedFields(fields) && ClearedCells(fields, |fields|, zero).Some?
    ensures HoldsCells(fields, ClearedCells(fields, |fields|, zero).value)
    decreases fields
  {
    hide ClearedCells, ClearedCell, HoldsCell;
    var cells := ClearedCells(fields, |fields|, zero).value;
    if fields == [] {
      NothingCleared(zero);
    }
    forall i: nat | i < |fields|
      ensures |cells| == CellCount(fields) && CellOf(fields, i) < |cells| && HoldsCell(fields[i], cells[CellOf(fields, i)])
    {
      ClearedAt(fields, |fields|, zero, i);
      if ClearedCell(fields[i], DataAt(fields, i), zero) == Some(cells[CellOf(fields, i)]) {
        ClearedCellHolds(fields[i], DataAt(fields, i), zero);
      } else {
        NoChoiceHolds(fields[i]);
      }
    }
  }

  lemma NothingCleared(zero: nat)
    ensures ClearedCells([], 0, zero) == Some([])
  {}

  lemma NoChoiceHolds(f: Field)
    requires f.htype == Oneof
    ensures HoldsCell(f, NoChoice)
  {}

  lemma DefaultHolds(f: Field, zero: bool)
    requires SizedField(f)
    ensures HoldsValue(f, DefaultValue(f, zero))
    decreases f, 0
  {
    match f.ltype
    case Submessage(fields) =>
      DefaultsHold(fields, zero);
      hide Defaults, HoldsCells;
    case _ =>
  }

  lemma DefaultCellHolds(f: Field, zero: bool)
    requires SizedField(f)
    ensures HoldsCell(f, DefaultCell(f, zero))
    decreases f, 1
  {
    DefaultHolds(f, zero);
    DefaultHolds(f, true);
    NoItemsHold(f);
    if ClearedItems(f, f.arraySize, COUNT_SIZE).Some? {
      ClearedItemsHold(f, f.arraySize, COUNT_SIZE);
    }
    CopiesHold(f, DefaultValue(f, true), f.arraySize);
    hide DefaultValue, HoldsValue, HoldsItems, ClearedItems, Copies;
  }

  lemma CopiesHold(f: Field, v: Value, n: nat)
    requires HoldsValue(f, v)
    ensures HoldsItems(f, Copies(v, n))
  {}

  lemma DefaultsHold(fields: seq<Field>, zero: bool)
    requires SizedFields(fields)
    ensures HoldsCells(fields, Defaults(fields, |fields|, zero))
    decreases fields
  {
    hide DefaultCell, HoldsCell;
    forall i: nat | i < |fields|
      ensures CellOf(fields, i) < |Defaults(fields, |fields|, zero)| == CellCount(fields)
      ensures HoldsCell(fields[i], Defaults(fields, |fields|, zero)[CellOf(fields, i)])
    {
      CellInRange(fields, i);
      DefaultAt(fields, i, |fields|, zero);
      DefaultCellHolds(fields[i], zero);
    }
  }

  // ---------- Decoding ----------

  /** What holds between two fields: all the storage fits, but the array being filled need not be full. */
  ghost predicate FitsSoFar(fields: seq<Field>, p: Progress) {
    && |p.cells| == CellCount(fields)
    && (p.filling.Some? ==> p.filling.value < |fields| && IsFixedArray(fields[p.filling.value]))
    && forall i: nat :: i < |fields| ==> CellOf(fields, i) < |p.cells| && FitsAt(fields, p, i)
  }

  ghost predicate FitsAt(fields: seq<Field>, p: Progress, i: nat)
    requires i < |fields| && CellOf(fields, i) < |p.cells|
  {
    if p.filling == Some(i) then HoldsMost(fields[i], p.cells[CellOf(fields, i)]) else HoldsCell(fields[i], p.cells[CellOf(fields, i)])
  }

  ghost predicate HoldsMost(f: Field, cell: Cell) {
    cell.Many? && |cell.items| <= f.arraySize && HoldsItems(f, cell.items)
  }

  lemma BaseHolds(f: Field, cell: Cell, zero: bool)
    requires SizedField(f) && HoldsCell(f, cell)
    ensures HoldsValue(f, Base(f, cell, zero))
  {
    DefaultHolds(f, StartsZero(f, zero));
    hide DefaultValue, HoldsValue, HoldsItems;
  }

  lemma ValueHolds(f: Field, start: Value, zero: bool, b: seq<Byte>)
    requires ValidField(f) && SizedField(f) && (f.ltype.Submessage? ==> HoldsValue(f, start)) && DecValue(f, start, zero, b).Good?
    ensures HoldsValue(f, DecValue(f, start, zero, b).value)
    decreases |b|, 0
  {
    match f.ltype
    case Submessage(fields) =>
      var body := Substring(b);
      MessageHolds(fields, start.cells, zero, body.value);
    case _ =>
      ScalarHolds(f, b);
  }

  lemma ItemJoins(f: Field, items: seq<Value>, v: Value)
    requires HoldsItems(f, items) && HoldsValue(f, v)
    ensures HoldsItems(f, items + [v])
  {
    hide HoldsValue;
  }

  /** One occurrence of a field, on storage that fits. */
  lemma StaticHolds(f: Field, cell: Cell, zero: bool, wireType: nat, b: seq<Byte>)
    requires ValidField(f) && SizedField(f) && StaticField(f, cell, zero, wireType, b).Good?
    requires if f.htype == Repeated then HoldsMost(f, cell) else HoldsCell(f, cell)
    ensures var r := StaticField(f, cell, zero, wireType, b).value;
            if f.htype == Repeated then HoldsMost(f, r) else HoldsCell(f, r)
    decreases |b|, 1
  {
    if f.htype == Repeated && wireType == WT_STRING && f.ltype.Packable() {
      PackedHolds(f, ItemsOf(cell), Substring(b).value);
      hide HoldsItems, DecPacked, Substring;
    } else {
      if f.htype == Repeated {
        DefaultHolds(f, StartsZero(f, zero));
      } else {
        BaseHolds(f, cell, zero);
      }
      RepeatedBase(f, cell, zero);
      ValueHolds(f, Base(f, cell, zero), StartsZero(f, zero), b);
      var v := DecValue(f, Base(f, cell, zero), StartsZero(f, zero), b).value;
      if f.htype == Repeated {
        ItemJoins(f, ItemsOf(cell), v);
      }
      hide HoldsValue, HoldsItems, DecValue, Base;
    }
  }

  lemma RepeatedBase(f: Field, cell: Cell, zero: bool)
    ensures f.htype == Repeated ==> Base(f, cell, zero) == DefaultValue(f, StartsZero(f, zero))
  {}

  lemma FieldHolds(fields: seq<Field>, p: Progress, i: nat, wireType: nat, b: seq<Byte>)
    requires ValidFields(fields) && SizedFields(fields) && i < |fields| && FitsSoFar(fields, p)
    requires DecField(fields, p, i, wireType, b).Good?
    ensures FitsSoFar(fields, DecField(fields, p, i, wireType, b).value)
    decreases |b|, 2
  {
    var f, c := fields[i], CellOf(fields, i);
    var cell := if IsFixedArray(f) && p.filling != Some(i) then Many([]) else p.cells[c];
    assert FitsAt(fields, p, i);
    NoItemsHold(f);
    ValidAt(fields, i);
    FilledWhereOpen(f, cell);
    StaticHolds(f, cell, i >= p.next, wireType, b);
    var q := DecField(fields, p, i, wireType, b).value;
    ShapeOf(fields, p, i, wireType, b);
    var r := q.cells[c];
    assert After(fields, p, q, i, r);
    hide StaticField, HoldsItems, HoldsValue, ValidFields, After, FitsAt;
    forall j: nat | j < |fields|
      ensures CellOf(fields, j) < |q.cells| && FitsAt(fields, q, j)
    {
      if j == i {
        OwnFits(fields, p, q, i, r);
      } else if CellOf(fields, j) == c {
        UnionFits(fields, p, q, i, j, r);
      } else {
        ElsewhereFits(fields, p, q, i, j, r);
      }
    }
  }

  /** A counted array that fits holds at most what there is room for. */
  lemma FilledWhereOpen(f: Field, cell: Cell)
    ensures f.htype == Repeated && f.HasSize() ==> (HoldsCell(f, cell) <==> HoldsMost(f, cell))
  {}

  lemma ShapeOf(fields: seq<Field>, p: Progress, i: nat, wireType: nat, b: seq<Byte>)
    requires i < |fields| && DecField(fields, p, i, wireType, b).Good?
    ensures var f, c, q := fields[i], CellOf(fields, i), DecField(fields, p, i, wireType, b).value;
            var cell := if IsFixedArray(f) && p.filling != Some(i) then Many([]) else p.cells[c];
            && c < |p.cells|
            && StaticField(f, cell, i >= p.next, wireType, b).Good?
            && q.cells == p.cells[c := StaticField(f, cell, i >= p.next, wireType, b).value]
            && q.filling == (if IsFixedArray(f) then Some(i) else p.filling)
            && (IsFixedArray(f) && p.filling != Some(i) ==> Filled(fields, p))
  {
    hide StaticField;
  }

  /** The state after an occurrence of field i that leaves `r` in its storage. */
  ghost predicate After(fields: seq<Field>, p: Progress, q: Progress, i: nat, r: Cell)
    requires i < |fields|
  {
    var f, c := fields[i], CellOf(fields, i);
    && c < |p.cells| && q.cells == p.cells[c := r]
    && q.filling == (if IsFixedArray(f) then Some(i) else p.filling)
    && (IsFixedArray(f) && p.filling != Some(i) ==> Filled(fields, p))
    && (if f.htype == Repeated then HoldsMost(f, r) else HoldsCell(f, r))
    && (f.htype == Oneof ==> r.Choice? && r.which == f.tag)
  }

  lemma OwnFits(fields: seq<Field>, p: Progress, q: Progress, i: nat, r: Cell)
    requires i < |fields| && FitsSoFar(fields, p) && After(fields, p, q, i, r)
    ensures CellOf(fields, i) < |q.cells| && FitsAt(fields, q, i)
  {
    hide HoldsCell, HoldsItems, Filled, CellOf;
    FilledWhereOpen(fields[i], r);
  }

  lemma UnionFits(fields: seq<Field>, p: Progress, q: Progress, i: nat, j: nat, r: Cell)
    requires ValidFields(fields) && i < |fields| && j < |fields| && i != j && CellOf(fields, j) == CellOf(fields, i)
    requires FitsSoFar(fields, p) && After(fields, p, q, i, r)
    ensures CellOf(fields, j) < |q.cells| && FitsAt(fields, q, j)
  {
    Distinct(fields);
    if i < j {
      CellShared(fields, i, j);
    } else {
      CellShared(fields, j, i);
    }
    hide HoldsValue, HoldsItems, Filled, CellOf, ValidFields;
  }

  lemma ElsewhereFits(fields: seq<Field>, p: Progress, q: Progress, i: nat, j: nat, r: Cell)
    requires i < |fields| && j < |fields| && CellOf(fields, j) != CellOf(fields, i)
    requires FitsSoFar(fields, p) && After(fields, p, q, i, r)
    ensures CellOf(fields, j) < |q.cells| && FitsAt(fields, q, j)
  {
    assert FitsAt(fields, p, j);
    assert q.cells[CellOf(fields, j)] == p.cells[CellOf(fields, j)];
    hide HoldsValue, HoldsItems, CellOf;
  }

  lemma FieldsHold(fields: seq<Field>, p: Progress, b: seq<Byte>)
    requires ValidFields(fields) && SizedFields(fields) && FitsSoFar(fields, p) && DecFields(fields, p, b).Some?
    ensures FitsSoFar(fields, DecFields(fields, p, b).value)
    decreases |b|, 3
  {
    hide FitsSoFar, ValidFields, SizedFields, DecField, Varint32, SkipField;
    if b != [] {
      var t := DecTurn(fields, p, b);
      if t.Next? {
        var key := Varint32(b);
        var i := FindIn(fields, 0, |fields|, key.value / 8);
        if i < |fields| {
          FieldHolds(fields, p, i, key.value % 8, key.rest);
        }
        FieldsHold(fields, t.p, t.rest);
      }
    }
  }

  lemma MessageHolds(fields: seq<Field>, cells: seq<Cell>, zero: bool, b: seq<Byte>)
    requires ValidFields(fields) && SizedFields(fields) && HoldsCells(fields, cells) && DecMessage(fields, cells, zero, b).Some?
    ensures HoldsCells(fields, DecMessage(fields, cells, zero, b).value)
    decreases |b|, 4
  {
    FitsAtFirst(fields, cells, zero);
    hide FitsSoFar, HoldsCells, DecFields, ValidFields, SizedFields, Filled, Begin;
    FieldsHold(fields, Begin(fields, cells, zero), b);
    FitsInTheEnd(fields, DecFields(fields, Begin(fields, cells, zero), b).value);
  }

  lemma FitsAtFirst(fields: seq<Field>, cells: seq<Cell>, zero: bool)
    requires HoldsCells(fields, cells)
    ensures FitsSoFar(fields, Begin(fields, cells, zero))
  {
    hide HoldsCell;
  }

  lemma FitsInTheEnd(fields: seq<Field>, p: Progress)
    requires FitsSoFar(fields, p) && Filled(fields, p)
    ensures HoldsCells(fields, p.cells)
  {
    forall i: nat | i < |fields|
      ensures CellOf(fields, i) < |p.cells| && HoldsCell(fields[i], p.cells[CellOf(fields, i)])
    {
      assert FitsAt(fields, p, i);
    }
    hide HoldsCell;
  }

  /** Any bytes whatsoever: what pb_decode makes of them, if it accepts them, fits. */
  lemma DecodedFits(fields: seq<Field>, b: seq<Byte>)
    requires ValidFields(fields) && SizedFields(fields) && Decode(fields, b).Some?
    ensures HoldsCells(fields, Decode(fields, b).value)
  {
    DefaultsHold(fields, false);
    MessageHolds(fields, Defaults(fields, |fields|, false), false, b);
  }

  // ---------- And what fits is accepted ----------

  /** The range of an integer of n bytes. */
  lemma IntegerRanges(f: Field, i: int)
    requires IntSize(f.dataSize)
    ensures f.ltype.Varint? || f.ltype.Svarint? ==>
              (TypedScalar(f, Int(i)) <==> 0 - Pow256(f.dataSize) <= 2 * i && 2 * i < Pow256(f.dataSize))
    ensures f.ltype.Uvarint? ==> (TypedScalar(f, Int(i)) <==> 0 <= i && i < Pow256(f.dataSize))
  {
    FixedBounds();
    assert Pow256(1) == 256 && Pow256(2) == 0x1_0000;
  }

  /** The modulus of the integer a field is first read as. */
  function Modulus(size: nat): nat {
    if size == 8 then TWO64 else TWO32
  }

  /** An integer field takes a 64-bit varint exactly when its type has a value congruent to it: modulo 2^64, or for
      signed fields of up to 32 bits modulo 2^32; unsigned and zigzag fields take only the number itself. */
  lemma IntegersAccepted(f: Field, u: nat, tail: seq<Byte>)
    requires u < TWO64 && IntSize(f.dataSize)
    ensures var r := DecScalar(f, VarintBytes(u) + tail);
            match f.ltype
            case Varint =>
              && (r.Good? ==> r.rest == tail && r.value.Int? && (r.value.i - u) % Modulus(f.dataSize) == 0)
              && (r.Good? <==> exists i :: TypedScalar(f, Int(i)) && (i - u) % Modulus(f.dataSize) == 0)
            case Uvarint => r == if TypedScalar(f, Int(u)) then Good(Int(u), tail) else Bad
            case Svarint => r == if TypedScalar(f, Int(Unzigzag(u))) then Good(Int(Unzigzag(u)), tail) else Bad
            case _ => true
  {
    hide VarintBytes, Varint64, Unzigzag;
    VarintRoundTrip(u, tail);
    if f.ltype.Varint? {
      SignedExact(f, u);
      hide Signed, TypedScalar;
      var r := DecScalar(f, VarintBytes(u) + tail);
      assert r == Accept(Signed(f.dataSize, u), tail);
    }
  }

  lemma SignedExact(f: Field, u: nat)
    requires u < TWO64 && IntSize(f.dataSize) && f.ltype.Varint?
    ensures var r := Signed(f.dataSize, u);
            && (r.Some? ==> r.value.Int? && (r.value.i - u) % Modulus(f.dataSize) == 0)
            && (r.Some? <==> exists i :: TypedScalar(f, Int(i)) && (i - u) % Modulus(f.dataSize) == 0)
  {
    var n := f.dataSize;
    var i := if n == 8 then ToI64(u) else if u % TWO32 < TWO31 then u % TWO32 else u % TWO32 - TWO32;
    assert (i - u) % Modulus(n) == 0;
    if TypedScalar(f, Int(i)) {
      assert Signed(n, u) == Some(Int(i));
    }
    forall j | TypedScalar(f, Int(j)) && (j - u) % Modulus(n) == 0
      ensures j == i
    {
      Congruent(i, j, u, Modulus(n));
    }
  }

  lemma Congruent(i: int, j: int, u: int, m: nat)
    requires m == TWO32 || m == TWO64
    requires (i - u) % m == 0 && (j - u) % m == 0
    requires 0 - m / 2 <= i < m / 2 && 0 - m / 2 <= j < m / 2
    ensures i == j
  {
    if m == TWO32 {
      assert (i - j) % TWO32 == 0;
    } else {
      assert (i - j) % TWO64 == 0;
    }
  }

  /** A delimited field takes exactly what there is room for: bytes with their size, characters with the NUL behind
      them, and of a fixed length that length or nothing, which stands for zeros. A string ends at its
      first NUL. */
  lemma DelimitedAccepted(f: Field, d: seq<Byte>, tail: seq<Byte>)
    requires |d| < TWO32 && f.dataSize < TWO32
    ensures var r := DecScalar(f, Delimited(d) + tail);
            match f.ltype
            case ByteArray => r == if |d| + 4 <= f.dataSize then Good(Data(d), tail) else Bad
            case CString =>
              if |d| + 1 > f.dataSize then r == Bad
              else
                && r.Good? && r.rest == tail && r.value.Data? && r.value.d <= d && 0 !in r.value.d
                && (r.value.d == d || d[|r.value.d|] == 0)
            case FixedLengthBytes =>
              r == if d == [] then Good(Data(Zeros(f.dataSize)), tail) else if |d| == f.dataSize then Good(Data(d), tail) else Bad
            case _ => true
  {
    hide Varint32, Delimited, Zeros;
    DelimitedRoundTrip(d, tail);
    UpToFirstNul(d);
  }

  lemma {:induction false} UpToFirstNul(d: seq<Byte>)
    ensures UpToNul(d) <= d && 0 !in UpToNul(d) && (UpToNul(d) == d || d[|UpToNul(d)|] == 0)
  {
    if d != [] && d[0] != 0 {
      UpToFirstNul(d[1..]);
      assert d == [d[0]] + d[1..];
    }
  }
}
