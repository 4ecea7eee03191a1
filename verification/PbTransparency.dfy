/** Decoding works turn by turn on what is in front of it: bytes further on do not matter, fields
    nobody described leave no trace, and the check for required fields is exact. */
module PbTransparency {
  import opened Bytes
  import opened PbWire
  import opened PbFields
  import opened PbMessage

  // ---------- What follows does not matter ----------

  lemma {:induction false} Varint64Local(b: seq<Byte>, bitpos: nat, result: nat, x: seq<Byte>)
    requires result < Pow2(bitpos) && Varint64From(b, bitpos, result).Good?
    ensures var r := Varint64From(b, bitpos, result);
            Varint64From(b + x, bitpos, result) == Good(r.value, r.rest + x)
    decreases |b|
  {
    hide Pow2, Placed;
    assert (b + x)[0] == b[0] && (b + x)[1..] == b[1..] + x;
    StillBelow(b[0] % 128, bitpos, result);
    if b[0] >= 128 {
      Varint64Local(b[1..], bitpos + 7, Placed(result, b[0] % 128, bitpos), x);
    }
  }

  lemma {:induction false} Varint32FromLocal(b: seq<Byte>, bitpos: nat, result: nat, x: seq<Byte>)
    requires bitpos < 256 && Varint32From(b, bitpos, result).Good?
    ensures var r := Varint32From(b, bitpos, result);
            Varint32From(b + x, bitpos, result) == Good(r.value, r.rest + x)
    decreases |b|
  {
    hide Insert, SignExtension;
    assert (b + x)[0] == b[0] && (b + x)[1..] == b[1..] + x;
    if b[0] >= 128 {
      var next := if bitpos >= 32 then result else Insert(result, b[0] % 128, bitpos);
      Varint32FromLocal(b[1..], (bitpos + 7) % 256, next, x);
    }
  }

  lemma Varint32Local(b: seq<Byte>, x: seq<Byte>)
    requires Varint32(b).Good?
    ensures Varint32(b + x) == Good(Varint32(b).value, Varint32(b).rest + x)
  {
    hide Varint32From;
    assert (b + x)[0] == b[0] && (b + x)[1..] == b[1..] + x;
    if b[0] >= 128 {
      Varint32FromLocal(b[1..], 7, b[0] % 128, x);
    }
  }

  lemma {:induction false} SkipVarintLocal(b: seq<Byte>, x: seq<Byte>)
    requires SkipVarint(b).Some?
    ensures SkipVarint(b + x) == Some(SkipVarint(b).value + x)
  {
    assert (b + x)[0] == b[0] && (b + x)[1..] == b[1..] + x;
    if b[0] >= 128 {
      SkipVarintLocal(b[1..], x);
    }
  }

  lemma TakeLocal(b: seq<Byte>, n: nat, x: seq<Byte>)
    requires n <= |b|
    ensures (b + x)[..n] == b[..n] && (b + x)[n..] == b[n..] + x
  {}

  lemma SubstringLocal(b: seq<Byte>, x: seq<Byte>)
    requires Substring(b).Good?
    ensures Substring(b + x) == Good(Substring(b).value, Substring(b).rest + x)
  {
    hide Varint32;
    Varint32Local(b, x);
    TakeLocal(Varint32(b).rest, Varint32(b).value, x);
  }

  lemma SkipFieldLocal(b: seq<Byte>, wireType: nat, x: seq<Byte>)
    requires SkipField(b, wireType).Some?
    ensures SkipField(b + x, wireType) == Some(SkipField(b, wireType).value + x)
  {
    hide Substring, SkipVarint;
    if wireType == WT_VARINT {
      SkipVarintLocal(b, x);
    } else if wireType == WT_STRING {
      SubstringLocal(b, x);
    } else {
      TakeLocal(b, if wireType == WT_64BIT then 8 else 4, x);
    }
  }

  lemma ScalarLocal(f: Field, b: seq<Byte>, x: seq<Byte>)
    requires DecScalar(f, b).Good?
    ensures DecScalar(f, b + x) == Good(DecScalar(f, b).value, DecScalar(f, b).rest + x)
  {
    hide Varint32, Varint64From, Signed, Unsigned, Narrow, Unzigzag, FromLittleEndian, UpToNul, Zeros;
    match f.ltype
    case Varint => IntegerLocal(b, x);
    case Uvarint => IntegerLocal(b, x);
    case Svarint => IntegerLocal(b, x);
    case Fixed32 => TakeLocal(b, 4, x);
    case Fixed64 => TakeLocal(b, 8, x);
    case ByteArray => LengthLocal(b, x);
    case CString => LengthLocal(b, x);
    case FixedLengthBytes => LengthLocal(b, x);
    case Submessage(_) =>
  }

  lemma LengthLocal(b: seq<Byte>, x: seq<Byte>)
    requires Varint32(b).Good?
    ensures Varint32(b + x) == Good(Varint32(b).value, Varint32(b).rest + x)
    ensures var n, rest := Varint32(b).value, Varint32(b).rest;
            n <= |rest| ==> (rest + x)[..n] == rest[..n] && (rest + x)[n..] == rest[n..] + x
  {
    hide Varint32;
    Varint32Local(b, x);
    if Varint32(b).value <= |Varint32(b).rest| {
      TakeLocal(Varint32(b).rest, Varint32(b).value, x);
    }
  }

  lemma IntegerLocal(b: seq<Byte>, x: seq<Byte>)
    requires Varint64(b).Good?
    ensures Varint64(b + x) == Good(Varint64(b).value, Varint64(b).rest + x)
  {
    hide Varint64From;
    Varint64Local(b, 0, 0, x);
  }

  lemma ValueLocal(f: Field, start: Value, zero: bool, b: seq<Byte>, x: seq<Byte>)
    requires DecValue(f, start, zero, b).Good?
    ensures DecValue(f, start, zero, b + x) == Good(DecValue(f, start, zero, b).value, DecValue(f, start, zero, b).rest + x)
  {
    hide DecScalar, Substring, DecMessage;
    if f.ltype.Submessage? {
      SubstringLocal(b, x);
    } else {
      ScalarLocal(f, b, x);
    }
  }

  lemma StaticLocal(f: Field, cell: Cell, zero: bool, wireType: nat, b: seq<Byte>, x: seq<Byte>)
    requires StaticField(f, cell, zero, wireType, b).Good?
    ensures var r := StaticField(f, cell, zero, wireType, b);
            StaticField(f, cell, zero, wireType, b + x) == Good(r.value, r.rest + x)
  {
    hide DecValue, DecPacked, Substring, Base, Stored;
    if f.htype == Repeated && wireType == WT_STRING && f.ltype.Packable() {
      SubstringLocal(b, x);
    } else {
      ValueLocal(f, Base(f, cell, zero), StartsZero(f, zero), b, x);
    }
  }

  lemma FieldLocal(fields: seq<Field>, p: Progress, i: nat, wireType: nat, b: seq<Byte>, x: seq<Byte>)
    requires i < |fields| && DecField(fields, p, i, wireType, b).Good?
    ensures var r := DecField(fields, p, i, wireType, b);
            DecField(fields, p, i, wireType, b + x) == Good(r.value, r.rest + x)
  {
    hide StaticField, Filled, CellOf, RequiredBefore;
    var f, c := fields[i], CellOf(fields, i);
    var cell := if IsFixedArray(f) && p.filling != Some(i) then Many([]) else p.cells[c];
    StaticLocal(f, cell, i >= p.next, wireType, b, x);
  }

  lemma TurnLocal(fields: seq<Field>, p: Progress, b: seq<Byte>, x: seq<Byte>)
    requires DecTurn(fields, p, b).Next?
    ensures DecTurn(fields, p, b + x) == Next(DecTurn(fields, p, b).p, DecTurn(fields, p, b).rest + x)
  {
    hide Varint32, DecField, SkipField;
    Varint32Local(b, x);
    var key := Varint32(b);
    var i := FindIn(fields, 0, |fields|, key.value / 8);
    if i < |fields| {
      FieldLocal(fields, p, i, key.value % 8, key.rest, x);
    } else {
      SkipFieldLocal(key.rest, key.value % 8, x);
    }
  }

  // ---------- Whole fields ----------

  /** The state after whole fields: the bytes end where a field ends, and none is the zero tag. */
  function Steps(fields: seq<Field>, p: Progress, a: seq<Byte>): Option<Progress>
    decreases |a|
  {
    if a == [] then Some(p)
    else
      match DecTurn(fields, p, a)
      case Next(q, rest) => Steps(fields, q, rest)
      case Stop => None
      case Fail => None
  }

  /** Decoding goes on where it was. */
  lemma {:induction false} StepsThen(fields: seq<Field>, p: Progress, a: seq<Byte>, b: seq<Byte>)
    requires Steps(fields, p, a).Some?
    ensures DecFields(fields, p, a + b) == DecFields(fields, Steps(fields, p, a).value, b)
    decreases |a|
  {
    hide DecTurn;
    if a == [] {
      assert a + b == b;
    } else {
      var t := DecTurn(fields, p, a);
      TurnLocal(fields, p, a, b);
      StepsThen(fields, t.p, t.rest, b);
    }
  }

  lemma StepsAll(fields: seq<Field>, p: Progress, a: seq<Byte>)
    requires Steps(fields, p, a).Some?
    ensures DecFields(fields, p, a) == Steps(fields, p, a)
  {
    StepsThen(fields, p, a, []);
    assert a + [] == a;
  }

  /** A field of the encoding whose tag no descriptor has. */
  predicate UnknownField(fields: seq<Field>, x: seq<Byte>) {
    var key := Varint32(x);
    && key.Good? && key.value / 8 >= 1
    && (forall i :: 0 <= i < |fields| ==> fields[i].tag != key.value / 8)
    && SkipField(key.rest, key.value % 8) == Some([])
  }

  lemma UnknownIsSkipped(fields: seq<Field>, p: Progress, x: seq<Byte>)
    requires UnknownField(fields, x)
    ensures Steps(fields, p, x) == Some(p)
  {
    hide Varint32, SkipField, DecField;
    var key := Varint32(x);
    assert FindIn(fields, 0, |fields|, key.value / 8) == |fields|;
    assert DecTurn(fields, p, x) == Next(p, []);
  }

  /** An unknown field between any two fields changes nothing: not the message, and not whether it is
      accepted. */
  lemma UnknownFieldIsTransparent(fields: seq<Field>, cells: seq<Cell>, zero: bool, a: seq<Byte>, x: seq<Byte>, b: seq<Byte>)
    requires Steps(fields, Begin(fields, cells, zero), a).Some? && UnknownField(fields, x)
    ensures DecMessage(fields, cells, zero, a + x + b) == DecMessage(fields, cells, zero, a + b)
  {
    var p := Begin(fields, cells, zero);
    hide Steps, DecFields, UnknownField, Complete;
    var q := Steps(fields, p, a).value;
    StepsThen(fields, p, a, x + b);
    assert a + (x + b) == a + x + b;
    UnknownIsSkipped(fields, q, x);
    StepsThen(fields, q, x, b);
    StepsThen(fields, p, a, b);
  }

  // ---------- The required fields ----------

  /** The described fields that the loop meets. */
  ghost function Met(fields: seq<Field>, p: Progress, b: seq<Byte>): set<nat>
    decreases |b|
  {
    if b == [] then {}
    else
      match DecTurn(fields, p, b)
      case Next(q, rest) => MetHere(fields, b) + Met(fields, q, rest)
      case Stop => {}
      case Fail => {}
  }

  ghost function MetHere(fields: seq<Field>, b: seq<Byte>): set<nat> {
    if Varint32(b).Bad? then {}
    else
      var i := FindIn(fields, 0, |fields|, Varint32(b).value / 8);
      if i < |fields| then {i} else {}
  }

  /** The required fields with an index below 64 among those met. */
  ghost predicate MarksExactly(fields: seq<Field>, seen: set<nat>, before: set<nat>, met: set<nat>) {
    && (forall i :: i in met && i < |fields| && fields[i].htype == Required && RequiredBefore(fields, i) < MAX_REQUIRED ==>
          RequiredBefore(fields, i) in seen)
    && (forall n :: n in before ==> n in seen)
    && (forall n :: n in seen && n !in before ==>
          exists i :: i in met && i < |fields| && fields[i].htype == Required && RequiredBefore(fields, i) == n)
  }

  lemma TurnMarks(fields: seq<Field>, p: Progress, b: seq<Byte>)
    requires DecTurn(fields, p, b).Next?
    ensures MarksExactly(fields, DecTurn(fields, p, b).p.seen, p.seen, MetHere(fields, b))
  {
    hide Varint32, StaticField, SkipField, Filled, CellOf, RequiredBefore;
    var key := Varint32(b);
    var i := FindIn(fields, 0, |fields|, key.value / 8);
    if i < |fields| {
      assert MetHere(fields, b) == {i};
      var q := DecField(fields, p, i, key.value % 8, key.rest).value;
      assert q.seen == if fields[i].htype == Required && RequiredBefore(fields, i) < MAX_REQUIRED
                       then p.seen + {RequiredBefore(fields, i)} else p.seen;
      assert i in MetHere(fields, b);
    }
  }

  lemma MarksCompose(fields: seq<Field>, s: set<nat>, t: set<nat>, u: set<nat>, m: set<nat>, n: set<nat>)
    requires MarksExactly(fields, t, s, m) && MarksExactly(fields, u, t, n)
    ensures MarksExactly(fields, u, s, m + n)
  {
    hide RequiredBefore;
    forall k | k in u && k !in s
      ensures exists i :: i in m + n && i < |fields| && fields[i].htype == Required && RequiredBefore(fields, i) == k
    {
      if k in t {
        var i :| i in m && i < |fields| && fields[i].htype == Required && RequiredBefore(fields, i) == k;
        assert i in m + n;
      } else {
        var i :| i in n && i < |fields| && fields[i].htype == Required && RequiredBefore(fields, i) == k;
        assert i in m + n;
      }
    }
  }

  lemma {:induction false} SeenIsMet(fields: seq<Field>, p: Progress, b: seq<Byte>)
    requires DecFields(fields, p, b).Some?
    ensures MarksExactly(fields, DecFields(fields, p, b).value.seen, p.seen, Met(fields, p, b))
    decreases |b|
  {
    hide DecTurn, MetHere, RequiredBefore;
    if b != [] {
      var t := DecTurn(fields, p, b);
      if t.Next? {
        TurnMarks(fields, p, b);
        SeenIsMet(fields, t.p, t.rest);
        MarksCompose(fields, p.seen, t.p.seen, DecFields(fields, t.p, t.rest).value.seen, MetHere(fields, b), Met(fields, t.p, t.rest));
      }
    }
  }

  /** The check at the end passes exactly when every required field was met; of more than 64, exactly
      when the first 64 were. */
  lemma RequiredCheckExact(fields: seq<Field>, cells: seq<Cell>, zero: bool, b: seq<Byte>)
    requires DecFields(fields, Begin(fields, cells, zero), b).Some?
    ensures var p := Begin(fields, cells, zero);
            var q := DecFields(fields, p, b).value;
            AllBelow(Min(RequiredBefore(fields, |fields|), MAX_REQUIRED), q.seen)
            <==> (forall i: nat :: i < |fields| && fields[i].htype == Required && RequiredBefore(fields, i) < MAX_REQUIRED ==>
                    i in Met(fields, p, b))
  {
    var p := Begin(fields, cells, zero);
    SeenIsMet(fields, p, b);
    hide DecFields, Met;
    var seen, met := DecFields(fields, p, b).value.seen, Met(fields, p, b);
    ExactlyTheMet(fields, seen, met);
  }

  /** A message is accepted exactly when its bytes decode, the first 64 required fields are met, and the fixed-count
      array that came last is full. */
  lemma AcceptedExactly(fields: seq<Field>, cells: seq<Cell>, zero: bool, b: seq<Byte>)
    ensures var p := Begin(fields, cells, zero);
            var end := DecFields(fields, p, b);
            DecMessage(fields, cells, zero, b).Some?
            <==> && end.Some?
                 && (forall i: nat :: i < |fields| && fields[i].htype == Required && RequiredBefore(fields, i) < 64 ==>
                       i in Met(fields, p, b))
                 && (forall i: nat :: i < |fields| && end.value.filling == Some(i) && CellOf(fields, i) < |end.value.cells| ==>
                       |ItemsOf(end.value.cells[CellOf(fields, i)])| == fields[i].arraySize)
  {
    var p := Begin(fields, cells, zero);
    if DecFields(fields, p, b).Some? {
      RequiredCheckExact(fields, cells, zero, b);
    }
    hide DecFields, Met, CellOf, RequiredBefore, ItemsOf, Begin;
  }

  lemma ExactlyTheMet(fields: seq<Field>, seen: set<nat>, met: set<nat>)
    requires MarksExactly(fields, seen, {}, met)
    ensures AllBelow(Min(RequiredBefore(fields, |fields|), MAX_REQUIRED), seen)
            <==> (forall i: nat :: i < |fields| && fields[i].htype == Required && RequiredBefore(fields, i) < MAX_REQUIRED ==> i in met)
  {
    if AllBelow(Min(RequiredBefore(fields, |fields|), MAX_REQUIRED), seen) {
      forall i: nat | i < |fields| && fields[i].htype == Required && RequiredBefore(fields, i) < MAX_REQUIRED
        ensures i in met
      {
        var n := RequiredBefore(fields, i);
        RequiredMonotone(fields, i + 1, |fields|);
        assert n in seen;
        var j :| j in met && j < |fields| && fields[j].htype == Required && RequiredBefore(fields, j) == n;
        SameIndex(fields, i, j);
      }
    }
    if forall i: nat :: i < |fields| && fields[i].htype == Required && RequiredBefore(fields, i) < MAX_REQUIRED ==> i in met {
      forall n: nat | n < Min(RequiredBefore(fields, |fields|), MAX_REQUIRED)
        ensures n in seen
      {
        var i := RequiredIndex(fields, n);
      }
    }
  }

  lemma SameIndex(fields: seq<Field>, i: nat, j: nat)
    requires i < |fields| && j < |fields| && fields[i].htype == Required && fields[j].htype == Required
    requires RequiredBefore(fields, i) == RequiredBefore(fields, j)
    ensures i == j
  {
    if i != j {
      var low, high := if i < j then i else j, if i < j then j else i;
      RequiredMonotone(fields, low + 1, high);
    }
  }
}
