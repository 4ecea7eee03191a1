/** What the bytes of a structure's memory stand for, and that clearing some of them settles exactly what the
    defaults say it does. */
module PbMemory {
  import opened Bytes
  import opened PbWire
  import opened PbFields
  import opened PbMessage

  /** The byte at each address. */
  type Memory = int -> Byte

  // ---------- Reading memory ----------

  function Word(mem: Memory, at: int, n: nat): nat
    decreases n
  {
    if n == 0 then 0 else mem(at) + 256 * Word(mem, at + 1, n - 1)
  }

  /** The same, in two's complement. */
  function SignedWord(mem: Memory, at: int, n: nat): int {
    var w := Word(mem, at, n);
    if IntSize(n) && w >= Half(n) then w - 2 * Half(n) else w
  }

  function Octets(mem: Memory, at: int, n: nat): (d: seq<Byte>)
    ensures |d| == n && forall k | 0 <= k < n :: d[k] == mem(at + k)
    decreases n
  {
    if n == 0 then [] else [mem(at)] + Octets(mem, at + 1, n - 1)
  }

  /** A string in n bytes, up to its NUL if it has one. */
  function Text(mem: Memory, at: int, n: nat): seq<Byte>
    decreases n
  {
    if n == 0 || mem(at) == 0 then [] else [mem(at)] + Text(mem, at + 1, n - 1)
  }

  function ReadValue(f: Field, mem: Memory, at: int): Value
    decreases f, 0, 0
  {
    match f.ltype
    case Varint => Int(SignedWord(mem, at, f.dataSize))
    case Svarint => Int(SignedWord(mem, at, f.dataSize))
    case Uvarint => Int(Word(mem, at, f.dataSize))
    case Fixed32 => Int(Word(mem, at, 4))
    case Fixed64 => Int(Word(mem, at, 8))
    case ByteArray => Data(Octets(mem, at + 4, Word(mem, at, 4)))
    case CString => Data(Text(mem, at, f.dataSize))
    case FixedLengthBytes => Data(Octets(mem, at, f.dataSize))
    case Submessage(fields) => Msg(ReadCells(fields, |fields|, mem, at))
  }

  function ReadItems(f: Field, mem: Memory, at: int, count: nat): (items: seq<Value>)
    ensures |items| == count
    decreases f, 1, count
  {
    if count == 0 then [] else [ReadValue(f, mem, at)] + ReadItems(f, mem, at + f.dataSize, count - 1)
  }

  /** Field i of the structure at `at`; the first of its union, when it is in one. */
  function ReadCell(fields: seq<Field>, i: nat, mem: Memory, at: int): Cell
    requires i < |fields|
    decreases fields, i, 0
  {
    var f := fields[i];
    var data := at + DataAt(fields, i);
    match f.htype
    case Required => One(ReadValue(f, mem, data))
    case Optional =>
      if !f.HasSize() then One(ReadValue(f, mem, data))
      else if mem(data + f.sizeOffset) == 0 then Maybe(None)
      else Maybe(Some(ReadValue(f, mem, data)))
    case Repeated =>
      Many(ReadItems(f, mem, data, if f.HasSize() then Word(mem, data + f.sizeOffset, 4) else f.arraySize))
    case Oneof =>
      var which := Word(mem, data + f.sizeOffset, 4);
      var j := FindIn(fields, 0, |fields|, which);
      if which == 0 then NoChoice
      else if j < |fields| then Choice(which, ReadValue(fields[j], mem, data))
      else Unset
  }

  function ReadCells(fields: seq<Field>, n: nat, mem: Memory, at: int): (cells: seq<Cell>)
    requires n <= |fields|
    ensures |cells| == if n == 0 then 0 else CellOf(fields, n - 1) + 1
    decreases fields, n, 0
  {
    if n == 0 then []
    else if Joined(fields, n - 1) then ReadCells(fields, n - 1, mem, at)
    else ReadCells(fields, n - 1, mem, at) + [ReadCell(fields, n - 1, mem, at)]
  }

  // ---------- What zero bytes settle ----------

  ghost predicate Blank(mem: Memory, at: int, zero: nat) {
    forall k | at <= k < at + zero :: mem(k) == 0
  }

  lemma {:induction false} BlankWord(mem: Memory, at: int, n: nat)
    requires Blank(mem, at, n)
    ensures Word(mem, at, n) == 0
    decreases n
  {
    if n > 0 {
      BlankWord(mem, at + 1, n - 1);
    }
  }

  lemma SettledValue(f: Field, zero: nat, mem: Memory, at: int)
    requires ClearedValue(f, zero).Some? && Blank(mem, at, zero)
    ensures ReadValue(f, mem, at) == ClearedValue(f, zero).value
    decreases f, 0, 0
  {
    match f.ltype
    case ByteArray =>
      BlankWord(mem, at, 4);
    case CString =>
    case FixedLengthBytes =>
      assert Octets(mem, at, f.dataSize) == Zeros(f.dataSize);
    case Submessage(fields) =>
      SettledCells(fields, |fields|, zero, mem, at);
    case Fixed32 =>
      BlankWord(mem, at, 4);
    case Fixed64 =>
      BlankWord(mem, at, 8);
    case _ =>
      BlankWord(mem, at, f.dataSize);
  }

  lemma SettledItems(f: Field, count: nat, zero: nat, mem: Memory, at: int)
    requires ClearedItems(f, count, zero).Some? && Blank(mem, at, zero)
    ensures ReadItems(f, mem, at, count) == ClearedItems(f, count, zero).value
    decreases f, 1, count
  {
    if count > 0 {
      SettledValue(f, zero, mem, at);
      SettledItems(f, count - 1, Less(zero, f.dataSize), mem, at + f.dataSize);
    }
  }

  lemma SettledCell(fields: seq<Field>, i: nat, zero: nat, mem: Memory, at: int)
    requires i < |fields| && ClearedCell(fields[i], DataAt(fields, i), zero).Some? && Blank(mem, at, zero)
    ensures ReadCell(fields, i, mem, at) == ClearedCell(fields[i], DataAt(fields, i), zero).value
    decreases fields, i, 0
  {
    hide ReadValue, ClearedValue;
    var f, offset := fields[i], DataAt(fields, i);
    var data := at + offset;
    match f.htype
    case Required =>
      SettledValue(f, Less(zero, offset), mem, data);
    case Optional =>
      if !f.HasSize() {
        SettledValue(f, Less(zero, offset), mem, data);
      }
    case Repeated =>
      if f.HasSize() {
        BlankWord(mem, data + f.sizeOffset, 4);
      } else {
        SettledItems(f, f.arraySize, Less(zero, offset), mem, data);
      }
    case Oneof =>
      BlankWord(mem, data + f.sizeOffset, 4);
  }

  lemma SettledCells(fields: seq<Field>, n: nat, zero: nat, mem: Memory, at: int)
    requires n <= |fields| && ClearedCells(fields, n, zero).Some? && Blank(mem, at, zero)
    ensures ReadCells(fields, n, mem, at) == ClearedCells(fields, n, zero).value
    decreases fields, n, 0
  {
    hide ReadCell, ClearedCell, Blank, DataAt;
    if n > 0 {
      if !Joined(fields, n - 1) {
        SettledCell(fields, n - 1, zero, mem, at);
      }
      SettledCells(fields, n - 1, zero, mem, at);
    }
  }

  // ---------- And nothing else ----------

  /** Flags, counters and which tags lie in the structure, and strings have room. */
  ghost predicate LaidOut(fields: seq<Field>)
    decreases fields
  {
    forall i: nat :: i < |fields| ==> 0 <= DataAt(fields, i) + fields[i].sizeOffset && Laid(fields[i])
  }

  ghost predicate Laid(f: Field)
    decreases f
  {
    match f.ltype
    case Submessage(fields) => LaidOut(fields)
    case CString => f.dataSize > 0
    case _ => true
  }

  /** Memory with a single bit set. */
  function Only(k: int): Memory {
    a => if a == k then 1 else 0
  }

  const BLANK: Memory := a => 0

  lemma {:induction false} OnlyWord(k: int, at: int, n: nat)
    requires at <= k < at + n
    ensures 0 < Word(Only(k), at, n) < Pow256(n)
    decreases n
  {
    if k > at {
      OnlyWord(k, at + 1, n - 1);
    } else {
      BlankWord(Only(k), at + 1, n - 1);
    }
  }

  lemma OnlySigned(k: int, at: int, n: nat)
    requires at <= k < at + n
    ensures SignedWord(Only(k), at, n) != 0
  {
    OnlyWord(k, at, n);
    assert IntSize(n) ==> Pow256(n) == 2 * Half(n);
  }

  /** A value that is not settled depends on a byte behind the zeros. */
  lemma OpenValue(f: Field, zero: nat, at: int) returns (k: int)
    requires ClearedValue(f, zero).None? && Laid(f)
    ensures k >= at + zero && ReadValue(f, Only(k), at) != ReadValue(f, BLANK, at)
    decreases f, 0, 0
  {
    match f.ltype
    case ByteArray =>
      k := at + 3;
      OnlyWord(k, at, 4);
      BlankWord(BLANK, at, 4);
    case CString =>
      k := at;
    case FixedLengthBytes =>
      k := at + f.dataSize - 1;
      assert Octets(Only(k), at, f.dataSize)[f.dataSize - 1] != Octets(BLANK, at, f.dataSize)[f.dataSize - 1];
    case Submessage(fields) =>
      k := OpenCells(fields, |fields|, zero, at);
    case Fixed32 =>
      k := at + 3;
      OnlyWord(k, at, 4);
      BlankWord(BLANK, at, 4);
    case Fixed64 =>
      k := at + 7;
      OnlyWord(k, at, 8);
      BlankWord(BLANK, at, 8);
    case _ =>
      k := at + f.dataSize - 1;
      OnlyWord(k, at, f.dataSize);
      OnlySigned(k, at, f.dataSize);
      BlankWord(BLANK, at, f.dataSize);
  }

  lemma OpenItems(f: Field, count: nat, zero: nat, at: int) returns (k: int)
    requires ClearedItems(f, count, zero).None? && Laid(f)
    ensures k >= at + zero && ReadItems(f, Only(k), at, count) != ReadItems(f, BLANK, at, count)
    decreases f, 1, count
  {
    hide ReadValue, ClearedValue, Laid;
    if ClearedValue(f, zero).None? {
      k := OpenValue(f, zero, at);
      assert ReadItems(f, Only(k), at, count)[0] != ReadItems(f, BLANK, at, count)[0];
    } else {
      k := OpenItems(f, count - 1, Less(zero, f.dataSize), at + f.dataSize);
      assert ReadItems(f, Only(k), at, count)[1..] != ReadItems(f, BLANK, at, count)[1..];
    }
  }

  lemma OpenCell(fields: seq<Field>, i: nat, zero: nat, at: int) returns (k: int)
    requires i < |fields| && ClearedCell(fields[i], DataAt(fields, i), zero).None? && LaidOut(fields)
    ensures k >= at + zero && ReadCell(fields, i, Only(k), at) != ReadCell(fields, i, BLANK, at)
    decreases fields, i, 0
  {
    hide ReadValue, ClearedValue, Laid;
    var f, offset := fields[i], DataAt(fields, i);
    var data := at + offset;
    hide Word, ReadItems, Only, BLANK;
    if f.htype == Required || (f.htype == Optional && !f.HasSize()) {
      k := OpenValue(f, Less(zero, offset), data);
    } else if IsFixedArray(f) {
      k := OpenItems(f, f.arraySize, Less(zero, offset), data);
    } else if f.htype == Optional {
      k := data + f.sizeOffset;
      OnlyAt(k);
    } else {
      k := data + f.sizeOffset + 3;
      OnlyCounts(k);
    }
  }

  lemma OnlyAt(k: int)
    ensures Only(k)(k) == 1 && BLANK(k) == 0
  {}

  lemma OnlyCounts(k: int)
    ensures Word(Only(k), k - 3, 4) != 0 && Word(BLANK, k - 3, 4) == 0
  {
    OnlyWord(k, k - 3, 4);
    BlankWord(BLANK, k - 3, 4);
  }

  lemma OpenCells(fields: seq<Field>, n: nat, zero: nat, at: int) returns (k: int)
    requires n <= |fields| && ClearedCells(fields, n, zero).None? && LaidOut(fields)
    ensures k >= at + zero && ReadCells(fields, n, Only(k), at) != ReadCells(fields, n, BLANK, at)
    decreases fields, n, 0
  {
    hide ReadCell, ClearedCell, LaidOut, DataAt, CellOf, Only, BLANK;
    if Joined(fields, n - 1) {
      k := OpenCells(fields, n - 1, zero, at);
    } else if ClearedCells(fields, n - 1, zero).None? {
      k := OpenCells(fields, n - 1, zero, at);
      var c := |ReadCells(fields, n - 1, BLANK, at)|;
      assert ReadCells(fields, n, Only(k), at)[..c] != ReadCells(fields, n, BLANK, at)[..c];
    } else {
      k := OpenCell(fields, n - 1, zero, at);
      var c := |ReadCells(fields, n - 1, BLANK, at)|;
      assert ReadCells(fields, n, Only(k), at)[c] != ReadCells(fields, n, BLANK, at)[c];
    }
  }

  /** Zeroing the first bytes of an array's storage settles its items exactly when the model says so, and then to what
      it says: all memory that begins with these zeros reads alike. */
  lemma ClearedExactly(f: Field, count: nat, zero: nat, at: int, items: seq<Value>)
    requires Laid(f)
    ensures ClearedItems(f, count, zero) == Some(items)
            <==> forall mem: Memory :: Blank(mem, at, zero) ==> ReadItems(f, mem, at, count) == items
  {
    if ClearedItems(f, count, zero).Some? {
      forall mem: Memory | Blank(mem, at, zero)
        ensures ReadItems(f, mem, at, count) == ClearedItems(f, count, zero).value
      {
        SettledItems(f, count, zero, mem, at);
      }
      assert Blank(BLANK, at, zero);
    } else {
      var k := OpenItems(f, count, zero, at);
      assert Blank(BLANK, at, zero) && Blank(Only(k), at, zero);
    }
  }
}
