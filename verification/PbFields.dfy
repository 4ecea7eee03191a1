/** nanopb's field descriptors as finite trees, and the iterator that walks them (pb_common.c). A
    descriptor array is the sequence without its terminator, whose tag is 0. */
module PbFields {

  const PB_SIZE_MAX := 0xFFFF_FFFF

  datatype Ltype =
    | Varint | Uvarint | Svarint | Fixed32 | Fixed64
    | ByteArray | CString | Submessage(fields: seq<Field>) | FixedLengthBytes
  {
    /** PB_LTYPE_LAST_PACKABLE. */
    predicate Packable() {
      Varint? || Uvarint? || Svarint? || Fixed32? || Fixed64?
    }
  }

  datatype Htype = Required | Optional | Repeated | Oneof

  /** pb_field_t with static allocation. */
  datatype Field = Field(tag: nat, ltype: Ltype, htype: Htype, dataOffset: nat, sizeOffset: int, dataSize: nat, arraySize: nat)
  {
    /** A has flag, a counter or a which tag is stored beside the data. */
    predicate HasSize() {
      sizeOffset != 0
    }
  }

  /** The field shares the union of the field before it. */
  predicate Joined(fields: seq<Field>, i: nat)
    requires i < |fields|
  {
    i > 0 && fields[i - 1].htype == Oneof && fields[i].htype == Oneof && fields[i].dataOffset == PB_SIZE_MAX
  }

  /** The bytes a field takes in the message structure. */
  function Extent(f: Field): nat {
    if f.htype == Repeated then f.dataSize * f.arraySize else f.dataSize
  }

  // ---------- Positions, declaratively ----------

  /** Where field i's data lies, relative to the structure. */
  function DataAt(fields: seq<Field>, i: nat): nat
    requires i < |fields|
  {
    if i == 0 then fields[0].dataOffset
    else if Joined(fields, i) then DataAt(fields, i - 1)
    else DataAt(fields, i - 1) + Extent(fields[i - 1]) + fields[i].dataOffset
  }

  /** The required fields before field i. */
  function RequiredBefore(fields: seq<Field>, i: nat): (n: nat)
    requires i <= |fields|
    ensures n <= i
  {
    if i == 0 then 0
    else RequiredBefore(fields, i - 1) + (if fields[i - 1].htype == Required then 1 else 0)
  }

  /** The storage cell of field i: one for each field, but one for all the members of a union. */
  function CellOf(fields: seq<Field>, i: nat): (c: nat)
    requires i < |fields|
    ensures c <= i
  {
    if i == 0 then 0
    else if Joined(fields, i) then CellOf(fields, i - 1)
    else CellOf(fields, i - 1) + 1
  }

  lemma {:induction false} RequiredMonotone(fields: seq<Field>, i: nat, j: nat)
    requires i <= j <= |fields|
    ensures RequiredBefore(fields, i) <= RequiredBefore(fields, j)
  {
    if i < j {
      RequiredMonotone(fields, i, j - 1);
    }
  }

  /** Required fields have different indices, and those indices are the numbers below the total. */
  lemma {:induction false} RequiredIndex(fields: seq<Field>, n: nat) returns (i: nat)
    requires n < RequiredBefore(fields, |fields|)
    ensures i < |fields| && fields[i].htype == Required && RequiredBefore(fields, i) == n
    decreases |fields|
  {
    i := RequiredIndexBelow(fields, n, |fields|);
  }

  lemma {:induction false} RequiredIndexBelow(fields: seq<Field>, n: nat, bound: nat) returns (i: nat)
    requires bound <= |fields| && n < RequiredBefore(fields, bound)
    ensures i < bound && fields[i].htype == Required && RequiredBefore(fields, i) == n
    decreases bound
  {
    if n < RequiredBefore(fields, bound - 1) {
      i := RequiredIndexBelow(fields, n, bound - 1);
    } else {
      i := bound - 1;
    }
  }

  /** Two fields in one cell are members of one union. */
  lemma {:induction false} CellShared(fields: seq<Field>, i: nat, j: nat)
    requires i < j < |fields|
    ensures CellOf(fields, i) <= CellOf(fields, j)
    ensures CellOf(fields, i) == CellOf(fields, j) ==> fields[i].htype == Oneof && fields[j].htype == Oneof && Joined(fields, j)
    decreases j
  {
    if i < j - 1 {
      CellShared(fields, i, j - 1);
    }
  }

  /** The first match at or after `start`, going round. */
  function FindFrom(fields: seq<Field>, start: nat, tag: nat): (r: nat)
    requires start < |fields|
    ensures r <= |fields|
    ensures r < |fields| ==> fields[r].tag == tag
  {
    var after := FindIn(fields, start, |fields|, tag);
    if after < |fields| then after
    else
      var before := FindIn(fields, 0, start, tag);
      if before < start then before else |fields|
  }

  function FindIn(fields: seq<Field>, lo: nat, hi: nat, tag: nat): (r: nat)
    requires lo <= hi <= |fields|
    ensures lo <= r <= hi
    ensures r < hi ==> fields[r].tag == tag
    ensures forall k :: lo <= k < r ==> fields[k].tag != tag
    decreases hi - lo
  {
    if lo == hi || fields[lo].tag == tag then lo else FindIn(fields, lo + 1, hi, tag)
  }

  predicate DistinctTags(fields: seq<Field>) {
    forall i, j :: 0 <= i < j < |fields| ==> fields[i].tag != fields[j].tag
  }

  /** With distinct tags it does not matter where the search starts. */
  lemma FindIsIndependentOfStart(fields: seq<Field>, start: nat, tag: nat, i: nat)
    requires start < |fields| && DistinctTags(fields)
    ensures i < |fields| && fields[i].tag == tag ==> FindFrom(fields, start, tag) == i
    ensures (forall k :: 0 <= k < |fields| ==> fields[k].tag != tag) ==> FindFrom(fields, start, tag) == |fields|
  {}

  // ---------- The iterator ----------

  /** pb_field_iter_t over descriptors laid out in one structure. */
  class FieldIter {
    const fields: seq<Field>
    var pos: nat
    var requiredFieldIndex: nat
    var pData: int
    var pSize: int

    /** All that the iterator keeps is determined by its position. */
    ghost predicate Valid()
      reads this
    {
      if fields == [] then pos == 0 && requiredFieldIndex == 0
      else
        && pos < |fields|
        && requiredFieldIndex == RequiredBefore(fields, pos)
        && pData == DataAt(fields, pos)
        && (!fields[pos].HasSize() ==> (pSize == pData || Joined(fields, pos)))
        && (!Joined(fields, pos) ==> pSize == pData + fields[pos].sizeOffset)
    }

    /** pb_field_iter_begin. */
    constructor (fields: seq<Field>)
      ensures Valid() && this.fields == fields && pos == 0
    {
      this.fields := fields;
      pos, requiredFieldIndex := 0, 0;
      pData := if fields == [] then 0 else fields[0].dataOffset;
      pSize := if fields == [] then 0 else fields[0].dataOffset + fields[0].sizeOffset;
    }

    /** pb_field_iter_next: false when it wraps back to the beginning. */
    method Next() returns (more: bool)
      requires Valid()
      modifies this
      ensures Valid()
      ensures more == (old(pos) + 1 < |fields|)
      ensures pos == if more then old(pos) + 1 else 0
    {
      if fields == [] {
        return false;
      }
      var prev := fields[pos];
      pos := pos + 1;
      if pos == |fields| {
        pos := 0;
        requiredFieldIndex, pData := 0, fields[0].dataOffset;
        pSize := pData + fields[0].sizeOffset;
        return false;
      }
      var prevSize := prev.dataSize;
      if prev.htype == Oneof && fields[pos].htype == Oneof && fields[pos].dataOffset == PB_SIZE_MAX {
        return true;
      } else if prev.htype == Repeated {
        prevSize := prevSize * prev.arraySize;
      }
      if prev.htype == Required {
        requiredFieldIndex := requiredFieldIndex + 1;
      }
      pData := pData + prevSize + fields[pos].dataOffset;
      pSize := pData + fields[pos].sizeOffset;
      return true;
    }

    /** pb_field_iter_find: the search goes on from where the iterator is, once round. In an empty
        message it looks at the terminator, whose tag is 0. */
    method Find(tag: nat) returns (found: bool)
      requires Valid()
      modifies this
      ensures Valid()
      ensures fields == [] ==> found == (tag == 0)
      ensures fields != [] ==> found == (FindFrom(fields, old(pos), tag) < |fields|)
      ensures fields != [] ==> pos == if found then FindFrom(fields, old(pos), tag) else old(pos)
    {
      if fields == [] {
        return tag == 0;
      }
      var start := pos;
      ghost var wrapped := false;
      while true
        invariant Valid()
        invariant if wrapped then 0 <= pos < start && FindIn(fields, start, |fields|, tag) == |fields|
                                  && FindIn(fields, 0, start, tag) == FindIn(fields, pos, start, tag)
                  else start <= pos && FindIn(fields, start, |fields|, tag) == FindIn(fields, pos, |fields|, tag)
        decreases if wrapped then start - pos else |fields| + start - pos
      {
        if fields[pos].tag == tag {
          return true;
        }
        var more := Next();
        wrapped := wrapped || !more;
        if pos == start {
          return false;
        }
      }
    }
  }
}
