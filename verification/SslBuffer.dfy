/** SSLBuffer: a transport buffer whose offset, size and capacity are 16-bit fields. */
module SslBuffer {
  import opened Bytes

  const ALIGN_PAYLOAD := 8     // SSL3_ALIGN_PAYLOAD
  const UINT16_MAX := 0xffff

  predicate Aligned(address: nat) {
    address % ALIGN_PAYLOAD == 0
  }

  lemma OffsetAligns(headerLen: nat, address: nat)
    ensures Aligned(address + (0 - headerLen - address) % ALIGN_PAYLOAD + headerLen)
  {}

  class Buffer {
    var buf: array?<Byte>
    var offset: nat
    var size: nat
    var cap: nat

    ghost predicate Valid()
      reads this
    {
      && size <= cap <= UINT16_MAX && offset <= UINT16_MAX
      && (buf == null ==> offset == size == cap == 0)
      && (buf != null ==> offset + cap <= buf.Length)
    }

    /** The octets in the buffer. */
    ghost function Contents(): (s: seq<Byte>)
      requires Valid()
      ensures |s| == size
      reads this, buf
    {
      if buf == null then [] else buf[offset..offset + size]
    }

    /** No octet lies beyond the reach of the 16-bit offset. */
    ghost predicate Addressable()
      reads this`offset, this`cap
    {
      offset + cap <= UINT16_MAX + 1
    }

    constructor ()
      ensures Valid() && Contents() == [] && buf == null
    {
      buf, offset, size, cap := null, 0, 0, 0;
    }

    method Clear()
      modifies this
      ensures Valid() && Contents() == [] && buf == null && Addressable()
    {
      buf, offset, size, cap := null, 0, 0, 0;
    }

    /** `address` is where the allocator puts the new memory. */
    method EnsureCap(headerLen: nat, newCap: nat, address: nat) returns (ok: bool)
      requires Valid()
      modifies this
      ensures Valid() && Contents() == old(Contents()) && size == old(size)
      ensures ok <==> newCap <= UINT16_MAX
      ensures ok ==> newCap <= cap
      ensures old(cap) >= newCap || !ok ==> buf == old(buf) && offset == old(offset) && cap == old(cap)
      ensures ok && old(cap) < newCap ==>
                fresh(buf) && cap == newCap && offset < ALIGN_PAYLOAD && Aligned(address + offset + headerLen)
      ensures old(Addressable()) && (ok ==> newCap + ALIGN_PAYLOAD - 1 <= UINT16_MAX + 1) ==> Addressable()
    {
      if newCap > UINT16_MAX {
        return false;
      }
      if cap >= newCap {
        return true;
      }
      hide Aligned;
      var newBuf := new Byte[newCap + ALIGN_PAYLOAD - 1](i => 0);
      var newOffset := (0 - headerLen - address) % ALIGN_PAYLOAD;
      OffsetAligns(headerLen, address);
      if buf != null {
        forall i | 0 <= i < size {
          newBuf[newOffset + i] := buf[offset + i];
        }
      }
      buf, offset, cap := newBuf, newOffset, newCap;
      return true;
    }

    /** Copy `data` into the remaining space and count it with DidWrite, which aborts on overrun. */
    method Append(data: seq<Byte>)
      requires Valid() && |data| <= cap - size
      modifies this`size, buf
      ensures Valid() && size == old(size) + |data|
      ensures Contents() == old(Contents()) + data
    {
      if |data| > 0 {
        forall i | 0 <= i < |data| {
          buf[offset + size + i] := data[i];
        }
        size := size + |data|;
      }
    }

    /** Consume, which aborts when `len` exceeds the size. The offset is reduced modulo 2^16. */
    method Consume(len: nat)
      requires Valid() && len <= size
      modifies this`offset, this`size, this`cap
      ensures Valid() && size == old(size) - len && cap == old(cap) - len
      ensures offset == (old(offset) + len) % 0x1_0000
      ensures old(offset) + len <= UINT16_MAX || old(Addressable()) ==> Contents() == old(Contents())[len..]
      ensures old(Addressable()) ==> Addressable()
    {
      offset := (offset + len) % 0x1_0000;
      size := size - len;
      cap := cap - len;
    }

    method DiscardConsumed()
      requires Valid()
      modifies this
      ensures Valid() && Contents() == old(Contents())
      ensures old(Addressable()) ==> Addressable()
    {
      if size == 0 {
        Clear();
      }
    }
  }

  /** `size` octets of `mem` from a 16-bit offset. */
  function Window(mem: seq<Byte>, offset: nat, size: nat): seq<Byte>
    requires offset + size <= |mem|
  {
    mem[offset..offset + size]
  }

  /** Consume leaves the right octets behind, for every content of a full buffer and every length. */
  ghost predicate ConsumesExactly(offset: nat, cap: nat) {
    forall mem: seq<Byte>, len: nat | |mem| == offset + cap && len <= cap && (offset + len) % 0x1_0000 + (cap - len) <= |mem| ::
      Window(mem, (offset + len) % 0x1_0000, cap - len) == Window(mem, offset, cap)[len..]
  }

  /** Capacities up to 65535 are accepted, but a full buffer is consumed faithfully exactly when its
      end is addressable; beyond that, a short write can leave the wrong octets in front. */
  lemma ConsumesExactlyIffAddressable(offset: nat, cap: nat)
    requires offset < ALIGN_PAYLOAD && cap <= UINT16_MAX
    ensures ConsumesExactly(offset, cap) <==> offset + cap <= 0x1_0000
  {
    if offset + cap > 0x1_0000 {
      var len := 0x1_0000 - offset;
      var mem := Zeros(offset + cap - 1) + [1];
      assert (offset + len) % 0x1_0000 == 0;
      var after := Window(mem, 0, cap - len);
      var right := Window(mem, offset, cap)[len..];
      assert after[cap - len - 1] == 0 && right[cap - len - 1] == 1;
    }
  }
}
