/** nanopb's memory streams. Every read is tied to the functions on byte sequences; a substream takes
    its bytes out of the parent, which resumes behind them when it is closed. */
module PbStreams {
  import opened Bytes
  import opened PbWire
  import opened PbMessage

  /** pb_istream_t over a buffer. */
  class IStream {
    const buf: seq<Byte>
    var state: nat
    var bytesLeft: nat

    ghost predicate Valid()
      reads this
    {
      state + bytesLeft <= |buf|
    }

    /** What can still be read. */
    ghost function Left(): (left: seq<Byte>)
      reads this
      requires Valid()
      ensures |left| == bytesLeft
    {
      buf[state..state + bytesLeft]
    }

    /** Where the stream ends in the buffer. */
    ghost function End(): nat
      reads this
    {
      state + bytesLeft
    }

    /** pb_istream_from_buffer. */
    constructor (buf: seq<Byte>)
      ensures Valid() && Left() == buf && this.buf == buf
    {
      this.buf := buf;
      state, bytesLeft := 0, |buf|;
    }

    /** A copy of the stream structure with another length. */
    constructor Copy(from: IStream, size: nat)
      ensures buf == from.buf && state == from.state && bytesLeft == size
    {
      buf := from.buf;
      state, bytesLeft := from.state, size;
    }

    /** pb_read. */
    method Read(count: nat) returns (ok: bool, bytes: seq<Byte>)
      requires Valid()
      modifies this
      ensures Valid() && End() == old(End())
      ensures ok == (count <= old(bytesLeft))
      ensures ok ==> bytes == old(Left())[..count] && Left() == old(Left())[count..]
      ensures !ok ==> Left() == old(Left())
    {
      if bytesLeft < count {
        return false, [];
      }
      bytes := buf[state..state + count];
      state, bytesLeft := state + count, bytesLeft - count;
      return true, bytes;
    }

    /** pb_readbyte. */
    method ReadByte() returns (ok: bool, byte: Byte)
      requires Valid()
      modifies this
      ensures Valid() && End() == old(End())
      ensures ok == (old(Left()) != [])
      ensures ok ==> byte == old(Left())[0] && Left() == old(Left())[1..]
      ensures !ok ==> Left() == old(Left())
    {
      if bytesLeft == 0 {
        return false, 0;
      }
      byte := buf[state];
      state, bytesLeft := state + 1, bytesLeft - 1;
      return true, byte;
    }

    /** pb_decode_varint32_eof. */
    method DecodeVarint32() returns (ok: bool, dest: nat, eof: bool)
      requires Valid()
      modifies this
      ensures Valid() && End() == old(End()) && bytesLeft <= old(bytesLeft)
      ensures ok == Varint32(old(Left())).Good?
      ensures ok ==> Varint32(old(Left())) == Good(dest, Left())
      ensures eof == (old(Left()) == [])
    {
      ghost var whole := Varint32(Left());
      var byte: Byte;
      ok, byte := ReadByte();
      if !ok {
        return false, 0, bytesLeft == 0;
      }
      eof := false;
      if byte < 0x80 {
        return true, byte, false;
      }
      hide Insert;
      var bitpos: nat := 7;
      dest := byte % 0x80;
      while true
        invariant Valid() && End() == old(End()) && bytesLeft < old(bytesLeft) && bitpos < 256
        invariant Varint32From(Left(), bitpos, dest) == whole
        decreases bytesLeft
      {
        ok, byte := ReadByte();
        if !ok {
          return;
        }
        if bitpos >= 32 {
          var signExtension := if bitpos < 63 then 0xFF else 0x01;
          if byte % 0x80 != 0 && (dest < TWO31 || byte != signExtension) {
            ok := false;
            return;
          }
        } else {
          dest := Insert(dest, byte % 0x80, bitpos);
        }
        bitpos := (bitpos + 7) % 256;
        if byte < 0x80 {
          if bitpos == 35 && byte / 16 % 8 != 0 {
            ok := false;
          }
          return;
        }
      }
    }

    /** pb_decode_varint. */
    method DecodeVarint() returns (ok: bool, dest: nat)
      requires Valid()
      modifies this
      ensures Valid() && End() == old(End()) && bytesLeft <= old(bytesLeft)
      ensures ok == Varint64(old(Left())).Good?
      ensures ok ==> Varint64(old(Left())) == Good(dest, Left())
    {
      ghost var whole := Varint64(Left());
      var bitpos: nat := 0;
      dest := 0;
      while true
        invariant Valid() && End() == old(End()) && bytesLeft <= old(bytesLeft)
        invariant dest < Pow2(bitpos) && Varint64From(Left(), bitpos, dest) == whole
        decreases bytesLeft
      {
        if bitpos >= 64 {
          return false, dest;
        }
        var byte: Byte;
        ok, byte := ReadByte();
        if !ok {
          return;
        }
        StillBelow(byte % 0x80, bitpos, dest);
        dest := Placed(dest, byte % 0x80, bitpos);
        bitpos := bitpos + 7;
        if byte < 0x80 {
          dest := dest % TWO64;
          return;
        }
      }
    }

    /** pb_skip_varint. */
    method SkipVarintField() returns (ok: bool)
      requires Valid()
      modifies this
      ensures Valid() && End() == old(End()) && bytesLeft <= old(bytesLeft)
      ensures ok == SkipVarint(old(Left())).Some?
      ensures ok ==> SkipVarint(old(Left())) == Some(Left())
    {
      while true
        invariant Valid() && End() == old(End()) && bytesLeft <= old(bytesLeft)
        invariant SkipVarint(Left()) == SkipVarint(old(Left()))
        decreases bytesLeft
      {
        var byte: Byte;
        ok, byte := ReadByte();
        if !ok || byte < 0x80 {
          return;
        }
      }
    }

    /** pb_skip_string. */
    method SkipString() returns (ok: bool)
      requires Valid()
      modifies this
      ensures Valid() && End() == old(End()) && bytesLeft <= old(bytesLeft)
      ensures ok == Substring(old(Left())).Good?
      ensures ok ==> Substring(old(Left())).rest == Left()
    {
      hide Varint32;
      var length: nat;
      var eof: bool;
      ok, length, eof := DecodeVarint32();
      if ok {
        var bytes: seq<Byte>;
        ok, bytes := Read(length);
      }
    }

    /** pb_skip_field. */
    method Skip(wireType: nat) returns (ok: bool)
      requires Valid()
      modifies this
      ensures Valid() && End() == old(End()) && bytesLeft <= old(bytesLeft)
      ensures ok == SkipField(old(Left()), wireType).Some?
      ensures ok ==> SkipField(old(Left()), wireType) == Some(Left())
    {
      hide SkipVarint, Substring;
      var bytes: seq<Byte>;
      if wireType == WT_VARINT {
        ok := SkipVarintField();
      } else if wireType == WT_64BIT {
        ok, bytes := Read(8);
      } else if wireType == WT_STRING {
        ok := SkipString();
      } else if wireType == WT_32BIT {
        ok, bytes := Read(4);
      } else {
        ok := false;
      }
    }

    /** pb_make_string_substream: the bytes are no longer counted to this stream, which stays in front
        of them. */
    method MakeStringSubstream() returns (ok: bool, sub: IStream)
      requires Valid()
      modifies this
      ensures Valid() && fresh(sub)
      ensures ok == Substring(old(Left())).Good?
      ensures ok ==>
                && sub.Valid() && sub.buf == buf && sub.state == state
                && End() + sub.bytesLeft == old(End()) && bytesLeft + sub.bytesLeft < old(bytesLeft)
                && Substring(old(Left())) == Good(sub.Left(), buf[sub.End()..sub.End() + bytesLeft])
      ensures !ok ==> End() == old(End()) && bytesLeft <= old(bytesLeft)
    {
      hide Varint32;
      var size: nat;
      var eof: bool;
      ok, size, eof := DecodeVarint32();
      if !ok {
        sub := new IStream([]);
        return;
      }
      sub := new IStream.Copy(this, bytesLeft);
      if sub.bytesLeft < size {
        ok := false;
        return;
      }
      ghost var rest := Left();
      sub.bytesLeft := size;
      bytesLeft := bytesLeft - size;
      assert rest[..size] == sub.Left();
      assert rest[size..] == buf[sub.End()..sub.End() + bytesLeft];
    }

    /** pb_close_string_substream: what the substream has left is skipped. */
    method CloseStringSubstream(sub: IStream)
      requires sub != this && sub.Valid() && sub.buf == buf && sub.End() + bytesLeft <= |buf|
      modifies this, sub
      ensures Valid() && state == old(sub.End()) && bytesLeft == old(bytesLeft)
      ensures Left() == buf[old(sub.End())..old(sub.End()) + bytesLeft]
    {
      if sub.bytesLeft != 0 {
        var _, _ := sub.Read(sub.bytesLeft);
      }
      state := sub.state;
    }
  }
}
