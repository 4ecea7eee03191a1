/** The wire form of DTLS handshake fragments (section 4.2.2 of RFC 6347). */
module DtlsWire {
  import opened Bytes

  const HEADER_LENGTH := 12

  /** hm_header_st; fragLen is the length of the accompanying body. */
  datatype FragmentHeader = FragmentHeader(msgType: Byte, msgLen: nat, seqNum: nat, fragOff: nat)

  datatype Fragment = Fragment(header: FragmentHeader, body: seq<Byte>)

  predicate Encodable(f: Fragment) {
    && f.header.msgLen < 0x100_0000 && f.header.seqNum < 0x1_0000
    && f.header.fragOff < 0x100_0000 && |f.body| < 0x100_0000
  }

  function Serialize(f: Fragment): (s: seq<Byte>)
    ensures |s| == HEADER_LENGTH + |f.body|
  {
    [f.header.msgType] + ToBigEndian(f.header.msgLen, 3) + ToBigEndian(f.header.seqNum, 2)
    + ToBigEndian(f.header.fragOff, 3) + ToBigEndian(|f.body|, 3) + f.body
  }

  /** dtls1_parse_fragment: the first fragment of `s` and the octets after it. */
  function Parse(s: seq<Byte>): (r: Option<(Fragment, seq<Byte>)>)
    ensures r.Some? ==> |r.value.1| + HEADER_LENGTH <= |s| && r.value.0.header.seqNum < 0x1_0000
  {
    if |s| < HEADER_LENGTH then None
    else
      var fragLen := BigEndian(s[9..12]);
      if |s| < HEADER_LENGTH + fragLen then None
      else
        BigEndianBound(s[4..6]);
        PowersOf256();
        Some((Fragment(FragmentHeader(s[0], BigEndian(s[1..4]), BigEndian(s[4..6]), BigEndian(s[6..9])),
                       s[12..12 + fragLen]),
              s[12 + fragLen..]))
  }

  lemma PowersOf256()
    ensures Pow256(2) == 0x1_0000 && Pow256(3) == 0x100_0000
  {
    assert Pow256(1) == 256;
  }

  lemma ParseSerialize(f: Fragment, rest: seq<Byte>)
    requires Encodable(f)
    ensures Parse(Serialize(f) + rest) == Some((f, rest))
  {
    var h := f.header;
    PowersOf256();
    BigEndianRoundTrip(h.msgLen, 3);
    BigEndianRoundTrip(h.seqNum, 2);
    BigEndianRoundTrip(h.fragOff, 3);
    BigEndianRoundTrip(|f.body|, 3);
    var s := Serialize(f) + rest;
    assert s[1..4] == ToBigEndian(h.msgLen, 3);
    assert s[4..6] == ToBigEndian(h.seqNum, 2);
    assert s[6..9] == ToBigEndian(h.fragOff, 3);
    assert s[9..12] == ToBigEndian(|f.body|, 3);
    assert s[12..12 + |f.body|] == f.body;
    assert s[12 + |f.body|..] == rest;
  }

  /** The order and the widths of the header fields: type, length, message number, offset and length of the
      fragment, each with its most significant octet first (section 4.2.2 of RFC 6347). */
  lemma HeaderLayout()
    ensures Serialize(Fragment(FragmentHeader(11, 0x010203, 0x0405, 0x060708), [42]))
            == [11, 1, 2, 3, 4, 5, 6, 7, 8, 0, 0, 1, 42]
  {
    ThreeOctets(1, 2, 3);
    ThreeOctets(6, 7, 8);
    ThreeOctets(0, 0, 1);
    assert ToBigEndian(4, 1) == [4] && ToBigEndian(0x0405, 2) == [4, 5];
  }

  lemma ThreeOctets(a: Byte, b: Byte, c: Byte)
    ensures ToBigEndian((a * 256 + b) * 256 + c, 3) == [a, b, c]
  {
    assert ToBigEndian(a, 1) == [a];
    assert ToBigEndian(a * 256 + b, 2) == [a, b];
  }
}
