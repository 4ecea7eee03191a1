/** The TLS ordered write path: sealed records wait in two queues, the write buffer and the pending
    handshake flight, and drain into a transport that may write short or fail (section 6.2.1 of
    RFC 5246). */
module TlsWriter {
  import opened Bytes
  import opened SslBuffer
  import Stream = HandshakeStream

  const MAX_PLAIN_LENGTH := 16384   // SSL3_RT_MAX_PLAIN_LENGTH

  datatype ContentType = ApplicationData | Handshake | ChangeCipherSpec | Alert

  /** A sealed record: its type and plaintext. */
  datatype Record = Record(contentType: ContentType, plain: seq<Byte>)

  /** A caller's buffer: where it is and what it holds. */
  datatype Input = Input(address: nat, data: seq<Byte>)

  /** The application data in `records`, record by record. */
  function AppData(records: seq<Record>): seq<seq<Byte>> {
    if |records| == 0 then []
    else
      var last := records[|records| - 1];
      AppData(records[..|records| - 1]) + (if last.contentType == ApplicationData then [last.plain] else [])
  }

  lemma AppDataAppend(records: seq<Record>, r: Record)
    ensures AppData(records + [r]) == AppData(records) + (if r.contentType == ApplicationData then [r.plain] else [])
  {
    assert (records + [r])[..|records|] == records;
  }

  /** What one round of the loop in ssl3_add_message takes off the front. */
  lemma NextChunk(done: seq<seq<Byte>>, rest: seq<Byte>, max: nat)
    requires max > 0
    ensures var n := Min(|rest|, max);
            done + Stream.Chunks(rest, max) ==
            done + [rest[..n]] + (if n == |rest| then [] else Stream.Chunks(rest[n..], max))
  {
    if |rest| <= max {
      assert rest[..|rest|] == rest;
    }
  }

  /** Application data as it is cut into records: as much as fits into each, and none for no data. */
  function Pieces(data: seq<Byte>, max: nat): seq<seq<Byte>>
    requires max > 0
  {
    if data == [] then [] else Stream.Chunks(data, max)
  }

  /** The records carry the data exactly; each is full, or the last, and none is empty. */
  lemma PiecesAreTheData(data: seq<Byte>, max: nat)
    requires max > 0
    ensures Stream.Concat(Pieces(data, max)) == data
    ensures forall c <- Pieces(data, max) :: 0 < |c| <= max
    ensures forall i | 0 <= i < |Pieces(data, max)| - 1 :: |Pieces(data, max)[i]| == max
  {
    if data != [] {
      Stream.ChunksPartition(data, max);
      AllButTheLastAreFull(data, max);
    }
  }

  lemma {:induction false} AllButTheLastAreFull(data: seq<Byte>, max: nat)
    requires max > 0
    ensures forall i | 0 <= i < |Stream.Chunks(data, max)| - 1 :: |Stream.Chunks(data, max)[i]| == max
    decreases |data|
  {
    if |data| > max {
      AllButTheLastAreFull(data[max..], max);
      var rest := Stream.Chunks(data[max..], max);
      assert Stream.Chunks(data, max) == [data[..max]] + rest;
    }
  }

  /** `n` octets fill their records. */
  predicate FillsRecords(n: nat, max: nat)
    requires max > 0
  {
    n == 0 || (n >= max && FillsRecords(n - max, max))
  }

  lemma {:induction false} FillsOneMore(n: nat, max: nat)
    requires max > 0 && FillsRecords(n, max)
    ensures FillsRecords(n + max, max)
  {}

  /** What comes after full records is cut on its own. */
  lemma {:induction false} NextPiece(s: seq<Byte>, t: seq<Byte>, max: nat)
    requires max > 0 && FillsRecords(|s|, max) && 0 < |t| <= max
    ensures Pieces(s + t, max) == Pieces(s, max) + [t]
    decreases |s|
  {
    if s == [] {
      assert s + t == t;
    } else {
      NextPiece(s[max..], t, max);
      assert (s + t)[..max] == s[..max] && (s + t)[max..] == s[max..] + t;
      assert Pieces(s + t, max) == [s[..max]] + Pieces(s[max..] + t, max);
      if |s| == max {
        assert s[..max] == s && s[max..] == [];
      }
      assert Pieces(s, max) == [s[..max]] + Pieces(s[max..], max);
    }
  }

  /** Handshake records with the given bodies. */
  function HandshakeRecords(chunks: seq<seq<Byte>>): seq<Record> {
    if |chunks| == 0 then [] else HandshakeRecords(chunks[..|chunks| - 1]) + [Record(Handshake, chunks[|chunks| - 1])]
  }

  lemma HandshakeRecordsAppend(chunks: seq<seq<Byte>>, c: seq<Byte>)
    ensures HandshakeRecords(chunks + [c]) == HandshakeRecords(chunks) + [Record(Handshake, c)]
  {
    assert (chunks + [c])[..|chunks|] == chunks;
  }

  /** No sealed octet is lost, repeated or reordered: what the transport took, then what is in the
      write buffer, then what is left of the pending flight, is every ciphertext in sealing order. The
      first `count` of them have left the pending flight. */
  ghost predicate Conserved(accepted: seq<Byte>, buffered: seq<Byte>, flight: seq<Byte>,
                            ciphertexts: seq<seq<Byte>>, count: nat) {
    && accepted + buffered + flight == Stream.Concat(ciphertexts)
    && count <= |ciphertexts| && Stream.Concat(ciphertexts[..count]) <= accepted + buffered
  }

  lemma BufferDrains(accepted: seq<Byte>, buffered: seq<Byte>, flight: seq<Byte>, ciphertexts: seq<seq<Byte>>, count: nat, n: nat)
    requires n <= |buffered|
    ensures Conserved(accepted, buffered, flight, ciphertexts, count) ==>
              Conserved(accepted + buffered[..n], buffered[n..], flight, ciphertexts, count)
  {
    hide Stream.Concat;
    assert buffered == buffered[..n] + buffered[n..];
    assert accepted + buffered[..n] + buffered[n..] == accepted + buffered;
  }

  lemma NextPart(data: seq<Byte>, tot: nat, n: nat)
    requires tot + n <= |data|
    ensures data[..tot + n] == data[..tot] + data[tot..tot + n]
  {}

  lemma SuffixGrows<T>(s: seq<T>, base: nat, more: seq<T>)
    requires base <= |s|
    ensures (s + more)[base..] == s[base..] + more
  {}

  lemma NoRecords()
    ensures HandshakeRecords([]) == [] && Stream.Concat([]) == []
  {}

  lemma FlightDrains(accepted: seq<Byte>, flight: seq<Byte>, ciphertexts: seq<seq<Byte>>, count: nat, n: nat)
    requires n <= |flight|
    ensures Conserved(accepted, [], flight, ciphertexts, count) ==>
              Conserved(accepted + flight[..n], [], flight[n..], ciphertexts, count)
  {
    hide Stream.Concat;
    assert accepted + [] == accepted && accepted + flight[..n] + [] == accepted + flight[..n];
    assert accepted + flight[..n] + flight[n..] == accepted + flight;
  }

  lemma FlightGrows(accepted: seq<Byte>, buffered: seq<Byte>, flight: seq<Byte>, ciphertexts: seq<seq<Byte>>, count: nat, ct: seq<Byte>)
    ensures Conserved(accepted, buffered, flight, ciphertexts, count) ==>
              Conserved(accepted, buffered, flight + ct, ciphertexts + [ct], count)
  {
    hide Stream.Concat;
    OneMore(ciphertexts, ct);
    assert accepted + buffered + (flight + ct) == accepted + buffered + flight + ct;
    assert count <= |ciphertexts| ==> (ciphertexts + [ct])[..count] == ciphertexts[..count];
  }

  lemma OneMore(ciphertexts: seq<seq<Byte>>, ct: seq<Byte>)
    ensures Stream.Concat(ciphertexts + [ct]) == Stream.Concat(ciphertexts) + ct
  {
    Stream.ConcatAppend(ciphertexts, [ct]);
    assert Stream.Concat([ct]) == ct + Stream.Concat([]);
  }

  lemma OneMoreSince(before: seq<seq<Byte>>, start: nat, after: seq<seq<Byte>>)
    requires start <= |before| && |after| == |before| + 1 && before <= after
    ensures Stream.Concat(after[start..]) == Stream.Concat(before[start..]) + after[|before|]
  {
    OneMore(before[start..], after[|before|]);
    assert before[start..] + [after[|before|]] == after[start..];
  }

  /** The pending flight moves in front of a new record, so the buffer is next in line. */
  lemma FlightMovesToBuffer(accepted: seq<Byte>, flight: seq<Byte>, ciphertexts: seq<seq<Byte>>, count: nat)
    ensures Conserved(accepted, [], flight, ciphertexts, count) ==> Conserved(accepted, flight, [], ciphertexts, count)
  {
    hide Stream.Concat;
    assert accepted + [] == accepted && accepted + flight + [] == accepted + flight;
  }

  /** With no flight pending a new record joins the buffer, and then everything has left the flight. */
  lemma BufferGrows(accepted: seq<Byte>, buffered: seq<Byte>, ciphertexts: seq<seq<Byte>>, count: nat, ct: seq<Byte>)
    ensures Conserved(accepted, buffered, [], ciphertexts, count) ==>
              Conserved(accepted, buffered + ct, [], ciphertexts + [ct], |ciphertexts| + 1)
  {
    hide Stream.Concat;
    OneMore(ciphertexts, ct);
    assert accepted + (buffered + ct) == accepted + buffered + ct;
    assert accepted + buffered + [] == accepted + buffered && accepted + buffered + ct + [] == accepted + buffered + ct;
    assert (ciphertexts + [ct])[..|ciphertexts| + 1] == ciphertexts + [ct];
  }

  /** With an empty buffer the first `count` ciphertexts are with the transport; with nothing pending either, all are. */
  lemma BufferEmpty(accepted: seq<Byte>, flight: seq<Byte>, ciphertexts: seq<seq<Byte>>, count: nat)
    ensures Conserved(accepted, [], flight, ciphertexts, count) ==>
              && count <= |ciphertexts| && Stream.Concat(ciphertexts[..count]) <= accepted
              && (flight == [] ==> accepted == Stream.Concat(ciphertexts))
  {
    hide Stream.Concat;
    assert accepted + [] == accepted;
  }

  /** A record of another kind does not come into the application data. */
  lemma AppDataKept(records: seq<Record>, r: Record, count: nat)
    requires r.contentType != ApplicationData && count <= |records|
    ensures AppData(records[..count]) == AppData(records) ==> AppData((records + [r])[..count]) == AppData(records + [r])
  {
    AppDataAppend(records, r);
    assert (records + [r])[..count] == records[..count];
  }

  class Writer {
    const ideal: bool                     // the transport takes everything, and sealing never fails
    const writeBuffer: Buffer
    const maxSealOverhead: nat
    const maxSendFragment: nat
    const partialWrite: bool              // SSL_MODE_ENABLE_PARTIAL_WRITE
    const acceptMovingBuffer: bool        // SSL_MODE_ACCEPT_MOVING_WRITE_BUFFER
    var pendingFlight: Option<seq<Byte>>
    var pendingFlightOffset: nat
    var wnum: nat
    var wpendPending: bool
    var wpendTot: nat
    var wpendRet: nat
    var wpendType: ContentType
    var wpendBuf: nat
    var writeShutdown: bool

    ghost var accepted: seq<Byte>         // everything the transport has taken
    ghost var ciphertexts: seq<seq<Byte>> // all sealed records, in sealing order
    ghost var records: seq<Record>        // ... and what they carry
    ghost var wpendCount: nat             // how many there were when the last one was written through the buffer
    ghost var base: nat                   // |AppData(records)| when the current write was first attempted

    /** The unwritten part of the pending flight. */
    ghost function Flight(): seq<Byte>
      requires pendingFlight.Some? ==> pendingFlightOffset <= |pendingFlight.value|
      reads this`pendingFlight, this`pendingFlightOffset
    {
      if pendingFlight.None? then [] else pendingFlight.value[pendingFlightOffset..]
    }

    ghost predicate Valid()
      reads this, writeBuffer, writeBuffer.buf
    {
      && writeBuffer.Valid()
      && 0 < maxSendFragment <= MAX_PLAIN_LENGTH
      && MAX_PLAIN_LENGTH + maxSealOverhead + ALIGN_PAYLOAD - 1 <= UINT16_MAX
      && (if pendingFlight.Some? then pendingFlightOffset <= |pendingFlight.value| else pendingFlightOffset == 0)
      && (wpendPending ==> wpendTot == wpendRet > 0)
      && wpendCount <= |ciphertexts| == |records|
      && (wpendPending ==> AppData(records[..wpendCount]) == AppData(records))
    }

    /** Nothing is left in the write buffer of a write that is over. */
    ghost predicate Settled()
      reads this`wpendPending, writeBuffer`size
    {
      !wpendPending ==> writeBuffer.size == 0
    }

    /** The octets are all there, in order. This holds until a buffer is allocated that 16 bits cannot address. */
    ghost predicate Intact()
      requires writeBuffer.Valid() && (pendingFlight.Some? ==> pendingFlightOffset <= |pendingFlight.value|)
      reads this`accepted, this`pendingFlight, this`pendingFlightOffset, this`ciphertexts, this`wpendCount,
            writeBuffer, writeBuffer.buf
    {
      writeBuffer.Addressable() && Conserved(accepted, writeBuffer.Contents(), Flight(), ciphertexts, wpendCount)
    }

    /** The transport has taken the first `count` records. */
    ghost predicate Through(count: nat)
      reads this`accepted, this`ciphertexts
    {
      count <= |ciphertexts| && Stream.Concat(ciphertexts[..count]) <= accepted
    }

    /** All application data sealed so far is with the transport. */
    ghost predicate AppDataThrough()
      reads this`accepted, this`ciphertexts, this`records, this`wpendCount
    {
      wpendCount <= |records| && AppData(records[..wpendCount]) == AppData(records) && Through(wpendCount)
    }

    constructor (ideal: bool, maxSealOverhead: nat, maxSendFragment: nat, partialWrite: bool, acceptMovingBuffer: bool)
      requires 0 < maxSendFragment <= MAX_PLAIN_LENGTH
      requires MAX_PLAIN_LENGTH + maxSealOverhead + ALIGN_PAYLOAD - 1 <= UINT16_MAX
      ensures Valid() && Intact() && fresh(writeBuffer) && writeBuffer.buf == null
      ensures accepted == [] && ciphertexts == [] && records == [] && base == 0 && Fresh() && Settled()
      ensures this.ideal == ideal && this.maxSendFragment == maxSendFragment && this.partialWrite == partialWrite
      ensures this.maxSealOverhead == maxSealOverhead && this.acceptMovingBuffer == acceptMovingBuffer
    {
      this.ideal := ideal;
      writeBuffer := new Buffer();
      this.maxSealOverhead, this.maxSendFragment := maxSealOverhead, maxSendFragment;
      this.partialWrite, this.acceptMovingBuffer := partialWrite, acceptMovingBuffer;
      pendingFlight, pendingFlightOffset := None, 0;
      wnum, wpendPending, wpendTot, wpendRet := 0, false, 0, 0;
      wpendType, wpendBuf, writeShutdown := ApplicationData, 0, false;
      accepted, ciphertexts, records, base, wpendCount := [], [], [], 0, 0;
    }

    // ---------- The black boxes ----------

    /** BIO_write: the transport takes a nonempty prefix or fails. */
    method BioWrite(data: seq<Byte>) returns (ret: int)
      requires |data| > 0
      modifies this`accepted
      ensures ret <= |data| && (ideal ==> ret == |data|)
      ensures accepted == old(accepted) + (if ret > 0 then data[..ret] else [])
    {
      var n: int := *;
      ret := if ideal || n > |data| then |data| else n;
      if ret > 0 {
        accepted := accepted + data[..ret];
      }
    }

    /** tls_seal_record: any ciphertext within the overhead, or failure. */
    method SealRecord(contentType: ContentType, plain: seq<Byte>) returns (ok: bool, ciphertext: seq<Byte>)
      modifies this`ciphertexts, this`records
      ensures ok ==> |ciphertext| <= |plain| + maxSealOverhead
      ensures ideal ==> ok
      ensures ciphertexts == old(ciphertexts) + (if ok then [ciphertext] else [])
      ensures records == old(records) + (if ok then [Record(contentType, plain)] else [])
    {
      ok, ciphertext := *, *;
      if ideal {
        ok, ciphertext := true, plain;
      } else if |ciphertext| > |plain| + maxSealOverhead {
        ok := false;
      }
      if ok {
        ciphertexts := ciphertexts + [ciphertext];
        records := records + [Record(contentType, plain)];
      }
    }

    // ---------- Handshake flights ----------

    /** add_record_to_flight; never called while a flight is being written out, nor for application data. */
    method AddRecordToFlight(contentType: ContentType, plain: seq<Byte>) returns (ok: bool)
      requires Valid() && pendingFlightOffset == 0 && contentType != ApplicationData
      modifies this`pendingFlight, this`ciphertexts, this`records
      ensures Valid() && (old(Intact()) ==> Intact())
      ensures records == old(records) + (if ok then [Record(contentType, plain)] else [])
      ensures old(ciphertexts) <= ciphertexts && (ideal ==> ok)
      ensures Flight() == old(Flight()) + if ok then ciphertexts[|ciphertexts| - 1] else []
    {
      hide Conserved, AppData, Buffer.Valid, Buffer.Contents, Buffer.Addressable;
      ghost var before, sealedBefore := Flight(), ciphertexts;
      if pendingFlight.None? {
        pendingFlight := Some([]);
      }
      assert pendingFlight.value == before;
      AppDataKept(records, Record(contentType, plain), wpendCount);
      var ciphertext;
      ok, ciphertext := SealRecord(contentType, plain);
      if !ok {
        assert Flight() == before && ciphertexts == sealedBefore && records == old(records);
        return;
      }
      pendingFlight := Some(pendingFlight.value + ciphertext);
      assert Flight() == before + ciphertext;
      FlightGrows(accepted, writeBuffer.Contents(), before, sealedBefore, wpendCount, ciphertext);
    }

    /** ssl3_add_message: split into several records if needed; even an empty message takes one. Their
        ciphertexts are what the pending flight gains. */
    method AddMessage(msg: seq<Byte>) returns (ok: bool)
      requires Valid() && pendingFlightOffset == 0
      modifies this`pendingFlight, this`ciphertexts, this`records
      ensures Valid() && (old(Intact()) ==> Intact())
      ensures ok ==> records == old(records) + HandshakeRecords(Stream.Chunks(msg, maxSendFragment))
      ensures old(ciphertexts) <= ciphertexts && (ideal ==> ok)
      ensures Flight() == old(Flight()) + Stream.Concat(ciphertexts[|old(ciphertexts)|..])
    {
      hide Intact, AppData, Stream.Chunks, Stream.Concat, HandshakeRecords, Buffer.Valid, Conserved;
      NoRecords();
      assert ciphertexts[|ciphertexts|..] == [];
      var rest := msg;
      ghost var done, goal := [], Stream.Chunks(msg, maxSendFragment);
      while true
        invariant Valid() && (old(Intact()) ==> Intact()) && done + Stream.Chunks(rest, maxSendFragment) == goal
        invariant records == old(records) + HandshakeRecords(done)
        invariant old(ciphertexts) <= ciphertexts
        invariant Flight() == old(Flight()) + Stream.Concat(ciphertexts[|old(ciphertexts)|..])
        decreases |rest|
      {
        var n := Min(|rest|, maxSendFragment);
        var chunk := rest[..n];
        NextChunk(done, rest, maxSendFragment);
        rest := rest[n..];
        ghost var before, start := ciphertexts, |old(ciphertexts)|;
        ok := AddRecordToFlight(Handshake, chunk);
        if !ok {
          assert ciphertexts == before;
          return;
        }
        OneMoreSince(before, start, ciphertexts);
        HandshakeRecordsAppend(done, chunk);
        done := done + [chunk];
        if |rest| == 0 {
          assert done == goal;
          return true;
        }
      }
    }

    /** tls_write_buffer_flush. */
    method WriteBufferFlush() returns (ret: int)
      requires Valid()
      modifies this`accepted, writeBuffer
      ensures Valid() && old(accepted) <= accepted && (old(Intact()) ==> Intact() && (ret > 0 ==> Through(wpendCount)))
      ensures ret > 0 ==> writeBuffer.buf == null && writeBuffer.size == 0
      ensures writeBuffer.size <= old(writeBuffer.size) && (ideal ==> ret > 0)
      ensures writeBuffer.buf == null || writeBuffer.buf == old(writeBuffer.buf)
    {
      hide Conserved, AppData, Stream.Concat, Buffer.Addressable;
      while writeBuffer.size > 0
        invariant Valid() && writeBuffer.size <= old(writeBuffer.size) && old(accepted) <= accepted && (old(Intact()) ==> Intact()) && writeBuffer.buf == old(writeBuffer.buf)
        decreases writeBuffer.size
      {
        ghost var before, contents := accepted, writeBuffer.Contents();
        var n := BioWrite(writeBuffer.buf[writeBuffer.offset..writeBuffer.offset + writeBuffer.size]);
        if n <= 0 {
          assert accepted == before;
          return n;
        }
        BufferDrains(before, contents, Flight(), ciphertexts, wpendCount, n);
        writeBuffer.Consume(n);
      }
      assert writeBuffer.Contents() == [];
      BufferEmpty(accepted, Flight(), ciphertexts, wpendCount);
      writeBuffer.Clear();
      return 1;
    }

    /** ssl3_flush_flight. Data in the write buffer goes first. */
    method FlushFlight() returns (ret: int)
      requires Valid()
      modifies this`accepted, this`pendingFlight, this`pendingFlightOffset, writeBuffer
      ensures Valid() && BufferKept() && old(accepted) <= accepted && |Flight()| <= old(|Flight()|)
      ensures ret > 0 ==> pendingFlight.None?
      ensures old(Settled()) ==> Settled()
      ensures ideal && !writeShutdown && (pendingFlight.Some? ==> |pendingFlight.value| <= 0x7fff_ffff) ==> ret > 0
      ensures old(Intact()) ==> Intact() && (ret > 0 && old(pendingFlight.Some?) ==> Through(|ciphertexts|))
    {
      hide Conserved, AppData, Stream.Concat, Buffer.Valid, Buffer.Contents, Buffer.Addressable;
      if pendingFlight.None? {
        return 1;
      }
      if writeShutdown {
        return -1;
      }
      if |pendingFlight.value| > 0x7fff_ffff {
        return -1;
      }
      if writeBuffer.size > 0 {
        ret := WriteBufferFlush();
        if ret <= 0 {
          return;
        }
      }
      while pendingFlightOffset < |pendingFlight.value|
        invariant Valid() && BufferKept() && pendingFlight == old(pendingFlight) && writeBuffer.size == 0
        invariant old(accepted) <= accepted && (old(Intact()) ==> Intact())
        invariant pendingFlightOffset >= old(pendingFlightOffset)
        decreases |pendingFlight.value| - pendingFlightOffset
      {
        ghost var before, flight := accepted, Flight();
        assert writeBuffer.Contents() == [];
        var n := BioWrite(pendingFlight.value[pendingFlightOffset..]);
        if n <= 0 {
          assert accepted == before;
          return n;
        }
        FlightDrains(before, flight, ciphertexts, wpendCount, n);
        pendingFlightOffset := pendingFlightOffset + n;
        assert Flight() == flight[n..];
      }
      assert writeBuffer.Contents() == [] && Flight() == [];
      BufferEmpty(accepted, [], ciphertexts, wpendCount);
      assert ciphertexts[..|ciphertexts|] == ciphertexts;
      var flushed: int := *;
      if !ideal && flushed <= 0 {
        return -1;
      }
      pendingFlight, pendingFlightOffset := None, 0;
      return 1;
    }

    // ---------- Records written through the buffer ----------

    /** A new application write may start. */
    ghost predicate Fresh()
      reads this
    {
      wnum == 0 && !wpendPending
    }

    /** The retry is one of the pending write. */
    predicate Matches(contentType: ContentType, inp: Input)
      reads this
    {
      wpendTot <= |inp.data| && (acceptMovingBuffer || wpendBuf == inp.address) && wpendType == contentType
    }

    /** ssl3_write_pending. */
    method WritePending(contentType: ContentType, inp: Input) returns (ret: int)
      requires Valid() && wpendPending
      modifies this`accepted, this`wpendPending, writeBuffer
      ensures Valid() && old(accepted) <= accepted && (old(Intact()) ==> Intact() && (ret > 0 ==> AppDataThrough()))
      ensures ret > 0 ==> ret == wpendRet && !wpendPending && wpendType == contentType && wpendTot <= |inp.data|
      ensures ret > 0 ==> writeBuffer.size == 0 && (acceptMovingBuffer || wpendBuf == inp.address)
      ensures ret <= 0 ==> wpendPending
      ensures ideal ==> (ret > 0 <==> old(Matches(contentType, inp)))
      ensures writeBuffer.buf == null || writeBuffer.buf == old(writeBuffer.buf)
    {
      hide Intact, AppData;
      if wpendTot > |inp.data| || (!acceptMovingBuffer && wpendBuf != inp.address) || wpendType != contentType {
        return -1;
      }
      ret := WriteBufferFlush();
      if ret <= 0 {
        return;
      }
      wpendPending := false;
      ret := wpendRet;
    }

    /** Room for the pending flight and one full record below the addressable end of the buffer. */
    ghost predicate FlightFits()
      requires pendingFlight.Some? ==> pendingFlightOffset <= |pendingFlight.value|
      reads this`pendingFlight, this`pendingFlightOffset
    {
      Needed(MAX_PLAIN_LENGTH) + ALIGN_PAYLOAD - 1 <= UINT16_MAX + 1
    }

    /** The buffer that a record of `len` octets behind the pending flight needs. */
    ghost function Needed(len: nat): nat
      requires pendingFlight.Some? ==> pendingFlightOffset <= |pendingFlight.value|
      reads this`pendingFlight, this`pendingFlightOffset
    {
      |Flight()| + len + maxSealOverhead
    }

    /** Such a buffer is refused, or 16 bits can address all of it wherever it is allocated. */
    ghost predicate WithinReach(len: nat)
      requires pendingFlight.Some? ==> pendingFlightOffset <= |pendingFlight.value|
      reads this`pendingFlight, this`pendingFlightOffset
    {
      Needed(len) > UINT16_MAX || Needed(len) + ALIGN_PAYLOAD - 1 <= UINT16_MAX + 1
    }

    /** The array behind the buffer, if there is one, is the old one or a new one. */
    twostate predicate BufferKept()
      reads this, writeBuffer
    {
      writeBuffer.buf == null || writeBuffer.buf == old(writeBuffer.buf) || fresh(writeBuffer.buf)
    }

    /** Move the unwritten part of the pending flight into the empty write buffer, leaving room for
        one record of `len` octets. What does not fit a 16-bit capacity is refused. */
    method MoveFlight(len: nat, alignPrefix: nat) returns (ok: bool)
      requires Valid() && writeBuffer.size == 0 && !wpendPending
      modifies this`pendingFlight, this`pendingFlightOffset, writeBuffer, writeBuffer.buf
      ensures Valid() && BufferKept()
      ensures ok <==> old(Needed(len)) <= UINT16_MAX
      ensures old(Intact() && WithinReach(len)) ==> Intact()
      ensures |Flight()| <= old(|Flight()|)
      ensures ok ==> pendingFlight.None? && len + maxSealOverhead <= writeBuffer.cap - writeBuffer.size
      ensures !ok ==> pendingFlight == old(pendingFlight) && pendingFlightOffset == old(pendingFlightOffset) && writeBuffer.size == 0
    {
      hide Conserved, AppData, Aligned, Buffer.Contents, Buffer.Addressable;
      assert writeBuffer.Contents() == [];
      var flight := if pendingFlight.Some? then pendingFlight.value[pendingFlightOffset..] else [];
      FlightMovesToBuffer(accepted, flight, ciphertexts, wpendCount);
      var address: nat := *;
      ok := writeBuffer.EnsureCap(|flight| + alignPrefix, len + maxSealOverhead + |flight|, address);
      if !ok {
        return;
      }
      writeBuffer.Append(flight);
      pendingFlight, pendingFlightOffset := None, 0;
      assert [] + flight == flight;
    }

    /** Seal one record at the end of the write buffer. */
    method SealIntoBuffer(contentType: ContentType, plain: seq<Byte>) returns (ok: bool)
      requires Valid() && pendingFlight.None? && !wpendPending
      requires |plain| + maxSealOverhead <= writeBuffer.cap - writeBuffer.size
      modifies this`ciphertexts, this`records, this`wpendCount, writeBuffer`size, writeBuffer.buf
      ensures Valid() && (old(Intact()) ==> Intact()) && (ideal ==> ok)
      ensures records == old(records) + (if ok then [Record(contentType, plain)] else [])
      ensures old(ciphertexts) <= ciphertexts && (ok ==> wpendCount == |records|)
      ensures writeBuffer.Contents() == old(writeBuffer.Contents()) + if ok then ciphertexts[|ciphertexts| - 1] else []
    {
      hide Conserved, AppData, Buffer.Addressable;
      ghost var buffered, sealedBefore := writeBuffer.Contents(), ciphertexts;
      var ciphertext;
      ok, ciphertext := SealRecord(contentType, plain);
      if !ok {
        assert ciphertexts == sealedBefore;
        return;
      }
      BufferGrows(accepted, buffered, sealedBefore, wpendCount, ciphertext);
      writeBuffer.Append(ciphertext);
      wpendCount := |ciphertexts|;
    }

    /** The middle of do_ssl3_write: one record goes behind the pending flight into the buffer, and the
        arguments are remembered for a retry. */
    method SealPending(contentType: ContentType, inp: Input) returns (ok: bool)
      requires Valid() && !wpendPending && writeBuffer.size == 0 && 0 < |inp.data| <= MAX_PLAIN_LENGTH
      modifies this`pendingFlight, this`pendingFlightOffset, this`ciphertexts, this`records,
               this`wpendPending, this`wpendTot, this`wpendRet, this`wpendType, this`wpendBuf, this`wpendCount,
               writeBuffer, writeBuffer.buf
      ensures Valid() && BufferKept() && old(ciphertexts) <= ciphertexts
      ensures old(Intact() && WithinReach(|inp.data|)) ==> Intact()
      ensures |Flight()| <= old(|Flight()|)
      ensures ok <==> wpendPending
      ensures ideal ==> Settled() && (ok <==> old(Needed(|inp.data|)) <= UINT16_MAX)
      ensures ok ==> wpendTot == |inp.data| && wpendBuf == inp.address && wpendType == contentType && wpendCount == |records|
      ensures records == old(records) + if ok then [Record(contentType, inp.data)] else []
      ensures old(Needed(|inp.data|)) > UINT16_MAX ==> !ok && Flight() == old(Flight())
    {
      hide Intact, WithinReach, AppData;
      var alignPrefix: nat := *;
      ok := MoveFlight(|inp.data|, alignPrefix);
      if !ok {
        return;
      }
      ok := SealIntoBuffer(contentType, inp.data);
      if !ok {
        return;
      }
      assert records[..wpendCount] == records;
      wpendTot, wpendBuf, wpendType, wpendRet, wpendPending := |inp.data|, inp.address, contentType, |inp.data|, true;
    }

    /** do_ssl3_write. */
    method DoWrite(contentType: ContentType, inp: Input) returns (ret: int)
      requires Valid()
      modifies this`accepted, this`pendingFlight, this`pendingFlightOffset, this`ciphertexts, this`records,
               this`wpendPending, this`wpendTot, this`wpendRet, this`wpendType, this`wpendBuf, this`wpendCount,
               writeBuffer, writeBuffer.buf
      ensures Valid() && BufferKept() && old(ciphertexts) <= ciphertexts && old(accepted) <= accepted
      ensures old(Intact() && (wpendPending || WithinReach(|inp.data|))) ==> Intact() && (ret > 0 ==> AppDataThrough())
      ensures |Flight()| <= old(|Flight()|)
      ensures ret <= |inp.data| && (ret > 0 ==> !wpendPending)
      ensures ideal && old(Settled()) ==>
                && Settled()
                && (ret > 0 <==> if old(wpendPending) then old(Matches(contentType, inp))
                                 else 0 < |inp.data| <= MAX_PLAIN_LENGTH && old(Needed(|inp.data|)) <= UINT16_MAX)
      ensures old(wpendPending) ==>
                && records == old(records) && wpendCount == old(wpendCount)
                && (ret > 0 ==> ret == old(wpendRet) && old(wpendType) == contentType)
                && (ret <= 0 ==> wpendPending && PendingUnchanged())
      ensures !old(wpendPending) && ret > 0 ==>
                ret == |inp.data| && records == old(records) + [Record(contentType, inp.data)] && wpendCount == |records|
      ensures !old(wpendPending) && ret <= 0 ==>
                || (!wpendPending && records == old(records))
                || (&& wpendPending && records == old(records) + [Record(contentType, inp.data)]
                    && wpendTot == |inp.data| && wpendBuf == inp.address && wpendType == contentType)
      ensures !old(wpendPending) && inp.data == [] ==>
                ret == (if old(writeBuffer.size) > 0 then -1 else 0) && accepted == old(accepted) && Flight() == old(Flight())
      ensures !old(wpendPending) && inp.data != [] && old(Needed(|inp.data|)) > UINT16_MAX ==>
                ret == -1 && accepted == old(accepted) && Flight() == old(Flight()) && records == old(records)
    {
      hide Intact, WithinReach, AppData;
      if wpendPending {
        ret := WritePending(contentType, inp);
        return;
      }
      if |inp.data| > MAX_PLAIN_LENGTH || writeBuffer.size > 0 {
        return -1;
      }
      if |inp.data| == 0 {
        return 0;
      }
      var ok := SealPending(contentType, inp);
      if !ok {
        return -1;
      }
      // We now just need to write the buffer.
      ret := WritePending(contentType, inp);
    }

    twostate predicate PendingUnchanged()
      reads this
    {
      && wpendTot == old(wpendTot) && wpendRet == old(wpendRet)
      && wpendType == old(wpendType) && wpendBuf == old(wpendBuf)
    }

    // ---------- Application data ----------

    /** No other kind of record is pending. */
    predicate MayWrite()
      reads this`wpendPending, this`wpendType
    {
      wpendPending ==> wpendType == ApplicationData
    }

    /** What the next round sends when `tot` of `size` octets are done. */
    function RoundSize(size: nat, tot: nat): nat
      requires tot <= size
    {
      Min(size - tot, maxSendFragment)
    }

    /** Octets of application data sealed but whose record is not yet through. */
    ghost function PendingAppData(): nat
      reads this`wpendPending, this`wpendType, this`wpendTot
    {
      if wpendPending && wpendType == ApplicationData then wpendTot else 0
    }

    /** `inp` is the buffer of the write in progress, of which `tot` octets are done: the records sealed since
        its first attempt are exactly those of its beginning. */
    ghost predicate ResumesAt(inp: Input, tot: nat)
      reads this`base, this`records, this`wpendPending, this`wpendType, this`wpendTot, this`wpendBuf
    {
      var p := PendingAppData();
      && 0 < maxSendFragment && base <= |AppData(records)|
      && tot + p <= |inp.data|
      && AppData(records)[base..] == Pieces(inp.data[..tot + p], maxSendFragment)
      && (tot == |inp.data| || FillsRecords(tot, maxSendFragment))
      && (p > 0 ==> p == RoundSize(|inp.data|, tot) && (acceptMovingBuffer || wpendBuf == inp.address + tot))
    }

    ghost predicate Resumes(inp: Input)
      reads this
    {
      wnum <= |inp.data| && ResumesAt(inp, wnum) && (partialWrite ==> wnum == 0)
    }

    /** A caller with nothing in progress starts to write; any buffer will do. */
    ghost method StartWrite(inp: Input)
      requires Valid() && Fresh()
      modifies this`base
      ensures Valid() && Resumes(inp) && base == |AppData(records)|
    {
      base := |AppData(records)|;
    }

    /** One round of the loop in ssl3_write_app_data: the next chunk of `inp` after `tot`. */
    method WriteChunk(inp: Input, tot: nat) returns (ret: int)
      requires Valid() && tot <= |inp.data| && wnum == 0
      modifies this`accepted, this`pendingFlight, this`pendingFlightOffset, this`ciphertexts, this`records,
               this`wpendPending, this`wpendTot, this`wpendRet, this`wpendType, this`wpendBuf, this`wpendCount,
               writeBuffer, writeBuffer.buf
      ensures Valid() && BufferKept() && old(AppData(records)) <= AppData(records)
      ensures old(ciphertexts) <= ciphertexts && old(accepted) <= accepted
      ensures old(FlightFits()) ==> FlightFits()
      ensures old(Intact() && FlightFits()) ==> Intact() && FlightFits() && (ret > 0 ==> AppDataThrough())
      ensures ret <= |inp.data| - tot
      ensures ideal && old(Settled()) ==> Settled()
      ensures ideal && old(Settled() && FlightFits() && ResumesAt(inp, tot) && MayWrite()) && tot < |inp.data| ==> ret > 0
      ensures old(ResumesAt(inp, tot)) && ret <= 0 ==> ResumesAt(inp, tot)
      ensures old(ResumesAt(inp, tot)) && ret > 0 ==>
                && ResumesAt(inp, tot + ret) && !wpendPending && ret == RoundSize(|inp.data|, tot)
                && base <= |AppData(records)| && AppData(records)[base..] == Pieces(inp.data[..tot + ret], maxSendFragment)
    {
      hide Intact, AppDataThrough, AppData, FillsRecords, Pieces;
      var nw := Min(|inp.data| - tot, maxSendFragment);
      var chunk := Input(inp.address + tot, inp.data[tot..tot + nw]);
      AppDataAppend(records, Record(ApplicationData, chunk.data));
      ghost var before := AppData(records);
      ret := DoWrite(ApplicationData, chunk);
      if old(ResumesAt(inp, tot)) && records != old(records) {
        NextPart(inp.data, tot, nw);
        SuffixGrows(before, base, [chunk.data]);
        NextPiece(inp.data[..tot], chunk.data, maxSendFragment);
      }
      if old(ResumesAt(inp, tot)) && ret == maxSendFragment {
        FillsOneMore(tot, maxSendFragment);
      }
    }

    /** ssl3_write_app_data, without early data. A failed call can be repeated with the same buffer. The records
        sealed since the first attempt are then exactly those of what the result counts: everything or, with
        partial writes, the first record. */
    method WriteAppData(inp: Input) returns (ret: int)
      requires Valid()
      modifies this`accepted, this`pendingFlight, this`pendingFlightOffset, this`ciphertexts, this`records,
               this`wpendPending, this`wpendTot, this`wpendRet, this`wpendType, this`wpendBuf, this`wpendCount, this`wnum,
               writeBuffer, writeBuffer.buf
      ensures Valid() && BufferKept() && old(AppData(records)) <= AppData(records)
      ensures old(ciphertexts) <= ciphertexts && old(accepted) <= accepted
      ensures old(Intact() && FlightFits()) ==> Intact() && FlightFits() && (ret > 0 ==> AppDataThrough())
      ensures writeShutdown ==> ret == -1 && records == old(records) && accepted == old(accepted) && wnum == old(wnum)
      ensures ideal && old(Settled()) ==> Settled()
      ensures ideal && !writeShutdown && old(Settled() && FlightFits() && Resumes(inp) && MayWrite()) && old(wnum) < |inp.data| ==> ret > 0
      ensures old(Resumes(inp)) && ret <= 0 ==> Resumes(inp)
      ensures old(Resumes(inp)) && ret > 0 ==>
                && ret == (if partialWrite then RoundSize(|inp.data|, 0) else |inp.data|)
                && base <= |AppData(records)| && AppData(records)[base..] == Pieces(inp.data[..ret], maxSendFragment)
                && Fresh()
    {
      hide Intact, ResumesAt, FlightFits, AppDataThrough, AppData, Pieces;
      if writeShutdown {
        return -1;
      }
      var tot := wnum;
      wnum := 0;
      if |inp.data| < tot {
        return -1;
      }
      var n := |inp.data| - tot;
      while true
        invariant Valid() && BufferKept() && old(AppData(records)) <= AppData(records)
        invariant old(ciphertexts) <= ciphertexts && old(accepted) <= accepted
        invariant old(Intact() && FlightFits()) ==> Intact() && FlightFits()
        invariant n == |inp.data| - tot && n >= 0 && wnum == 0
        invariant ideal && old(Settled()) ==> Settled()
        invariant ideal && old(Settled() && FlightFits() && Resumes(inp) && MayWrite()) && old(wnum) < |inp.data| ==>
                    FlightFits() && MayWrite() && tot < |inp.data|
        invariant old(Resumes(inp)) ==> ResumesAt(inp, tot) && (partialWrite ==> tot == 0)
        decreases n
      {
        ret := WriteChunk(inp, tot);
        if ret <= 0 {
          wnum := tot;
          return;
        }
        if ret == n || partialWrite {
          return tot + ret;
        }
        n, tot := n - ret, tot + ret;
      }
    }

    /** ssl3_dispatch_alert: the two octets of an alert share the path. */
    method DispatchAlert(alert: Input, ghost inp: Input) returns (ret: int)
      requires Valid() && |alert.data| == 2
      modifies this`accepted, this`pendingFlight, this`pendingFlightOffset, this`ciphertexts, this`records,
               this`wpendPending, this`wpendTot, this`wpendRet, this`wpendType, this`wpendBuf, this`wpendCount,
               writeBuffer, writeBuffer.buf
      ensures Valid() && BufferKept() && old(ciphertexts) <= ciphertexts && old(accepted) <= accepted
      ensures old(Intact() && FlightFits()) ==> Intact() && FlightFits() && (ret > 0 ==> AppDataThrough())
      ensures AppData(records) == old(AppData(records)) && (old(FlightFits()) ==> FlightFits())
      ensures ideal && old(Settled()) ==> Settled() && (old(FlightFits() && !wpendPending) ==> ret > 0 && !wpendPending)
      ensures old(Resumes(inp)) ==> Resumes(inp)
    {
      hide Intact, AppDataThrough, AppData, Pieces, FillsRecords;
      AppDataAppend(records, Record(Alert, alert.data));
      ret := DoWrite(Alert, alert);
    }
  }

  /** Other traffic between two attempts at a write. */
  method BetweenAttempts(w: Writer, ghost inp: Input, alert: Input)
    requires w.Valid() && w.Resumes(inp) && |alert.data| == 2
    modifies w`accepted, w`pendingFlight, w`pendingFlightOffset, w`ciphertexts, w`records,
             w`wpendPending, w`wpendTot, w`wpendRet, w`wpendType, w`wpendBuf, w`wpendCount, w.writeBuffer, w.writeBuffer.buf
    ensures w.Valid() && w.BufferKept() && w.Resumes(inp) && old(w.ciphertexts) <= w.ciphertexts && old(w.accepted) <= w.accepted
    ensures old(w.Intact() && w.FlightFits()) ==> w.Intact() && w.FlightFits()
    ensures AppData(w.records) == old(AppData(w.records)) && (old(w.FlightFits()) ==> w.FlightFits())
    ensures w.ideal && old(w.Settled()) ==> w.Settled() && (old(w.FlightFits() && !w.wpendPending) ==> !w.wpendPending)
  {
    hide Writer.Intact, Writer.AppDataThrough, AppData;
    var flush: bool, warn: bool := *, *;
    if flush {
      var _ := w.FlushFlight();
    }
    if warn {
      var _ := w.DispatchAlert(alert, inp);
    }
  }

  /** A caller that repeats a failed write with the same buffer, while flushes and alerts happen in
      between and the transport fails at will. Once a call succeeds, the application records sealed since
      the first attempt are exactly those of the part of the buffer that the result counts. */
  method WriteWithRetries(w: Writer, inp: Input, alert: Input, attempts: nat) returns (ret: int)
    requires w.Valid() && w.Fresh() && |alert.data| == 2
    modifies w, w.writeBuffer, w.writeBuffer.buf
    ensures w.Valid()
    ensures w.ideal && old(w.Settled() && w.FlightFits()) && !w.writeShutdown && inp.data != [] && attempts > 0 ==> ret > 0
    ensures ret > 0 ==>
              && ret == (if w.partialWrite then Min(|inp.data|, w.maxSendFragment) else |inp.data|)
              && AppData(w.records) == old(AppData(w.records)) + Pieces(inp.data[..ret], w.maxSendFragment)
    ensures old(w.Intact() && w.FlightFits()) ==> w.Intact() && w.FlightFits() && (ret > 0 ==> w.AppDataThrough())
    ensures old(w.ciphertexts) <= w.ciphertexts && old(w.accepted) <= w.accepted
  {
    hide Writer.Intact, Writer.FlightFits, Writer.AppDataThrough, AppData, Pieces;
    w.StartWrite(inp);
    ret := 0;
    ghost var before := AppData(w.records);
    for i := 0 to attempts
      invariant w.Valid() && w.BufferKept() && w.Resumes(inp) && old(w.ciphertexts) <= w.ciphertexts && old(w.accepted) <= w.accepted
      invariant old(w.Intact() && w.FlightFits()) ==> w.Intact() && w.FlightFits()
      invariant i > 0 ==> !(w.ideal && old(w.Settled() && w.FlightFits()) && !w.writeShutdown && inp.data != [])
      invariant i == 0 ==> !w.wpendPending && w.wnum == 0 && (old(w.Settled()) ==> w.Settled()) && (old(w.FlightFits()) ==> w.FlightFits())
      invariant w.writeShutdown == old(w.writeShutdown)
      invariant w.base == |before| && before <= AppData(w.records)
    {
      BetweenAttempts(w, inp, alert);
      ret := w.WriteAppData(inp);
      if ret > 0 {
        assert AppData(w.records) == before + AppData(w.records)[|before|..];
        return;
      }
    }
    ret := 0;
  }
}
