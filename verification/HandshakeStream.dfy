/** TLS handshake messages as a byte stream: cut into records by the sender and parsed back out of
    an append-only buffer by the receiver, whatever the cuts (section 6.2.1 of RFC 5246). */
module HandshakeStream {
  import opened Bytes

  datatype Message = Message(msgType: Byte, body: seq<Byte>)

  function Serialize(m: Message): (s: seq<Byte>)
    ensures |s| == 4 + |m.body|
  {
    [m.msgType] + ToBigEndian(|m.body|, 3) + m.body
  }

  predicate Encodable(m: Message) {
    |m.body| < 0x100_0000
  }

  function SerializeAll(ms: seq<Message>): seq<Byte> {
    if |ms| == 0 then [] else Serialize(ms[0]) + SerializeAll(ms[1..])
  }

  datatype ParseResult = Complete(msg: Message, rest: seq<Byte>) | Incomplete(bytesNeeded: nat)

  /** parse_message: the first message of the buffer, or how many bytes it would take. */
  function Parse(buf: seq<Byte>): ParseResult {
    if |buf| < 4 then Incomplete(4)
    else
      var len := BigEndian(buf[1..4]);
      if |buf| < 4 + len then Incomplete(4 + len)
      else Complete(Message(buf[0], buf[4..4 + len]), buf[4 + len..])
  }

  lemma HeaderRoundTrip(m: Message)
    requires Encodable(m)
    ensures Serialize(m)[1..4] == ToBigEndian(|m.body|, 3) && BigEndian(Serialize(m)[1..4]) == |m.body|
  {
    assert Pow256(1) == 256 && Pow256(3) == 0x100_0000;
    BigEndianRoundTrip(|m.body|, 3);
  }

  /** Any prefix of a stream of messages parses to its first message or to nothing. */
  lemma PrefixParses(m: Message, rest: seq<Byte>, buf: seq<Byte>, more: seq<Byte>)
    requires Encodable(m) && buf + more == Serialize(m) + rest
    ensures |buf| >= 4 + |m.body| ==> Parse(buf).Complete? && Parse(buf).msg == m && Parse(buf).rest + more == rest
    ensures |buf| < 4 + |m.body| ==> Parse(buf) == Incomplete(if |buf| < 4 then 4 else 4 + |m.body|)
  {
    HeaderRoundTrip(m);
    var all, n := buf + more, 4 + |m.body|;
    assert all[..n] == Serialize(m) && all[n..] == rest;
    if |buf| >= 4 {
      assert buf[1..4] == all[1..4] == Serialize(m)[1..4];
      assert buf[0] == all[0];
    }
    if |buf| >= n {
      assert buf[..n] == all[..n];
      assert buf[4..n] == Serialize(m)[4..];
      assert Serialize(m)[4..] == m.body;
      assert buf[n..] + more == all[n..];
    }
  }

  /** Type, then length with its most significant octet first (section 7.4 of RFC 5246). */
  lemma HeaderLayout()
    ensures Serialize(Message(14, [])) == [14, 0, 0, 0]
    ensures Serialize(Message(20, Zeros(0x0102)))[..4] == [20, 0, 1, 2]
  {
    assert ToBigEndian(0, 1) == [0] && ToBigEndian(0, 2) == [0, 0] && ToBigEndian(0, 3) == [0, 0, 0];
    assert ToBigEndian(1, 2) == [0, 1] && ToBigEndian(0x0102, 3) == [0, 1, 2];
  }

  // ---------- The receive buffer ----------

  class Reader {
    var hsBuf: seq<Byte>
    var hasMessage: bool

    constructor ()
      ensures hsBuf == [] && !hasMessage
    {
      hsBuf, hasMessage := [], false;
    }

    /** ssl3_get_message. */
    method GetMessage() returns (msg: Option<Message>)
      modifies this`hasMessage
      ensures msg == match Parse(hsBuf) case Complete(m, _) => Some(m) case Incomplete(_) => None
      ensures hasMessage == (old(hasMessage) || msg.Some?)
    {
      var parsed := Parse(hsBuf);
      if parsed.Incomplete? {
        return None;
      }
      hasMessage := true;
      return Some(parsed.msg);
    }

    /** The last step of ssl3_open_handshake. */
    method AppendRecord(body: seq<Byte>)
      modifies this`hsBuf
      ensures hsBuf == old(hsBuf) + body
    {
      hsBuf := hsBuf + body;
    }

    /** ssl3_next_message; the source asserts that there is one. */
    method NextMessage()
      requires Parse(hsBuf).Complete?
      modifies this
      ensures hsBuf == Parse(old(hsBuf)).rest && !hasMessage
    {
      var msg := GetMessage();
      hsBuf := hsBuf[4 + |msg.value.body|..];
      hasMessage := false;
    }

    /** tls_has_unprocessed_handshake_data: anything beyond the message already handed up. */
    method HasUnprocessedHandshakeData() returns (b: bool)
      ensures b <==> hsBuf != [] && !(hasMessage && Parse(hsBuf).Complete? && Parse(hsBuf).rest == [])
    {
      var msgLen := 0;
      if hasMessage {
        var parsed := Parse(hsBuf);
        if parsed.Complete? {
          msgLen := 4 + |parsed.msg.body|;
        }
      }
      b := |hsBuf| > msgLen;
    }
  }

  // ---------- Cutting ----------

  /** ssl3_add_message cuts a message into records of at most `max` octets, at least one. */
  function Chunks(msg: seq<Byte>, max: nat): (cs: seq<seq<Byte>>)
    requires max > 0
    ensures |cs| > 0
    decreases |msg|
  {
    if |msg| <= max then [msg] else [msg[..max]] + Chunks(msg[max..], max)
  }

  function Concat(chunks: seq<seq<Byte>>): seq<Byte> {
    if |chunks| == 0 then [] else chunks[0] + Concat(chunks[1..])
  }

  lemma {:induction false} ConcatAppend(a: seq<seq<Byte>>, b: seq<seq<Byte>>)
    ensures Concat(a + b) == Concat(a) + Concat(b)
  {
    if |a| == 0 {
      assert a + b == b;
    } else {
      ConcatAppend(a[1..], b);
      assert (a + b)[1..] == a[1..] + b;
      assert a[0] + (Concat(a[1..]) + Concat(b)) == a[0] + Concat(a[1..]) + Concat(b);
    }
  }

  /** The records of a message carry it exactly; none exceeds the limit, and none is empty unless
      the message is. */
  lemma {:induction false} ChunksPartition(msg: seq<Byte>, max: nat)
    requires max > 0
    ensures Concat(Chunks(msg, max)) == msg
    ensures forall c <- Chunks(msg, max) :: |c| <= max && (|c| == 0 ==> |msg| == 0)
    decreases |msg|
  {
    if |msg| <= max {
      assert Concat([msg]) == msg + Concat([]);
    } else {
      ChunksPartition(msg[max..], max);
      var rest := Chunks(msg[max..], max);
      assert ([msg[..max]] + rest)[1..] == rest;
      assert msg == msg[..max] + msg[max..];
    }
  }

  /** The records of a list of messages. */
  function RecordsOf(ms: seq<Message>, max: nat): seq<seq<Byte>>
    requires max > 0
  {
    if |ms| == 0 then [] else Chunks(Serialize(ms[0]), max) + RecordsOf(ms[1..], max)
  }

  lemma {:induction false} RecordsCarryStream(ms: seq<Message>, max: nat)
    requires max > 0
    ensures Concat(RecordsOf(ms, max)) == SerializeAll(ms)
  {
    if |ms| > 0 {
      ChunksPartition(Serialize(ms[0]), max);
      ConcatAppend(Chunks(Serialize(ms[0]), max), RecordsOf(ms[1..], max));
      RecordsCarryStream(ms[1..], max);
    }
  }

  // ---------- Receiving at arbitrary moments ----------

  /** Records still to arrive, the buffer, and what has been handed up. */
  datatype State = State(coming: seq<seq<Byte>>, buf: seq<Byte>, delivered: seq<Message>)

  /** The driver either appends the next record or drains a message, as it pleases. */
  datatype Move = Append | Next

  function Step(s: State, move: Move): State {
    match move
    case Append => if |s.coming| == 0 then s else State(s.coming[1..], s.buf + s.coming[0], s.delivered)
    case Next =>
      (match Parse(s.buf)
       case Complete(m, rest) => State(s.coming, rest, s.delivered + [m])
       case Incomplete(_) => s)
  }

  function Run(s: State, moves: seq<Move>): State
    decreases |moves|
  {
    if |moves| == 0 then s else Run(Step(s, moves[0]), moves[1..])
  }

  /** What is in the buffer and still to come is exactly the serialization of the messages not yet
      handed up. */
  ghost predicate OnTrack(s: State, ms: seq<Message>) {
    && (forall m <- ms :: Encodable(m))
    && s.delivered <= ms
    && s.buf + Concat(s.coming) == SerializeAll(ms[|s.delivered|..])
  }

  lemma StepStaysOnTrack(s: State, ms: seq<Message>, move: Move)
    requires OnTrack(s, ms)
    ensures OnTrack(Step(s, move), ms)
  {
    var left := ms[|s.delivered|..];
    match move
    case Append =>
      if |s.coming| > 0 {
        assert s.buf + (s.coming[0] + Concat(s.coming[1..])) == s.buf + s.coming[0] + Concat(s.coming[1..]);
      }
    case Next =>
      if |left| > 0 {
        PrefixParses(left[0], SerializeAll(left[1..]), s.buf, Concat(s.coming));
        assert left[1..] == ms[|s.delivered| + 1..];
        assert left[0] == ms[|s.delivered|];
      } else {
        assert s.buf == [];
      }
  }

  lemma {:induction false} RunStaysOnTrack(s: State, ms: seq<Message>, moves: seq<Move>)
    requires OnTrack(s, ms)
    ensures OnTrack(Run(s, moves), ms)
    decreases |moves|
  {
    if |moves| > 0 {
      StepStaysOnTrack(s, ms, moves[0]);
      RunStaysOnTrack(Step(s, moves[0]), ms, moves[1..]);
    }
  }

  /** However the records were cut and whenever the buffer was drained, the messages handed up are a
      prefix of those sent, and all of them once everything has arrived and been drained. */
  lemma StreamIndependentOfCuts(ms: seq<Message>, max: nat, moves: seq<Move>)
    requires max > 0 && forall m <- ms :: Encodable(m)
    ensures var s := Run(State(RecordsOf(ms, max), [], []), moves);
            && s.delivered <= ms
            && (s.coming == [] && Parse(s.buf).Incomplete? ==> s.delivered == ms && s.buf == [])
  {
    var s0 := State(RecordsOf(ms, max), [], []);
    RecordsCarryStream(ms, max);
    assert [] + Concat(s0.coming) == SerializeAll(ms[0..]);
    RunStaysOnTrack(s0, ms, moves);
    var s := Run(s0, moves);
    var left := ms[|s.delivered|..];
    if s.coming == [] && |left| > 0 {
      assert s.buf + [] == s.buf;
      PrefixParses(left[0], SerializeAll(left[1..]), s.buf, []);
    }
  }
}
