/** The send side of the DTLS handshake: a flight of at most seven messages is cut into
    fragments that fit the MTU, written packet by packet, and resumed or rewound
    (sections 4.1.1, 4.2.3 and 4.2.4 of RFC 6347). */
module DtlsSender {
  import opened Bytes
  import opened DtlsWire
  import R = DtlsReceiver
  import E = DtlsEndToEnd
  import opened DtlsRecordWriter

  const MAX_FLIGHT := 7              // SSL_MAX_HANDSHAKE_FLIGHT
  const MIN_MTU := 256 - 28
  const DEFAULT_MTU := 1500 - 28

  /** DTLS_OUTGOING_MESSAGE: a whole message as one fragment, or a ChangeCipherSpec (no fragment).
      The octets the source stores are Serialize(whole). */
  datatype Outgoing = Outgoing(whole: Option<Fragment>, epoch: nat)
  {
    predicate IsCcs() {
      whole.None?
    }

    function Body(): seq<Byte> {
      if whole.None? then [] else whole.value.body
    }
  }

  /** How far the flight has been written. */
  datatype Position = Position(written: nat, offset: nat)

  /** One sealed record of the flight: `len` octets from `off` of the body of message `index`. */
  datatype Piece = Piece(index: nat, off: nat, len: nat)

  datatype SealResult = SealError | SealNoProgress | SealPartial | SealSuccess

  /** A sealed record: what it carries, the record, and its sealed length. A packet is a list of them. */
  datatype Sealed = Sealed(piece: Piece, record: E.Record, len: nat)

  /** How send_flight ends. A refused packet is the one to be sent next. */
  datatype Ending = Done | Shutdown | SealFailed | Refused(packet: seq<Sealed>) | FlushFailed

  // ---------- A flight, as the list of its message bodies, and its pieces ----------

  type Bodies = seq<seq<Byte>>

  predicate PositionValid(bodies: Bodies, p: Position) {
    && p.written <= |bodies|
    && (p.offset != 0 ==> p.written < |bodies| && p.offset < |bodies[p.written]|)
  }

  /** `piece` takes up exactly at `p`, stays inside its message and makes progress. */
  predicate Continues(bodies: Bodies, p: Position, piece: Piece) {
    && piece.index == p.written < |bodies| && piece.off == p.offset
    && piece.off + piece.len <= |bodies[piece.index]|
    && (piece.len == 0 ==> |bodies[piece.index]| == 0)
  }

  function After(bodies: Bodies, piece: Piece): Position {
    if piece.index < |bodies| && piece.off + piece.len == |bodies[piece.index]| then Position(piece.index + 1, 0)
    else Position(piece.index, piece.off + piece.len)
  }

  /** `pieces` lead from one position to another without gap, overlap or repetition. */
  predicate Chain(bodies: Bodies, from: Position, pieces: seq<Piece>, to: Position)
    decreases |pieces|
  {
    if |pieces| == 0 then from == to
    else Continues(bodies, from, pieces[0]) && Chain(bodies, After(bodies, pieces[0]), pieces[1..], to)
  }

  lemma {:induction false} ChainExtends(bodies: Bodies, from: Position, pieces: seq<Piece>, mid: Position,
                                        more: seq<Piece>, to: Position)
    requires Chain(bodies, from, pieces, mid) && Chain(bodies, mid, more, to)
    ensures Chain(bodies, from, pieces + more, to)
    decreases |pieces|
  {
    if |pieces| == 0 {
      assert pieces + more == more;
    } else {
      ChainExtends(bodies, After(bodies, pieces[0]), pieces[1..], mid, more, to);
      assert (pieces + more)[1..] == pieces[1..] + more;
    }
  }

  lemma ChainOne(bodies: Bodies, from: Position, piece: Piece)
    requires Continues(bodies, from, piece)
    ensures Chain(bodies, from, [piece], After(bodies, piece))
  {}

  /** Every piece moves the position on, so a flight is finished after finitely many packets. */
  lemma {:induction false} ChainProgress(bodies: Bodies, from: Position, pieces: seq<Piece>, to: Position)
    requires PositionValid(bodies, from) && Chain(bodies, from, pieces, to)
    ensures PositionValid(bodies, to)
    ensures from.written <= to.written
    ensures pieces != [] && from.written == to.written ==> from.offset < to.offset
    ensures pieces == [] ==> from == to
    decreases |pieces|
  {
    if |pieces| > 0 {
      ChainProgress(bodies, After(bodies, pieces[0]), pieces[1..], to);
    }
  }

  function Slice(body: seq<Byte>, off: nat, len: nat): seq<Byte> {
    if off + len <= |body| then body[off..off + len] else []
  }

  /** The body octets of message `i` carried by `pieces`, in the order sent. */
  function Carried(bodies: Bodies, pieces: seq<Piece>, i: nat): seq<Byte>
    requires i < |bodies|
  {
    if |pieces| == 0 then []
    else (if pieces[0].index == i then Slice(bodies[i], pieces[0].off, pieces[0].len) else [])
         + Carried(bodies, pieces[1..], i)
  }

  function Count(pieces: seq<Piece>, i: nat): nat {
    if |pieces| == 0 then 0 else (if pieces[0].index == i then 1 else 0) + Count(pieces[1..], i)
  }

  lemma {:induction false} NothingLeftFor(bodies: Bodies, from: Position, pieces: seq<Piece>, to: Position, i: nat)
    requires Chain(bodies, from, pieces, to) && i < from.written && i < |bodies|
    ensures Carried(bodies, pieces, i) == [] && Count(pieces, i) == 0
    decreases |pieces|
  {
    if |pieces| > 0 {
      NothingLeftFor(bodies, After(bodies, pieces[0]), pieces[1..], to, i);
    }
  }

  /** Pieces that lead to the end of the flight carry exactly what was left of every message: the
      rest of the current one and the whole of each later one. An empty body takes exactly one
      (empty) piece, and no other piece is empty. */
  lemma {:induction false} ChainCarriesRemainder(bodies: Bodies, from: Position, pieces: seq<Piece>, i: nat)
    requires PositionValid(bodies, from) && from.written <= i < |bodies|
    requires Chain(bodies, from, pieces, Position(|bodies|, 0))
    ensures Carried(bodies, pieces, i) == if i == from.written then bodies[i][from.offset..] else bodies[i]
    ensures if |bodies[i]| == 0 then Count(pieces, i) == 1 else 1 <= Count(pieces, i) <= |Carried(bodies, pieces, i)|
    decreases |pieces|
  {
    hide Carried, Count;
    var p, rest := pieces[0], pieces[1..];
    var next := After(bodies, p);
    CarriedStep(bodies, pieces, i);
    assert PositionValid(bodies, next);
    if p.index < i {
      ChainCarriesRemainder(bodies, next, rest, i);
      assert bodies[i][0..] == bodies[i];
    } else if next.written == i {
      ChainCarriesRemainder(bodies, next, rest, i);
      SliceThenRest(bodies[i], p.off, p.len);
    } else {
      NothingLeftFor(bodies, next, rest, Position(|bodies|, 0), i);
    }
  }

  lemma CarriedStep(bodies: Bodies, pieces: seq<Piece>, i: nat)
    requires i < |bodies| && pieces != []
    ensures Carried(bodies, pieces, i) ==
            if pieces[0].index == i then Slice(bodies[i], pieces[0].off, pieces[0].len) + Carried(bodies, pieces[1..], i)
            else Carried(bodies, pieces[1..], i)
    ensures Count(pieces, i) == Count(pieces[1..], i) + if pieces[0].index == i then 1 else 0
  {}

  lemma SliceThenRest(body: seq<Byte>, off: nat, len: nat)
    requires off + len <= |body|
    ensures Slice(body, off, len) + body[off + len..] == body[off..]
  {}

  /** Each body position lies in some piece of a completed flight, and each message has a piece. */
  lemma {:induction false} ChainReachesEveryPosition(bodies: Bodies, from: Position, pieces: seq<Piece>, i: nat, k: nat)
      returns (piece: Piece)
    requires PositionValid(bodies, from) && from.written <= i < |bodies|
    requires Chain(bodies, from, pieces, Position(|bodies|, 0))
    requires k < |bodies[i]| || k == |bodies[i]| == 0
    requires i == from.written ==> from.offset <= k
    ensures piece in pieces && piece.index == i && piece.off <= k <= piece.off + piece.len <= |bodies[i]|
    ensures k < |bodies[i]| ==> k < piece.off + piece.len
    decreases |pieces|
  {
    piece := pieces[0];
    if piece.index < i || piece.off + piece.len <= k < |bodies[i]| {
      piece := ChainReachesEveryPosition(bodies, After(bodies, piece), pieces[1..], i, k);
    }
  }

  // ---------- Queued messages ----------

  /** A fragment that holds a whole message. */
  predicate Whole(f: Fragment) {
    f.header.fragOff == 0 && f.header.msgLen == |f.body| && Encodable(f)
  }

  function BodiesOf(flight: seq<Outgoing>): (b: Bodies)
    ensures |b| == |flight| && forall i | 0 <= i < |flight| :: b[i] == flight[i].Body()
  {
    if |flight| == 0 then [] else BodiesOf(flight[..|flight| - 1]) + [flight[|flight| - 1].Body()]
  }

  /** The fragment that seal_next_message cuts from a message. */
  function Cut(f: Fragment, off: nat, len: nat): Fragment {
    Fragment(f.header.(fragOff := off), Slice(f.body, off, len))
  }

  /** The record that carries a piece of the flight, under the epoch in which its message was queued. */
  function RecordOf(flight: seq<Outgoing>, piece: Piece): E.Record
    requires piece.index < |flight|
  {
    var msg := flight[piece.index];
    if msg.IsCcs() then E.Record(msg.epoch, R.ChangeCipherSpec, [R.CCS_BYTE])
    else E.Record(msg.epoch, R.Handshake, Serialize(Cut(msg.whole.value, piece.off, piece.len)))
  }

  /** Every record is the one its piece calls for. */
  predicate CarriesPieces(flight: seq<Outgoing>, sent: seq<Sealed>) {
    forall s <- sent ::
      && s.piece.index < |flight| && s.piece.off + s.piece.len <= |flight[s.piece.index].Body()|
      && s.record == RecordOf(flight, s.piece)
      && RECORD_HEADER_LENGTH + |s.record.payload| <= s.len
  }

  function PiecesOf(sent: seq<Sealed>): (r: seq<Piece>)
    ensures |r| == |sent| && forall i | 0 <= i < |sent| :: r[i] == sent[i].piece
  {
    if sent == [] then [] else [sent[0].piece] + PiecesOf(sent[1..])
  }

  function RecordsOf(sent: seq<Sealed>): (r: seq<E.Record>)
    ensures |r| == |sent| && forall i | 0 <= i < |sent| :: r[i] == sent[i].record
  {
    if sent == [] then [] else [sent[0].record] + RecordsOf(sent[1..])
  }

  /** The length of a packet. */
  function LengthOf(packet: seq<Sealed>): nat {
    if packet == [] then 0 else packet[0].len + LengthOf(packet[1..])
  }

  function Flat(packets: seq<seq<Sealed>>): seq<Sealed> {
    if packets == [] then [] else Flat(packets[..|packets| - 1]) + packets[|packets| - 1]
  }

  lemma FlatAppend(packets: seq<seq<Sealed>>, packet: seq<Sealed>)
    ensures Flat(packets + [packet]) == Flat(packets) + packet
  {
    assert (packets + [packet])[..|packets|] == packets;
  }

  lemma PiecesAppend(a: seq<Sealed>, b: seq<Sealed>)
    ensures PiecesOf(a + b) == PiecesOf(a) + PiecesOf(b)
  {
    hide *;
  }

  lemma RecordsAppend(a: seq<Sealed>, b: seq<Sealed>)
    ensures RecordsOf(a + b) == RecordsOf(a) + RecordsOf(b)
  {
    hide *;
  }

  lemma {:induction false} LengthAppend(a: seq<Sealed>, b: seq<Sealed>)
    ensures LengthOf(a + b) == LengthOf(a) + LengthOf(b)
    decreases |a|
  {
    if a == [] {
      assert a + b == b;
    } else {
      LengthAppend(a[1..], b);
      assert (a + b)[1..] == a[1..] + b;
    }
  }

  lemma CarriesAppend(flight: seq<Outgoing>, a: seq<Sealed>, b: seq<Sealed>)
    requires CarriesPieces(flight, a) && CarriesPieces(flight, b)
    ensures CarriesPieces(flight, a + b)
  {
    hide RecordOf;
  }

  lemma SentOne(s: Sealed)
    ensures PiecesOf([s]) == [s.piece] && RecordsOf([s]) == [s.record] && LengthOf([s]) == s.len
  {}

  // ---------- The fragments in what is sent ----------

  function FragmentIn(r: E.Record): Option<Fragment> {
    if r.contentType == R.Handshake && Parse(r.payload).Some? then Some(Parse(r.payload).value.0) else None
  }

  function FragmentsIn(records: seq<E.Record>): (fs: seq<Fragment>)
    ensures forall f :: f in fs <==> exists r <- records :: FragmentIn(r) == Some(f)
  {
    if records == [] then []
    else
      assert records == [records[0]] + records[1..];
      (if FragmentIn(records[0]).Some? then [FragmentIn(records[0]).value] else []) + FragmentsIn(records[1..])
  }

  lemma FragmentOf(flight: seq<Outgoing>, piece: Piece)
    requires FlightOk(flight) && piece.index < |flight| && !flight[piece.index].IsCcs()
    requires piece.off + piece.len <= |flight[piece.index].Body()|
    ensures FragmentIn(RecordOf(flight, piece)) == Some(Cut(flight[piece.index].whole.value, piece.off, piece.len))
  {
    var cut := Cut(flight[piece.index].whole.value, piece.off, piece.len);
    ParseSerialize(cut, []);
    assert Serialize(cut) + [] == Serialize(cut);
  }

  /** The bodies of the fragments sent for message i, put together in the order sent. */
  function SentBody(sent: seq<Sealed>, i: nat): seq<Byte> {
    if sent == [] then []
    else
      var f := FragmentIn(sent[0].record);
      (if sent[0].piece.index == i && f.Some? then f.value.body else []) + SentBody(sent[1..], i)
  }

  lemma {:induction false} SentIsCarried(flight: seq<Outgoing>, sent: seq<Sealed>, i: nat)
    requires FlightOk(flight) && CarriesPieces(flight, sent) && i < |flight| && !flight[i].IsCcs()
    ensures SentBody(sent, i) == Carried(BodiesOf(flight), PiecesOf(sent), i)
  {
    if sent != [] {
      hide Parse, Serialize, BodiesOf;
      SentIsCarried(flight, sent[1..], i);
      if sent[0].piece.index == i {
        FragmentOf(flight, sent[0].piece);
      }
    }
  }

  /** The fragments sent for a flight written from its start, put together, are exactly its messages: an
      empty body takes exactly one fragment, and no other fragment is empty. */
  lemma FlightPartitionsMessages(flight: seq<Outgoing>, sent: seq<Sealed>, i: nat)
    requires FlightOk(flight) && CarriesPieces(flight, sent) && i < |flight| && !flight[i].IsCcs()
    requires Chain(BodiesOf(flight), Position(0, 0), PiecesOf(sent), Position(|flight|, 0))
    ensures SentBody(sent, i) == flight[i].Body()
    ensures if flight[i].Body() == [] then Count(PiecesOf(sent), i) == 1 else 1 <= Count(PiecesOf(sent), i) <= |flight[i].Body()|
  {
    SentIsCarried(flight, sent, i);
    ChainCarriesRemainder(BodiesOf(flight), Position(0, 0), PiecesOf(sent), i);
  }

  /** The records hold fragments that between them cover a message. */
  ghost predicate FullySent(records: seq<E.Record>, whole: Fragment) {
    && (exists f <- FragmentsIn(records) :: f.header.seqNum == whole.header.seqNum)
    && (forall k | 0 <= k < |whole.body| :: E.Covered(FragmentsIn(records), whole.header.seqNum, k))
  }

  lemma PieceFragment(flight: seq<Outgoing>, sent: seq<Sealed>, piece: Piece) returns (f: Fragment)
    requires FlightOk(flight) && CarriesPieces(flight, sent) && piece in PiecesOf(sent)
    requires piece.index < |flight| && !flight[piece.index].IsCcs()
    ensures f in FragmentsIn(RecordsOf(sent)) && f.header.seqNum == flight[piece.index].whole.value.header.seqNum
    ensures forall k: nat | piece.off <= k < piece.off + piece.len ::
              E.Covers(f, flight[piece.index].whole.value.header.seqNum, k)
  {
    hide Parse, Serialize, FragmentIn, RecordOf, PiecesOf, RecordsOf, FragmentsIn;
    var j: nat :| j < |sent| && PiecesOf(sent)[j] == piece;
    FragmentOf(flight, piece);
    f := Cut(flight[piece.index].whole.value, piece.off, piece.len);
    assert sent[j] in sent && FragmentIn(RecordsOf(sent)[j]) == Some(f);
  }

  /** Some fragment sent for message i covers position k of its body. */
  lemma PositionIsSent(flight: seq<Outgoing>, sent: seq<Sealed>, i: nat, k: nat) returns (f: Fragment)
    requires FlightOk(flight) && CarriesPieces(flight, sent) && i < |flight| && !flight[i].IsCcs()
    requires Chain(BodiesOf(flight), Position(0, 0), PiecesOf(sent), Position(|flight|, 0))
    requires k < |flight[i].Body()| || k == |flight[i].Body()| == 0
    ensures f in FragmentsIn(RecordsOf(sent)) && f.header.seqNum == flight[i].whole.value.header.seqNum
    ensures k < |flight[i].Body()| ==> E.Covers(f, flight[i].whole.value.header.seqNum, k)
  {
    hide Chain, FlightOk, CarriesPieces, PiecesOf, RecordsOf, FragmentsIn, E.Covers, BodiesOf;
    var piece := ChainReachesEveryPosition(BodiesOf(flight), Position(0, 0), PiecesOf(sent), i, k);
    f := PieceFragment(flight, sent, piece);
  }

  lemma FlightIsFullySent(flight: seq<Outgoing>, sent: seq<Sealed>, i: nat)
    requires FlightOk(flight) && CarriesPieces(flight, sent) && i < |flight| && !flight[i].IsCcs()
    requires Chain(BodiesOf(flight), Position(0, 0), PiecesOf(sent), Position(|flight|, 0))
    ensures FullySent(RecordsOf(sent), flight[i].whole.value)
  {
    hide Chain, FlightOk, CarriesPieces, BodiesOf, FragmentsIn;
    var any := PositionIsSent(flight, sent, i, 0);
    forall k: nat | k < |flight[i].Body()|
      ensures E.Covered(FragmentsIn(RecordsOf(sent)), flight[i].whole.value.header.seqNum, k)
    {
      var f := PositionIsSent(flight, sent, i, k);
    }
  }

  /** The receiver's side of it: when all fragments sent for the message it waits for have arrived, in any
      order, with repeats and with fragments of other messages among them, it hands that message up. */
  lemma SentMessageIsDelivered(history: seq<E.Message>, whole: Fragment, records: seq<E.Record>, st: R.State,
                               arrived: seq<Fragment>, maxLen: nat)
    requires E.Agrees(history, st) && E.SliceOf(history, whole) && Whole(whole) && whole.header.seqNum == st.readSeq
    requires FullySent(records, whole)
    requires forall f <- FragmentsIn(records) :: f.header.seqNum == st.readSeq ==> f in arrived
    requires forall f <- arrived :: E.Expected(history, st, f, maxLen)
    ensures var got := R.GetMessage(E.TakeAll(history, st, arrived, maxLen)).1;
            got.Some? && got.value.msgType == whole.header.msgType && got.value.body == whole.body
  {
    hide E.Expected, E.Agrees, FragmentsIn, R.GetMessage, E.TakeAll;
    var body := history[st.readSeq].body;
    assert whole.body == body;
    var first :| first in FragmentsIn(records) && first.header.seqNum == whole.header.seqNum;
    assert first in arrived;
    forall k | 0 <= k < |body|
      ensures E.Covered(arrived, st.readSeq, k)
    {
      assert E.Covered(FragmentsIn(records), whole.header.seqNum, k);
      var f :| f in FragmentsIn(records) && E.Covers(f, whole.header.seqNum, k);
      assert f in arrived;
    }
    E.CoveredMessageIsDelivered(history, st, arrived, maxLen);
  }

  // ---------- What the sender keeps ----------

  predicate FlightOk(flight: seq<Outgoing>) {
    |flight| <= MAX_FLIGHT && forall m <- flight :: m.IsCcs() || Whole(m.whole.value)
  }

  ghost predicate AllHonest(history: seq<E.Message>, records: seq<E.Record>) {
    |history| <= E.MAX_MESSAGES ==> forall r <- records :: E.HonestRecord(history, r)
  }

  /** As long as message numbers have not been reused, everything queued or sent is a slice of the
      message of that number. */
  ghost predicate Faithful(history: seq<E.Message>, flight: seq<Outgoing>, wire: seq<E.Record>)
    requires FlightOk(flight)
  {
    && (|history| <= E.MAX_MESSAGES ==> forall m <- flight :: m.IsCcs() || E.SliceOf(history, m.whole.value))
    && AllHonest(history, wire)
  }

  function NewMessage(msgType: Byte, body: seq<Byte>, seqNum: nat): Fragment {
    Fragment(FragmentHeader(msgType, |body|, seqNum, 0), body)
  }

  /** The flight, how far it is written, and what it says about the history. */
  ghost predicate QueueOk(history: seq<E.Message>, flight: seq<Outgoing>, wire: seq<E.Record>, pos: Position) {
    FlightOk(flight) && PositionValid(BodiesOf(flight), pos) && Faithful(history, flight, wire)
  }

  lemma BodiesOfAppend(flight: seq<Outgoing>, m: Outgoing)
    ensures BodiesOf(flight + [m]) == BodiesOf(flight) + [m.Body()]
  {
    assert (flight + [m])[..|flight|] == flight;
  }

  lemma FaithfulAfterMessage(history: seq<E.Message>, flight: seq<Outgoing>, wire: seq<E.Record>, m: E.Message, last: Outgoing)
    requires FlightOk(flight) && FlightOk(flight + [last]) && Faithful(history, flight, wire)
    requires last.whole == Some(NewMessage(m.msgType, m.body, |history| % 0x1_0000))
    ensures Faithful(history + [m], flight + [last], wire)
  {
    hide E.HonestRecord, Whole;
    var history' := history + [m];
    if |history'| <= E.MAX_MESSAGES {
      forall r <- wire
        ensures E.HonestRecord(history', r)
      {
        E.HonestRecordExtends(history, m, r);
      }
      assert m.body[0..|m.body|] == m.body;
      assert E.SliceOf(history', last.whole.value);
    }
  }

  lemma QueueOkAfterMessage(history: seq<E.Message>, flight: seq<Outgoing>, wire: seq<E.Record>, pos: Position,
                            msgType: Byte, body: seq<Byte>, epoch: nat)
    requires QueueOk(history, flight, wire, pos) && |flight| < MAX_FLIGHT && |body| < 0x100_0000
    ensures var m := Outgoing(Some(NewMessage(msgType, body, |history| % 0x1_0000)), epoch);
            QueueOk(history + [E.Message(msgType, body)], flight + [m], wire, pos)
  {
    var m := Outgoing(Some(NewMessage(msgType, body, |history| % 0x1_0000)), epoch);
    BodiesOfAppend(flight, m);
    FaithfulAfterMessage(history, flight, wire, E.Message(msgType, body), m);
    hide Faithful;
  }

  lemma QueueOkAfterCcs(history: seq<E.Message>, flight: seq<Outgoing>, wire: seq<E.Record>, pos: Position, epoch: nat)
    requires QueueOk(history, flight, wire, pos) && |flight| < MAX_FLIGHT
    ensures QueueOk(history, flight + [Outgoing(None, epoch)], wire, pos)
  {
    BodiesOfAppend(flight, Outgoing(None, epoch));
  }

  lemma QueueOkAfterSend(history: seq<E.Message>, flight: seq<Outgoing>, wire: seq<E.Record>, pos: Position, sent: seq<E.Record>)
    requires QueueOk(history, flight, wire, pos)
    requires AllHonest(history, sent)
    ensures QueueOk(history, flight, wire + sent, pos)
  {}

  /** The measure under which send_flight terminates: messages left, then octets left of the next one. */
  function OctetsLeft(flight: seq<Outgoing>, pos: Position): int {
    if pos.written < |flight| then |flight[pos.written].Body()| - pos.offset else 0
  }

  lemma SendProgress(history: seq<E.Message>, flight: seq<Outgoing>, wire: seq<E.Record>, from: Position, pieces: seq<Piece>, to: Position)
    requires QueueOk(history, flight, wire, from) && pieces != [] && Chain(BodiesOf(flight), from, pieces, to)
    ensures from.written <= to.written <= |flight|
    ensures from.written == to.written ==> 0 <= OctetsLeft(flight, to) < OctetsLeft(flight, from)
  {
    ChainProgress(BodiesOf(flight), from, pieces, to);
  }

  lemma EndOfFlight(history: seq<E.Message>, flight: seq<Outgoing>, wire: seq<E.Record>, pos: Position)
    requires QueueOk(history, flight, wire, pos)
    ensures pos.written >= |flight| ==> pos == Position(|flight|, 0)
    ensures QueueOk(history, flight, wire, Position(0, 0))
  {}

  /** A record carries the piece that takes up at `from`, and leads to `to`. */
  ghost predicate Advances(history: seq<E.Message>, flight: seq<Outgoing>, from: Position, s: Sealed, to: Position) {
    && CarriesPieces(flight, [s])
    && Continues(BodiesOf(flight), from, s.piece) && After(BodiesOf(flight), s.piece) == to
    && (|history| <= E.MAX_MESSAGES ==> E.HonestRecord(history, s.record))
  }

  /** What is known of the next message of the flight, and of its serialized form. */
  lemma NextMessageOk(history: seq<E.Message>, flight: seq<Outgoing>, wire: seq<E.Record>, pos: Position)
    requires QueueOk(history, flight, wire, pos) && pos.written < |flight|
    ensures flight[pos.written].IsCcs() ==> pos.offset == 0
    ensures !flight[pos.written].IsCcs() ==>
              var f := flight[pos.written].whole.value;
              Parse(Serialize(f)) == Some((f, [])) && Whole(f) && (pos.offset == 0 || pos.offset < |f.body|)
    ensures QueueOk(history, flight, wire, Position(pos.written, 0))
  {
    assert BodiesOf(flight)[pos.written] == flight[pos.written].Body();
    if !flight[pos.written].IsCcs() {
      var f := flight[pos.written].whole.value;
      ParseSerialize(f, []);
      assert Serialize(f) + [] == Serialize(f);
    }
  }

  /** A record cut from the next message moves the position on. */
  lemma CutAdvances(history: seq<E.Message>, flight: seq<Outgoing>, wire: seq<E.Record>, pos: Position, s: Sealed)
    requires QueueOk(history, flight, wire, pos) && pos.written < |flight|
    requires s.piece.index == pos.written && s.piece.off == pos.offset && s.record == RecordOf(flight, s.piece)
    requires pos.offset + s.piece.len <= |flight[pos.written].Body()|
    requires s.piece.len == 0 ==> |flight[pos.written].Body()| == 0
    requires s.len >= RECORD_HEADER_LENGTH + if flight[pos.written].IsCcs() then 1 else HEADER_LENGTH + s.piece.len
    ensures var done := pos.offset + s.piece.len == |flight[pos.written].Body()|;
            var next := if done then Position(pos.written + 1, 0) else Position(pos.written, pos.offset + s.piece.len);
            Advances(history, flight, pos, s, next) && QueueOk(history, flight, wire, next)
    ensures s.record.epoch == flight[pos.written].epoch
  {
    hide Parse, Serialize, Encodable, E.HonestRecord;
    assert BodiesOf(flight)[pos.written] == flight[pos.written].Body();
    var msg := flight[pos.written];
    if msg.IsCcs() {
      E.CcsIsHonest(history, msg.epoch);
    } else if |history| <= E.MAX_MESSAGES {
      assert E.SliceOf(history, msg.whole.value);
      CutIsHonest(history, msg.whole.value, msg.epoch, pos.offset, s.piece.len);
    }
  }

  lemma CutIsHonest(history: seq<E.Message>, f: Fragment, epoch: nat, off: nat, len: nat)
    requires Whole(f) && off + len <= |f.body| && E.SliceOf(history, f)
    ensures E.HonestRecord(history, E.Record(epoch, R.Handshake, Serialize(Cut(f, off, len))))
  {
    var cut := Cut(f, off, len);
    ParseSerialize(cut, []);
    assert Serialize(cut) + [] == Serialize(cut);
    assert E.HonestPayload(history, []);
  }

  /** A record joins the packet. */
  lemma PacketGrows(history: seq<E.Message>, flight: seq<Outgoing>, from: Position, packet: seq<Sealed>,
                    mid: Position, s: Sealed, to: Position)
    requires CarriesPieces(flight, packet) && Chain(BodiesOf(flight), from, PiecesOf(packet), mid)
    requires Advances(history, flight, mid, s, to)
    requires AllHonest(history, RecordsOf(packet))
    ensures CarriesPieces(flight, packet + [s]) && LengthOf(packet + [s]) == LengthOf(packet) + s.len
    ensures Chain(BodiesOf(flight), from, PiecesOf(packet + [s]), to)
    ensures AllHonest(history, RecordsOf(packet + [s]))
  {
    hide Continues, After, BodiesOf, E.HonestRecord, CarriesPieces, Chain, PiecesOf, RecordsOf, LengthOf;
    PiecesAppend(packet, [s]);
    RecordsAppend(packet, [s]);
    LengthAppend(packet, [s]);
    CarriesAppend(flight, packet, [s]);
    SentOne(s);
    ChainOne(BodiesOf(flight), mid, s.piece);
    ChainExtends(BodiesOf(flight), from, PiecesOf(packet), mid, [s.piece], to);
  }

  lemma PacketStarts(flight: seq<Outgoing>, mtu: nat, from: Position, packet: seq<Sealed>, to: Position)
    requires packet != [] && CarriesPieces(flight, packet) && LengthOf(packet) <= mtu
    requires Chain(BodiesOf(flight), from, PiecesOf(packet), to)
    ensures StartsAt(flight, mtu, packet, from)
  {}

  /** What an accepted packet adds. */
  lemma PacketAccepted(history: seq<E.Message>, flight: seq<Outgoing>, mtu: nat, wire0: seq<E.Record>, wire: seq<E.Record>,
                       from: Position, packets: seq<seq<Sealed>>, mid: Position, packet: seq<Sealed>, to: Position)
    requires QueueOk(history, flight, wire, to) && wire == wire0 + RecordsOf(Flat(packets))
    requires PacketsOk(flight, mtu, packets) && StartsAt(flight, mtu, packet, mid)
    requires Chain(BodiesOf(flight), from, PiecesOf(Flat(packets)), mid)
    requires Chain(BodiesOf(flight), mid, PiecesOf(packet), to)
    requires AllHonest(history, RecordsOf(packet))
    ensures QueueOk(history, flight, wire + RecordsOf(packet), to)
    ensures wire + RecordsOf(packet) == wire0 + RecordsOf(Flat(packets + [packet]))
    ensures PacketsOk(flight, mtu, packets + [packet])
    ensures Chain(BodiesOf(flight), from, PiecesOf(Flat(packets + [packet])), to)
  {
    hide QueueOk, E.HonestRecord, CarriesPieces, Chain, RecordsOf, PiecesOf, LengthOf, Flat, BodiesOf;
    FlatAppend(packets, packet);
    PiecesAppend(Flat(packets), packet);
    RecordsAppend(Flat(packets), packet);
    CarriesAppend(flight, Flat(packets), packet);
    ChainExtends(BodiesOf(flight), from, PiecesOf(Flat(packets)), mid, PiecesOf(packet), to);
    QueueOkAfterSend(history, flight, wire, to, RecordsOf(packet));
  }

  lemma NothingSent(history: seq<E.Message>, flight: seq<Outgoing>, mtu: nat, pos: Position)
    ensures Flat([]) == [] && RecordsOf([]) == [] && PiecesOf([]) == [] && LengthOf([]) == 0
    ensures CarriesPieces(flight, []) && Chain(BodiesOf(flight), pos, [], pos) && AllHonest(history, [])
    ensures PacketsOk(flight, mtu, [])
  {}

  /** Packets that fit the MTU, of records that the flight calls for. */
  ghost predicate PacketsOk(flight: seq<Outgoing>, mtu: nat, packets: seq<seq<Sealed>>) {
    CarriesPieces(flight, Flat(packets)) && forall p <- packets :: p != [] && LengthOf(p) <= mtu
  }

  /** A packet that starts at `pos`. */
  ghost predicate StartsAt(flight: seq<Outgoing>, mtu: nat, packet: seq<Sealed>, pos: Position) {
    && packet != [] && CarriesPieces(flight, packet) && LengthOf(packet) <= mtu
    && Position(packet[0].piece.index, packet[0].piece.off) == pos
  }

  /** A receiver that has not changed ciphers takes the record of a ChangeCipherSpec for one. */
  lemma CcsIsTaken(flight: seq<Outgoing>, piece: Piece, st: R.State, maxLen: nat)
    requires piece.index < |flight| && flight[piece.index].IsCcs() && R.Wellformed(st) && st.nullCipher
    ensures var r := RecordOf(flight, piece);
            && r.epoch == flight[piece.index].epoch
            && R.OpenHandshake(st, r.contentType, r.payload, maxLen) == R.Accepted(st.(hasCcs := true))
  {}

  // ---------- The sender ----------

  class Sender {
    const records: RecordWriter
    var handshakeWriteSeq: nat
    var outgoing: seq<Outgoing>
    var outgoingWritten: nat
    var outgoingOffset: nat
    var outgoingMessagesComplete: bool
    var flightHasReply: bool
    var mtu: nat
    var writeShutdown: bool

    ghost var history: seq<E.Message>            // every message ever added
    ghost var wire: seq<E.Record>                // every record the transport accepted, in order

    ghost function Pos(): Position
      reads this
    {
      Position(outgoingWritten, outgoingOffset)
    }

    ghost predicate Valid()
      reads this, records
    {
      && records.Valid()
      && handshakeWriteSeq == |history| % 0x1_0000
      && QueueOk(history, outgoing, wire, Pos())
    }

    constructor (ideal: bool, aead: Aead)
      requires aead.nonceLen <= aead.maxOverhead
      ensures Valid() && fresh(records) && records.ideal == ideal && history == [] && outgoing == [] && wire == []
      ensures !outgoingMessagesComplete && !flightHasReply && !writeShutdown
    {
      records := new RecordWriter(ideal, aead);
      handshakeWriteSeq, outgoing := 0, [];
      outgoingWritten, outgoingOffset, outgoingMessagesComplete := 0, 0, false;
      flightHasReply, mtu, writeShutdown := false, 0, false;
      history, wire := [], [];
    }

    /** dtls_clear_outgoing_messages. */
    method ClearOutgoing()
      requires Valid()
      modifies this`outgoing, this`outgoingWritten, this`outgoingOffset, this`outgoingMessagesComplete, this`flightHasReply
      ensures Valid() && outgoing == [] && Pos() == Position(0, 0) && !outgoingMessagesComplete && !flightHasReply
    {
      outgoing, outgoingWritten, outgoingOffset := [], 0, 0;
      outgoingMessagesComplete, flightHasReply := false, false;
    }

    /** add_outgoing: a completed flight is discarded first; a full one refuses the message. */
    method AddOutgoing(whole: Option<Fragment>) returns (ok: bool)
      requires Valid()
      requires whole.Some? ==> |whole.value.body| < 0x100_0000 &&
                               whole.value == NewMessage(whole.value.header.msgType, whole.value.body, handshakeWriteSeq)
      modifies this`outgoing, this`outgoingWritten, this`outgoingOffset, this`outgoingMessagesComplete,
               this`flightHasReply, this`handshakeWriteSeq, this`history
      ensures Valid()
      ensures ok <==> old(outgoingMessagesComplete) || old(|outgoing|) < MAX_FLIGHT
      ensures ok ==> outgoing == (if old(outgoingMessagesComplete) then [] else old(outgoing)) + [Outgoing(whole, records.wEpoch)]
      ensures !ok ==> outgoing == old(outgoing)
      ensures !outgoingMessagesComplete && flightHasReply == (old(flightHasReply) && !old(outgoingMessagesComplete))
      ensures history == if ok && whole.Some? then old(history) + [E.Message(whole.value.header.msgType, whole.value.body)]
                         else old(history)
    {
      hide QueueOk;
      if outgoingMessagesComplete {
        ClearOutgoing();
      }
      if |outgoing| >= MAX_FLIGHT {
        return false;
      }
      if whole.Some? {
        QueueOkAfterMessage(history, outgoing, wire, Pos(), whole.value.header.msgType, whole.value.body, records.wEpoch);
        handshakeWriteSeq := (handshakeWriteSeq + 1) % 0x1_0000;
        history := history + [E.Message(whole.value.header.msgType, whole.value.body)];
      } else {
        QueueOkAfterCcs(history, outgoing, wire, Pos(), records.wEpoch);
      }
      outgoing := outgoing + [Outgoing(whole, records.wEpoch)];
      return true;
    }

    /** dtls1_init_message, dtls1_finish_message and dtls1_add_message together. */
    method AddMessage(msgType: Byte, body: seq<Byte>) returns (ok: bool)
      requires Valid()
      modifies this`outgoing, this`outgoingWritten, this`outgoingOffset, this`outgoingMessagesComplete,
               this`flightHasReply, this`handshakeWriteSeq, this`history
      ensures Valid()
      ensures ok <==> |body| < 0x100_0000 && (old(outgoingMessagesComplete) || old(|outgoing|) < MAX_FLIGHT)
      ensures history == if ok then old(history) + [E.Message(msgType, body)] else old(history)
      ensures ok ==> |outgoing| > 0 && outgoing[|outgoing| - 1].Body() == body &&
                     outgoing[..|outgoing| - 1] == (if old(outgoingMessagesComplete) then [] else old(outgoing))
      ensures !ok ==> outgoing == old(outgoing)
      ensures if |body| >= 0x100_0000 then outgoingMessagesComplete == old(outgoingMessagesComplete) && flightHasReply == old(flightHasReply)
              else !outgoingMessagesComplete && flightHasReply == (old(flightHasReply) && !old(outgoingMessagesComplete))
    {
      if |body| >= 0x100_0000 {
        return false;
      }
      ok := AddOutgoing(Some(NewMessage(msgType, body, handshakeWriteSeq)));
    }

    /** Message i was queued in this epoch or the one before. */
    predicate KnownEpoch(i: nat)
      requires i < |outgoing|
      reads this`outgoing, records`wEpoch
    {
      outgoing[i].epoch == records.wEpoch || (records.wEpoch >= 1 && outgoing[i].epoch == records.wEpoch - 1)
    }

    /** The smallest packet space in which message i makes progress. */
    function MinimumFor(i: nat): nat
      requires i < |outgoing|
      reads this`outgoing, records`wEpoch, records`aead, records`lastAead
    {
      var previous := records.wEpoch >= 1 && outgoing[i].epoch == records.wEpoch - 1;
      (if outgoing[i].IsCcs() then 1 else HEADER_LENGTH + 1)
      + RECORD_HEADER_LENGTH + (if previous then records.lastAead else records.aead).maxOverhead
    }

    function NextMinimum(): nat
      requires outgoingWritten < |outgoing|
      reads this`outgoing, this`outgoingWritten, records`wEpoch, records`aead, records`lastAead
    {
      MinimumFor(outgoingWritten)
    }

    /** Nothing stands in the way of the rest of the flight in packets of `room` octets. */
    ghost predicate Sendable(room: nat)
      reads this`outgoing, this`outgoingWritten, records`wEpoch, records`aead, records`lastAead
    {
      room < 0x1_0000 && forall i | outgoingWritten <= i < |outgoing| :: KnownEpoch(i) && MinimumFor(i) <= room
    }

    /** The same for all of the flight. */
    ghost predicate AllSendable(room: nat)
      reads this`outgoing, records`wEpoch, records`aead, records`lastAead
    {
      room < 0x1_0000 && forall i | 0 <= i < |outgoing| :: KnownEpoch(i) && MinimumFor(i) <= room
    }

    /** The start of the message after the current one. */
    ghost function Following(): Position
      reads this
    {
      Position(outgoingWritten + 1, 0)
    }

    /** Seals `todo` octets of the next message, or the ChangeCipherSpec, as the record that carries them. */
    method SealPiece(usePrevious: bool, todo: nat, inLen: nat, maxOut: nat) returns (ok: bool, outLen: nat, ghost sealed: Sealed)
      requires Valid() && outgoingWritten < |outgoing| && (usePrevious ==> records.wEpoch >= 1)
      requires outgoing[outgoingWritten].epoch == if usePrevious then records.wEpoch - 1 else records.wEpoch
      requires var msg := outgoing[outgoingWritten];
               && inLen == (if msg.IsCcs() then 1 else HEADER_LENGTH + todo)
               && outgoingOffset + todo <= |msg.Body()| && (todo == 0 ==> |msg.Body()| == 0)
      modifies records`writeSequence, records`lastWriteSequence, records`sealedNumbers, records`wrapped
      ensures Valid() && old(records.sealedNumbers) <= records.sealedNumbers
      ensures ok ==>
                && outLen == sealed.len <= RECORD_HEADER_LENGTH + inLen + records.Cipher(usePrevious).maxOverhead
                && sealed.piece == Piece(outgoingWritten, outgoingOffset, todo)
                && Advances(history, outgoing, Pos(), sealed, AfterCut(todo)) && QueueOk(history, outgoing, wire, AfterCut(todo))
                && |records.sealedNumbers| == |old(records.sealedNumbers)| + 1
                && records.sealedNumbers[|records.sealedNumbers| - 1].0 == sealed.record.epoch
      ensures records.ideal && maxOut >= RECORD_HEADER_LENGTH && inLen + records.Cipher(usePrevious).maxOverhead < 0x1_0000 ==>
                ok || records.wrapped
    {
      hide QueueOk, Fresh, RecordOf, Advances;
      ghost var piece := Piece(outgoingWritten, outgoingOffset, todo);
      ok, outLen := records.SealRecord(usePrevious, inLen, maxOut);
      sealed := Sealed(piece, RecordOf(outgoing, piece), outLen);
      if ok {
        CutAdvances(history, outgoing, wire, Pos(), sealed);
      }
    }

    /** Where the flight is once `todo` octets of the next message are sent. */
    ghost function AfterCut(todo: nat): Position
      requires outgoingWritten < |outgoing|
      reads this`outgoing, this`outgoingWritten, this`outgoingOffset
    {
      if outgoingOffset + todo == |outgoing[outgoingWritten].Body()| then Position(outgoingWritten + 1, 0)
      else Position(outgoingWritten, outgoingOffset + todo)
    }

    /** seal_next_message. On success the offset returns to 0; the caller counts the message. */
    method SealNextMessage(maxOut: nat) returns (result: SealResult, outLen: nat, ghost sealed: Sealed)
      requires Valid() && outgoingWritten < |outgoing|
      modifies this`outgoingOffset, records`writeSequence, records`lastWriteSequence, records`sealedNumbers, records`wrapped
      ensures Valid() && old(records.sealedNumbers) <= records.sealedNumbers
      ensures result == SealNoProgress <==> KnownEpoch(outgoingWritten) && maxOut < old(NextMinimum())
      ensures result == SealNoProgress ==> outgoingOffset == old(outgoingOffset)
      ensures result == SealPartial ==> outgoingOffset > 0
      ensures records.ideal && KnownEpoch(outgoingWritten) && maxOut < 0x1_0000 && result == SealError ==> records.wrapped
      ensures result == SealError ==> outgoingOffset == old(outgoingOffset)
      ensures result == SealPartial || result == SealSuccess ==>
                && old(NextMinimum()) <= maxOut && outLen == sealed.len <= maxOut
                && Advances(history, outgoing, old(Pos()), sealed, if result == SealSuccess then Following() else Pos())
                && (result == SealSuccess ==> outgoingOffset == 0 && QueueOk(history, outgoing, wire, Following()))
                && (result == SealPartial ==> sealed.piece.len == maxOut - (old(NextMinimum()) - 1))
                && |records.sealedNumbers| == |old(records.sealedNumbers)| + 1
                && records.sealedNumbers[|records.sealedNumbers| - 1].0 == sealed.record.epoch
    {
      hide QueueOk, Fresh, Parse, Serialize, Encodable, Advances;
      sealed, outLen := Sealed(Piece(outgoingWritten, outgoingOffset, 0), E.Record(0, R.Other, []), 0), 0;
      var msg := outgoing[outgoingWritten];
      NextMessageOk(history, outgoing, wire, Pos());
      var usePrevious := false;
      if records.wEpoch >= 1 && msg.epoch == records.wEpoch - 1 {
        usePrevious := true;
      } else if msg.epoch != records.wEpoch {
        result := SealError;
        return;
      }
      var overhead := RECORD_HEADER_LENGTH + records.Cipher(usePrevious).maxOverhead;
      var prefix := RECORD_HEADER_LENGTH + records.Cipher(usePrevious).nonceLen;
      var ok: bool;

      if msg.IsCcs() {
        if maxOut < 1 + overhead {
          result := SealNoProgress;
          return;
        }
        ok, outLen, sealed := SealPiece(usePrevious, 0, 1, maxOut);
        result := if ok then SealSuccess else SealError;
        return;
      }

      // Messages are queued in serialized form and parsed again here; the parse cannot fail.
      var f := Parse(Serialize(msg.whole.value)).value.0;
      var left := |f.body| - outgoingOffset;
      if maxOut < HEADER_LENGTH + 1 + overhead || maxOut < prefix {
        result := SealNoProgress;
        return;
      }
      var todo := left;
      if todo > maxOut - HEADER_LENGTH - overhead {
        todo := maxOut - HEADER_LENGTH - overhead;
      }
      ok, outLen, sealed := SealPiece(usePrevious, todo, HEADER_LENGTH + todo, maxOut);
      if !ok {
        result := SealError;
        return;
      }
      if todo == left {
        outgoingOffset := 0;
        result := SealSuccess;
        return;
      }
      outgoingOffset := outgoingOffset + todo;
      result := SealPartial;
    }

    /** seal_next_packet: as many records as fit `maxOut`. */
    method SealNextPacket(maxOut: nat) returns (ok: bool, total: nat, ghost packet: seq<Sealed>)
      requires Valid() && outgoingWritten < |outgoing|
      modifies this`outgoingWritten, this`outgoingOffset,
               records`writeSequence, records`lastWriteSequence, records`sealedNumbers, records`wrapped
      ensures Valid() && old(records.sealedNumbers) <= records.sealedNumbers
      ensures ok ==>
                && packet != [] && total == LengthOf(packet) <= maxOut
                && CarriesPieces(outgoing, packet)
                && Chain(BodiesOf(outgoing), old(Pos()), PiecesOf(packet), Pos())
                && AllHonest(history, RecordsOf(packet))
      ensures old(maxOut < NextMinimum()) ==> !ok
      ensures ok ==> outgoingWritten == |outgoing| || outgoingOffset > 0 || maxOut - total < NextMinimum()
      ensures records.ideal && old(Sendable(maxOut)) ==> ok || records.wrapped
    {
      hide QueueOk, Advances, AllHonest, Fresh, CarriesPieces, Chain, PiecesOf, RecordsOf, LengthOf, KnownEpoch, MinimumFor, BodiesOf;
      packet, total := [], 0;
      NothingSent(history, outgoing, mtu, Pos());
      var space := maxOut;
      var madeProgress := false;
      while outgoingWritten < |outgoing|
        invariant Valid() && total + space == maxOut && total == LengthOf(packet)
        invariant old(records.sealedNumbers) <= records.sealedNumbers
        invariant madeProgress <==> packet != []
        invariant packet == [] ==> Pos() == old(Pos()) && space == maxOut
        invariant packet != [] ==> old(NextMinimum()) <= maxOut
        invariant packet != [] ==> outgoingOffset == 0
        invariant old(outgoingWritten) <= outgoingWritten <= |outgoing|
        invariant CarriesPieces(outgoing, packet)
        invariant Chain(BodiesOf(outgoing), old(Pos()), PiecesOf(packet), Pos())
        invariant AllHonest(history, RecordsOf(packet))
        decreases |outgoing| - outgoingWritten
      {
        ghost var before := Pos();
        var result, len, sealed := SealNextMessage(space);
        if result == SealError {
          return false, total, packet;
        }
        if result == SealNoProgress {
          break;
        }
        space, total, madeProgress := space - len, total + len, true;
        PacketGrows(history, outgoing, old(Pos()), packet, before, sealed,
                    if result == SealSuccess then Following() else Pos());
        packet := packet + [sealed];
        if result == SealPartial {
          break;
        }
        outgoingWritten := outgoingWritten + 1;
      }
      // Without progress not even one record fits, and the flight cannot be sent.
      ok := madeProgress;
    }

    /** dtls1_update_mtu; `queried` is what the transport reports. */
    method UpdateMtu(noQuery: bool, queried: int)
      requires Valid()
      modifies this`mtu
      ensures Valid()
      ensures mtu == if old(mtu) >= MIN_MTU || noQuery then old(mtu)
                     else if MIN_MTU <= queried <= 0x4000_0000 then queried
                     else DEFAULT_MTU
    {
      if mtu < MIN_MTU && !noQuery {
        if 0 <= queried <= 0x4000_0000 && queried >= MIN_MTU {
          mtu := queried;
        } else {
          mtu := DEFAULT_MTU;
        }
      }
    }

    /** send_flight. The packets accepted by the transport lead from where the flight was to where it is
        now; a refused packet starts just there, so that the next call sends it again. When sealing
        fails the connection fails, with the position unspecified. */
    method SendFlight(noQuery: bool, queried: int) returns (ret: int, ghost packets: seq<seq<Sealed>>, ghost end: Ending)
      requires Valid()
      modifies this`mtu, this`wire, this`outgoingWritten, this`outgoingOffset,
               records`writeSequence, records`lastWriteSequence, records`sealedNumbers, records`wrapped
      ensures Valid() && old(records.sealedNumbers) <= records.sealedNumbers
      ensures wire == old(wire) + RecordsOf(Flat(packets)) && PacketsOk(outgoing, mtu, packets)
      ensures !end.SealFailed? ==> Chain(BodiesOf(outgoing), old(Pos()), PiecesOf(Flat(packets)), Pos())
      ensures end.Refused? ==> StartsAt(outgoing, mtu, end.packet, Pos())
      ensures end.Done? || end.FlushFailed? ==> Pos() == Position(|outgoing|, 0)
      ensures end.Shutdown? <==> writeShutdown
      ensures end.Shutdown? ==> packets == [] && mtu == old(mtu)
      ensures if end.Done? then ret == 1 else ret <= 0
      ensures records.ideal && !writeShutdown && AllSendable(mtu) ==> end.Done? || records.wrapped
    {
      hide QueueOk, AllHonest, Fresh, CarriesPieces, Chain, StartsAt, PacketsOk, Flat, RecordsOf, PiecesOf, BodiesOf, OctetsLeft;
      hide KnownEpoch, MinimumFor;
      packets, ret, end := [], -1, Shutdown;
      NothingSent(history, outgoing, mtu, Pos());
      if writeShutdown {
        return;
      }
      UpdateMtu(noQuery, queried);
      NothingSent(history, outgoing, mtu, Pos());
      while outgoingWritten < |outgoing|
        invariant Valid() && old(records.sealedNumbers) <= records.sealedNumbers
        invariant wire == old(wire) + RecordsOf(Flat(packets)) && PacketsOk(outgoing, mtu, packets)
        invariant Chain(BodiesOf(outgoing), old(Pos()), PiecesOf(Flat(packets)), Pos())
        decreases |outgoing| - outgoingWritten, OctetsLeft(outgoing, Pos())
      {
        var oldWritten, oldOffset := outgoingWritten, outgoingOffset;
        ghost var before := Pos();
        assert QueueOk(history, outgoing, wire, before);
        var ok, packetLen, packet := SealNextPacket(mtu);
        if !ok {
          end := SealFailed;
          return;
        }
        PacketStarts(outgoing, mtu, before, packet, Pos());
        SendProgress(history, outgoing, wire, before, PiecesOf(packet), Pos());
        var bioRet: int := *;
        if !records.ideal && bioRet <= 0 {
          // Retry this packet the next time around.
          outgoingWritten, outgoingOffset := oldWritten, oldOffset;
          ret, end := bioRet, Refused(packet);
          return;
        }
        PacketAccepted(history, outgoing, mtu, old(wire), wire, old(Pos()), packets, before, packet, Pos());
        packets, wire := packets + [packet], wire + RecordsOf(packet);
      }
      EndOfFlight(history, outgoing, wire, Pos());
      var flushRet: int := *;
      if !records.ideal && flushRet <= 0 {
        end := FlushFailed;
        return;
      }
      ret, end := 1, Done;
    }

    /** Every message of the flight has been sent in full. */
    ghost predicate AllSent(sent: seq<Sealed>)
      reads this
    {
      forall m <- outgoing :: !m.IsCcs() ==> FullySent(RecordsOf(sent), m.whole.value)
    }

    lemma CompletedFlight(sent: seq<Sealed>)
      requires Valid() && CarriesPieces(outgoing, sent)
      requires Chain(BodiesOf(outgoing), Position(0, 0), PiecesOf(sent), Position(|outgoing|, 0))
      ensures AllSent(sent)
      ensures forall i | 0 <= i < |outgoing| && !outgoing[i].IsCcs() :: SentBody(sent, i) == outgoing[i].Body()
    {
      hide FullySent, SentBody, Chain, CarriesPieces, BodiesOf;
      forall i | 0 <= i < |outgoing| && !outgoing[i].IsCcs()
        ensures FullySent(RecordsOf(sent), outgoing[i].whole.value) && SentBody(sent, i) == outgoing[i].Body()
      {
        FlightIsFullySent(outgoing, sent, i);
        FlightPartitionsMessages(outgoing, sent, i);
      }
    }

    /** dtls1_flush_flight, without the retransmission timer. */
    method FlushFlight(noQuery: bool, queried: int) returns (ret: int, ghost packets: seq<seq<Sealed>>, ghost end: Ending)
      requires Valid()
      modifies this`outgoingMessagesComplete, this`mtu, this`wire, this`outgoingWritten, this`outgoingOffset,
               records`writeSequence, records`lastWriteSequence, records`sealedNumbers, records`wrapped
      ensures Valid() && outgoingMessagesComplete
      ensures wire == old(wire) + RecordsOf(Flat(packets)) && PacketsOk(outgoing, mtu, packets)
      ensures !end.SealFailed? ==> Chain(BodiesOf(outgoing), old(Pos()), PiecesOf(Flat(packets)), Pos())
      ensures end.Refused? ==> StartsAt(outgoing, mtu, end.packet, Pos())
      ensures end.Shutdown? <==> writeShutdown
      ensures if end.Done? then ret == 1 && Pos() == Position(|outgoing|, 0) else ret <= 0
      ensures end.Done? && old(Pos()) == Position(0, 0) ==> AllSent(Flat(packets))
      ensures records.ideal && !writeShutdown && AllSendable(mtu) ==> end.Done? || records.wrapped
    {
      hide QueueOk, Chain, CarriesPieces, LengthOf, BodiesOf, FullySent;
      outgoingMessagesComplete := true;
      ret, packets, end := SendFlight(noQuery, queried);
      if end.Done? && old(Pos()) == Position(0, 0) {
        CompletedFlight(Flat(packets));
      }
    }

    /** dtls1_retransmit_outgoing_messages: rewind to the start of the flight and write it again. When the
        transport accepts everything, the fragments sent make up every message of the flight. */
    method Retransmit(noQuery: bool, queried: int) returns (ret: int, ghost packets: seq<seq<Sealed>>, ghost end: Ending)
      requires Valid()
      modifies this`mtu, this`wire, this`outgoingWritten, this`outgoingOffset,
               records`writeSequence, records`lastWriteSequence, records`sealedNumbers, records`wrapped
      ensures Valid()
      ensures wire == old(wire) + RecordsOf(Flat(packets)) && PacketsOk(outgoing, mtu, packets)
      ensures !end.SealFailed? ==> Chain(BodiesOf(outgoing), Position(0, 0), PiecesOf(Flat(packets)), Pos())
      ensures end.Refused? ==> StartsAt(outgoing, mtu, end.packet, Pos())
      ensures end.Shutdown? <==> writeShutdown
      ensures if end.Done? then ret == 1 && Pos() == Position(|outgoing|, 0) else ret <= 0
      ensures end.Done? ==>
                && AllSent(Flat(packets))
                && forall i | 0 <= i < |outgoing| && !outgoing[i].IsCcs() :: SentBody(Flat(packets), i) == outgoing[i].Body()
      ensures records.ideal && !writeShutdown && AllSendable(mtu) ==> end.Done? || records.wrapped
    {
      hide QueueOk, Chain, CarriesPieces, LengthOf, BodiesOf, FullySent, SentBody;
      EndOfFlight(history, outgoing, wire, Pos());
      outgoingWritten, outgoingOffset := 0, 0;
      ret, packets, end := SendFlight(noQuery, queried);
      if end.Done? {
        CompletedFlight(Flat(packets));
      }
    }

    /** The part of dtls1_next_message that concerns the sender. */
    method NoteReply()
      requires Valid()
      modifies this`flightHasReply
      ensures Valid() && flightHasReply == (old(flightHasReply) || outgoingMessagesComplete)
    {
      if outgoingMessagesComplete {
        flightHasReply := true;
      }
    }

    /** dtls1_on_handshake_complete: the last flight is kept for retransmission unless it had a reply. */
    method OnHandshakeComplete()
      requires Valid()
      modifies this`outgoing, this`outgoingWritten, this`outgoingOffset, this`outgoingMessagesComplete, this`flightHasReply
      ensures Valid()
      ensures outgoing == if old(flightHasReply) then [] else old(outgoing)
      ensures !flightHasReply && outgoingMessagesComplete == (old(outgoingMessagesComplete) && !old(flightHasReply))
    {
      if flightHasReply {
        ClearOutgoing();
      }
    }
  }
}
