/** The sender of DtlsSender at one end and the receiver of DtlsEndToEnd at the other: what the sender's own
    flights and retransmissions put on the wire is what the network of a run has to deal with. */
module DtlsConnection {
  import opened Bytes
  import opened DtlsRecordWriter
  import opened DtlsSender
  import E = DtlsEndToEnd

  /** What the sender's handshake asks of it. */
  datatype Order =
    | Add(msgType: Byte, body: seq<Byte>)
    | AddChangeCipherSpec
    | ChangeWriteCipher(aead: Aead)
    | Flush
    | Resend
    | TakeReply
    | Complete

  predicate Usable(order: Order) {
    order.ChangeWriteCipher? ==> order.aead.nonceLen <= order.aead.maxOverhead
  }

  /** The network and the receiver: everything but the sender's part. */
  predicate IsRemote(e: E.Event) {
    !e.AddMessage? && !e.Send?
  }

  /** The world knows the sender's messages and exactly the records its transport accepted. */
  ghost predicate Follows(w: E.World, history: seq<E.Message>, wire: seq<E.Record>) {
    E.Inv(w) && w.history == history && forall r :: r in w.wire <==> r in wire
  }

  function Sends(records: seq<E.Record>): seq<E.Event> {
    if records == [] then [] else [E.Send(records[0])] + Sends(records[1..])
  }

  lemma SendIsMade(w: E.World, wire: seq<E.Record>, r: E.Record)
    requires Follows(w, w.history, wire) && E.HonestRecord(w.history, r)
    ensures var next := E.Apply(w, E.Send(r));
            next.history == w.history && Follows(next, w.history, wire + [r])
  {
    hide E.HonestRecord, E.SlotAgrees;
  }

  /** Honest records get onto the wire. */
  lemma {:induction false} SendsAreMade(w: E.World, wire: seq<E.Record>, records: seq<E.Record>)
    requires Follows(w, w.history, wire) && forall r <- records :: E.HonestRecord(w.history, r)
    ensures Follows(E.Run(w, Sends(records)), w.history, wire + records)
    decreases |records|
  {
    hide E.HonestRecord, E.SlotAgrees, E.Apply;
    if records == [] {
      assert wire + records == wire;
    } else {
      SendIsMade(w, wire, records[0]);
      SendsAreMade(E.Apply(w, E.Send(records[0])), wire + [records[0]], records[1..]);
      assert wire + records == (wire + [records[0]]) + records[1..];
      assert Sends(records)[1..] == Sends(records[1..]);
    }
  }

  lemma MessageIsAdded(w: E.World, wire: seq<E.Record>, m: E.Message)
    requires Follows(w, w.history, wire) && |w.history| < E.MAX_MESSAGES
    ensures Follows(E.Run(w, [E.AddMessage(m)]), w.history + [m], wire)
  {
    E.RunOne(w, E.AddMessage(m));
    E.StepKeepsInv(w, E.AddMessage(m));
  }

  lemma NothingHappens(w: E.World)
    requires E.Inv(w)
    ensures E.Run(w, []) == w
  {}

  /** The network can lose, repeat and delay, but it adds nothing. */
  lemma RemoteStep(w: E.World, wire: seq<E.Record>, e: E.Event)
    requires Follows(w, w.history, wire) && IsRemote(e)
    ensures var next := E.Apply(w, e);
            next.history == w.history && Follows(next, w.history, wire)
  {
    E.StepKeepsInv(w, e);
    hide E.HonestRecord, E.SlotAgrees;
  }

  lemma {:induction false} RemoteAddsNothing(w: E.World, wire: seq<E.Record>, events: seq<E.Event>)
    requires Follows(w, w.history, wire) && forall e <- events :: IsRemote(e)
    ensures Follows(E.Run(w, events), w.history, wire)
    decreases |events|
  {
    hide E.SlotAgrees, E.Apply, E.HonestRecord;
    if events != [] {
      RemoteStep(w, wire, events[0]);
      RemoteAddsNothing(E.Apply(w, events[0]), wire, events[1..]);
    }
  }

  /** What the sender has sent is honest, so the world can follow. */
  lemma FlightIsSent(w: E.World, history: seq<E.Message>, flight: seq<Outgoing>, before: seq<E.Record>, sent: seq<E.Record>, pos: Position)
    requires QueueOk(history, flight, before + sent, pos) && |history| <= E.MAX_MESSAGES && Follows(w, history, before)
    ensures Follows(E.Run(w, Sends(sent)), history, before + sent)
  {
    forall r | r in sent
      ensures E.HonestRecord(w.history, r)
    {
      assert r in before + sent;
    }
    hide *;
    FollowsHistory(w, history, before);
    SendsAreMade(w, before, sent);
  }

  lemma FollowsHistory(w: E.World, history: seq<E.Message>, wire: seq<E.Record>)
    requires Follows(w, history, wire)
    ensures w.history == history && E.Inv(w)
  {}

  // ---------- The sender's books ----------

  /** The messages taken so far, how many wait in the flight, whether it has been flushed, and replied to. */
  datatype Ledger = Ledger(history: seq<E.Message>, queued: nat, flushed: bool, replied: bool)

  const NEW_LEDGER := Ledger([], 0, false, false)

  /** A flight takes seven messages; one that has been flushed is over. */
  function Queued(l: Ledger, m: seq<E.Message>): Ledger {
    var open := if l.flushed then Ledger(l.history, 0, false, false) else l;
    if open.queued >= 7 then open else open.(history := open.history + m, queued := open.queued + 1)
  }

  function Booked(l: Ledger, order: Order): Ledger {
    match order
    case Add(msgType, body) => if |body| >= 0x100_0000 then l else Queued(l, [E.Message(msgType, body)])
    case AddChangeCipherSpec => Queued(l, [])
    case Flush => l.(flushed := true)
    case TakeReply => l.(replied := l.replied || l.flushed)
    case Complete => if l.replied then Ledger(l.history, 0, false, false) else l
    case _ => l
  }

  function AllBooked(orders: seq<Order>, n: nat): Ledger
    requires n <= |orders|
  {
    if n == 0 then NEW_LEDGER else Booked(AllBooked(orders, n - 1), orders[n - 1])
  }

  ghost predicate Keeps(s: Sender, l: Ledger)
    reads s
  {
    s.history == l.history && |s.outgoing| == l.queued && s.outgoingMessagesComplete == l.flushed && s.flightHasReply == l.replied
  }

  lemma LedgerOf(s: Sender, l: Ledger)
    ensures Keeps(s, l) <==> l == Ledger(s.history, |s.outgoing|, s.outgoingMessagesComplete, s.flightHasReply)
  {}

  lemma AddBooked(l: Ledger, msgType: Byte, body: seq<Byte>)
    ensures MAX_FLIGHT == 7
    ensures var m := if l.flushed then Ledger(l.history, 0, false, false) else l;
            Booked(l, Add(msgType, body))
            == if |body| >= 0x100_0000 then l
               else if m.queued >= 7 then m
               else Ledger(m.history + [E.Message(msgType, body)], m.queued + 1, m.flushed, m.replied)
  {}

  lemma CcsBooked(l: Ledger)
    ensures MAX_FLIGHT == 7
    ensures var m := if l.flushed then Ledger(l.history, 0, false, false) else l;
            Booked(l, AddChangeCipherSpec) == if m.queued >= 7 then m else m.(queued := m.queued + 1)
  {
    assert l.history + [] == l.history;
  }

  lemma OthersBooked(l: Ledger, order: Order)
    ensures order.ChangeWriteCipher? || order.Resend? ==> Booked(l, order) == l
    ensures order.Flush? ==> Booked(l, order) == l.(flushed := true)
    ensures order.TakeReply? ==> Booked(l, order) == l.(replied := l.replied || l.flushed)
    ensures order.Complete? ==> Booked(l, order) == if l.replied then Ledger(l.history, 0, false, false) else l
  {}

  /** Nothing keeps the sender from sending its flight. */
  ghost predicate Unhindered(s: Sender)
    reads s, s.records
  {
    s.records.ideal && !s.writeShutdown && s.AllSendable(s.mtu) && !s.records.wrapped
  }

  /** The records hold every message of the flight in full. */
  ghost predicate FlightIn(s: Sender, records: seq<E.Record>)
    reads s
  {
    forall m <- s.outgoing :: !m.IsCcs() ==> FullySent(records, m.whole.value)
  }

  lemma FlightWasSent(s: Sender, sent: seq<Sealed>)
    requires s.AllSent(sent)
    ensures FlightIn(s, RecordsOf(sent))
  {
    hide FullySent;
  }

  lemma HinderedOrDone(s: Sender, end: Ending)
    requires s.records.ideal && !s.writeShutdown && s.AllSendable(s.mtu) ==> end.Done? || s.records.wrapped
    ensures Unhindered(s) ==> end.Done?
  {}

  /** Adding to the flight. */
  method Queues(s: Sender, order: Order, ghost w: E.World, ghost l: Ledger) returns (ghost events: seq<E.Event>)
    requires s.Valid() && Keeps(s, l) && (order.Add? || order.AddChangeCipherSpec?)
    requires |s.history| <= E.MAX_MESSAGES ==> Follows(w, s.history, s.wire)
    modifies s
    ensures s.Valid() && old(s.history) <= s.history && Keeps(s, Booked(l, order)) && s.wire == old(s.wire)
    ensures |s.history| <= E.MAX_MESSAGES ==> E.Inv(w) && Follows(E.Run(w, events), s.history, s.wire)
  {
    hide *;
    ghost var history, wire := s.history, s.wire;
    LedgerOf(s, l);
    if |history| <= E.MAX_MESSAGES {
      FollowsHistory(w, history, wire);
      NothingHappens(w);
    }
    events := [];
    match order
    case Add(msgType, body) =>
      AddBooked(l, msgType, body);
      var ok := s.AddMessage(msgType, body);
      if ok {
        events := [E.AddMessage(E.Message(msgType, body))];
        if |s.history| <= E.MAX_MESSAGES {
          MessageIsAdded(w, wire, E.Message(msgType, body));
        }
      }
      LedgerOf(s, Booked(l, order));
    case AddChangeCipherSpec =>
      CcsBooked(l);
      var _ := s.AddOutgoing(None);
      LedgerOf(s, Booked(l, order));
  }

  /** Sending the flight, or sending it again. */
  method Writes(s: Sender, again: bool, ghost w: E.World, ghost l: Ledger) returns (ghost events: seq<E.Event>)
    requires s.Valid() && Keeps(s, l)
    requires |s.history| <= E.MAX_MESSAGES ==> Follows(w, s.history, s.wire)
    modifies s, s.records
    ensures s.Valid() && s.history == old(s.history) && Keeps(s, Booked(l, if again then Resend else Flush))
    ensures Unhindered(s) ==> s.Pos() == Position(|s.outgoing|, 0)
    ensures old(s.wire) <= s.wire && (again && Unhindered(s) ==> FlightIn(s, s.wire[|old(s.wire)|..]))
    ensures |s.history| <= E.MAX_MESSAGES ==> E.Inv(w) && Follows(E.Run(w, events), s.history, s.wire)
  {
    hide *;
    ghost var history, wire := s.history, s.wire;
    LedgerOf(s, l);
    OthersBooked(l, if again then Resend else Flush);
    var noQuery: bool, queried: int := *, *;
    ghost var packets: seq<seq<Sealed>>, end: Ending;
    var ret: int;
    if again {
      ret, packets, end := s.Retransmit(noQuery, queried);
      if end.Done? {
        FlightWasSent(s, Flat(packets));
      }
    } else {
      ret, packets, end := s.FlushFlight(noQuery, queried);
    }
    HinderedOrDone(s, end);
    LedgerOf(s, Booked(l, if again then Resend else Flush));
    assert s.wire[|wire|..] == RecordsOf(Flat(packets));
    events := Sends(RecordsOf(Flat(packets)));
    if |history| <= E.MAX_MESSAGES {
      FollowsHistory(w, history, wire);
      SenderQueue(s);
      FlightIsSent(w, history, s.outgoing, wire, RecordsOf(Flat(packets)), s.Pos());
    }
  }

  /** The sender carries out one order, and the world takes note. The books are kept whatever the transport does;
      when it takes everything, a flight is sent to its end, and again in full. */
  method Serve(s: Sender, order: Order, ghost w: E.World, ghost l: Ledger) returns (ghost events: seq<E.Event>)
    requires s.Valid() && Usable(order) && Keeps(s, l)
    requires |s.history| <= E.MAX_MESSAGES ==> Follows(w, s.history, s.wire)
    modifies s, s.records
    ensures s.Valid() && old(s.history) <= s.history && Keeps(s, Booked(l, order))
    ensures order.ChangeWriteCipher? ==> s.records.wEpoch == (old(s.records.wEpoch) + 1) % 0x1_0000 && s.records.aead == order.aead
    ensures (order.Flush? || order.Resend?) && Unhindered(s) ==> s.Pos() == Position(|s.outgoing|, 0)
    ensures old(s.wire) <= s.wire && (order.Resend? && Unhindered(s) ==> FlightIn(s, s.wire[|old(s.wire)|..]))
    ensures |s.history| <= E.MAX_MESSAGES ==> E.Inv(w) && Follows(E.Run(w, events), s.history, s.wire)
  {
    assert order.ChangeWriteCipher? ==> order.aead.nonceLen <= order.aead.maxOverhead;
    hide *;
    if order.Add? || order.AddChangeCipherSpec? {
      events := Queues(s, order, w, l);
    } else if order.Flush? || order.Resend? {
      events := Writes(s, order.Resend?, w, l);
    } else {
      LedgerOf(s, l);
      OthersBooked(l, order);
      if |s.history| <= E.MAX_MESSAGES {
        FollowsHistory(w, s.history, s.wire);
        NothingHappens(w);
      }
      events := [];
      match order {
        case ChangeWriteCipher(aead) =>
          ChangesCipher(s, aead);
        case TakeReply =>
          s.NoteReply();
        case Complete =>
          s.OnHandshakeComplete();
      }
      LedgerOf(s, Booked(l, order));
    }
  }

  method ChangesCipher(s: Sender, aead: Aead)
    requires s.Valid() && aead.nonceLen <= aead.maxOverhead
    modifies s.records
    ensures s.Valid() && s.records.wEpoch == (old(s.records.wEpoch) + 1) % 0x1_0000 && s.records.aead == aead
  {
    s.records.SetWriteState(aead);
  }

  lemma SenderQueue(s: Sender)
    requires s.Valid()
    ensures QueueOk(s.history, s.outgoing, s.wire, s.Pos())
  {
    hide QueueOk;
  }

  /** A sender that carries out any orders, with anything a network that does not forge, and the receiver behind
      it, may do in between. What has been handed up in the end is a prefix of the messages the sender took,
      each assembled within one epoch, and the network carried exactly the records of the sender's packets. */
  method Converse(orders: seq<Order>, remote: seq<seq<E.Event>>, ideal: bool, aead: Aead) returns (s: Sender, ghost w: E.World)
    requires aead.nonceLen <= aead.maxOverhead && |orders| == |remote|
    requires forall order <- orders :: Usable(order)
    requires forall i, j | 0 <= i < |remote| && 0 <= j < |remote[i]| :: IsRemote(remote[i][j])
    ensures s.Valid() && Keeps(s, AllBooked(orders, |orders|))
    ensures |s.history| <= E.MAX_MESSAGES ==>
              && w.history == s.history && (forall r :: r in w.wire <==> r in s.wire)
              && E.Messages(w.delivered) <= s.history
              && forall i | 0 <= i < |w.delivered| :: E.SingleEpoch(w.delivered[i])
  {
    hide *;
    s := new Sender(ideal, aead);
    w := E.START;
    ghost var events: seq<E.Event> := [];
    StartFollows();
    NothingBooked(s, orders);
    for i := 0 to |orders|
      invariant s.Valid() && fresh(s) && fresh(s.records) && Keeps(s, AllBooked(orders, i))
      invariant |s.history| <= E.MAX_MESSAGES ==> E.Inv(E.START) && w == E.Run(E.START, events) && Follows(w, s.history, s.wire)
    {
      ghost var more := Serve(s, orders[i], w, AllBooked(orders, i));
      NextBooked(orders, i);
      if |s.history| <= E.MAX_MESSAGES {
        E.RunAppend(E.START, events, more);
        ghost var after := E.Run(w, more);
        FollowsHistory(after, s.history, s.wire);
        RemoteAddsNothing(after, s.wire, remote[i]);
        E.RunAppend(E.START, events + more, remote[i]);
        w := E.Run(after, remote[i]);
        events := events + more + remote[i];
      }
    }
    if |s.history| <= E.MAX_MESSAGES {
      FollowsExactly(w, s.history, s.wire);
      E.DeliveredIsPrefixOfSent(events);
    }
  }

  lemma NothingBooked(s: Sender, orders: seq<Order>)
    requires s.history == [] && s.outgoing == [] && !s.outgoingMessagesComplete && !s.flightHasReply
    ensures Keeps(s, AllBooked(orders, 0))
  {}

  lemma NextBooked(orders: seq<Order>, i: nat)
    requires i < |orders|
    ensures AllBooked(orders, i + 1) == Booked(AllBooked(orders, i), orders[i])
  {}

  lemma StartFollows()
    ensures E.Inv(E.START) && E.Run(E.START, []) == E.START && Follows(E.START, [], [])
  {
    E.StartInv();
  }

  lemma FollowsExactly(w: E.World, history: seq<E.Message>, wire: seq<E.Record>)
    requires Follows(w, history, wire)
    ensures w.history == history && forall r :: r in w.wire <==> r in wire
  {}
}
