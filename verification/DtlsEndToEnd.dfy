/** DTLS handshake transport from end to end: whatever the network drops, repeats or reorders,
    the messages handed up are a prefix of the messages given to the sender. */
module DtlsEndToEnd {
  import opened Bytes
  import opened DtlsWire
  import opened DtlsReceiver

  const MAX_MESSAGES := 0xffff   // message numbers are 16 bits wide and must not be reused

  datatype Message = Message(msgType: Byte, body: seq<Byte>)

  datatype Record = Record(epoch: nat, contentType: ContentType, payload: seq<Byte>)

  /** A message handed up, and the read epochs its fragments were received in. */
  datatype Delivery = Delivery(msg: Message, epochs: set<nat>)

  // ---------- What an honest sender puts on the wire ----------

  /** `f` carries a slice of message number f.header.seqNum. */
  ghost predicate SliceOf(history: seq<Message>, f: Fragment) {
    var h := f.header;
    && h.seqNum < |history|
    && h.msgType == history[h.seqNum].msgType
    && h.msgLen == |history[h.seqNum].body|
    && h.fragOff + |f.body| <= h.msgLen
    && f.body == history[h.seqNum].body[h.fragOff..h.fragOff + |f.body|]
  }

  ghost predicate HonestPayload(history: seq<Message>, bytes: seq<Byte>)
    decreases |bytes|
  {
    |bytes| == 0
    || (Parse(bytes).Some? && SliceOf(history, Parse(bytes).value.0) && HonestPayload(history, Parse(bytes).value.1))
  }

  ghost predicate HonestRecord(history: seq<Message>, r: Record) {
    r.contentType == Handshake ==> HonestPayload(history, r.payload)
  }

  lemma CcsIsHonest(history: seq<Message>, epoch: nat)
    ensures HonestRecord(history, Record(epoch, ChangeCipherSpec, [CCS_BYTE]))
  {}

  lemma {:induction false} HonestPayloadExtends(history: seq<Message>, m: Message, bytes: seq<Byte>)
    requires HonestPayload(history, bytes)
    ensures HonestPayload(history + [m], bytes)
    decreases |bytes|
  {
    if |bytes| > 0 {
      HonestPayloadExtends(history, m, Parse(bytes).value.1);
    }
  }

  lemma HonestRecordExtends(history: seq<Message>, m: Message, r: Record)
    requires HonestRecord(history, r)
    ensures HonestRecord(history + [m], r)
  {
    if r.contentType == Handshake {
      HonestPayloadExtends(history, m, r.payload);
    }
  }

  lemma HonestRecordsExtend(history: seq<Message>, m: Message, wire: set<Record>)
    requires forall r <- wire :: HonestRecord(history, r)
    ensures forall r <- wire :: HonestRecord(history + [m], r)
  {
    forall r <- wire
      ensures HonestRecord(history + [m], r)
    {
      HonestRecordExtends(history, m, r);
    }
  }

  // ---------- The receiver against the sender's history ----------

  ghost predicate SlotAgrees(history: seq<Message>, p: Partial) {
    && p.seqNum < |history|
    && p.msgType == history[p.seqNum].msgType
    && p.msgLen == |p.body| == |history[p.seqNum].body|
    && (forall k <- p.received :: k < p.msgLen ==> p.body[k] == history[p.seqNum].body[k])
  }

  ghost predicate Agrees(history: seq<Message>, st: State) {
    && Wellformed(st)
    && (forall i | 0 <= i < MAX_FLIGHT && st.ring[i].Some? :: SlotAgrees(history, st.ring[i].value))
  }

  lemma MergeAgrees(history: seq<Message>, p: Partial, f: Fragment, epoch: nat)
    requires SliceOf(history, f) && SlotAgrees(history, p) && p.seqNum == f.header.seqNum
    ensures SlotAgrees(history, Merge(p, f.header.fragOff, f.body, epoch))
  {}

  lemma TakeFragmentAgrees(history: seq<Message>, st: State, f: Fragment, maxLen: nat)
    requires Agrees(history, st) && SliceOf(history, f) && f.header.seqNum < 0x1_0000
    ensures Agrees(history, TakeFragment(st, f, maxLen).st)
  {
    TakeFragmentWellformed(st, f, maxLen);
    var h := f.header;
    var idx := h.seqNum % MAX_FLIGHT;
    if TakeFragment(st, f, maxLen).Continue? && st.readSeq <= h.seqNum < st.readSeq + MAX_FLIGHT {
      var p := if st.ring[idx].Some? then st.ring[idx].value else NewPartial(h, st.rEpoch);
      MergeAgrees(history, p, f, st.rEpoch);
      var st' := TakeFragment(st, f, maxLen).st;
      assert forall i | 0 <= i < MAX_FLIGHT && i != idx :: st'.ring[i] == st.ring[i];
    }
  }

  lemma {:induction false} TakeFragmentsAgrees(history: seq<Message>, st: State, bytes: seq<Byte>, maxLen: nat)
    requires Agrees(history, st) && HonestPayload(history, bytes)
    ensures Agrees(history, TakeFragments(st, bytes, maxLen).st)
    decreases |bytes|
  {
    if |bytes| > 0 {
      var (f, rest) := Parse(bytes).value;
      TakeFragmentAgrees(history, st, f, maxLen);
      TakeFragmentWellformed(st, f, maxLen);
      if TakeFragment(st, f, maxLen).Continue? {
        TakeFragmentsAgrees(history, TakeFragment(st, f, maxLen).st, rest, maxLen);
      }
    }
  }

  // ---------- Runs ----------

  datatype World = World(history: seq<Message>, wire: set<Record>, recv: State, alive: bool, delivered: seq<Delivery>)

  /** The network may pick any record ever sent, any number of times and in any order. */
  datatype Event =
    | AddMessage(msg: Message)
    | Send(record: Record)
    | Receive(record: Record, maxLen: nat)
    | AwaitCcs(record: Record, maxLen: nat)
    | Get
    | Next
    | ChangeReadCipher

  const START := World([], {}, INITIAL, true, [])

  /** An event that cannot happen in `w` leaves it alone. */
  ghost function Apply(w: World, e: Event): World
    requires Wellformed(w.recv)
  {
    match e
    case AddMessage(m) =>
      if |w.history| < MAX_MESSAGES then w.(history := w.history + [m]) else w
    case Send(r) =>
      if HonestRecord(w.history, r) then w.(wire := w.wire + {r}) else w
    case Receive(r, maxLen) =>
      if !w.alive || r !in w.wire || r.epoch != w.recv.rEpoch then w
      else (
        match OpenHandshake(w.recv, r.contentType, r.payload, maxLen)
        case Accepted(st) => w.(recv := st)
        case Dropped(st) => w.(recv := st)
        case Failed(_, st) => w.(recv := st, alive := false))
    case AwaitCcs(r, maxLen) =>
      // A ChangeCipherSpec flagged before is consumed without a record.
      if !w.alive || (!w.recv.hasCcs && (r !in w.wire || r.epoch != w.recv.rEpoch)) then w
      else (
        match OpenChangeCipherSpec(w.recv, r.contentType, r.payload, maxLen)
        case Accepted(st) => w.(recv := st)
        case Dropped(st) => w.(recv := st)
        case Failed(_, st) => w.(recv := st, alive := false))
    case Get => w.(recv := GetMessage(w.recv).0)
    case Next =>
      if !w.recv.hasMessage then w
      else
        var p := Current(w.recv).value;
        w.(recv := NextMessage(w.recv), delivered := w.delivered + [Delivery(Message(p.msgType, p.body), p.epochs)])
    case ChangeReadCipher =>
      match SetReadState(w.recv)
      case Some(st) => w.(recv := st)
      case None => w.(alive := false)
  }

  ghost predicate SingleEpoch(d: Delivery) {
    exists e :: d.epochs == {e}
  }

  /** The inductive invariant: the receiver has delivered exactly the first readSeq messages. */
  ghost predicate Inv(w: World) {
    && |w.history| <= MAX_MESSAGES
    && (forall r <- w.wire :: HonestRecord(w.history, r))
    && Agrees(w.history, w.recv)
    && w.recv.readSeq == |w.delivered| <= |w.history|
    && (forall i | 0 <= i < |w.delivered| :: w.delivered[i].msg == w.history[i] && SingleEpoch(w.delivered[i]))
  }

  lemma NextKeepsInv(w: World)
    requires Inv(w) && w.recv.hasMessage
    ensures Inv(Apply(w, Next))
  {
    var p := Current(w.recv).value;
    NextMessageWellformed(w.recv);
    assert SlotAgrees(w.history, p) && SlotWellformed(w.recv, p);
    assert p.seqNum == w.recv.readSeq;
    assert forall k | 0 <= k < p.msgLen :: k in p.received;
    assert p.body == w.history[w.recv.readSeq].body;
    assert SingleEpoch(Delivery(Message(p.msgType, p.body), p.epochs));
    var st' := NextMessage(w.recv);
    forall i | 0 <= i < MAX_FLIGHT && st'.ring[i].Some?
      ensures SlotAgrees(w.history, st'.ring[i].value)
    {
      assert st'.ring[i] == w.recv.ring[i];
    }
  }

  lemma ReceiveKeepsInv(w: World, r: Record, maxLen: nat)
    requires Inv(w) && r in w.wire
    ensures Inv(Apply(w, Receive(r, maxLen)))
  {
    OpenHandshakeWellformed(w.recv, r.contentType, r.payload, maxLen);
    TakeFragmentsWellformed(w.recv, r.payload, maxLen);
    if r.contentType == Handshake {
      TakeFragmentsAgrees(w.history, w.recv, r.payload, maxLen);
    }
  }

  lemma AwaitKeepsInv(w: World, r: Record, maxLen: nat)
    requires Inv(w) && (r in w.wire || w.recv.hasCcs)
    ensures Inv(Apply(w, AwaitCcs(r, maxLen)))
  {
    OpenChangeCipherSpecWellformed(w.recv, r.contentType, r.payload, maxLen);
    if !w.recv.hasCcs {
      OpenHandshakeWellformed(w.recv, r.contentType, r.payload, maxLen);
      TakeFragmentsWellformed(w.recv, r.payload, maxLen);
      if r.contentType == Handshake {
        TakeFragmentsAgrees(w.history, w.recv, r.payload, maxLen);
      }
    }
  }

  lemma AddKeepsInv(w: World, m: Message)
    requires Inv(w)
    ensures Inv(Apply(w, AddMessage(m)))
  {
    HonestRecordsExtend(w.history, m, w.wire);
  }

  lemma StepKeepsInv(w: World, e: Event)
    requires Inv(w)
    ensures Inv(Apply(w, e))
  {
    match e
    case AddMessage(m) => AddKeepsInv(w, m);
    case Send(r) =>
    case Receive(r, maxLen) => if r in w.wire { ReceiveKeepsInv(w, r, maxLen); }
    case AwaitCcs(r, maxLen) => if r in w.wire || w.recv.hasCcs { AwaitKeepsInv(w, r, maxLen); }
    case Get => GetMessageWellformed(w.recv);
    case Next => if w.recv.hasMessage { NextKeepsInv(w); }
    case ChangeReadCipher => SetReadStateWellformed(w.recv);
  }

  ghost function Run(w: World, events: seq<Event>): World
    requires Inv(w)
    decreases |events|
  {
    if |events| == 0 then w
    else
      StepKeepsInv(w, events[0]);
      Run(Apply(w, events[0]), events[1..])
  }

  lemma {:induction false} RunKeepsInv(w: World, events: seq<Event>)
    requires Inv(w)
    ensures Inv(Run(w, events))
    decreases |events|
  {
    if |events| > 0 {
      StepKeepsInv(w, events[0]);
      RunKeepsInv(Apply(w, events[0]), events[1..]);
    }
  }

  lemma StartInv()
    ensures Inv(START)
  {}

  function Messages(ds: seq<Delivery>): (ms: seq<Message>)
    ensures |ms| == |ds| && forall i | 0 <= i < |ds| :: ms[i] == ds[i].msg
  {
    if |ds| == 0 then [] else Messages(ds[..|ds| - 1]) + [ds[|ds| - 1].msg]
  }

  /** After any events whatsoever, the messages handed up are a prefix of the messages added, in
      order and unaltered, and each was assembled from fragments of a single read epoch. */
  lemma DeliveredIsPrefixOfSent(events: seq<Event>)
    ensures Inv(START)
    ensures var w := Run(START, events);
            && Messages(w.delivered) <= w.history
            && forall i | 0 <= i < |w.delivered| :: SingleEpoch(w.delivered[i])
  {
    StartInv();
    RunKeepsInv(START, events);
  }

  /** Once a ChangeCipherSpec has arrived, it is consumed and the read epoch moves on, unless the ring
      holds something besides the message handed up. */
  lemma EpochAdvances(w: World, r: Record, maxLen: nat)
    requires Inv(w) && w.alive && w.recv.hasCcs
    ensures var z := Run(w, [AwaitCcs(r, maxLen), ChangeReadCipher]);
            && (z.alive <==> forall i | 0 <= i < MAX_FLIGHT && w.recv.ring[i].Some? ::
                  w.recv.hasMessage && i == w.recv.readSeq % MAX_FLIGHT)
            && (z.alive ==> z.recv.rEpoch == (w.recv.rEpoch + 1) % 0x1_0000 && !z.recv.hasCcs)
  {
    var first := Apply(w, AwaitCcs(r, maxLen));
    RunOne(w, AwaitCcs(r, maxLen));
    RunOne(first, ChangeReadCipher);
    assert [AwaitCcs(r, maxLen), ChangeReadCipher] == [AwaitCcs(r, maxLen)] + [ChangeReadCipher];
    RunAppend(w, [AwaitCcs(r, maxLen)], [ChangeReadCipher]);
    assert first == w.(recv := w.recv.(hasCcs := false));
  }

  lemma {:induction false} RunAppend(w: World, a: seq<Event>, b: seq<Event>)
    requires Inv(w)
    ensures Inv(Run(w, a)) && Run(w, a + b) == Run(Run(w, a), b)
    decreases |a|
  {
    RunKeepsInv(w, a);
    if |a| == 0 {
      assert a + b == b;
    } else {
      StepKeepsInv(w, a[0]);
      RunAppend(Apply(w, a[0]), a[1..], b);
      assert (a + b)[1..] == a[1..] + b;
    }
  }

  lemma RunOne(w: World, e: Event)
    requires Inv(w)
    ensures Run(w, [e]) == Apply(w, e) && Inv(Apply(w, e))
  {
    StepKeepsInv(w, e);
    assert [e][1..] == [];
  }

  /** The encrypted epoch is reached by a run that receives a ChangeCipherSpec. */
  lemma EncryptedEpochIsReached()
    ensures Inv(START)
    ensures exists events :: Run(START, events).alive && Run(START, events).recv.rEpoch == 1
  {
    StartInv();
    var ccs := Record(0, ChangeCipherSpec, [CCS_BYTE]);
    var arrival := [Send(ccs)] + [Receive(ccs, 0)];
    var sent := START.(wire := {ccs});
    assert Apply(START, Send(ccs)) == sent;
    StepKeepsInv(START, Send(ccs));
    assert Apply(sent, Receive(ccs, 0)) == sent.(recv := INITIAL.(hasCcs := true));
    RunOne(START, Send(ccs));
    RunOne(sent, Receive(ccs, 0));
    RunAppend(START, [Send(ccs)], [Receive(ccs, 0)]);
    var w := Run(START, arrival);
    RunAppend(START, arrival, [AwaitCcs(ccs, 0), ChangeReadCipher]);
    EpochAdvances(w, ccs, 0);
  }

  // ---------- What becomes of any record ----------

  /** How often the read cipher has changed. */
  ghost function Changes(w: World, events: seq<Event>): nat
    requires Inv(w)
    decreases |events|
  {
    if events == [] then 0
    else
      StepKeepsInv(w, events[0]);
      (if events[0].ChangeReadCipher? && SetReadState(w.recv).Some? then 1 else 0) + Changes(Apply(w, events[0]), events[1..])
  }

  lemma OpeningKeepsEpoch(st: State, contentType: ContentType, payload: seq<Byte>, maxLen: nat)
    requires Wellformed(st)
    ensures var h, c := OpenHandshake(st, contentType, payload, maxLen).st, OpenChangeCipherSpec(st, contentType, payload, maxLen).st;
            h.rEpoch == c.rEpoch == st.rEpoch && h.nullCipher == c.nullCipher == st.nullCipher
  {
    TakeFragmentsWellformed(st, payload, maxLen);
    hide Wellformed, TakeFragments;
  }

  /** Only a change of the read cipher changes epoch and cipher. */
  lemma EventKeepsEpoch(w: World, e: Event)
    requires Inv(w) && !(e.ChangeReadCipher? && SetReadState(w.recv).Some?)
    ensures Apply(w, e).recv.rEpoch == w.recv.rEpoch && Apply(w, e).recv.nullCipher == w.recv.nullCipher
  {
    match e
    case Receive(r, maxLen) =>
      OpeningKeepsEpoch(w.recv, r.contentType, r.payload, maxLen);
      hide OpenHandshake;
    case AwaitCcs(r, maxLen) =>
      OpeningKeepsEpoch(w.recv, r.contentType, r.payload, maxLen);
      hide OpenChangeCipherSpec;
    case _ =>
  }

  /** The read epoch counts the changes, in 16 bits, and records are read in the clear exactly until the first. */
  lemma {:induction false} EpochCountsChanges(w: World, events: seq<Event>, before: nat)
    requires Inv(w) && w.recv.rEpoch == before % 0x1_0000 && (w.recv.nullCipher <==> before == 0)
    ensures var n, recv := before + Changes(w, events), Run(w, events).recv;
            recv.rEpoch == n % 0x1_0000 && (recv.nullCipher <==> n == 0)
    decreases |events|
  {
    if events != [] {
      var e := events[0];
      StepKeepsInv(w, e);
      if !(e.ChangeReadCipher? && SetReadState(w.recv).Some?) {
        EventKeepsEpoch(w, e);
        hide Apply, Inv;
        EpochCountsChanges(Apply(w, e), events[1..], before);
      } else {
        EpochCountsChanges(Apply(w, e), events[1..], before + 1);
      }
    }
  }

  /** What a record that arrives in its epoch does to a connection, by its type and by whether the read cipher has
      changed yet: application data is dropped once it has and fatal before; a ChangeCipherSpec is flagged
      before, if it is well formed, and fatal after; handshake data is fatal exactly when some fragment
      of it is not to be expected; and everything else is fatal. */
  lemma FateOfRecord(w: World, events: seq<Event>, r: Record, maxLen: nat)
    requires Inv(w) && w.recv.rEpoch == 0 && w.recv.nullCipher
    requires Run(w, events).alive && r in Run(w, events).wire && r.epoch == Run(w, events).recv.rEpoch
    ensures var v, changed := Run(w, events), Changes(w, events) > 0;
            Inv(v) &&
            var next := Apply(v, Receive(r, maxLen));
            match r.contentType
            case ApplicationData => next == if changed then v else v.(alive := false)
            case ChangeCipherSpec =>
              next == if !changed && r.payload == [1] then v.(recv := v.recv.(hasCcs := true)) else v.(alive := false)
            case Handshake =>
              next.alive <==> forall f <- Fragments(r.payload).0 :: Expected(v.history, v.recv, f, maxLen)
            case Other => next == v.(alive := false)
  {
    RunKeepsInv(w, events);
    EpochCountsChanges(w, events, 0);
    var v := Run(w, events);
    if r.contentType == Handshake {
      FateOfFragments(v.history, v.recv, r.payload, maxLen);
    }
    hide Run, TakeFragments, Expected;
  }

  lemma {:induction false} FateOfFragments(history: seq<Message>, st: State, bytes: seq<Byte>, maxLen: nat)
    requires Agrees(history, st) && HonestPayload(history, bytes)
    ensures TakeFragments(st, bytes, maxLen).Continue? <==> forall f <- Fragments(bytes).0 :: Expected(history, st, f, maxLen)
    decreases |bytes|
  {
    if bytes != [] {
      var (f, rest) := Parse(bytes).value;
      var all := Fragments(bytes).0;
      assert all[0] == f && all[1..] == Fragments(rest).0;
      assert forall g :: g in all <==> g == f || g in Fragments(rest).0;
      OthersAreFatal(history, st, f, maxLen);
      TakeFragmentWellformed(st, f, maxLen);
      if Expected(history, st, f, maxLen) {
        TakeFragmentAgrees(history, st, f, maxLen);
        var st' := TakeFragment(st, f, maxLen).st;
        FateOfFragments(history, st', rest, maxLen);
        assert forall g :: Expected(history, st', g, maxLen) <==> Expected(history, st, g, maxLen);
      }
    }
  }

  /** Waiting for a ChangeCipherSpec is receiving a record and, if that left one flagged, consuming it; one
      flagged before is consumed without a record. */
  lemma AwaitIsReceive(w: World, r: Record, maxLen: nat)
    requires Inv(w) && w.alive
    ensures Apply(w, AwaitCcs(r, maxLen))
            == if w.recv.hasCcs then w.(recv := w.recv.(hasCcs := false))
               else
                 var v := Apply(w, Receive(r, maxLen));
                 if v.alive then v.(recv := v.recv.(hasCcs := false)) else v
  {
    OpenKeepsFlag(w.recv, r.contentType, r.payload, maxLen);
    hide OpenHandshake, Wellformed;
  }

  lemma OpenKeepsFlag(st: State, contentType: ContentType, payload: seq<Byte>, maxLen: nat)
    requires Wellformed(st)
    ensures var o := OpenHandshake(st, contentType, payload, maxLen);
            (o.Accepted? ==> o.st.hasCcs == (st.hasCcs || contentType == ChangeCipherSpec)) && (!o.Accepted? ==> o.st.hasCcs == st.hasCcs)
  {
    TakeFragmentsWellformed(st, payload, maxLen);
    hide Wellformed, TakeFragments;
  }

  // ---------- Nothing is missing once every piece has arrived ----------

  /** A fragment of any message but the seventh after the next; in the first encrypted epoch, of the next. */
  ghost predicate Expected(history: seq<Message>, st: State, f: Fragment, maxLen: nat) {
    && SliceOf(history, f) && f.header.msgLen <= maxLen && f.header.seqNum < 0x1_0000
    && if st.rEpoch == 1 then f.header.seqNum == st.readSeq else f.header.seqNum != st.readSeq + MAX_FLIGHT
  }

  /** Slot by slot, everything present in `st` is still present in `st'`. */
  ghost predicate Grows(st: State, st': State)
    requires |st.ring| == |st'.ring| == MAX_FLIGHT
  {
    && st' == st.(ring := st'.ring)
    && forall i | 0 <= i < MAX_FLIGHT && st.ring[i].Some? ::
         st'.ring[i].Some? && st.ring[i].value.received <= st'.ring[i].value.received
  }

  ghost predicate Holds(st: State, f: Fragment)
    requires |st.ring| == MAX_FLIGHT
  {
    var slot := st.ring[f.header.seqNum % MAX_FLIGHT];
    slot.Some? && Range(f.header.fragOff, f.header.fragOff + |f.body|) <= slot.value.received
  }

  /** An occupied slot has the type and length that the fragment announces. */
  lemma CurrentSlotAgrees(history: seq<Message>, st: State, f: Fragment)
    requires Agrees(history, st) && SliceOf(history, f)
    requires InWindow(st, f)
    ensures |st.ring| == MAX_FLIGHT
    ensures var slot := st.ring[f.header.seqNum % MAX_FLIGHT];
            slot.Some? ==> slot.value.seqNum == f.header.seqNum && slot.value.msgType == f.header.msgType
                           && slot.value.msgLen == f.header.msgLen
  {}

  /** An expected fragment never fails the connection. It is kept if it lies in the window and ignored if not. */
  lemma ExpectedFragmentIsTaken(history: seq<Message>, st: State, f: Fragment, maxLen: nat)
    requires Agrees(history, st) && Expected(history, st, f, maxLen)
    ensures TakeFragment(st, f, maxLen).Continue?
    ensures var st' := TakeFragment(st, f, maxLen).st;
            Agrees(history, st') && Grows(st, st') && if InWindow(st, f) then Holds(st', f) else st' == st
  {
    TakeFragmentAgrees(history, st, f, maxLen);
    if InWindow(st, f) {
      CurrentSlotAgrees(history, st, f);
    }
    hide SlotAgrees, Agrees, Wellformed;
  }

  /** And no other honest fragment is tolerated. */
  lemma OthersAreFatal(history: seq<Message>, st: State, f: Fragment, maxLen: nat)
    requires Agrees(history, st) && SliceOf(history, f) && f.header.seqNum < 0x1_0000
    ensures TakeFragment(st, f, maxLen).Continue? <==> Expected(history, st, f, maxLen)
  {
    if Expected(history, st, f, maxLen) {
      ExpectedFragmentIsTaken(history, st, f, maxLen);
    }
    hide Agrees, Wellformed;
  }

  /** Take in expected fragments one after the other. Whatever their order, and however often they
      are repeated, none fails the connection and all are present in the end. */
  ghost function TakeAll(history: seq<Message>, st: State, fs: seq<Fragment>, maxLen: nat): (r: State)
    requires Agrees(history, st)
    requires forall f <- fs :: Expected(history, st, f, maxLen)
    ensures Agrees(history, r) && Grows(st, r)
    ensures forall f <- fs :: InWindow(st, f) ==> Holds(r, f)
    decreases |fs|
  {
    if |fs| == 0 then st
    else
      var f := fs[|fs| - 1];
      assert Expected(history, st, f, maxLen);
      var mid := TakeAll(history, st, fs[..|fs| - 1], maxLen);
      ExpectedFragmentIsTaken(history, mid, f, maxLen);
      var last := TakeFragment(mid, f, maxLen).st;
      assert forall g <- fs :: g == f || g in fs[..|fs| - 1];
      last
  }

  predicate Covers(f: Fragment, seqNum: nat, k: nat) {
    f.header.seqNum == seqNum && f.header.fragOff <= k < f.header.fragOff + |f.body|
  }

  ghost predicate Covered(fs: seq<Fragment>, seqNum: nat, k: nat) {
    exists f <- fs :: Covers(f, seqNum, k)
  }

  /** If between them the fragments that arrive cover the message the receiver waits for, then that
      message is complete and GetMessage hands up exactly what was sent. */
  lemma CoveredMessageIsDelivered(history: seq<Message>, st: State, fs: seq<Fragment>, maxLen: nat)
    requires Agrees(history, st) && st.readSeq < |history|
    requires forall f <- fs :: Expected(history, st, f, maxLen)
    requires exists f <- fs :: f.header.seqNum == st.readSeq
    requires forall k | 0 <= k < |history[st.readSeq].body| :: Covered(fs, st.readSeq, k)
    ensures var got := GetMessage(TakeAll(history, st, fs, maxLen)).1;
            got.Some? && Message(got.value.msgType, got.value.body) == history[st.readSeq]
  {
    var st' := TakeAll(history, st, fs, maxLen);
    var g :| g in fs && g.header.seqNum == st.readSeq;
    assert Holds(st', g);
    var p := Current(st').value;
    assert p.msgLen == |history[st.readSeq].body| by {
      CurrentSlot(history, st');
    }
    hide Agrees, Expected, Grows;
    forall k: nat | k in Range(0, p.msgLen)
      ensures k in p.received
    {
      assert Covered(fs, st.readSeq, k);
      var f :| f in fs && Covers(f, st.readSeq, k);
      assert Holds(st', f) && k in Range(f.header.fragOff, f.header.fragOff + |f.body|);
    }
    CurrentSlot(history, st');
  }

  lemma CurrentSlot(history: seq<Message>, st: State)
    requires Agrees(history, st) && Current(st).Some?
    ensures var p := Current(st).value;
            && p.seqNum == st.readSeq < |history|
            && p.msgLen == |history[st.readSeq].body|
            && (Range(0, p.msgLen) <= p.received ==> p.Complete() && Message(p.msgType, p.body) == history[st.readSeq])
  {
    var p := Current(st).value;
    assert SlotWellformed(st, p) && SlotAgrees(history, p);
  }
}
