/** The receive side of the DTLS handshake: a seven-slot ring of partly assembled messages,
    delivered in sequence order (sections 4.2.2 to 4.2.4 of RFC 6347). */
module DtlsReceiver {
  import opened Bytes
  import opened DtlsWire

  const MAX_FLIGHT := 7   // SSL_MAX_HANDSHAKE_FLIGHT
  const CCS_BYTE: Byte := 1

  datatype Alert = InternalError | IllegalParameter | UnexpectedMessage | DecodeError

  datatype ContentType = ApplicationData | ChangeCipherSpec | Handshake | Other

  /** An incoming message: which body positions have arrived, and in which read epochs. */
  datatype Partial = Partial(msgType: Byte, seqNum: nat, msgLen: nat, body: seq<Byte>,
                             received: set<nat>, epochs: set<nat>)
  {
    predicate Complete() {
      received == Range(0, msgLen)
    }
  }

  datatype State = State(readSeq: nat, ring: seq<Option<Partial>>, hasMessage: bool, hasCcs: bool,
                         rEpoch: nat, nullCipher: bool)

  const INITIAL := State(0, [None, None, None, None, None, None, None], false, false, 0, true)

  /** A fatal outcome leaves behind what came before the offending fragment. */
  datatype Outcome = Continue(st: State) | Fatal(alert: Alert, st: State)

  /** ssl_open_record_success, _discard and _error, with the state in which each leaves the receiver. */
  datatype Opened = Accepted(st: State) | Dropped(st: State) | Failed(alert: Alert, st: State)

  // ---------- Incoming fragments ----------

  function NewPartial(h: FragmentHeader, epoch: nat): Partial {
    Partial(h.msgType, h.seqNum, h.msgLen, Zeros(h.msgLen), {}, {epoch})
  }

  /** Copy a body into a message and mark it; a complete message is left alone. */
  function Merge(p: Partial, fragOff: nat, body: seq<Byte>, epoch: nat): Partial
    requires fragOff + |body| <= |p.body|
  {
    if p.Complete() then p
    else p.(body := p.body[..fragOff] + body + p.body[fragOff + |body|..],
            received := p.received + Range(fragOff, fragOff + |body|),
            epochs := p.epochs + {epoch})
  }

  /** One iteration of the fragment loop in dtls1_open_handshake, including
      dtls1_get_incoming_message. */
  function TakeFragment(st: State, f: Fragment, maxLen: nat): Outcome
    requires Wellformed(st) && f.header.seqNum < 0x1_0000
  {
    var h := f.header;
    if h.fragOff > h.msgLen || h.fragOff + |f.body| > h.msgLen || h.msgLen > maxLen then Fatal(IllegalParameter, st)
    else if st.rEpoch == 1 && h.seqNum != st.readSeq then Fatal(UnexpectedMessage, st)
    else if h.seqNum < st.readSeq || h.seqNum > st.readSeq + MAX_FLIGHT then Continue(st)
    else if h.seqNum - st.readSeq >= MAX_FLIGHT then Fatal(InternalError, st)
    else
      var idx := h.seqNum % MAX_FLIGHT;
      match st.ring[idx]
      case None =>
        Continue(st.(ring := st.ring[idx := Some(Merge(NewPartial(h, st.rEpoch), h.fragOff, f.body, st.rEpoch))]))
      case Some(p) =>
        if p.msgType != h.msgType || p.msgLen != h.msgLen then Fatal(IllegalParameter, st)
        else Continue(st.(ring := st.ring[idx := Some(Merge(p, h.fragOff, f.body, st.rEpoch))]))
  }

  /** All the fragments of one record. */
  function TakeFragments(st: State, bytes: seq<Byte>, maxLen: nat): Outcome
    requires Wellformed(st)
    decreases |bytes|
  {
    if |bytes| == 0 then Continue(st)
    else
      match Parse(bytes)
      case None => Fatal(DecodeError, st)
      case Some((f, rest)) =>
        TakeFragmentWellformed(st, f, maxLen);
        match TakeFragment(st, f, maxLen)
        case Fatal(a, st') => Fatal(a, st')
        case Continue(st') => TakeFragments(st', rest, maxLen)
  }

  /** dtls1_open_handshake on a record that dtls_open_record let through. */
  function OpenHandshake(st: State, contentType: ContentType, record: seq<Byte>, maxLen: nat): Opened
    requires Wellformed(st)
  {
    match contentType
    case ApplicationData => if st.nullCipher then Failed(UnexpectedMessage, st) else Dropped(st)
    case ChangeCipherSpec =>
      if !st.nullCipher then Failed(UnexpectedMessage, st)
      else if record != [CCS_BYTE] then Failed(IllegalParameter, st)
      else Accepted(st.(hasCcs := true))
    case Other => Failed(UnexpectedMessage, st)
    case Handshake =>
      match TakeFragments(st, record, maxLen)
      case Fatal(a, st') => Failed(a, st')
      case Continue(st') => Accepted(st')
  }

  /** dtls1_open_change_cipher_spec: a ChangeCipherSpec that has been flagged is consumed without looking
      at a record; otherwise one record is opened as in the handshake, and the flag consumed if it is
      set then. */
  function OpenChangeCipherSpec(st: State, contentType: ContentType, record: seq<Byte>, maxLen: nat): Opened
    requires Wellformed(st)
  {
    if st.hasCcs then Accepted(st.(hasCcs := false))
    else
      match OpenHandshake(st, contentType, record, maxLen)
      case Accepted(st') => if st'.hasCcs then Accepted(st'.(hasCcs := false)) else Dropped(st')
      case Dropped(st') => Dropped(st')
      case Failed(a, st') => Failed(a, st')
  }

  // ---------- Delivery ----------

  function Current(st: State): Option<Partial>
    requires |st.ring| == MAX_FLIGHT
  {
    st.ring[st.readSeq % MAX_FLIGHT]
  }

  /** dtls1_is_current_message_complete. */
  predicate CurrentComplete(st: State)
    requires |st.ring| == MAX_FLIGHT
  {
    Current(st).Some? && Current(st).value.Complete()
  }

  /** dtls1_get_message: the current message, if complete, and the new state. */
  function GetMessage(st: State): (State, Option<Partial>)
    requires |st.ring| == MAX_FLIGHT
  {
    if CurrentComplete(st) then (st.(hasMessage := true), Current(st)) else (st, None)
  }

  /** dtls1_next_message. */
  function NextMessage(st: State): State
    requires |st.ring| == MAX_FLIGHT
  {
    st.(ring := st.ring[st.readSeq % MAX_FLIGHT := None], readSeq := (st.readSeq + 1) % 0x1_0000, hasMessage := false)
  }

  /** dtls_has_unprocessed_handshake_data. */
  predicate HasUnprocessedData(st: State)
    requires |st.ring| == MAX_FLIGHT
  {
    st.hasCcs
    || exists i | 0 <= i < MAX_FLIGHT :: st.ring[i].Some? && !(st.hasMessage && i == st.readSeq % MAX_FLIGHT)
  }

  /** dtls1_set_read_state: refused while data from the old epoch is pending. */
  function SetReadState(st: State): Option<State>
    requires |st.ring| == MAX_FLIGHT
  {
    if HasUnprocessedData(st) then None
    else Some(st.(rEpoch := (st.rEpoch + 1) % 0x1_0000, nullCipher := false))
  }

  // ---------- What every step keeps ----------

  ghost predicate Wellformed(st: State) {
    && st.readSeq < 0x1_0000 && st.rEpoch < 0x1_0000
    && |st.ring| == MAX_FLIGHT
    && (forall i | 0 <= i < MAX_FLIGHT && st.ring[i].Some? ::
          && st.ring[i].value.seqNum % MAX_FLIGHT == i
          && st.readSeq <= st.ring[i].value.seqNum < st.readSeq + MAX_FLIGHT
          && st.ring[i].value.seqNum < 0x1_0000
          && SlotWellformed(st, st.ring[i].value))
    && (st.hasMessage ==> CurrentComplete(st))
  }

  /** A message has seen a single epoch, and the present one while it is incomplete. */
  ghost predicate SlotWellformed(st: State, p: Partial) {
    && |p.body| == p.msgLen
    && p.received <= Range(0, p.msgLen)
    && (exists e :: p.epochs == {e})
    && (p.Complete() || p.epochs == {st.rEpoch})
  }

  lemma MergeKeepsSlot(st: State, p: Partial, fragOff: nat, body: seq<Byte>)
    requires SlotWellformed(st, p) && fragOff + |body| <= p.msgLen
    ensures SlotWellformed(st, Merge(p, fragOff, body, st.rEpoch))
    ensures Merge(p, fragOff, body, st.rEpoch).seqNum == p.seqNum
  {}

  lemma FillSlotWellformed(st: State, p: Partial)
    requires Wellformed(st) && SlotWellformed(st, p)
    requires st.readSeq <= p.seqNum < st.readSeq + MAX_FLIGHT && p.seqNum < 0x1_0000
    requires st.hasMessage && p.seqNum == st.readSeq ==> p.Complete()
    ensures Wellformed(st.(ring := st.ring[p.seqNum % MAX_FLIGHT := Some(p)]))
  {
    var st' := st.(ring := st.ring[p.seqNum % MAX_FLIGHT := Some(p)]);
    forall i | 0 <= i < MAX_FLIGHT && st'.ring[i].Some?
      ensures SlotWellformed(st', st'.ring[i].value)
    {
      assert SlotWellformed(st, st'.ring[i].value);
    }
    if st.hasMessage && p.seqNum % MAX_FLIGHT == st.readSeq % MAX_FLIGHT {
      assert p.seqNum == st.readSeq;
    }
  }

  /** Every fragment, honest or not, keeps the ring invariant; in particular a slot that is
      found occupied always holds the message being looked up. */
  lemma TakeFragmentWellformed(st: State, f: Fragment, maxLen: nat)
    requires Wellformed(st) && f.header.seqNum < 0x1_0000
    ensures var st' := TakeFragment(st, f, maxLen).st;
            Wellformed(st') && st' == st.(ring := st'.ring)
    ensures TakeFragment(st, f, maxLen).Fatal? ==> TakeFragment(st, f, maxLen).st == st
    ensures st.readSeq <= f.header.seqNum < st.readSeq + MAX_FLIGHT && st.ring[f.header.seqNum % MAX_FLIGHT].Some? ==>
              st.ring[f.header.seqNum % MAX_FLIGHT].value.seqNum == f.header.seqNum
  {
    var h := f.header;
    var idx := h.seqNum % MAX_FLIGHT;
    if TakeFragment(st, f, maxLen).Continue? && st.readSeq <= h.seqNum < st.readSeq + MAX_FLIGHT {
      var p := if st.ring[idx].Some? then st.ring[idx].value else NewPartial(h, st.rEpoch);
      assert NewPartial(h, st.rEpoch).epochs == {st.rEpoch};
      MergeKeepsSlot(st, p, h.fragOff, f.body);
      FillSlotWellformed(st, Merge(p, h.fragOff, f.body, st.rEpoch));
    }
  }

  lemma {:induction false} TakeFragmentsWellformed(st: State, bytes: seq<Byte>, maxLen: nat)
    requires Wellformed(st)
    ensures var st' := TakeFragments(st, bytes, maxLen).st;
            Wellformed(st') && st' == st.(ring := st'.ring)
    decreases |bytes|
  {
    if |bytes| > 0 && Parse(bytes).Some? {
      var (f, rest) := Parse(bytes).value;
      TakeFragmentWellformed(st, f, maxLen);
      if TakeFragment(st, f, maxLen).Continue? {
        TakeFragmentsWellformed(TakeFragment(st, f, maxLen).st, rest, maxLen);
      }
    }
  }

  lemma OpenHandshakeWellformed(st: State, contentType: ContentType, record: seq<Byte>, maxLen: nat)
    requires Wellformed(st)
    ensures Wellformed(OpenHandshake(st, contentType, record, maxLen).st)
  {
    TakeFragmentsWellformed(st, record, maxLen);
  }

  lemma OpenChangeCipherSpecWellformed(st: State, contentType: ContentType, record: seq<Byte>, maxLen: nat)
    requires Wellformed(st)
    ensures Wellformed(OpenChangeCipherSpec(st, contentType, record, maxLen).st)
    ensures OpenChangeCipherSpec(st, contentType, record, maxLen).Accepted? ==>
              !OpenChangeCipherSpec(st, contentType, record, maxLen).st.hasCcs
  {
    hide SlotWellformed;
    OpenHandshakeWellformed(st, contentType, record, maxLen);
    hide OpenHandshake;
    FlagDoesNotMatter(st, false);
    var outcome := OpenHandshake(st, contentType, record, maxLen);
    FlagDoesNotMatter(outcome.st, false);
  }

  /** The ring does not depend on whether a ChangeCipherSpec is flagged. */
  lemma FlagDoesNotMatter(st: State, flag: bool)
    requires Wellformed(st)
    ensures Wellformed(st.(hasCcs := flag))
  {
    forall i | 0 <= i < MAX_FLIGHT && st.ring[i].Some?
      ensures SlotWellformed(st.(hasCcs := flag), st.ring[i].value)
    {
      assert SlotWellformed(st, st.ring[i].value);
    }
  }

  lemma GetMessageWellformed(st: State)
    requires Wellformed(st)
    ensures Wellformed(GetMessage(st).0)
  {}

  /** A message that is handed up stays in its slot, but is not unprocessed any more: only the other slots and a
      ChangeCipherSpec hold a change of the read cipher up. */
  lemma HandedUpIsProcessed(st: State)
    requires Wellformed(st) && CurrentComplete(st)
    ensures var (st', m) := GetMessage(st);
            && m == st.ring[st.readSeq % MAX_FLIGHT] && st'.ring == st.ring
            && (HasUnprocessedData(st')
                <==> st.hasCcs || exists i | 0 <= i < MAX_FLIGHT :: st.ring[i].Some? && i != st.readSeq % MAX_FLIGHT)
  {}

  /** The ring survives consuming a message, also when the 16-bit counter wraps to 0: the ring
      is empty then, because no later number exists. */
  lemma NextMessageWellformed(st: State)
    requires Wellformed(st) && CurrentComplete(st)
    ensures Wellformed(NextMessage(st))
    ensures NextMessage(st).readSeq == if st.readSeq == 0xffff then 0 else st.readSeq + 1
    ensures st.readSeq == 0xffff ==> forall i | 0 <= i < MAX_FLIGHT :: NextMessage(st).ring[i] == None
  {
    var st' := NextMessage(st);
    forall i | 0 <= i < MAX_FLIGHT && st'.ring[i].Some?
      ensures st.readSeq < st.ring[i].value.seqNum
    {
      assert st.ring[i] == st'.ring[i];
    }
  }

  /** A new epoch starts with no partly assembled message, so no message mixes epochs. */
  lemma SetReadStateWellformed(st: State)
    requires Wellformed(st)
    ensures SetReadState(st).Some? ==>
              && Wellformed(SetReadState(st).value)
              && forall i | 0 <= i < MAX_FLIGHT && st.ring[i].Some? :: st.ring[i].value.Complete()
  {}

  /** The read cipher may change exactly when no ChangeCipherSpec is flagged and nothing is buffered but the message
      handed up; then the epoch moves on and nothing else changes. */
  lemma ChangesExactly(st: State)
    requires Wellformed(st)
    ensures SetReadState(st).Some? <==>
              && !st.hasCcs
              && forall i | 0 <= i < MAX_FLIGHT && st.ring[i].Some? :: st.hasMessage && st.ring[i].value.seqNum == st.readSeq
    ensures SetReadState(st).Some? ==> SetReadState(st).value == st.(rEpoch := (st.rEpoch + 1) % 0x1_0000, nullCipher := false)
  {
    hide SlotWellformed;
  }

  /** The bound in the loop and the bound in the lookup differ by one: a fragment exactly seven
      ahead passes as "not too far in the future" and then fails the connection, whereas any
      fragment further ahead, or in the past, is ignored. */
  lemma SevenAheadIsFatal(st: State, f: Fragment, maxLen: nat)
    requires Wellformed(st) && f.header.seqNum < 0x1_0000
    requires f.header.fragOff + |f.body| <= f.header.msgLen <= maxLen
    requires st.rEpoch != 1
    requires f.header.seqNum < st.readSeq || f.header.seqNum >= st.readSeq + MAX_FLIGHT
    ensures TakeFragment(st, f, maxLen) ==
            if f.header.seqNum == st.readSeq + MAX_FLIGHT then Fatal(InternalError, st) else Continue(st)
  {}

  // ---------- What becomes of any fragment, honest or not ----------

  predicate InWindow(st: State, f: Fragment) {
    st.readSeq <= f.header.seqNum < st.readSeq + MAX_FLIGHT
  }

  /** The fragment lies inside a message of acceptable length. */
  predicate FitsItsMessage(f: Fragment, maxLen: nat) {
    f.header.fragOff + |f.body| <= f.header.msgLen <= maxLen
  }

  /** It may come now: in the first encrypted epoch only the next message, never the seventh after it. */
  predicate MayCome(st: State, f: Fragment) {
    if st.rEpoch == 1 then f.header.seqNum == st.readSeq else f.header.seqNum != st.readSeq + MAX_FLIGHT
  }

  /** It announces what earlier fragments of its message announced. */
  predicate Consistent(st: State, f: Fragment)
    requires |st.ring| == MAX_FLIGHT
  {
    var slot := st.ring[f.header.seqNum % MAX_FLIGHT];
    InWindow(st, f) && slot.Some? ==> slot.value.msgType == f.header.msgType && slot.value.msgLen == f.header.msgLen
  }

  /** The connection survives a fragment exactly when it fits its message, may come now, and agrees with what
      came before. */
  lemma SurvivesExactly(st: State, f: Fragment, maxLen: nat)
    requires Wellformed(st) && f.header.seqNum < 0x1_0000
    ensures TakeFragment(st, f, maxLen).Continue? <==> FitsItsMessage(f, maxLen) && MayCome(st, f) && Consistent(st, f)
    ensures TakeFragment(st, f, maxLen).Fatal? ==>
              TakeFragment(st, f, maxLen).alert
              == if !FitsItsMessage(f, maxLen) then IllegalParameter
                 else if !MayCome(st, f) then if st.rEpoch == 1 then UnexpectedMessage else InternalError
                 else IllegalParameter
  {
    hide SlotWellformed, Merge, NewPartial;
  }

  /** `q` is `p` with the octets of a fragment: position by position what arrives now, and otherwise what was
      there. A complete message does not change any more. */
  ghost predicate Merged(p: Partial, q: Partial, f: Fragment) {
    var now := Range(f.header.fragOff, f.header.fragOff + |f.body|);
    && q.seqNum == p.seqNum && q.msgType == p.msgType && q.msgLen == p.msgLen && |q.body| == |p.body|
    && if p.received == Range(0, p.msgLen) then q == p
       else
         && q.received == p.received + now
         && forall k | 0 <= k < |p.body| :: q.body[k] == if k in now then f.body[k - f.header.fragOff] else p.body[k]
  }

  lemma MergeMerges(p: Partial, f: Fragment, epoch: nat)
    requires f.header.fragOff + |f.body| <= |p.body|
    ensures Merged(p, Merge(p, f.header.fragOff, f.body, epoch), f)
  {}

  /** What a fragment that the connection survives leaves in the ring: in the window, the octets merged into its
      message, which starts with nothing received; and nothing else anywhere. */
  lemma KeepsTheRest(st: State, f: Fragment, maxLen: nat)
    requires Wellformed(st) && f.header.seqNum < 0x1_0000 && TakeFragment(st, f, maxLen).Continue?
    ensures var st', idx, h := TakeFragment(st, f, maxLen).st, f.header.seqNum % MAX_FLIGHT, f.header;
            if !InWindow(st, f) then st' == st
            else
              && (forall j | 0 <= j < MAX_FLIGHT && j != idx :: st'.ring[j] == st.ring[j])
              && st'.ring[idx].Some?
              && var p := if st.ring[idx].Some? then st.ring[idx].value
                          else Partial(h.msgType, h.seqNum, h.msgLen, Zeros(h.msgLen), {}, {st.rEpoch});
                 Merged(p, st'.ring[idx].value, f)
  {
    var idx := f.header.seqNum % MAX_FLIGHT;
    if InWindow(st, f) {
      if st.ring[idx].Some? {
        SlotShape(st, st.ring[idx].value);
        MergeMerges(st.ring[idx].value, f, st.rEpoch);
      } else {
        MergeMerges(NewPartial(f.header, st.rEpoch), f, st.rEpoch);
      }
    }
    hide SlotWellformed, Merge, Merged;
  }

  lemma SlotShape(st: State, p: Partial)
    requires SlotWellformed(st, p)
    ensures |p.body| == p.msgLen
  {}

  /** The fragments at the front of a record, and whether they are all of it. */
  function Fragments(bytes: seq<Byte>): (seq<Fragment>, bool)
    decreases |bytes|
  {
    if bytes == [] then ([], true)
    else
      match Parse(bytes)
      case None => ([], false)
      case Some((f, rest)) => var (fs, whole) := Fragments(rest); ([f] + fs, whole)
  }

  /** A record that does not end with a fragment is an error, after its fragments have been taken in. */
  lemma {:induction false} MalformedIsFatal(st: State, bytes: seq<Byte>, maxLen: nat)
    requires Wellformed(st) && !Fragments(bytes).1
    ensures TakeFragments(st, bytes, maxLen).Fatal?
    ensures (forall f <- Fragments(bytes).0 :: f.header.seqNum < st.readSeq && st.rEpoch != 1 && FitsItsMessage(f, maxLen)) ==>
              TakeFragments(st, bytes, maxLen) == Fatal(DecodeError, st)
    decreases |bytes|
  {
    if Parse(bytes).Some? {
      var (f, rest) := Parse(bytes).value;
      TakeFragmentWellformed(st, f, maxLen);
      var all := Fragments(bytes).0;
      assert all[0] == f && all[1..] == Fragments(rest).0;
      if TakeFragment(st, f, maxLen).Continue? {
        MalformedIsFatal(TakeFragment(st, f, maxLen).st, rest, maxLen);
      }
      assert forall g <- Fragments(rest).0 :: g in all;
    }
  }
}
