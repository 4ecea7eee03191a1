/** The receiver as the program keeps it: a ring of seven heap-allocated partial messages updated
    in place. Every method is tied to the corresponding step of DtlsReceiver. */
module DtlsRing {
  import opened Bytes
  import opened DtlsWire
  import opened Reassembly
  import S = DtlsReceiver

  datatype Result = Success | Discard | Error(alert: S.Alert)

  class Receiver {
    var handshakeReadSeq: nat
    var hasMessage: bool
    var hasChangeCipherSpec: bool
    var rEpoch: nat
    var nullCipher: bool
    const incoming: array<HmFragment?>
    ghost var epochs: seq<set<nat>>     // the epochs in which each slot was filled
    ghost var repr: set<object>         // the objects the slots are made of

    ghost predicate Shape()
      reads this, incoming, repr
    {
      && incoming.Length == S.MAX_FLIGHT && |epochs| == S.MAX_FLIGHT
      && this !in repr && incoming !in repr
      && (forall i | 0 <= i < S.MAX_FLIGHT && incoming[i] != null ::
            incoming[i] in repr && incoming[i].footprint <= repr && incoming[i].Valid())
      && (forall i, j | 0 <= i < j < S.MAX_FLIGHT && incoming[i] != null && incoming[j] != null ::
            incoming[i].footprint !! incoming[j].footprint)
    }

    ghost function Slot(i: nat): Option<S.Partial>
      requires Shape() && i < S.MAX_FLIGHT
      reads this, incoming, repr
    {
      if incoming[i] == null then None
      else Some(S.Partial(incoming[i].msgType, incoming[i].seqNum, incoming[i].msgLen, incoming[i].data[..],
                          incoming[i].Received(), epochs[i]))
    }

    ghost function Ring(n: nat): (r: seq<Option<S.Partial>>)
      requires Shape() && n <= S.MAX_FLIGHT
      ensures |r| == n && forall i | 0 <= i < n :: r[i] == Slot(i)
      reads this, incoming, repr
    {
      if n == 0 then [] else Ring(n - 1) + [Slot(n - 1)]
    }

    /** The abstract state this object stands for. */
    ghost function View(): S.State
      requires Shape()
      reads this, incoming, repr
    {
      S.State(handshakeReadSeq, Ring(S.MAX_FLIGHT), hasMessage, hasChangeCipherSpec, rEpoch, nullCipher)
    }

    ghost predicate Valid()
      reads this, incoming, repr
    {
      Shape() && S.Wellformed(View())
    }

    constructor ()
      ensures Valid() && fresh(incoming) && repr == {}
      ensures View() == S.INITIAL
    {
      handshakeReadSeq, hasMessage, hasChangeCipherSpec, rEpoch, nullCipher := 0, false, false, 0, true;
      incoming := new HmFragment?[S.MAX_FLIGHT](i => null);
      epochs := [{}, {}, {}, {}, {}, {}, {}];
      repr := {};
      new;
      assert Ring(S.MAX_FLIGHT) == S.INITIAL.ring;
    }

    /** dtls1_is_current_message_complete. */
    method IsCurrentMessageComplete() returns (b: bool)
      requires Valid()
      ensures b == S.CurrentComplete(View())
    {
      var frag := incoming[handshakeReadSeq % S.MAX_FLIGHT];
      if frag != null {
        frag.CompleteIffAllReceived();
      }
      b := frag != null && frag.reassembly == null;
    }

    /** Start the message of header `h` in the empty slot `idx`. */
    method NewSlot(idx: nat, h: FragmentHeader)
      requires Shape() && idx < S.MAX_FLIGHT && incoming[idx] == null
      modifies this`epochs, this`repr, incoming
      ensures Shape() && fresh(repr - old(repr)) && incoming[idx] != null
      ensures Slot(idx) == Some(S.NewPartial(h, rEpoch))
      ensures forall j | 0 <= j < S.MAX_FLIGHT && j != idx :: Slot(j) == old(Slot(j))
    {
      var frag := new HmFragment(h.msgType, h.seqNum, h.msgLen);
      incoming[idx] := frag;
      repr := repr + frag.footprint;
      epochs := epochs[idx := {rEpoch}];
    }

    /** Merge one fragment body into the occupied slot `idx`. */
    method MergeSlot(idx: nat, fragOff: nat, body: seq<Byte>)
      requires Shape() && idx < S.MAX_FLIGHT && incoming[idx] != null
      requires fragOff + |body| <= incoming[idx].msgLen
      modifies this`epochs, repr
      ensures Shape()
      ensures Slot(idx) == Some(S.Merge(old(Slot(idx)).value, fragOff, body, rEpoch))
      ensures forall j | 0 <= j < S.MAX_FLIGHT && j != idx :: Slot(j) == old(Slot(j))
    {
      var frag := incoming[idx];
      frag.CompleteIffAllReceived();
      if frag.reassembly == null {
        return;
      }
      assert forall j | 0 <= j < S.MAX_FLIGHT && j != idx && incoming[j] != null :: incoming[j].footprint !! frag.footprint;
      epochs := epochs[idx := epochs[idx] + {rEpoch}];
      frag.AddFragment(fragOff, body);
    }

    /** A step that rewrites the slot of one message number is the corresponding abstract step. */
    twostate lemma SlotsDetermineView(idx: nat)
      requires idx < S.MAX_FLIGHT && old(Shape()) && Shape()
      requires handshakeReadSeq == old(handshakeReadSeq) && hasMessage == old(hasMessage)
      requires hasChangeCipherSpec == old(hasChangeCipherSpec) && rEpoch == old(rEpoch) && nullCipher == old(nullCipher)
      requires forall j | 0 <= j < S.MAX_FLIGHT && j != idx :: Slot(j) == old(Slot(j))
      ensures View() == old(View()).(ring := old(View()).ring[idx := Slot(idx)])
    {
      assert View().ring == old(View()).ring[idx := Slot(idx)];
    }

    /** One iteration of the fragment loop, including dtls1_get_incoming_message. */
    method TakeFragment(f: Fragment, maxLen: nat) returns (result: Option<S.Alert>)
      requires Valid() && f.header.seqNum < 0x1_0000
      modifies this`epochs, this`repr, incoming, repr
      ensures Valid() && fresh(repr - old(repr))
      ensures match old(S.TakeFragment(View(), f, maxLen))
              case Continue(st) => result == None && View() == st
              case Fatal(a, st) => result == Some(a) && View() == st
    {
      hide S.SlotWellformed;
      var h := f.header;
      S.TakeFragmentWellformed(View(), f, maxLen);
      if h.fragOff > h.msgLen || h.fragOff + |f.body| > h.msgLen || h.msgLen > maxLen {
        return Some(S.IllegalParameter);
      }
      if rEpoch == 1 && h.seqNum != handshakeReadSeq {
        return Some(S.UnexpectedMessage);
      }
      if h.seqNum < handshakeReadSeq || h.seqNum > handshakeReadSeq + S.MAX_FLIGHT {
        return None;
      }
      if h.seqNum - handshakeReadSeq >= S.MAX_FLIGHT {
        return Some(S.InternalError);
      }
      var idx := h.seqNum % S.MAX_FLIGHT;
      assert View().ring[idx] == Slot(idx);
      if incoming[idx] == null {
        NewSlot(idx, h);
      } else {
        // The source asserts that the slot holds the message being looked up.
        assert incoming[idx].seqNum == h.seqNum;
        if incoming[idx].msgType != h.msgType || incoming[idx].msgLen != h.msgLen {
          return Some(S.IllegalParameter);
        }
      }
      MergeSlot(idx, h.fragOff, f.body);
      SlotsDetermineView(idx);
      return None;
    }

    /** dtls1_open_handshake on a record that dtls_open_record let through. On an error, fragments
        before the offending one have been taken in. */
    method OpenHandshake(contentType: S.ContentType, record: seq<Byte>, maxLen: nat) returns (result: Result)
      requires Valid()
      modifies this`hasChangeCipherSpec, this`epochs, this`repr, incoming, repr
      ensures Valid() && fresh(repr - old(repr))
      ensures match old(S.OpenHandshake(View(), contentType, record, maxLen))
              case Accepted(st) => result == Success && View() == st
              case Dropped(st) => result == Discard && View() == st
              case Failed(a, st) => result == Error(a) && View() == st
    {
      match contentType
      case ApplicationData =>
        return if nullCipher then Error(S.UnexpectedMessage) else Discard;
      case ChangeCipherSpec =>
        if !nullCipher {
          return Error(S.UnexpectedMessage);
        }
        if record != [S.CCS_BYTE] {
          return Error(S.IllegalParameter);
        }
        hasChangeCipherSpec := true;
        assert View().ring == old(View()).ring;
        assert View() == old(View()).(hasCcs := true);
        return Success;
      case Other =>
        return Error(S.UnexpectedMessage);
      case Handshake =>
        var cbs := record;
        while |cbs| > 0
          invariant Valid() && fresh(repr - old(repr))
          invariant S.TakeFragments(View(), cbs, maxLen) == old(S.TakeFragments(View(), record, maxLen))
          decreases |cbs|
        {
          var parsed := Parse(cbs);
          if parsed.None? {
            return Error(S.DecodeError);
          }
          var alert := TakeFragment(parsed.value.0, maxLen);
          if alert.Some? {
            return Error(alert.value);
          }
          cbs := parsed.value.1;
        }
        return Success;
    }

    /** dtls1_open_change_cipher_spec; the record is looked at only when no ChangeCipherSpec is flagged. */
    method OpenChangeCipherSpec(contentType: S.ContentType, record: seq<Byte>, maxLen: nat) returns (result: Result)
      requires Valid()
      modifies this`hasChangeCipherSpec, this`epochs, this`repr, incoming, repr
      ensures Valid() && fresh(repr - old(repr))
      ensures match old(S.OpenChangeCipherSpec(View(), contentType, record, maxLen))
              case Accepted(st) => result == Success && View() == st
              case Dropped(st) => result == Discard && View() == st
              case Failed(a, st) => result == Error(a) && View() == st
    {
      hide S.Wellformed, S.OpenHandshake;
      S.OpenChangeCipherSpecWellformed(View(), contentType, record, maxLen);
      if !hasChangeCipherSpec {
        result := OpenHandshake(contentType, record, maxLen);
        if result != Success {
          return;
        }
      }
      if hasChangeCipherSpec {
        ghost var before := View();
        hasChangeCipherSpec := false;
        assert View().ring == before.ring;
        assert View() == before.(hasCcs := false);
        return Success;
      }
      return Discard;
    }

    /** dtls1_get_message: the type and body of the current message, if it is complete. */
    method GetMessage() returns (msg: Option<(Byte, seq<Byte>)>)
      requires Valid()
      modifies this`hasMessage
      ensures Valid()
      ensures View() == old(S.GetMessage(View()).0)
      ensures msg == old(match S.GetMessage(View()).1 case None => None case Some(p) => Some((p.msgType, p.body)))
    {
      S.GetMessageWellformed(View());
      var complete := IsCurrentMessageComplete();
      if !complete {
        return None;
      }
      var frag := incoming[handshakeReadSeq % S.MAX_FLIGHT];
      assert View().ring[handshakeReadSeq % S.MAX_FLIGHT] == Slot(handshakeReadSeq % S.MAX_FLIGHT);
      hasMessage := true;
      assert View().ring == old(View()).ring;
      return Some((frag.msgType, frag.data[..]));
    }

    /** dtls1_next_message; the source asserts that a message has been handed up. */
    method NextMessage()
      requires Valid() && hasMessage
      modifies this`handshakeReadSeq, this`hasMessage, incoming
      ensures Valid()
      ensures View() == old(S.NextMessage(View()))
    {
      S.NextMessageWellformed(View());
      var idx := handshakeReadSeq % S.MAX_FLIGHT;
      incoming[idx] := null;
      handshakeReadSeq := (handshakeReadSeq + 1) % 0x1_0000;
      hasMessage := false;
      assert View().ring == old(View()).ring[idx := None];
    }

    /** dtls_has_unprocessed_handshake_data. */
    method HasUnprocessedHandshakeData() returns (b: bool)
      requires Valid()
      ensures b == S.HasUnprocessedData(View())
    {
      if hasChangeCipherSpec {
        return true;
      }
      var current := handshakeReadSeq % S.MAX_FLIGHT;
      for i := 0 to S.MAX_FLIGHT
        invariant forall k | 0 <= k < i :: View().ring[k].Some? ==> hasMessage && k == current
      {
        if hasMessage && i == current {
          continue;
        }
        if incoming[i] != null {
          assert View().ring[i].Some?;
          return true;
        }
      }
      return false;
    }

    /** dtls1_set_read_state, without the cipher itself. */
    method SetReadState() returns (ok: bool)
      requires Valid()
      modifies this`rEpoch, this`nullCipher
      ensures Valid()
      ensures match old(S.SetReadState(View()))
              case Some(st) => ok && View() == st
              case None => !ok && View() == old(View())
    {
      S.SetReadStateWellformed(View());
      ghost var before := View();
      hide S.Wellformed;
      var pending := HasUnprocessedHandshakeData();
      if pending {
        return false;
      }
      rEpoch := (rEpoch + 1) % 0x1_0000;
      nullCipher := false;
      assert View() == before.(rEpoch := rEpoch, nullCipher := false);
      return true;
    }
  }
}
