/** The DTLS anti-replay window: a 64-bit map of the most recent record sequence
    numbers, anchored at the largest number seen (section 4.1.2.6 of RFC 6347).
    A number is the 16-bit epoch followed by a 48-bit counter, read big-endian. */
module ReplayWindow {
  import opened Bytes

  const WINDOW_SIZE := 64

  // ---------- Big-endian sequence numbers ----------

  method ToU64Be(bytes: array<Byte>) returns (ret: nat)
    requires bytes.Length == 8
    ensures ret == BigEndian(bytes[..]) < 0x1_0000_0000_0000_0000
  {
    ret := 0;
    for i := 0 to 8
      invariant ret == BigEndian(bytes[..i])
      invariant ret < Pow256(i)
    {
      assert bytes[..i + 1][..i] == bytes[..i];
      Pow256Monotone(i, 7);
      // The 64-bit shift drops nothing, since fewer than eight bytes have been read.
      ret := (ret * 256) % 0x1_0000_0000_0000_0000 + bytes[i];
    }
    assert bytes[..8] == bytes[..];
  }

  // ---------- Bits of the window ----------

  /** A 64-bit word used as a bit vector: element i is the bit of value 1 << i. */
  type Word64 = w: seq<bool> | |w| == 64 witness NoBits(64)

  function NoBits(n: nat): (z: seq<bool>)
    ensures |z| == n && forall i | 0 <= i < n :: !z[i]
  {
    if n == 0 then [] else NoBits(n - 1) + [false]
  }

  const ZERO: Word64 := NoBits(64)

  /** m << k: bits shifted past position 63 are lost. */
  function ShiftLeft(m: Word64, k: nat): (r: Word64)
    requires k < 64
  {
    NoBits(k) + m[..64 - k]
  }

  // ---------- The window against the unbounded set of numbers seen ----------

  /** `s` is refused iff it was recorded before or is at least 64 behind the largest number recorded. */
  predicate Refused(seen: set<nat>, top: nat, s: nat) {
    s in seen || top - s >= WINDOW_SIZE
  }

  /** `window` and `top` represent the numbers `seen`. */
  ghost predicate Represents(window: Word64, top: nat, seen: set<nat>) {
    && (forall s <- seen :: s <= top)
    && (forall i: nat :: i < 64 && i <= top ==> (window[i] <==> top - i in seen))
  }

  /** The window after recording `s`: slide if needed, then set the bit of `s` if it is in range. */
  function RecordMap(window: Word64, top: nat, s: nat): Word64 {
    if s > top && s - top >= WINDOW_SIZE then ZERO[0 := true]
    else if s > top then ShiftLeft(window, s - top)[0 := true]
    else if top - s < WINDOW_SIZE then window[top - s := true]
    else window
  }

  lemma RecordKeepsRepresentation(window: Word64, top: nat, seen: set<nat>, s: nat)
    requires Represents(window, top, seen)
    ensures Represents(RecordMap(window, top, s), Max(s, top), seen + {s})
  {
    var newTop := Max(s, top);
    forall i: nat | i < 64 && i <= newTop
      ensures RecordMap(window, top, s)[i] <==> newTop - i in seen + {s}
    {
      if s > top && s - top <= i {
        assert newTop - i == top - (i - (s - top));
      }
    }
  }

  /** DTLS1_BITMAP. The ghost field collects every number recorded since the bitmap was zeroed. */
  class Bitmap {
    var window: Word64
    var maxSeqNum: nat
    ghost var seen: set<nat>

    ghost predicate Valid()
      reads this
    {
      Represents(window, maxSeqNum, seen)
    }

    constructor ()
      ensures Valid() && seen == {} && maxSeqNum == 0
    {
      window, maxSeqNum, seen := ZERO, 0, {};
    }

    method ShouldDiscard(seqNum: array<Byte>) returns (discard: bool)
      requires Valid() && seqNum.Length == 8
      ensures discard <==> Refused(seen, maxSeqNum, BigEndian(seqNum[..]))
    {
      var s := ToU64Be(seqNum);
      if s > maxSeqNum {
        return false;
      }
      var idx := maxSeqNum - s;
      assert maxSeqNum - idx == s;
      return idx >= WINDOW_SIZE || window[idx];
    }

    /** Also keeps its meaning on a stale number, which callers are told not to pass. */
    method Record(seqNum: array<Byte>)
      requires Valid() && seqNum.Length == 8
      modifies this
      ensures Valid()
      ensures seen == old(seen) + {BigEndian(seqNum[..])}
      ensures maxSeqNum == Max(BigEndian(seqNum[..]), old(maxSeqNum))
    {
      var s := ToU64Be(seqNum);
      RecordKeepsRepresentation(window, maxSeqNum, seen, s);
      if s > maxSeqNum {
        var shift := s - maxSeqNum;
        if shift >= WINDOW_SIZE {
          window := ZERO;
        } else {
          window := ShiftLeft(window, shift);
        }
        maxSeqNum := s;
      }
      var idx := maxSeqNum - s;
      if idx < WINDOW_SIZE {
        window := window[idx := true];
      }
      seen := seen + {s};
    }
  }

  // ---------- Whole runs within one epoch ----------

  /** The numbers accepted, in order, when each arriving number is tested and then recorded if it passes. */
  function Accepted(window: Word64, top: nat, arrivals: seq<nat>): seq<nat>
    decreases |arrivals|
  {
    if |arrivals| == 0 then []
    else
      var s := arrivals[0];
      if s <= top && (top - s >= WINDOW_SIZE || window[top - s]) then Accepted(window, top, arrivals[1..])
      else [s] + Accepted(RecordMap(window, top, s), Max(s, top), arrivals[1..])
  }

  /** The reference filter remembers every number ever accepted. */
  function AcceptedByReference(seen: set<nat>, top: nat, arrivals: seq<nat>): seq<nat>
    decreases |arrivals|
  {
    if |arrivals| == 0 then []
    else if Refused(seen, top, arrivals[0]) then AcceptedByReference(seen, top, arrivals[1..])
    else [arrivals[0]] + AcceptedByReference(seen + {arrivals[0]}, Max(arrivals[0], top), arrivals[1..])
  }

  /** The 64-bit window decides every run exactly as the unbounded reference does. */
  lemma {:induction false} WindowRefinesReference(window: Word64, top: nat, seen: set<nat>, arrivals: seq<nat>)
    requires Represents(window, top, seen)
    ensures Accepted(window, top, arrivals) == AcceptedByReference(seen, top, arrivals)
    decreases |arrivals|
  {
    if |arrivals| > 0 {
      var s := arrivals[0];
      if s <= top && top - s < WINDOW_SIZE {
        assert window[top - s] <==> top - (top - s) in seen;
      }
      if Refused(seen, top, s) {
        WindowRefinesReference(window, top, seen, arrivals[1..]);
      } else {
        RecordKeepsRepresentation(window, top, seen, s);
        WindowRefinesReference(RecordMap(window, top, s), Max(s, top), seen + {s}, arrivals[1..]);
      }
    }
  }

  ghost predicate NoRepeats(a: seq<nat>) {
    forall i, j | 0 <= i < j < |a| :: a[i] != a[j]
  }

  ghost predicate Avoids(a: seq<nat>, seen: set<nat>) {
    forall t <- a :: t !in seen
  }

  lemma {:induction false} ReferenceNeverRepeats(seen: set<nat>, top: nat, arrivals: seq<nat>)
    ensures Avoids(AcceptedByReference(seen, top, arrivals), seen)
    ensures NoRepeats(AcceptedByReference(seen, top, arrivals))
    decreases |arrivals|
  {
    if |arrivals| > 0 {
      var s := arrivals[0];
      if Refused(seen, top, s) {
        ReferenceNeverRepeats(seen, top, arrivals[1..]);
      } else {
        ReferenceNeverRepeats(seen + {s}, Max(s, top), arrivals[1..]);
        var rest := AcceptedByReference(seen + {s}, Max(s, top), arrivals[1..]);
        forall t <- [s] + rest
          ensures t !in seen
        {
          assert t == s || t in rest;
        }
        assert s in seen + {s};
        assert forall i | 0 <= i < |rest| :: rest[i] in rest;
      }
    }
  }

  /** From a zeroed bitmap, no sequence number is ever accepted twice in the epoch. */
  lemma AcceptedAtMostOnce(arrivals: seq<nat>)
    ensures NoRepeats(Accepted(ZERO, 0, arrivals))
  {
    WindowRefinesReference(ZERO, 0, {}, arrivals);
    ReferenceNeverRepeats({}, 0, arrivals);
  }

  // ---------- The record filter ----------

  const MAX_PLAIN_LENGTH := 16384

  datatype OpenResult = Success | Discard | Fatal

  /** The read side of the record layer: the current epoch and its replay bitmap. */
  class RecordReader {
    var rEpoch: nat
    var bitmap: Bitmap

    ghost predicate Valid()
      reads this, bitmap
    {
      rEpoch < 0x1_0000 && bitmap.Valid()
    }

    constructor ()
      ensures Valid() && rEpoch == 0 && fresh(bitmap) && bitmap.seen == {}
    {
      rEpoch := 0;
      bitmap := new Bitmap();
    }

    /** dtls_open_record after the header has been parsed. The cipher is a black box: `opens` says
        whether the body authenticates and `plainLen` is the length it decrypts to. */
    method OpenRecord(sequence: array<Byte>, opens: bool, plainLen: nat) returns (result: OpenResult)
      requires Valid() && sequence.Length == 8
      modifies bitmap
      ensures Valid() && rEpoch == old(rEpoch) && bitmap == old(bitmap)
      ensures var n := BigEndian(sequence[..]);
              var isNew := BigEndian(sequence[..2]) == rEpoch && !Refused(old(bitmap.seen), old(bitmap.maxSeqNum), n);
              && (result == Success <==> isNew && opens && plainLen <= MAX_PLAIN_LENGTH)
              && (result == Fatal <==> isNew && opens && plainLen > MAX_PLAIN_LENGTH)
              && bitmap.seen == old(bitmap.seen) + (if result == Success then {n} else {})
    {
      var high: int, low: int := sequence[0], sequence[1];
      var epoch := high * 256 + low;
      assert sequence[..2] == [sequence[0]] + [sequence[1]] && sequence[..2][..1] == [sequence[0]];
      assert BigEndian([sequence[0]]) == high;
      if epoch != rEpoch {
        return Discard;
      }
      var discard := bitmap.ShouldDiscard(sequence);
      if discard || !opens {
        return Discard;
      }
      if plainLen > MAX_PLAIN_LENGTH {
        return Fatal;
      }
      bitmap.Record(sequence);
      return Success;
    }

    /** The part of dtls1_set_read_state that starts a new epoch; a zeroed bitmap has seen nothing. */
    method NextEpoch()
      requires Valid()
      modifies this
      ensures Valid() && rEpoch == (old(rEpoch) + 1) % 0x1_0000
      ensures fresh(bitmap) && bitmap.seen == {}
    {
      rEpoch := (rEpoch + 1) % 0x1_0000;
      bitmap := new Bitmap();
    }
  }

  /** A number that was never accepted is refused only when it is 64 or more behind one that was. */
  lemma FreshInWindowIsAccepted(arrivals: seq<nat>, s: nat)
    requires s !in Accepted(ZERO, 0, arrivals)
    requires forall t <- Accepted(ZERO, 0, arrivals) :: t - s < WINDOW_SIZE
    ensures Accepted(ZERO, 0, arrivals + [s]) == Accepted(ZERO, 0, arrivals) + [s]
  {
    WindowRefinesReference(ZERO, 0, {}, arrivals);
    WindowRefinesReference(ZERO, 0, {}, arrivals + [s]);
    ReferenceAcceptsFresh({}, 0, arrivals, s);
  }

  lemma {:induction false} ReferenceAcceptsFresh(seen: set<nat>, top: nat, arrivals: seq<nat>, s: nat)
    requires s !in seen && top - s < WINDOW_SIZE
    requires s !in AcceptedByReference(seen, top, arrivals)
    requires forall t <- AcceptedByReference(seen, top, arrivals) :: t - s < WINDOW_SIZE
    ensures AcceptedByReference(seen, top, arrivals + [s]) == AcceptedByReference(seen, top, arrivals) + [s]
    decreases |arrivals|
  {
    if |arrivals| > 0 {
      assert (arrivals + [s])[1..] == arrivals[1..] + [s];
      var t := arrivals[0];
      if Refused(seen, top, t) {
        ReferenceAcceptsFresh(seen, top, arrivals[1..], s);
      } else {
        assert t in AcceptedByReference(seen, top, arrivals);
        var rest := AcceptedByReference(seen + {t}, Max(t, top), arrivals[1..]);
        assert AcceptedByReference(seen, top, arrivals) == [t] + rest;
        assert forall u <- rest :: u in AcceptedByReference(seen, top, arrivals);
        ReferenceAcceptsFresh(seen + {t}, Max(t, top), arrivals[1..], s);
      }
    }
  }
}
