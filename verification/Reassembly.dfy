/** Reassembly of one incoming DTLS handshake message: a byte-packed bitmap records which
    body bytes have arrived and is released once all of them have (section 4.2.3 of RFC 6347). */
module Reassembly {
  import opened Bytes

  /** One byte of the bitmap, as a bit vector: element i is the bit of value 1 << i. */
  type Mask8 = m: seq<bool> | |m| == 8 witness [false, false, false, false, false, false, false, false]

  /** bit_range: the bits from `start`, inclusive, to `end`, exclusive. */
  function BitRange(start: nat, end: nat): (m: Mask8)
    requires start <= 8 && end <= 8
    ensures forall b | 0 <= b < 8 :: m[b] <==> start <= b < end
  {
    seq(8, b => start <= b < end)
  }

  /** bit_range as the machine computes it, on 32-bit words truncated to a byte. */
  function BitRangeWord(start: bv32, end: bv32): bv32
    requires start <= 8 && end <= 8
  {
    var one: bv32 := 1;
    !((one << start) - 1) & ((one << end) - 1) & 0xff
  }

  /** The machine formula sets exactly the bits of the range. */
  lemma BitRangeFormula(start: bv32, end: bv32, i: bv32)
    requires start <= 8 && end <= 8 && i < 8
    ensures (BitRangeWord(start, end) >> i) & 1 == 1 <==> start <= i < end
  {}

  function Or(a: Mask8, c: Mask8): (m: Mask8)
    ensures forall b | 0 <= b < 8 :: m[b] <==> a[b] || c[b]
  {
    seq(8, b requires 0 <= b < 8 => a[b] || c[b])
  }

  /** mask[k] |= bit_range(lo, hi). */
  method OrRange(mask: array<Mask8>, k: nat, lo: nat, hi: nat)
    requires k < mask.Length && lo <= 8 && hi <= 8
    modifies mask
    ensures forall b | 0 <= b < 8 :: mask[k][b] <==> old(mask[k])[b] || lo <= b < hi
    ensures forall j | 0 <= j < mask.Length && j != k :: mask[j] == old(mask[j])
  {
    mask[k] := Or(mask[k], BitRange(lo, hi));
  }

  /** Set the bits of [start, end) in `mask`, byte by byte. */
  method SetBits(mask: array<Mask8>, start: nat, end: nat)
    requires start < end <= 8 * mask.Length
    modifies mask
    ensures forall k, b | 0 <= k < mask.Length && 0 <= b < 8 ::
              mask[k][b] <==> old(mask[k])[b] || start <= 8 * k + b < end
  {
    var first, last := start / 8, end / 8;
    if first == last {
      OrRange(mask, first, start % 8, end % 8);
    } else {
      OrRange(mask, first, start % 8, 8);
      for i := first + 1 to last
        invariant forall k, b | 0 <= k < mask.Length && 0 <= b < 8 ::
                    mask[k][b] <==> old(mask[k])[b] || start <= 8 * k + b < 8 * i
      {
        mask[i] := BitRange(0, 8);
      }
      if end % 8 != 0 {
        OrRange(mask, last, 0, end % 8);
      }
    }
  }

  /** Bits at or beyond `n` are clear. */
  ghost predicate WithinLength(mask: seq<Mask8>, n: nat) {
    forall k, b | 0 <= k < |mask| && 0 <= b < 8 :: mask[k][b] ==> 8 * k + b < n
  }

  /** Every bit below `n` is set. */
  ghost predicate AllSet(mask: seq<Mask8>, n: nat)
    requires |mask| == (n + 7) / 8
  {
    forall k, b | 0 <= k < |mask| && 0 <= b < 8 :: 8 * k + b < n ==> mask[k][b]
  }

  /** The completeness test: whole bytes against 0xff, then the last partial byte. */
  method CheckComplete(mask: array<Mask8>, n: nat) returns (complete: bool)
    requires mask.Length == (n + 7) / 8 && WithinLength(mask[..], n)
    ensures complete <==> AllSet(mask[..], n)
  {
    for i := 0 to n / 8
      invariant forall k, b | 0 <= k < i && 0 <= b < 8 :: mask[k][b]
    {
      if mask[i] != BitRange(0, 8) {
        var b :| 0 <= b < 8 && mask[i][b] != BitRange(0, 8)[b];
        assert !mask[..][i][b] && 8 * i + b < n;
        return false;
      }
    }
    if n % 8 != 0 && mask[n / 8] != BitRange(0, n % 8) {
      var b :| 0 <= b < 8 && mask[n / 8][b] != BitRange(0, n % 8)[b];
      assert WithinLength(mask[..], n) && mask[..][n / 8] == mask[n / 8];
      assert !mask[..][n / 8][b] && 8 * (n / 8) + b < n;
      return false;
    }
    return true;
  }

  /** The body positions below `n` recorded by `mask`. */
  ghost function Positions(mask: seq<Mask8>, n: nat): set<nat>
    requires |mask| == (n + 7) / 8
  {
    set p | p in Range(0, n) && mask[p / 8][p % 8]
  }

  lemma AllSetMeansEveryPosition(mask: seq<Mask8>, n: nat)
    requires |mask| == (n + 7) / 8
    ensures AllSet(mask, n) <==> Positions(mask, n) == Range(0, n)
  {
    if Positions(mask, n) == Range(0, n) {
      forall k, b | 0 <= k < |mask| && 0 <= b < 8 && 8 * k + b < n
        ensures mask[k][b]
      {
        assert 8 * k + b in Positions(mask, n);
        assert (8 * k + b) / 8 == k && (8 * k + b) % 8 == b;
      }
    }
  }

  lemma PositionsGrow(before: seq<Mask8>, after: seq<Mask8>, n: nat, start: nat, end: nat)
    requires |before| == |after| == (n + 7) / 8 && start <= end <= n
    requires forall k, b | 0 <= k < |after| && 0 <= b < 8 ::
               after[k][b] <==> before[k][b] || start <= 8 * k + b < end
    ensures Positions(after, n) == Positions(before, n) + Range(start, end)
  {
    forall p | p in Range(0, n)
      ensures after[p / 8][p % 8] <==> before[p / 8][p % 8] || p in Range(start, end)
    {
      assert 8 * (p / 8) + p % 8 == p;
    }
  }

  /** hm_fragment: an incoming message, possibly not yet assembled. */
  class HmFragment {
    const msgType: Byte
    const seqNum: nat
    const msgLen: nat
    const data: array<Byte>          // the message body
    var reassembly: array?<Mask8>    // null when the message is complete
    ghost const footprint: set<object>

    ghost predicate Valid()
      reads this, footprint
    {
      && this in footprint && data in footprint && (reassembly != null ==> reassembly in footprint)
      && data.Length == msgLen
      && (reassembly != null ==>
            && msgLen > 0
            && reassembly.Length == (msgLen + 7) / 8
            && WithinLength(reassembly[..], msgLen)
            && !AllSet(reassembly[..], msgLen))
    }

    /** The body positions received so far. */
    ghost function Received(): set<nat>
      requires Valid()
      reads this, footprint
    {
      if reassembly == null then Range(0, msgLen) else Positions(reassembly[..], msgLen)
    }

    /** dtls1_hm_fragment_new. */
    constructor (msgType: Byte, seqNum: nat, msgLen: nat)
      ensures Valid() && fresh(footprint)
      ensures this.msgType == msgType && this.seqNum == seqNum && this.msgLen == msgLen
      ensures data[..] == Zeros(msgLen)
      ensures Received() == {}
      ensures reassembly == null <==> msgLen == 0
    {
      this.msgType, this.seqNum, this.msgLen := msgType, seqNum, msgLen;
      data := new Byte[msgLen](i => 0);
      var mask := new Mask8[(msgLen + 7) / 8](i => BitRange(0, 0));
      assert msgLen > 0 ==> !mask[..][0][0];
      reassembly := if msgLen > 0 then mask else null;
      footprint := {this, data, mask};
    }

    /** The bitmap is null exactly when nothing is missing. */
    lemma CompleteIffAllReceived()
      requires Valid()
      ensures reassembly == null <==> Received() == Range(0, msgLen)
    {
      if reassembly != null {
        AllSetMeansEveryPosition(reassembly[..], msgLen);
      }
    }

    /** dtls1_hm_fragment_mark: mark bytes from `start`, inclusive, to `end`, exclusive, as
        received, and release the bitmap if the message is now complete. */
    method Mark(start: nat, end: nat)
      requires Valid()
      modifies this`reassembly, reassembly
      ensures Valid()
      ensures reassembly == null || reassembly == old(reassembly)
      ensures Received() == old(if reassembly == null || start > end || end > msgLen then Received()
                                else Received() + Range(start, end))
      ensures reassembly == null <==> Received() == Range(0, msgLen)
    {
      CompleteIffAllReceived();
      if reassembly == null || start > end || end > msgLen {
        return;
      }
      if start == end {
        assert Range(start, end) == {};
        return;
      }
      var mask := reassembly;
      ghost var before := mask[..];
      SetBits(mask, start, end);
      PositionsGrow(before, mask[..], msgLen, start, end);
      AllSetMeansEveryPosition(mask[..], msgLen);
      var complete := CheckComplete(mask, msgLen);
      if complete {
        reassembly := null;
      }
    }

    /** The body of the loop in dtls1_open_handshake that takes in one fragment. */
    method AddFragment(fragOff: nat, body: seq<Byte>)
      requires Valid() && fragOff + |body| <= msgLen
      modifies data, this`reassembly, reassembly
      ensures Valid()
      ensures reassembly == null || reassembly == old(reassembly)
      ensures old(reassembly) == null ==> data[..] == old(data[..]) && reassembly == null
      ensures old(reassembly) != null ==>
                && data[..] == old(data[..])[..fragOff] + body + old(data[..])[fragOff + |body|..]
                && Received() == old(Received()) + Range(fragOff, fragOff + |body|)
      ensures reassembly == null <==> Received() == Range(0, msgLen)
    {
      CompleteIffAllReceived();
      if reassembly == null {
        return;
      }
      ghost var mask := reassembly[..];
      forall i | 0 <= i < |body| {
        data[fragOff + i] := body[i];
      }
      assert reassembly[..] == mask;
      assert data[..] == old(data[..])[..fragOff] + body + old(data[..])[fragOff + |body|..];
      Mark(fragOff, fragOff + |body|);
    }
  }

  /** The union of the ranges that lie within a message of length `n`. */
  function Union(ranges: seq<(nat, nat)>, n: nat): set<nat> {
    if |ranges| == 0 then {}
    else
      var (start, end) := ranges[|ranges| - 1];
      Union(ranges[..|ranges| - 1], n) + (if start <= end <= n then Range(start, end) else {})
  }

  lemma {:induction false} UnionInBounds(ranges: seq<(nat, nat)>, n: nat)
    ensures Union(ranges, n) <= Range(0, n)
  {
    if |ranges| > 0 {
      UnionInBounds(ranges[..|ranges| - 1], n);
    }
  }

  /** Whatever ranges are marked, overlapping, repeated or out of bounds, a message is complete
      exactly when their union covers it. */
  method MarkAll(frag: HmFragment, ranges: seq<(nat, nat)>)
    requires frag.Valid() && frag.Received() == {}
    modifies frag.footprint
    ensures frag.Valid() && frag.Received() == Union(ranges, frag.msgLen)
    ensures frag.reassembly == null <==> Union(ranges, frag.msgLen) == Range(0, frag.msgLen)
  {
    frag.CompleteIffAllReceived();
    for i := 0 to |ranges|
      invariant frag.Valid() && frag.Received() == Union(ranges[..i], frag.msgLen)
      invariant frag.reassembly == null <==> frag.Received() == Range(0, frag.msgLen)
    {
      assert ranges[..i + 1][..i] == ranges[..i];
      UnionInBounds(ranges[..i + 1], frag.msgLen);
      frag.Mark(ranges[i].0, ranges[i].1);
    }
    assert ranges[..|ranges|] == ranges;
  }
}
