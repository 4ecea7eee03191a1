/** The write side of the DTLS record layer: epochs and 48-bit record counters. A record number
    is never used twice until a counter or the epoch overflows (section 4.1 of RFC 6347). */
module DtlsRecordWriter {

  const RECORD_HEADER_LENGTH := 13   // DTLS1_RT_HEADER_LENGTH

  /** The cipher is a black box that adds at most `maxOverhead` octets. */
  datatype Aead = Aead(maxOverhead: nat, nonceLen: nat)

  /** No two records sealed so far share an epoch and counter, and none has a number still to come. */
  ghost predicate Fresh(numbers: seq<(nat, nat)>, epoch: nat, current: nat, previous: nat) {
    && (forall i, j | 0 <= i < j < |numbers| :: numbers[i] != numbers[j])
    && (forall i | 0 <= i < |numbers| ::
          && numbers[i].0 <= epoch
          && (numbers[i].0 == epoch ==> numbers[i].1 < current)
          && (numbers[i].0 + 1 == epoch ==> numbers[i].1 < previous))
  }

  lemma FreshAfterSeal(numbers: seq<(nat, nat)>, epoch: nat, current: nat, previous: nat, usePrevious: bool)
    requires Fresh(numbers, epoch, current, previous) && (usePrevious ==> epoch >= 1)
    ensures var n := if usePrevious then (epoch - 1, previous) else (epoch, current);
            && n !in numbers
            && Fresh(numbers + [n], epoch, if usePrevious then current else current + 1,
                     if usePrevious then previous + 1 else previous)
  {}

  lemma FreshAfterNewEpoch(numbers: seq<(nat, nat)>, epoch: nat, current: nat, previous: nat)
    requires Fresh(numbers, epoch, current, previous)
    ensures Fresh(numbers, epoch + 1, 0, current)
  {}

  class RecordWriter {
    const ideal: bool                            // sealing never fails
    var writeSequence: nat              // the 48-bit counter of the current write epoch
    var lastWriteSequence: nat          // ... and of the previous one
    var aead: Aead
    var lastAead: Aead
    var wEpoch: nat

    ghost var sealedNumbers: seq<(nat, nat)>     // epoch and counter of every record sealed
    ghost var wrapped: bool                      // a counter or the epoch has overflowed

    ghost predicate Valid()
      reads this
    {
      && wEpoch < 0x1_0000
      && writeSequence < 0x1_0000_0000_0000 && lastWriteSequence < 0x1_0000_0000_0000
      && aead.nonceLen <= aead.maxOverhead && lastAead.nonceLen <= lastAead.maxOverhead
      && (!wrapped ==> Fresh(sealedNumbers, wEpoch, writeSequence, lastWriteSequence))
    }

    constructor (ideal: bool, aead: Aead)
      requires aead.nonceLen <= aead.maxOverhead
      ensures Valid() && sealedNumbers == [] && !wrapped
      ensures wEpoch == 0 && this.aead == aead && this.ideal == ideal
    {
      this.ideal := ideal;
      writeSequence, lastWriteSequence, this.aead, lastAead := 0, 0, aead, aead;
      wEpoch, sealedNumbers, wrapped := 0, [], false;
    }

    /** get_write_aead: the cipher of the current or the previous epoch. */
    function Cipher(usePrevious: bool): Aead
      reads this
    {
      if usePrevious then lastAead else aead
    }

    /** dtls1_set_write_state. */
    method SetWriteState(newAead: Aead)
      requires Valid() && newAead.nonceLen <= newAead.maxOverhead
      modifies this
      ensures Valid()
      ensures wEpoch == (old(wEpoch) + 1) % 0x1_0000 && aead == newAead && lastAead == old(aead)
      ensures lastWriteSequence == old(writeSequence) && writeSequence == 0
      ensures wrapped <==> old(wrapped) || wEpoch == 0
      ensures sealedNumbers == old(sealedNumbers)
    {
      if !wrapped {
        FreshAfterNewEpoch(sealedNumbers, wEpoch, writeSequence, lastWriteSequence);
      }
      wEpoch := (wEpoch + 1) % 0x1_0000;
      lastWriteSequence, writeSequence := writeSequence, 0;
      lastAead, aead := aead, newAead;
      wrapped := wrapped || wEpoch == 0;
    }

    /** dtls_seal_record. The cipher may fail; a counter that wraps also fails the call, after its
        last value has been used. */
    method SealRecord(usePrevious: bool, inLen: nat, maxOut: nat) returns (ok: bool, outLen: nat)
      requires Valid() && (usePrevious ==> wEpoch >= 1)
      modifies this`writeSequence, this`lastWriteSequence, this`sealedNumbers, this`wrapped
      ensures Valid() && old(sealedNumbers) <= sealedNumbers
      ensures if usePrevious then writeSequence == old(writeSequence) else lastWriteSequence == old(lastWriteSequence)
      ensures old(wrapped) ==> wrapped
      ensures maxOut < RECORD_HEADER_LENGTH ==>
                !ok && writeSequence == old(writeSequence) && lastWriteSequence == old(lastWriteSequence) && sealedNumbers == old(sealedNumbers)
      ensures wrapped ==> old(wrapped) || old(if usePrevious then lastWriteSequence else writeSequence) == 0xffff_ffff_ffff
      ensures ok ==> RECORD_HEADER_LENGTH + inLen <= outLen <= RECORD_HEADER_LENGTH + inLen + Cipher(usePrevious).maxOverhead
      ensures ok ==> sealedNumbers == old(sealedNumbers) +
                       [if usePrevious then (wEpoch - 1, old(lastWriteSequence)) else (wEpoch, old(writeSequence))]
      ensures ideal && maxOut >= RECORD_HEADER_LENGTH && inLen + Cipher(usePrevious).maxOverhead < 0x1_0000 ==> ok || wrapped
      ensures ok && !wrapped ==> sealedNumbers[|sealedNumbers| - 1] !in old(sealedNumbers)
    {
      hide Fresh;
      if maxOut < RECORD_HEADER_LENGTH {
        return false, 0;
      }
      var sealed: bool := *;
      if !ideal && !sealed {
        return false, 0;
      }
      if !wrapped {
        FreshAfterSeal(sealedNumbers, wEpoch, writeSequence, lastWriteSequence, usePrevious);
      }
      var next: nat;
      if usePrevious {
        sealedNumbers := sealedNumbers + [(wEpoch - 1, lastWriteSequence)];
        next := (lastWriteSequence + 1) % 0x1_0000_0000_0000;
        lastWriteSequence := next;
      } else {
        sealedNumbers := sealedNumbers + [(wEpoch, writeSequence)];
        next := (writeSequence + 1) % 0x1_0000_0000_0000;
        writeSequence := next;
      }
      if next == 0 {
        wrapped := true;
        return false, 0;
      }
      var overhead := Cipher(usePrevious).maxOverhead;
      var ciphertextLen: nat :| inLen <= ciphertextLen <= inLen + overhead;
      if ciphertextLen >= 0x1_0000 {
        return false, 0;
      }
      return true, RECORD_HEADER_LENGTH + ciphertextLen;
    }
  }
}
