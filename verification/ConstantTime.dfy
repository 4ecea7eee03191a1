/** Branch-free masks, and the PKCS#1 padding check of an RSA premaster secret built from them
    (section 7.2.2 of RFC 3447 and section 7.4.7.1 of RFC 5246). */
module ConstantTime {

  const TRUE_W: bv64 := 0xffff_ffff_ffff_ffff
  const PREMASTER_LENGTH := 48   // SSL_MAX_MASTER_KEY_LENGTH

  // ---------- The mask functions, on 64-bit words ----------

  function Msb(a: bv64): (r: bv64)
    ensures r == if a >= 0x8000_0000_0000_0000 then TRUE_W else 0
  {
    0 - (a >> 63)
  }

  function IsZero(a: bv64): (r: bv64)
    ensures r == if a == 0 then TRUE_W else 0
  {
    Msb(!a & (a - 1))
  }

  function Eq(a: bv64, b: bv64): (r: bv64)
    ensures r == if a == b then TRUE_W else 0
  {
    IsZero(a ^ b)
  }

  function Select(mask: bv64, a: bv64, b: bv64): (r: bv64)
    ensures mask == TRUE_W ==> r == a
    ensures mask == 0 ==> r == b
  {
    (mask & a) | (!mask & b)
  }

  function IsZero8(a: bv8): (r: bv8)
    ensures r == if a == 0 then 0xff else 0
  {
    (IsZero(a as bv64) & 0xff) as bv8
  }

  function Eq8(a: bv8, b: bv8): (r: bv8)
    ensures r == if a == b then 0xff else 0
  {
    (Eq(a as bv64, b as bv64) & 0xff) as bv8
  }

  function Select8(mask: bv8, a: bv8, b: bv8): (r: bv8)
    ensures mask == 0xff ==> r == a
    ensures mask == 0 ==> r == b
  {
    (Select(mask as bv64, a as bv64, b as bv64) & 0xff) as bv8
  }

  // ---------- The padding check ----------

  /** An encoded message as section 7.2.2 of RFC 3447 defines it: 00 02, at least eight nonzero
      octets, 00, and the message. */
  ghost predicate EncodesMessage(em: seq<bv8>, m: seq<bv8>) {
    exists ps: seq<bv8> :: |ps| >= 8 && 0 !in ps && em == [0, 2] + ps + [0] + m
  }

  /** The block carries a premaster secret that begins with the client's version. */
  ghost predicate Acceptable(em: seq<bv8>, versionHigh: bv8, versionLow: bv8) {
    exists m: seq<bv8> :: EncodesMessage(em, m) && |m| == PREMASTER_LENGTH && m[0] == versionHigh && m[1] == versionLow
  }

  /** The same condition position by position. */
  predicate PaddingOk(em: seq<bv8>, versionHigh: bv8, versionLow: bv8)
    requires |em| >= 11 + PREMASTER_LENGTH
  {
    var paddingLen := |em| - PREMASTER_LENGTH;
    && em[0] == 0 && em[1] == 2
    && (forall i | 2 <= i < paddingLen - 1 :: em[i] != 0)
    && em[paddingLen - 1] == 0
    && em[paddingLen] == versionHigh && em[paddingLen + 1] == versionLow
  }

  /** What the masks let through is a block of section 7.2.2 of RFC 3447 with the version in front of
      its message. */
  lemma PaddingOkIsAcceptable(em: seq<bv8>, versionHigh: bv8, versionLow: bv8)
    requires |em| >= 11 + PREMASTER_LENGTH && PaddingOk(em, versionHigh, versionLow)
    ensures Acceptable(em, versionHigh, versionLow)
  {
    var n := |em| - PREMASTER_LENGTH;
    var ps, m := em[2..n - 1], em[n..];
    assert em == [0, 2] + ps + [0] + m;
    assert EncodesMessage(em, m);
  }

  /** Nor is anything refused that the plain check accepts; in particular no acceptable block is too
      short. */
  lemma AcceptableIsPaddingOk(em: seq<bv8>, versionHigh: bv8, versionLow: bv8)
    requires Acceptable(em, versionHigh, versionLow)
    ensures |em| >= 11 + PREMASTER_LENGTH && PaddingOk(em, versionHigh, versionLow)
  {
    var m: seq<bv8> :| EncodesMessage(em, m) && |m| == PREMASTER_LENGTH && m[0] == versionHigh && m[1] == versionLow;
    var ps: seq<bv8> :| |ps| >= 8 && 0 !in ps && em == [0, 2] + ps + [0] + m;
    var n := |em| - PREMASTER_LENGTH;
    assert |ps| == n - 3;
    forall i | 2 <= i < n - 1
      ensures em[i] != 0
    {
      assert em[i] == ps[i - 2];
    }
    assert em[n - 1] == 0 && em[n] == m[0] && em[n + 1] == m[1];
  }

  function And(a: bv8, b: bv8): (r: bv8)
    requires (a == 0 || a == 0xff) && (b == 0 || b == 0xff)
    ensures r == if a == 0xff && b == 0xff then 0xff else 0
  {
    a & b
  }

  function NotZero8(a: bv8): (r: bv8)
    ensures r == if a != 0 then 0xff else 0
  {
    !IsZero8(a)
  }

  /** The mask of the padding and version checks. */
  method CheckPadding(decryptBuf: array<bv8>, versionHigh: bv8, versionLow: bv8) returns (good: bv8)
    requires decryptBuf.Length >= 11 + PREMASTER_LENGTH
    ensures good == if PaddingOk(decryptBuf[..], versionHigh, versionLow) then 0xff else 0
  {
    hide And, NotZero8, Eq8, IsZero8;
    var paddingLen := decryptBuf.Length - PREMASTER_LENGTH;
    good := And(Eq8(decryptBuf[0], 0), Eq8(decryptBuf[1], 2));
    for i := 2 to paddingLen - 1
      invariant good == if decryptBuf[0] == 0 && decryptBuf[1] == 2 && (forall k | 2 <= k < i :: decryptBuf[k] != 0)
                        then 0xff else 0
    {
      good := And(good, NotZero8(decryptBuf[i]));
    }
    good := And(good, IsZero8(decryptBuf[paddingLen - 1]));
    good := And(good, Eq8(decryptBuf[paddingLen], versionHigh));
    good := And(good, Eq8(decryptBuf[paddingLen + 1], versionLow));
  }

  /** Keep or replace the whole premaster, octet by octet, without branching on the mask. */
  method SelectAll(good: bv8, decrypted: seq<bv8>, premaster: array<bv8>)
    requires |decrypted| == premaster.Length && (good == 0 || good == 0xff)
    modifies premaster
    ensures premaster[..] == if good == 0xff then decrypted else old(premaster[..])
  {
    hide Select8;
    for i := 0 to premaster.Length
      invariant forall k | i <= k < premaster.Length :: premaster[k] == old(premaster[k])
      invariant forall k | 0 <= k < i :: premaster[k] == if good == 0xff then decrypted[k] else old(premaster[k])
    {
      premaster[i] := Select8(good, decrypted[i], premaster[i]);
    }
  }

  /** The end of the RSA branch of do_read_client_key_exchange. `premaster` holds random octets, which
      stay unless the decrypted block is acceptable. */
  method SelectPremaster(decryptBuf: array<bv8>, premaster: array<bv8>, versionHigh: bv8, versionLow: bv8)
      returns (ok: bool)
    requires premaster.Length == PREMASTER_LENGTH && decryptBuf != premaster
    modifies premaster
    ensures ok <==> decryptBuf.Length >= 11 + PREMASTER_LENGTH
    ensures Acceptable(decryptBuf[..], versionHigh, versionLow) ==>
              ok && premaster[..] == decryptBuf[decryptBuf.Length - PREMASTER_LENGTH..]
    ensures !Acceptable(decryptBuf[..], versionHigh, versionLow) ==> premaster[..] == old(premaster[..])
  {
    hide PaddingOk, EncodesMessage;
    if Acceptable(decryptBuf[..], versionHigh, versionLow) {
      AcceptableIsPaddingOk(decryptBuf[..], versionHigh, versionLow);
    }
    if decryptBuf.Length < 11 + premaster.Length {
      return false;
    }
    if PaddingOk(decryptBuf[..], versionHigh, versionLow) {
      PaddingOkIsAcceptable(decryptBuf[..], versionHigh, versionLow);
    }
    var paddingLen := decryptBuf.Length - premaster.Length;
    var good := CheckPadding(decryptBuf, versionHigh, versionLow);
    SelectAll(good, decryptBuf[paddingLen..], premaster);
    return true;
  }
}
