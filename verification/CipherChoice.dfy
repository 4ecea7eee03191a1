/** ssl3_choose_cipher: the loop over preference groups against a declarative choice. */
module CipherChoice {

  import opened Bytes

  /** What the loop looks at in a cipher suite. */
  datatype Cipher = Cipher(id: nat, minVersion: nat, maxVersion: nat, keyExchange: bv32, auth: bv32)

  /** The negotiated version and the key types the server can use. */
  datatype Setting = Setting(version: nat, maskK: bv32, maskA: bv32)

  /** Usable with the version and the server's keys. */
  predicate Usable(c: Cipher, s: Setting) {
    && c.minVersion <= s.version <= c.maxVersion
    && c.keyExchange & s.maskK != 0
    && c.auth & s.maskA != 0
  }

  /** sk_SSL_CIPHER_find: the first position of `c`. */
  function Find(list: seq<Cipher>, c: Cipher): (r: Option<nat>)
    ensures r.Some? <==> c in list
    ensures r.Some? ==> r.value < |list| && list[r.value] == c && c !in list[..r.value]
  {
    if |list| == 0 then None
    else if list[0] == c then Some(0)
    else
      match Find(list[1..], c)
      case None => None
      case Some(k) =>
        assert list[..k + 1] == [list[0]] + list[1..][..k];
        Some(k + 1)
  }

  /** A flag of 1 joins an entry to the next one in an equal-preference group. */
  predicate FlagsOk(prio: seq<Cipher>, inGroup: Option<seq<bool>>) {
    inGroup.Some? ==> |inGroup.value| == |prio| && (|prio| > 0 ==> !inGroup.value[|prio| - 1])
  }

  predicate Joined(inGroup: Option<seq<bool>>, i: nat)
    requires inGroup.Some? ==> i < |inGroup.value|
  {
    inGroup.Some? && inGroup.value[i]
  }

  predicate Acceptable(prio: seq<Cipher>, allow: seq<Cipher>, s: Setting, i: nat)
    requires i < |prio|
  {
    Usable(prio[i], s) && prio[i] in allow
  }

  /** [lo, hi) is a maximal group of equal preference. */
  predicate Group(prio: seq<Cipher>, inGroup: Option<seq<bool>>, lo: nat, hi: nat)
    requires FlagsOk(prio, inGroup)
  {
    && lo < hi <= |prio|
    && (lo > 0 ==> !Joined(inGroup, lo - 1))
    && !Joined(inGroup, hi - 1)
    && (forall i | lo <= i < hi - 1 :: Joined(inGroup, i))
  }

  /** `choice` is the position in `allow` the rules ask for: within the first group of `prio` that has
      an acceptable cipher, the acceptable cipher that comes earliest in `allow`. */
  ghost predicate IsChoice(prio: seq<Cipher>, inGroup: Option<seq<bool>>, allow: seq<Cipher>, s: Setting, choice: nat)
    requires FlagsOk(prio, inGroup)
  {
    exists lo: nat, hi: nat ::
      && Group(prio, inGroup, lo, hi)
      && (forall i | 0 <= i < lo :: !Acceptable(prio, allow, s, i))
      && BestIn(prio, allow, s, lo, hi, Some(choice))
  }

  /** `best` is the least position in `allow` of an acceptable entry of prio[lo..hi), if any. */
  ghost predicate BestIn(prio: seq<Cipher>, allow: seq<Cipher>, s: Setting, lo: nat, hi: nat, best: Option<nat>)
    requires hi <= |prio|
  {
    && (best.None? ==> forall i | lo <= i < hi :: !Acceptable(prio, allow, s, i))
    && (best.Some? ==>
          && best.value < |allow|
          && (exists i | lo <= i < hi :: Acceptable(prio, allow, s, i) && Find(allow, prio[i]) == best)
          && (forall i | lo <= i < hi && Acceptable(prio, allow, s, i) :: best.value <= Find(allow, prio[i]).value))
  }

  /** The cipher chosen is one that both sides have, for the version in use and with a key exchange and an
      authentication that the server has keys for. */
  lemma ChoiceFits(prio: seq<Cipher>, inGroup: Option<seq<bool>>, allow: seq<Cipher>, s: Setting, choice: nat)
    requires FlagsOk(prio, inGroup) && IsChoice(prio, inGroup, allow, s, choice)
    ensures choice < |allow| && allow[choice] in prio
    ensures var c := allow[choice];
            c.minVersion <= s.version && s.version <= c.maxVersion && c.keyExchange & s.maskK != 0 && c.auth & s.maskA != 0
  {
    var lo: nat, hi: nat :|
      && Group(prio, inGroup, lo, hi)
      && (forall i | 0 <= i < lo :: !Acceptable(prio, allow, s, i))
      && BestIn(prio, allow, s, lo, hi, Some(choice));
    var i :| lo <= i < hi && Acceptable(prio, allow, s, i) && Find(allow, prio[i]) == Some(choice);
  }

  /** And one that fits is acceptable. */
  lemma WhatFitsIsAcceptable(prio: seq<Cipher>, allow: seq<Cipher>, s: Setting, i: nat)
    requires i < |prio| && prio[i] in allow
    requires var c := prio[i];
             c.minVersion <= s.version && s.version <= c.maxVersion && c.keyExchange & s.maskK != 0 && c.auth & s.maskA != 0
    ensures Acceptable(prio, allow, s, i)
  {}

  /** The last entry never joins a next one. */
  lemma NoGroupIsOpen(prio: seq<Cipher>, inGroup: Option<seq<bool>>, lo: nat)
    requires FlagsOk(prio, inGroup) && lo <= |prio| && forall k | lo <= k < |prio| :: Joined(inGroup, k)
    ensures lo == |prio|
  {
    if |prio| > 0 {
      assert !Joined(inGroup, |prio| - 1);
    }
  }

  method ChooseCipher(prio: seq<Cipher>, inGroup: Option<seq<bool>>, allow: seq<Cipher>, s: Setting)
      returns (choice: Option<nat>)
    requires FlagsOk(prio, inGroup)
    ensures choice.None? <==> forall i | 0 <= i < |prio| :: !Acceptable(prio, allow, s, i)
    ensures choice.Some? ==> IsChoice(prio, inGroup, allow, s, choice.value)
  {
    hide Usable, Find;
    // The least position found so far in the current group.
    var groupMin: Option<nat> := None;
    ghost var lo: nat := 0;
    for i := 0 to |prio|
      invariant lo <= i && (inGroup.None? ==> groupMin.None?)
      invariant lo > 0 ==> lo <= |prio| && !Joined(inGroup, lo - 1)
      invariant forall k | lo <= k < i :: Joined(inGroup, k)
      invariant forall k | 0 <= k < lo :: !Acceptable(prio, allow, s, k)
      invariant BestIn(prio, allow, s, lo, i, groupMin)
    {
      var c := prio[i];
      var found := Find(allow, c);
      if Usable(c, s) && found.Some? {
        var cipherIndex := found.value;
        if Joined(inGroup, i) {
          if groupMin.None? || groupMin.value > cipherIndex {
            groupMin := Some(cipherIndex);
          }
        } else {
          if groupMin.Some? && groupMin.value < cipherIndex {
            cipherIndex := groupMin.value;
          }
          assert Group(prio, inGroup, lo, i + 1);
          assert Acceptable(prio, allow, s, i);
          assert BestIn(prio, allow, s, lo, i + 1, Some(cipherIndex));
          return Some(cipherIndex);
        }
      }
      if inGroup.Some? && !inGroup.value[i] && groupMin.Some? {
        assert Group(prio, inGroup, lo, i + 1);
        assert BestIn(prio, allow, s, lo, i + 1, groupMin);
        return groupMin;
      }
      if !Joined(inGroup, i) {
        lo := i + 1;
      }
    }
    NoGroupIsOpen(prio, inGroup, lo);
    choice := None;
  }
}
