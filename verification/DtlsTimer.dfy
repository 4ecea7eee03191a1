/** The retransmission timer of d1_lib.cc (section 4.2.4 of RFC 6347): when it fires, how the interval
    grows, and when the handshake is given up. */
module DtlsTimer {
  import opened Bytes

  const MAX_TIMEOUTS := 12
  const LONGEST := 60000
  const SECOND := 1000000
  const EARLY := 15000

  /** OPENSSL_timeval. All zero means that no timer runs. */
  datatype Time = Time(sec: nat, usec: nat)
  {
    predicate Valid() {
      usec < SECOND
    }

    function Micros(): nat {
      sec * SECOND + usec
    }
  }

  const UNSET := Time(0, 0)

  /** dtls1_double_timeout on a 32-bit number of milliseconds. */
  function Doubled(ms: nat): (r: nat)
    ensures r <= LONGEST
  {
    var twice := ms * 2 % 0x1_0000_0000;
    if twice > LONGEST then LONGEST else twice
  }

  /** The interval after k timeouts in a row. */
  function Interval(initial: nat, k: nat): nat {
    if k == 0 then initial else Doubled(Interval(initial, k - 1))
  }

  function Power(k: nat): (p: nat)
    ensures p >= 1
  {
    if k == 0 then 1 else 2 * Power(k - 1)
  }

  /** The interval doubles up to a minute, unless the first doubling wraps to less than that. */
  lemma {:induction false} IntervalDoubles(initial: nat, k: nat)
    requires initial < 0x1_0000_0000 && k > 0
    requires initial < 0x8000_0000 || initial >= 0x8000_0000 + LONGEST / 2
    ensures Interval(initial, k) == Min(initial * Power(k), LONGEST)
  {
    hide Doubled, Power, Min;
    PowerStep(k - 1);
    Twice(initial, Power(k - 1));
    if k == 1 {
      FirstDoubling(initial);
    } else {
      IntervalDoubles(initial, k - 1);
      LaterDoubling(initial * Power(k - 1));
    }
  }

  lemma PowerStep(k: nat)
    ensures Power(k + 1) == 2 * Power(k) && Power(0) == 1
  {}

  lemma FirstDoubling(initial: nat)
    requires initial < 0x8000_0000 || 0x8000_0000 + LONGEST / 2 <= initial < 0x1_0000_0000
    ensures Doubled(initial) == Min(2 * initial, LONGEST)
  {}

  lemma LaterDoubling(m: nat)
    ensures Doubled(Min(m, LONGEST)) == Min(2 * m, LONGEST)
  {}

  lemma Twice(a: nat, p: nat)
    ensures a * (2 * p) == 2 * (a * p)
  {}

  /** The condition is exact: the caller sets the initial interval freely. */
  lemma IntervalDoublesExactly(initial: nat)
    requires initial < 0x1_0000_0000
    ensures (forall k: nat :: k > 0 ==> Interval(initial, k) == Min(initial * Power(k), LONGEST))
            <==> initial < 0x8000_0000 || initial >= 0x8000_0000 + LONGEST / 2
  {
    if initial < 0x8000_0000 || initial >= 0x8000_0000 + LONGEST / 2 {
      forall k: nat | k > 0
        ensures Interval(initial, k) == Min(initial * Power(k), LONGEST)
      {
        IntervalDoubles(initial, k);
      }
    } else {
      assert Interval(initial, 1) == Doubled(Interval(initial, 0)) < LONGEST;
      assert Power(1) == 2 * Power(0);
    }
  }

  /** DTLS1_STATE's timer fields and the initial interval of the connection. */
  class Timer {
    const initialMs: nat
    var nextTimeout: Time
    var durationMs: nat
    var numTimeouts: nat

    ghost predicate Valid()
      reads this
    {
      nextTimeout.Valid() && durationMs < 0x1_0000_0000 && initialMs < 0x1_0000_0000
    }

    /** The timer has been started and has fired n times since. */
    ghost predicate After(n: nat)
      reads this
    {
      Valid() && nextTimeout != UNSET && numTimeouts == n && durationMs == Interval(initialMs, n)
    }

    constructor (initialMs: nat)
      requires initialMs < 0x1_0000_0000
      ensures Valid() && nextTimeout == UNSET && numTimeouts == 0 && this.initialMs == initialMs
    {
      this.initialMs := initialMs;
      nextTimeout, durationMs, numTimeouts := UNSET, initialMs, 0;
    }

    /** dtls1_start_timer. */
    method Start(now: Time)
      requires Valid() && now.Valid()
      modifies this`nextTimeout, this`durationMs
      ensures Valid() && nextTimeout.Micros() == now.Micros() + 1000 * durationMs
      ensures durationMs == if old(nextTimeout) == UNSET then initialMs else old(durationMs)
    {
      if nextTimeout == UNSET {
        durationMs := initialMs;
      }
      var sec := now.sec + durationMs / 1000;
      var usec := now.usec + durationMs % 1000 * 1000;
      if usec >= SECOND {
        sec, usec := sec + 1, usec - SECOND;
      }
      nextTimeout := Time(sec, usec);
    }

    /** dtls1_stop_timer. */
    method Stop()
      requires Valid()
      modifies this
      ensures Valid() && nextTimeout == UNSET && numTimeouts == 0 && durationMs == initialMs
    {
      nextTimeout, durationMs, numTimeouts := UNSET, initialMs, 0;
    }

    /** DTLSv1_get_timeout: the time left, taken for none when it is less than 15 milliseconds. */
    method GetTimeout(now: Time) returns (running: bool, left: Time)
      requires Valid() && now.Valid()
      ensures running == (nextTimeout != UNSET) && left.Valid()
      ensures running ==> left.Micros()
                          == if nextTimeout.Micros() < now.Micros() + EARLY then 0 else nextTimeout.Micros() - now.Micros()
    {
      if nextTimeout == UNSET {
        return false, UNSET;
      }
      if nextTimeout.sec < now.sec || (nextTimeout.sec == now.sec && nextTimeout.usec <= now.usec) {
        return true, UNSET;
      }
      var sec := nextTimeout.sec - now.sec;
      var usec: nat;
      if nextTimeout.usec >= now.usec {
        usec := nextTimeout.usec - now.usec;
      } else {
        usec := SECOND + nextTimeout.usec - now.usec;
        sec := sec - 1;
      }
      if sec == 0 && usec < EARLY {
        return true, UNSET;
      }
      return true, Time(sec, usec);
    }

    /** dtls1_check_timeout_num, without the query for a smaller MTU. */
    method CheckTimeoutNum() returns (ok: bool)
      requires Valid()
      modifies this`numTimeouts
      ensures Valid() && numTimeouts == old(numTimeouts) + 1 && ok == (numTimeouts <= MAX_TIMEOUTS)
    {
      numTimeouts := numTimeouts + 1;
      ok := numTimeouts <= MAX_TIMEOUTS;
    }

    /** DTLSv1_handle_timeout up to the retransmission itself, which a result of 1 calls for. The
        handshake is given up at the thirteenth timeout in a row. */
    method HandleTimeout(now: Time) returns (ret: int)
      requires Valid() && now.Valid()
      modifies this
      ensures Valid()
      ensures ret == 0 <==> old(nextTimeout) == UNSET || old(nextTimeout).Micros() >= now.Micros() + EARLY
      ensures ret == 0 ==> nextTimeout == old(nextTimeout) && durationMs == old(durationMs) && numTimeouts == old(numTimeouts)
      ensures ret == -1 <==> ret != 0 && old(numTimeouts) >= MAX_TIMEOUTS
      ensures ret == 0 || ret == -1 || ret == 1
      ensures ret == -1 ==> nextTimeout == old(nextTimeout) && durationMs == old(durationMs)
      ensures ret == 1 ==> durationMs == Doubled(old(durationMs))
      ensures ret == 1 ==> numTimeouts == old(numTimeouts) + 1 && nextTimeout.Micros() == now.Micros() + 1000 * durationMs
      ensures ret == 1 && old(After(numTimeouts)) && now != UNSET ==> After(old(numTimeouts) + 1)
    {
      var running, left := GetTimeout(now);
      if !running || left.sec > 0 || left.usec > 0 {
        return 0;
      }
      var ok := CheckTimeoutNum();
      if !ok {
        return -1;
      }
      durationMs := Doubled(durationMs);
      Start(now);
      return 1;
    }
  }
}
