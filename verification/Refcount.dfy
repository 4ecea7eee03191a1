/** The lock-free reference count against its locked twin. Threads interleave at the granularity of
    single atomic accesses, and a weak compare-and-swap may fail spuriously. */
module Refcount {

  const MAX := 0xffff_ffff   // CRYPTO_REFCOUNT_MAX: a saturated count never changes again

  datatype Op = Inc | Dec

  // ---------- The locked implementation: one operation at a time ----------

  /** The count after an operation and what it returns (whether zero was reached); or an abort. */
  datatype Atomic = Returns(count: nat, reachedZero: bool) | Abort

  function Locked(op: Op, count: nat): Atomic {
    match op
    case Inc => Returns(if count < MAX then count + 1 else count, false)
    case Dec =>
      if count == 0 then Abort
      else
        var after := if count < MAX then count - 1 else count;
        Returns(after, after == 0)
  }

  /** One completed call: the operation and its result. */
  datatype Call = Call(op: Op, reachedZero: bool)

  /** `calls`, performed one after the other under the lock from `count`, give exactly these results
      and end at `final`. */
  predicate LockedHistory(count: nat, calls: seq<Call>, final: nat)
    decreases |calls|
  {
    if |calls| == 0 then count == final
    else
      var last := calls[|calls| - 1];
      exists mid: nat | mid <= MAX ::
        && LockedHistory(count, calls[..|calls| - 1], mid)
        && Locked(last.op, mid) == Returns(final, last.reachedZero)
  }

  lemma HistoryExtends(count: nat, calls: seq<Call>, mid: nat, c: Call, final: nat)
    requires LockedHistory(count, calls, mid) && mid <= MAX
    requires Locked(c.op, mid) == Returns(final, c.reachedZero)
    ensures LockedHistory(count, calls + [c], final)
  {
    var all := calls + [c];
    assert all[..|all| - 1] == calls;
    assert all[|all| - 1] == c;
    assert LockedHistory(count, all[..|all| - 1], mid) && Locked(c.op, mid) == Returns(final, c.reachedZero);
  }

  // ---------- The lock-free implementation ----------

  /** Where a thread is: outside, or in the retry loop holding the value it last read. */
  datatype Thread = Idle | Looping(op: Op, expected: nat)

  /** `calls` lists completed calls in the order of their linearization points. */
  datatype State = State(count: nat, threads: seq<Thread>, calls: seq<Call>, aborted: bool)

  /** One atomic access by one thread. */
  datatype Access =
    | Load(thread: nat, op: Op)                    // atomic_load on entry
    | CompareExchange(thread: nat, spurious: bool)

  /** A thread has just read `value`; the tests up to the next atomic access are local to it. */
  function Observe(s: State, i: nat, op: Op, value: nat): State
    requires i < |s.threads|
  {
    if op == Dec && value == 0 then s.(aborted := true)
    else if value == MAX then s.(threads := s.threads[i := Idle], calls := s.calls + [Call(op, false)])
    else s.(threads := s.threads[i := Looping(op, value)])
  }

  /** Accesses that a thread cannot make now change nothing; an abort ends the program. */
  function Step(s: State, a: Access): State {
    if s.aborted || a.thread >= |s.threads| then s
    else
      match a
      case Load(i, op) => if s.threads[i] == Idle then Observe(s, i, op, s.count) else s
      case CompareExchange(i, spurious) =>
        match s.threads[i]
        case Idle => s
        case Looping(op, expected) =>
          if s.count == expected && !spurious then
            var newValue := if op == Inc then expected + 1 else if expected > 0 then expected - 1 else 0;
            State(newValue, s.threads[i := Idle], s.calls + [Call(op, op == Dec && newValue == 0)], false)
          else Observe(s, i, op, s.count)
  }

  function Run(s: State, accesses: seq<Access>): State
    decreases |accesses|
  {
    if |accesses| == 0 then s else Run(Step(s, accesses[0]), accesses[1..])
  }

  ghost predicate Inv(start: nat, s: State) {
    && s.count <= MAX
    && (forall t <- s.threads :: t.Looping? ==> t.expected < MAX && (t.op == Dec ==> t.expected > 0))
    && LockedHistory(start, s.calls, s.count)
    && (s.aborted ==> s.count == 0)
  }

  lemma StepKeepsInv(start: nat, s: State, a: Access)
    requires Inv(start, s)
    ensures Inv(start, Step(s, a))
  {
    if !s.aborted && a.thread < |s.threads| {
      var i := a.thread;
      var op := if a.Load? then a.op else if s.threads[i].Looping? then s.threads[i].op else Inc;
      var s' := Step(s, a);
      if s'.calls != s.calls {
        HistoryExtends(start, s.calls, s.count, s'.calls[|s.calls|], s'.count);
      }
    }
  }

  lemma {:induction false} RunKeepsInv(start: nat, s: State, accesses: seq<Access>)
    requires Inv(start, s)
    ensures Inv(start, Run(s, accesses))
    decreases |accesses|
  {
    if |accesses| > 0 {
      StepKeepsInv(start, s, accesses[0]);
      RunKeepsInv(start, Step(s, accesses[0]), accesses[1..]);
    }
  }

  /** However the atomic accesses interleave and whichever exchanges fail spuriously, the completed
      calls and the count are those of the locked operations performed in some order; and an abort
      happens only where the locked decrement would abort. */
  lemma CompareExchangeRefinesLock(start: nat, threads: nat, accesses: seq<Access>)
    requires start <= MAX
    ensures var s := Run(State(start, seq(threads, _ => Idle), [], false), accesses);
            && LockedHistory(start, s.calls, s.count)
            && (s.aborted ==> Locked(Dec, s.count) == Abort)
  {
    RunKeepsInv(start, State(start, seq(threads, _ => Idle), [], false), accesses);
  }

  /** A thread that nobody disturbs gets what the lock would give it, in two accesses. */
  lemma AloneIsLocked(s: State, i: nat, op: Op)
    requires !s.aborted && s.count <= MAX && i < |s.threads| && s.threads[i] == Idle
    ensures var t := Run(s, [Load(i, op), CompareExchange(i, false)]);
            match Locked(op, s.count)
            case Abort => t == s.(aborted := true)
            case Returns(count, zero) => t == s.(count := count, calls := s.calls + [Call(op, zero)])
  {
    var both := [Load(i, op), CompareExchange(i, false)];
    var s1 := Step(s, both[0]);
    assert both[1..] == [both[1]] && both[1..][1..] == [];
    assert Run(s, both) == Run(s1, both[1..]) == Step(s1, both[1]);
    assert s.threads[i := Looping(op, s.count)][i := Idle] == s.threads;
    assert s.threads[i := Idle] == s.threads;
  }

  /** An exchange that does not fail spuriously leaves its call unfinished only when the count has changed since the
      thread last looked, so that some other call was completed. */
  lemma SomeCallCompletes(s: State, i: nat)
    requires !s.aborted && i < |s.threads| && s.threads[i].Looping?
    ensures var t := Step(s, CompareExchange(i, false));
            s.count == s.threads[i].expected ==>
              && t.threads == s.threads[i := Idle] && |t.calls| == |s.calls| + 1 && t.calls[..|s.calls|] == s.calls
              && t.calls[|s.calls|].op == s.threads[i].op
  {}

  // ---------- What the count is for ----------

  function Count(calls: seq<Call>, op: Op): nat {
    if |calls| == 0 then 0
    else Count(calls[..|calls| - 1], op) + (if calls[|calls| - 1].op == op then 1 else 0)
  }

  function Zeros(calls: seq<Call>): nat {
    if |calls| == 0 then 0
    else Zeros(calls[..|calls| - 1]) + (if calls[|calls| - 1].reachedZero then 1 else 0)
  }

  /** Every call is made by a holder of a reference: none follows the one that reached zero. */
  predicate NoneAfterZero(calls: seq<Call>) {
    forall i | 0 <= i < |calls| - 1 :: !calls[i].reachedZero
  }

  /** While the count stays below saturation, it is the number of references, and `reached zero` is
      reported exactly once, when the last reference goes. */
  lemma {:induction false} BalancedUseReachesZeroOnce(start: nat, calls: seq<Call>, final: nat)
    requires 0 < start && start + Count(calls, Inc) < MAX
    requires LockedHistory(start, calls, final) && NoneAfterZero(calls)
    ensures final == start + Count(calls, Inc) - Count(calls, Dec)
    ensures Zeros(calls) == if final == 0 then 1 else 0
  {
    if |calls| > 0 {
      var before := calls[..|calls| - 1];
      var last := calls[|calls| - 1];
      var mid: nat :| mid <= MAX && LockedHistory(start, before, mid) && Locked(last.op, mid) == Returns(final, last.reachedZero);
      BalancedUseReachesZeroOnce(start, before, mid);
      NoZeroWithoutReport(before);
    }
  }

  lemma {:induction false} NoZeroWithoutReport(calls: seq<Call>)
    requires forall c <- calls :: !c.reachedZero
    ensures Zeros(calls) == 0
  {
    if |calls| > 0 {
      NoZeroWithoutReport(calls[..|calls| - 1]);
    }
  }

  /** A count that has reached saturation stays there, and nobody is ever told that it reached zero. */
  lemma {:induction false} SaturationLasts(calls: seq<Call>, final: nat)
    requires LockedHistory(MAX, calls, final)
    ensures final == MAX && Zeros(calls) == 0
  {
    if |calls| > 0 {
      var before := calls[..|calls| - 1];
      var last := calls[|calls| - 1];
      var mid: nat :| mid <= MAX && LockedHistory(MAX, before, mid) && Locked(last.op, mid) == Returns(final, last.reachedZero);
      SaturationLasts(before, mid);
    }
  }

  /** The program is aborted exactly by a decrement of zero, and by no interleaving of the accesses otherwise. */
  lemma AbortsExactly(s: State, a: Access)
    requires !s.aborted
    ensures Step(s, a).aborted <==>
              && s.count == 0 && a.thread < |s.threads|
              && match a
                 case Load(i, op) => op == Dec && s.threads[i] == Idle
                 case CompareExchange(i, spurious) =>
                   s.threads[i].Looping? && s.threads[i].op == Dec && (spurious || s.threads[i].expected != 0)
  {}
}
