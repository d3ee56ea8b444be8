/** The busy handler's back-off: growing delays while a lock is taken, until the
    configured total is used up. Durations are in nanoseconds. */
module Busy {
  import opened Common

  const MS: nat := 1_000_000
  const I32_MAX: int := 0x7fff_ffff

  const DELAYS: seq<nat> := [1, 2, 5, 10, 15, 20, 25, 25, 25, 50, 50, 100]
  const TOTALS: seq<nat> := [0, 1, 3, 8, 18, 33, 53, 78, 103, 128, 178, 228]

  function Min(x: nat, y: nat): nat { if x <= y then x else y }

  /** `n as u32`. */
  function AsU32(n: nat): nat { n % 0x1_0000_0000 }

  function DelayAt(iteration: nat): nat { DELAYS[Min(iteration, 11)] * MS }

  /** The time already granted, as the source computes it from its tables. */
  function Prior(iteration: nat): nat
    requires iteration <= I32_MAX
  {
    var total := TOTALS[Min(iteration, 11)] * MS;
    if iteration >= 12 then total + DelayAt(iteration) * (AsU32(iteration) - 11) else total
  }

  /** The delay granted at an iteration, or None when the time is used up. */
  function Grant(max: nat, iteration: nat): Option<nat>
    requires iteration <= I32_MAX
  {
    var delay, prior := DelayAt(iteration), Prior(iteration);
    if prior + delay > max then
      (if max <= prior then None else Some(max - prior))
    else Some(delay)
  }

  datatype Handler = NoHandler | Timeout(max: nat) | Custom(callback: int -> int)

  class BusyHandlerState {
    var invocationCount: int
    var timeout: nat
    var iteration: nat

    ghost predicate Valid()
      reads this
    {
      iteration <= invocationCount <= I32_MAX
    }

    constructor (now: nat)
      ensures Valid() && iteration == invocationCount == 0 && timeout == now
    {
      invocationCount, timeout, iteration := 0, now, 0;
    }

    method Reset(now: nat)
      modifies this
      ensures Valid() && iteration == invocationCount == 0 && timeout == now
    {
      invocationCount := 0;
      timeout := now;
      iteration := 0;
    }

    /** The count is an i32, which overflows after 2^31 - 1 invocations; a refusal does not count. */
    method Invoke(handler: Handler, now: nat) returns (retry: bool)
      requires Valid()
      requires handler.Custom? ==> invocationCount < I32_MAX
      requires handler.Timeout? && Grant(handler.max, iteration).Some? ==> invocationCount < I32_MAX
      modifies this
      ensures Valid()
      ensures handler.NoHandler? ==> !retry && unchanged(this)
      ensures handler.Timeout? ==>
                var granted := Grant(handler.max, old(iteration));
                && retry == granted.Some?
                && (if retry then
                      timeout == now + granted.value && iteration == old(iteration) + 1
                      && invocationCount == old(invocationCount) + 1
                    else unchanged(this))
      ensures handler.Custom? ==>
                && retry == (handler.callback(old(invocationCount)) != 0)
                && invocationCount == old(invocationCount) + 1 && iteration == old(iteration)
                && timeout == if retry then now + MS else old(timeout)
    {
      match handler
      case NoHandler => retry := false;
      case Timeout(max) => retry := InvokeTimeoutHandler(max, now);
      case Custom(callback) =>
        var result := callback(invocationCount);
        invocationCount := invocationCount + 1;
        if result != 0 {
          timeout := now + MS;
          retry := true;
        } else {
          retry := false;
        }
    }

    method InvokeTimeoutHandler(max: nat, now: nat) returns (retry: bool)
      requires Valid() && (Grant(max, iteration).Some? ==> invocationCount < I32_MAX)
      modifies this
      ensures Valid()
      ensures var granted := Grant(max, old(iteration));
              && retry == granted.Some?
              && (if retry then
                    timeout == now + granted.value && iteration == old(iteration) + 1
                    && invocationCount == old(invocationCount) + 1
                  else unchanged(this))
    {
      var idx := Min(iteration, 11);
      var delay := DELAYS[idx] * MS;
      var prior := TOTALS[idx] * MS;
      if iteration >= 12 {
        prior := prior + delay * (AsU32(iteration) - 11);
      }
      if prior + delay > max {
        delay := if max <= prior then 0 else max - prior;
        if delay == 0 {
          return false;
        }
      }
      iteration := iteration + 1;
      invocationCount := invocationCount + 1;
      timeout := now + delay;
      retry := true;
    }

    method GetDelay(now: nat) returns (d: nat)
      ensures if now >= timeout then d == 0 else now + d == timeout
    {
      d := if now >= timeout then 0 else timeout - now;
    }
  }

  // ---------- Whole runs from a reset ----------

  /** The schedule itself: the delays of the first n iterations. */
  function SumDelays(n: nat): nat { if n == 0 then 0 else SumDelays(n - 1) + DelayAt(n - 1) }

  lemma {:induction false} PriorIsSum(n: nat)
    requires n <= I32_MAX
    ensures Prior(n) == SumDelays(n)
    ensures n >= 11 ==> SumDelays(n) == (228 + 100 * (n - 11)) * MS
  {
    if n == 0 {
      assert SumDelays(0) == 0;
    } else if n > 12 {
      PriorIsSum(n - 1);
      SumNext(n - 1);
      hide SumDelays;
      assert DelayAt(n) == DelayAt(n - 1) == 100 * MS;
    } else {
      PriorIsSum(n - 1);
      SumNext(n - 1);
      hide SumDelays;
      TableStep(n);
    }
  }

  /** The two tables agree with each other. */
  lemma TableStep(n: nat)
    requires 0 < n <= 12
    ensures Prior(n) == Prior(n - 1) + DelayAt(n - 1)
    ensures n == 11 ==> Prior(n) == 228 * MS
    ensures n == 12 ==> Prior(n) == 328 * MS
  {
    var t := TOTALS + [328];
    assert t[n] == t[n - 1] + DELAYS[n - 1];
  }

  lemma {:induction false} SumGrows(m: nat, n: nat)
    requires m <= n
    ensures SumDelays(m) + (n - m) * MS <= SumDelays(n)
    decreases n
  {
    if m < n {
      SumGrows(m, n - 1);
      DelayPositive(n - 1);
    }
  }

  /** The tables grant the next delay of the schedule, cut off at the timeout. */
  lemma GrantFollowsSchedule(max: nat, n: nat)
    requires n <= I32_MAX
    ensures Grant(max, n) ==
            if max <= SumDelays(n) then None else Some(Min(DelayAt(n), max - SumDelays(n)))
  {
    hide Prior, SumDelays, DelayAt;
    PriorIsSum(n);
    DelayPositive(n);
  }

  lemma DelayPositive(n: nat)
    ensures DelayAt(n) >= MS
  {
    assert DELAYS[Min(n, 11)] >= 1;
  }

  /** The delays grow from one millisecond to a tenth of a second. */
  lemma {:induction false} DelaysGrow(m: nat, n: nat)
    requires m <= n
    ensures MS == DelayAt(0) <= DelayAt(m) <= DelayAt(n) <= 100 * MS
    decreases n - m
  {
    if m < n {
      DelaysGrow(m + 1, n);
      assert m < 11 ==> DELAYS[m] <= DELAYS[m + 1];
    } else {
      assert DELAYS[Min(n, 11)] <= 100;
    }
  }

  lemma SumNext(n: nat)
    ensures SumDelays(n + 1) == SumDelays(n) + DelayAt(n)
  {
  }

  /** The iteration reached after n invocations with one timeout. */
  function Reached(max: nat, n: nat): (k: nat)
    requires n <= I32_MAX
    ensures k <= n
  {
    if n == 0 then 0
    else
      var k := Reached(max, n - 1);
      if Grant(max, k).Some? then k + 1 else k
  }

  /** The sum of the delays granted in n invocations. */
  function Waited(max: nat, n: nat): nat
    requires n <= I32_MAX
  {
    if n == 0 then 0
    else
      var granted := Grant(max, Reached(max, n - 1));
      Waited(max, n - 1) + if granted.Some? then granted.value else 0
  }

  lemma GrantAddsUp(max: nat, n: nat)
    requires n < I32_MAX
    ensures var granted := Grant(max, n);
            if granted.Some? then Min(max, SumDelays(n)) + granted.value == Min(max, SumDelays(n + 1))
            else SumDelays(n) >= max
  {
    hide Grant, DelayAt, SumDelays;
    GrantFollowsSchedule(max, n);
    SumNext(n);
  }

  lemma {:induction false} WaitedTotal(max: nat, n: nat)
    requires n <= I32_MAX
    ensures Waited(max, n) == Min(max, SumDelays(Reached(max, n)))
    ensures Reached(max, n) == n || SumDelays(Reached(max, n)) >= max
  {
    hide Grant, SumDelays, DelayAt;
    if n == 0 {
      NothingYet();
    } else {
      WaitedTotal(max, n - 1);
      GrantAddsUp(max, Reached(max, n - 1));
      GrantFollowsSchedule(max, Reached(max, n - 1));
    }
  }

  lemma NothingYet()
    ensures SumDelays(0) == 0
  {
  }

  /** After n invocations the granted delays are the schedule's first n, cut off
      at the timeout; the next one is refused exactly when the time is used up,
      and then so are all later ones. */
  lemma WaitsExactly(max: nat, n: nat)
    requires n <= I32_MAX
    ensures Waited(max, n) == Min(max, SumDelays(n))
    ensures Grant(max, Reached(max, n)).None? <==> Waited(max, n) == max
    ensures n < I32_MAX && Waited(max, n) == max ==>
              Reached(max, n + 1) == Reached(max, n) && Waited(max, n + 1) == max
  {
    WaitedTotal(max, n);
    hide Grant, DelayAt, SumDelays;
    var iteration := Reached(max, n);
    GrantFollowsSchedule(max, iteration);
    SumGrows(iteration, n);
  }

  /** Every run with a timeout up to the sum of the first 2^31 - 1 delays ends in
      a refusal after granting exactly the timeout; for any longer timeout the
      invocation counter reaches its limit while there is still time to grant. */
  lemma RefusalReachedIff(max: nat)
    ensures Grant(max, Reached(max, I32_MAX)).None? <==> max <= 214_748_363_828 * MS
    ensures max <= 214_748_363_828 * MS ==> Waited(max, I32_MAX) == max
    ensures max > 214_748_363_828 * MS ==> Reached(max, I32_MAX) == I32_MAX
  {
    hide Grant, DelayAt, SumDelays, Reached, Waited;
    WaitsExactly(max, I32_MAX);
    WaitedTotal(max, I32_MAX);
    PriorIsSum(I32_MAX);
    SumGrows(Reached(max, I32_MAX), I32_MAX);
  }

  /** The refusal comes within one invocation per millisecond of the timeout. */
  lemma RefusedWithin(max: nat)
    requires max / MS + 1 <= I32_MAX
    ensures Waited(max, max / MS + 1) == max
  {
    hide Waited;
    var n := max / MS + 1;
    SumGrows(0, n);
    assert n * MS >= max;
    WaitsExactly(max, n);
  }
}
