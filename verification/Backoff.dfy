/**
 * Capped exponential backoff, shared by the guest's polling loop and the host's mutation loop,
 * and the virtual clock both of them wait on. Times are in milliseconds.
 */
module Backoff {
  const INITIAL_DELAY: nat := 25
  const MAX_DELAY: nat := 250
  const FACTOR: nat := 2

  /** nextPollDelay and nextRetryDelay. */
  function NextDelay(delay: nat): nat {
    var next := delay * FACTOR;
    if next > MAX_DELAY then MAX_DELAY else next
  }

  /** The delay after n doublings. */
  function Delay(n: nat): nat {
    if n == 0 then INITIAL_DELAY else NextDelay(Delay(n - 1))
  }

  /** The sum of the first n delays: the least time n full waits take. */
  function TotalWait(n: nat): nat {
    if n == 0 then 0 else TotalWait(n - 1) + Delay(n - 1)
  }

  /** The first n delays, in order. */
  function Delays(n: nat): seq<nat> { seq(n, i requires 0 <= i < n => Delay(i)) }

  lemma DelayNext(n: nat)
    requires n > 0
    ensures Delay(n) == NextDelay(Delay(n - 1)) && TotalWait(n) == TotalWait(n - 1) + Delay(n - 1)
    ensures Delay(n) > 0
  {
    DelayClosedForm(n);
    Pow2Positive(n);
  }

  lemma {:induction false} Pow2Positive(n: nat)
    ensures Pow2(n) > 0
  {
    if n > 0 {
      Pow2Positive(n - 1);
    }
  }

  lemma DelaysNothing()
    ensures Delays(0) == []
  {
  }

  lemma DelaysNext(n: nat)
    ensures Delays(n + 1) == Delays(n) + [Delay(n)]
  {
  }

  function Pow2(n: nat): nat { if n == 0 then 1 else 2 * Pow2(n - 1) }

  lemma {:induction false} Pow2AtLeast16(n: nat)
    requires n >= 4
    ensures Pow2(n) >= 16
  {
    if n > 4 {
      Pow2AtLeast16(n - 1);
    } else {
      assert Pow2(4) == 2 * Pow2(3) && Pow2(3) == 2 * Pow2(2) && Pow2(2) == 2 * Pow2(1);
    }
  }

  /** The n-th wait is min(25 * 2^n, 250), counting from zero. */
  lemma {:induction false} DelayClosedForm(n: nat)
    ensures Delay(n) == if 25 * Pow2(n) < 250 then 25 * Pow2(n) else 250
  {
    if n > 0 {
      DelayClosedForm(n - 1);
    }
  }

  /** From the fourth wait on, the total is exactly 375 + 250 * (n - 4). */
  lemma {:induction false} TotalWaitClosedForm(n: nat)
    requires n >= 4
    ensures TotalWait(n) == 375 + 250 * (n - 4)
  {
    if n == 4 {
      assert TotalWait(4) == TotalWait(3) + Delay(3) && TotalWait(3) == TotalWait(2) + Delay(2)
          && TotalWait(2) == TotalWait(1) + Delay(1) && TotalWait(1) == TotalWait(0) + Delay(0);
      assert Delay(1) == 50 && Delay(2) == 100 && Delay(3) == 200;
    } else {
      TotalWaitClosedForm(n - 1);
      Pow2AtLeast16(n - 1);
      DelayClosedForm(n - 1);
    }
  }

  lemma {:induction false} TotalWaitGrows(n: nat, m: nat)
    requires n <= m
    ensures TotalWait(n) <= TotalWait(m)
  {
    if n < m {
      TotalWaitGrows(n, m - 1);
    }
  }

  /** The most waits a call can begin in the time it has left. */
  function MaxWaits(left: int): nat {
    if left <= 0 then 0 else if left <= 375 then 4 else 5 + (left - 376) / 250
  }

  /**
   * If the last of n waits began in time, after the full length of the others, there were at most
   * MaxWaits; and at most 4 + (T - 375) / 250 waits end within a timeout of T >= 375 ms.
   */
  lemma WaitsBeforeDeadline(n: nat, left: int)
    ensures n > 0 && TotalWait(n - 1) < left ==> n <= MaxWaits(left)
    ensures left >= 375 && TotalWait(n) <= left ==> n <= 4 + (left - 375) / 250
  {
    if n > 4 {
      TotalWaitClosedForm(n - 1);
      TotalWaitClosedForm(n);
    }
  }

  /**
   * The clock of one call. A wait completes only if it began before the deadline, and then takes at
   * least its full delay; it may always fail, and must fail once the deadline has passed.
   */
  class Clock {
    const deadline: nat
    var now: nat
    ghost var waits: seq<nat>   // the delays asked for, completed or not

    constructor (now: nat, deadline: nat)
      ensures this.now == now && this.deadline == deadline && waits == []
    {
      this.now, this.deadline, waits := now, deadline, [];
    }

    /** Anything else that takes time. */
    method Pass()
      modifies this`now
      ensures now >= old(now)
    {
      var extra: int := *;
      if extra < 0 { extra := 0; }
      now := now + extra;
    }

    method Wait(delay: nat) returns (completed: bool)
      modifies this`now, this`waits
      ensures now >= old(now) && waits == old(waits) + [delay]
      ensures completed ==> old(now) < deadline && now >= old(now) + delay
    {
      var full: bool := *;
      completed := full && now < deadline;
      var extra: int := *;
      if extra < 0 { extra := 0; }
      now := now + extra + if completed then delay else 0;
      waits := waits + [delay];
    }
  }
}
