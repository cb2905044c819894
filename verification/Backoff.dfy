/** Capped exponential backoff (crates/engine/src/backoff.rs). Durations are whole nanoseconds. */
module Backoff {
  import opened Numbers

  /** The largest `Duration`: 2^64 - 1 seconds and 999999999 nanoseconds. */
  const DURATION_MAX: nat := 0xFFFF_FFFF_FFFF_FFFF * 1_000_000_000 + 999_999_999

  /** The doublings one delay makes at most. */
  const MAX_DOUBLINGS: nat := 64

  /** `delay * 2^n`, as `ScaledIsPower` shows. */
  function Scaled(delay: nat, n: nat): nat { if n == 0 then delay else 2 * Scaled(delay, n - 1) }

  /** `delay` doubled up to `steps` times, stopping at the cap or where the next doubling overflows. */
  function Doubled(delay: nat, max: nat, steps: nat): nat
    decreases steps
  {
    if steps == 0 || delay >= max || 2 * delay > DURATION_MAX then delay
    else Doubled(2 * delay, max, steps - 1)
  }

  datatype Backoff = Backoff(base: nat, max: nat) {
    function Delay(attempt: nat): nat { Min(Doubled(base, max, Min(attempt, MAX_DOUBLINGS)), max) }

    /** The loop that computes it. */
    method ComputeDelay(attempt: nat) returns (delay: nat)
      ensures delay == Delay(attempt)
    {
      delay := base;
      var steps := Min(attempt, MAX_DOUBLINGS);
      var i := 0;
      while i < steps
        invariant i <= steps && Doubled(base, max, steps) == Doubled(delay, max, steps - i)
      {
        if delay >= max { break; }
        if 2 * delay > DURATION_MAX { break; }
        delay := 2 * delay;
        i := i + 1;
      }
      delay := Min(delay, max);
    }

    predicate InRange() { base <= DURATION_MAX && max <= DURATION_MAX }

    function ClampedPower(attempt: nat): nat { Min(base * Pow2(attempt), max) }

    /** Doubling number `k` leaves the range of durations before the cap is reached. */
    predicate OverflowsAt(k: nat) { Scaled(base, k) < max && 2 * Scaled(base, k) > DURATION_MAX }

    /** No doubling overflows, and 64 of them reach the cap when more are asked for. */
    ghost predicate ReachesCap(attempt: nat) {
      base == 0 ||
      ((forall k :: 0 <= k < Min(attempt, MAX_DOUBLINGS) ==> !OverflowsAt(k)) &&
       (attempt <= MAX_DOUBLINGS || Scaled(base, MAX_DOUBLINGS) >= max))
    }
  }

  lemma {:induction false} ScaledIsPower(delay: nat, n: nat)
    ensures Scaled(delay, n) == delay * Pow2(n)
  {
    if n > 0 { ScaledIsPower(delay, n - 1); }
  }

  lemma {:induction false} ScaledTwice(delay: nat, n: nat)
    ensures Scaled(2 * delay, n) == Scaled(delay, n + 1)
  {
    if n > 0 { ScaledTwice(delay, n - 1); }
  }

  lemma {:induction false} ScaledGrows(delay: nat, m: nat, n: nat)
    requires m <= n
    ensures Scaled(delay, m) <= Scaled(delay, n) && (m < n ==> 2 * Scaled(delay, m) <= Scaled(delay, n))
    ensures delay == 0 <==> Scaled(delay, m) == 0
    decreases n
  {
    if m < n { ScaledGrows(delay, m, n - 1); } else if m > 0 { ScaledGrows(delay, m - 1, n - 1); }
  }

  /** Without an overflow the loop computes the clamped power. */
  lemma {:induction false} DoubledIsScaled(b: Backoff, steps: nat)
    requires forall k :: 0 <= k < steps ==> !b.OverflowsAt(k)
    ensures Min(Doubled(b.base, b.max, steps), b.max) == Min(Scaled(b.base, steps), b.max)
    decreases steps
  {
    ScaledGrows(b.base, 0, steps);
    if steps > 0 && b.base < b.max {
      assert !b.OverflowsAt(0);
      var next := Backoff(2 * b.base, b.max);
      forall k | 0 <= k < steps - 1 ensures !next.OverflowsAt(k) {
        ScaledTwice(b.base, k);
        assert !b.OverflowsAt(k + 1);
      }
      DoubledIsScaled(next, steps - 1);
      ScaledTwice(b.base, steps - 1);
    }
  }

  /** With one, it stops below the cap. */
  lemma {:induction false} OverflowStopsEarly(b: Backoff, steps: nat, k: nat)
    requires k < steps && b.OverflowsAt(k)
    ensures Doubled(b.base, b.max, steps) < b.max
    decreases k
  {
    ScaledGrows(b.base, 0, k);
    if k > 0 && 2 * b.base <= DURATION_MAX {
      ScaledTwice(b.base, k - 1);
      OverflowStopsEarly(Backoff(2 * b.base, b.max), steps - 1, k - 1);
    }
  }

  /** The delay is `base * 2^attempt` clamped to `max` exactly when no doubling overflows and the 64
      doublings the loop allows itself suffice. */
  lemma {:induction false} DelayIsClampedPower(b: Backoff, attempt: nat)
    requires b.InRange()
    ensures b.Delay(attempt) == b.ClampedPower(attempt) <==> b.ReachesCap(attempt)
  {
    ScaledIsPower(b.base, attempt);
    var steps := Min(attempt, MAX_DOUBLINGS);
    ScaledGrows(b.base, steps, attempt);
    if exists k :: 0 <= k < steps && b.OverflowsAt(k) {
      var k :| 0 <= k < steps && b.OverflowsAt(k);
      OverflowStopsEarly(b, steps, k);
      ScaledGrows(b.base, k, attempt);
    } else {
      DoubledIsScaled(b, steps);
    }
  }

  /** A huge attempt count returns `max` exactly when no doubling overflows and 64 of them reach it. */
  lemma {:induction false} HugeAttemptReturnsMaxExactly(b: Backoff, attempt: nat)
    requires attempt >= MAX_DOUBLINGS
    ensures b.Delay(attempt) == b.max <==>
            (forall k :: 0 <= k < MAX_DOUBLINGS ==> !b.OverflowsAt(k)) && Scaled(b.base, MAX_DOUBLINGS) >= b.max
  {
    if exists k :: 0 <= k < MAX_DOUBLINGS && b.OverflowsAt(k) {
      var k :| 0 <= k < MAX_DOUBLINGS && b.OverflowsAt(k);
      OverflowStopsEarly(b, MAX_DOUBLINGS, k);
    } else {
      DoubledIsScaled(b, MAX_DOUBLINGS);
    }
  }

  /** It can fall short either way: a zero base never grows, and a doubling that overflows stops the loop. */
  lemma HugeAttemptsFallShort()
    ensures Backoff(0, 1).Delay(1000) == 0
    ensures var half := DURATION_MAX / 2 + 1; Backoff(half, DURATION_MAX).Delay(1000) == half < DURATION_MAX
  {
    DelayIsClampedPower(Backoff(0, 1), 1000);
    assert 0 * Pow2(1000) == 0;
  }

  /** Whatever overflows, later attempts never wait less, and never more than the cap. */
  lemma DelayIsMonotone(b: Backoff, m: nat, n: nat)
    requires m <= n
    ensures b.Delay(m) <= b.Delay(n) <= b.max
  {
    DoubledGrows(b.base, b.max, Min(m, MAX_DOUBLINGS), Min(n, MAX_DOUBLINGS));
  }

  lemma {:induction false} DoubledGrows(delay: nat, max: nat, m: nat, n: nat)
    requires m <= n
    ensures delay <= Doubled(delay, max, m) <= Doubled(delay, max, n)
    decreases n
  {
    if m > 0 {
      DoubledGrows(2 * delay, max, m - 1, n - 1);
    } else if n > 0 {
      DoubledGrows(2 * delay, max, 0, n - 1);
    }
  }
}
