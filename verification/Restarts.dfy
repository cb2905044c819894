/** The restart policy: backoff plus a sliding-window breaker (crates/engine/src/supervisor/policy.rs).
    Instants and durations are natural numbers on one monotone clock. */
module Restarts {
  import opened Backoff
  import opened Search

  datatype Decision = Allowed(delay: nat) | Open

  /** `duration_since`, which saturates at zero. */
  function Since(now: nat, earlier: nat): (elapsed: nat)
    ensures earlier <= now ==> earlier + elapsed == now
    ensures now <= earlier ==> elapsed == 0
  {
    if now >= earlier then now - earlier else 0
  }

  function Recent(now: nat, window: nat): nat -> bool { (attempt: nat) => Since(now, attempt) < window }

  /** The attempts still inside the window. */
  function Pruned(attempts: seq<nat>, now: nat, window: nat): (kept: seq<nat>)
    ensures |kept| <= |attempts|
  {
    Filter(attempts, Recent(now, window))
  }

  datatype RestartPolicy = RestartPolicy(backoff: Backoff, maxRestarts: nat, window: nat) {
    predicate Valid() { maxRestarts >= 1 }

    /** The answer for `inWindow` recent attempts. */
    function Judge(inWindow: nat): Decision {
      if inWindow >= maxRestarts then Open
      else if inWindow == 0 then Allowed(0)
      else Allowed(backoff.Delay(inWindow - 1))
    }

    method Decide(history: RestartHistory, now: nat) returns (decision: Decision)
      modifies history
      ensures history.attempts == Pruned(old(history.attempts), now, window)
      ensures decision == Judge(|history.attempts|)
    {
      var inWindow := history.CountInWindow(now, window);
      if inWindow >= maxRestarts {
        return Open;
      }
      if inWindow == 0 {
        return Allowed(0);
      }
      var delay := backoff.ComputeDelay(inWindow - 1);
      decision := Allowed(delay);
    }
  }

  /** A budget of zero is floored at one attempt, so that a policy bounds a crash loop without making it
      permanent: with nothing in the window an attempt is always allowed, and at once. */
  function NewPolicy(maxRestarts: nat, window: nat, base: nat, max: nat): (policy: RestartPolicy)
    ensures policy.Valid() && policy.window == window && policy.Judge(0) == Allowed(0)
    ensures maxRestarts > 0 ==> policy.maxRestarts == maxRestarts
  {
    RestartPolicy(Backoff(base, max), if maxRestarts == 0 then 1 else maxRestarts, window)
  }

  /** The breaker opens exactly on a full window. Before that the first attempt runs at once, and retry `k`
      waits the base delay doubled `k - 1` times, clamped, as far as the doubling loop gets there. */
  lemma JudgeExactly(policy: RestartPolicy, inWindow: nat)
    ensures policy.Judge(inWindow).Open? <==> inWindow >= policy.maxRestarts
    ensures inWindow < policy.maxRestarts && inWindow == 0 ==> policy.Judge(inWindow) == Allowed(0)
    ensures inWindow < policy.maxRestarts && inWindow >= 1 && policy.backoff.InRange()
            && policy.backoff.ReachesCap(inWindow - 1) ==>
              policy.Judge(inWindow) == Allowed(policy.backoff.ClampedPower(inWindow - 1))
  {
    if inWindow >= 1 && policy.backoff.InRange() { DelayIsClampedPower(policy.backoff, inWindow - 1); }
  }

  class RestartHistory {
    var attempts: seq<nat>

    constructor (attempts: seq<nat>)
      ensures this.attempts == attempts
    {
      this.attempts := attempts;
    }

    method Record(now: nat)
      modifies this
      ensures attempts == old(attempts) + [now]
    {
      attempts := attempts + [now];
    }

    method Prune(now: nat, window: nat)
      modifies this
      ensures attempts == Pruned(old(attempts), now, window)
    {
      var kept: seq<nat> := [];
      for i := 0 to |attempts|
        invariant attempts == old(attempts) && kept == Pruned(attempts[..i], now, window)
      {
        assert attempts[..i + 1][..i] == attempts[..i];
        if Since(now, attempts[i]) < window {
          kept := kept + [attempts[i]];
        }
      }
      assert attempts[..|attempts|] == attempts;
      attempts := kept;
    }

    method CountInWindow(now: nat, window: nat) returns (count: nat)
      modifies this
      ensures attempts == Pruned(old(attempts), now, window) && count == |attempts|
    {
      Prune(now, window);
      count := |attempts|;
    }
  }

  ghost predicate Sorted(times: seq<nat>) {
    forall i, j :: 0 <= i <= j < |times| ==> times[i] <= times[j]
  }

  /** Pruning a sorted history drops a prefix, all of it older than the window. */
  lemma PrunedIsRecentSuffix(attempts: seq<nat>, now: nat, window: nat) returns (k: nat)
    requires Sorted(attempts) && (attempts == [] || attempts[|attempts| - 1] <= now)
    ensures k <= |attempts| && Pruned(attempts, now, window) == attempts[k..]
    ensures forall i :: 0 <= i < |attempts| ==> (Since(now, attempts[i]) < window <==> k <= i)
  {
    k := FilterIsSuffix(attempts, Recent(now, window));
  }
}
