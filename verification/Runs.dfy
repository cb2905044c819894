/**
 Runs of the state machines in this project: a machine is a total step function, a run is the
 sequence of events it took, and an environment is a predicate on one state and its next event.
 */
module Runs {

  function Run<S, E>(step: (S, E) -> S, start: S, evs: seq<E>): S
    decreases |evs|
  {
    if evs == [] then start else step(Run(step, start, evs[..|evs| - 1]), evs[|evs| - 1])
  }

  /** Every event is legal in the state it meets. */
  ghost predicate LegalRun<S, E>(step: (S, E) -> S, legal: (S, E) -> bool, start: S, evs: seq<E>) {
    forall i :: 0 <= i < |evs| ==> legal(Run(step, start, evs[..i]), evs[i])
  }

  /** What the first state satisfies and every legal step keeps holds after every legal run. */
  lemma {:induction false} Invariant<S(!new), E(!new)>(
      step: (S, E) -> S, legal: (S, E) -> bool, inv: S -> bool, start: S, evs: seq<E>)
    requires inv(start) && LegalRun(step, legal, start, evs)
    requires forall st, ev :: inv(st) && legal(st, ev) ==> inv(step(st, ev))
    ensures inv(Run(step, start, evs))
    decreases |evs|
  {
    if evs != [] {
      LegalPrefix(step, legal, start, evs);
      Invariant(step, legal, inv, start, evs[..|evs| - 1]);
    }
  }

  lemma LegalPrefix<S, E>(step: (S, E) -> S, legal: (S, E) -> bool, start: S, evs: seq<E>)
    requires evs != [] && LegalRun(step, legal, start, evs)
    ensures LegalRun(step, legal, start, evs[..|evs| - 1])
    ensures legal(Run(step, start, evs[..|evs| - 1]), evs[|evs| - 1])
  {
    var init := evs[..|evs| - 1];
    forall i | 0 <= i < |init| ensures legal(Run(step, start, init[..i]), init[i]) {
      assert init[..i] == evs[..i];
    }
  }

  /** The property holds after the run and after each of its beginnings. */
  ghost predicate AllAlong<S, E>(step: (S, E) -> S, good: S -> bool, start: S, evs: seq<E>)
    decreases |evs|
  {
    good(Run(step, start, evs)) && (evs != [] ==> AllAlong(step, good, start, evs[..|evs| - 1]))
  }

  lemma LegalLast<S, E>(step: (S, E) -> S, legal: (S, E) -> bool, start: S, evs: seq<E>)
    requires evs != []
    ensures var n := |evs| - 1;
            LegalRun(step, legal, start, evs)
            <==> LegalRun(step, legal, start, evs[..n]) && legal(Run(step, start, evs[..n]), evs[n])
  {
    var init := evs[..|evs| - 1];
    forall i | 0 <= i < |init| ensures init[..i] == evs[..i] && init[i] == evs[i] {}
    if LegalRun(step, legal, start, evs) { LegalPrefix(step, legal, start, evs); }
  }

  /** Where a step keeps a property exactly when it is legal, a run has it all along exactly when it is. */
  lemma {:induction false} AllAlongExactly<S(!new), E(!new)>(
      step: (S, E) -> S, legal: (S, E) -> bool, inv: S -> bool, good: S -> bool, start: S, evs: seq<E>)
    requires inv(start) && good(start)
    requires forall st, ev :: inv(st) ==> inv(step(st, ev))
    requires forall st, ev :: inv(st) && good(st) ==> (good(step(st, ev)) <==> legal(st, ev))
    ensures inv(Run(step, start, evs))
    ensures AllAlong(step, good, start, evs) <==> LegalRun(step, legal, start, evs)
    decreases |evs|
  {
    if evs != [] {
      var init := evs[..|evs| - 1];
      AllAlongExactly(step, legal, inv, good, start, init);
      LegalLast(step, legal, start, evs);
    }
  }

  /** Some legal run from `start` ends in `st`. */
  ghost predicate Reachable<S, E(!new)>(step: (S, E) -> S, legal: (S, E) -> bool, start: S, st: S) {
    exists evs: seq<E> :: LegalRun(step, legal, start, evs) && Run(step, start, evs) == st
  }

  /** `reached` holds of the first state and is kept by every legal step. Concrete runs are spelled out
      against an arbitrary such predicate. */
  ghost predicate Closed<S(!new), E(!new)>(
    step: (S, E) -> S, legal: (S, E) -> bool, start: S, reached: S -> bool)
  {
    && reached(start)
    && forall st, ev :: reached(st) && legal(st, ev) ==> reached(step(st, ev))
  }

  lemma ReachableIsClosed<S(!new), E(!new)>(step: (S, E) -> S, legal: (S, E) -> bool, start: S)
    ensures Closed(step, legal, start, st => Reachable(step, legal, start, st))
  {
    var none: seq<E> := [];
    assert LegalRun(step, legal, start, none) && Run(step, start, none) == start;
    forall st, ev | Reachable(step, legal, start, st) && legal(st, ev)
      ensures Reachable(step, legal, start, step(st, ev))
    {
      var evs: seq<E> :| LegalRun(step, legal, start, evs) && Run(step, start, evs) == st;
      var longer := evs + [ev];
      assert longer[..|evs|] == evs;
      forall i | 0 <= i < |longer| ensures legal(Run(step, start, longer[..i]), longer[i]) {
        if i < |evs| { assert longer[..i] == evs[..i]; }
      }
      assert LegalRun(step, legal, start, longer) && Run(step, start, longer) == step(st, ev);
    }
  }
}
