/**
 `bring_up` as one call runs it (crates/engine/src/supervisor/mod.rs): the restart loop over a script
 of clock readings and launch outcomes, one entry per attempt.
 */
module BringUp {
  import opened Options
  import opened Runs
  import opened Restarts
  import opened Search
  import opened Supervisor

  /** One turn of the loop: when the policy was asked, when the attempt was recorded, what launched. */
  datatype Turn = Turn(decidedAt: nat, recordedAt: nat, engine: Option<Engine>)

  /** `Unfinished`: the script ended while the loop was still retrying. */
  datatype Outcome = Up | Terminated | Unfinished

  /** Where the loop leaves the phase, and what it answers. */
  function Bring(policy: RestartPolicy, phase: Phase, history: seq<nat>, script: seq<Turn>): (Phase, Outcome)
    decreases |script|
  {
    if script == [] then (phase, Unfinished)
    else
      var kept := Pruned(history, script[0].decidedAt, policy.window);
      if policy.Judge(|kept|).Open? then (BreakerOpen(kept), Terminated)
      else
        var recorded := kept + [script[0].recordedAt];
        match script[0].engine
        case Some(engine) => (Running(engine, recorded), Up)
        case None => Bring(policy, Replacing(recorded), recorded, script[1..])
  }

  class Supervised {
    var phase: Phase

    constructor ()
      ensures phase == Idle
    {
      phase := Idle;
    }

    /** A running engine is left alone; otherwise attempts go on until one launches or the breaker opens. */
    method BringUp(policy: RestartPolicy, script: seq<Turn>) returns (outcome: Outcome)
      modifies this
      ensures old(phase).Running? ==> outcome == Up && phase == old(phase)
      ensures !old(phase).Running? ==>
                (phase, outcome) == Bring(policy, old(phase), old(phase).History(), script)
    {
      if phase.Running? {
        return Up;
      }
      var history := new RestartHistory(phase.History());
      var i := 0;
      while i < |script|
        invariant i <= |script| && fresh(history)
        invariant Bring(policy, old(phase), old(phase).History(), script)
               == Bring(policy, phase, history.attempts, script[i..])
      {
        assert script[i..][1..] == script[i + 1..];
        var decision := policy.Decide(history, script[i].decidedAt);
        if decision.Open? {
          phase := BreakerOpen(history.attempts);
          return Terminated;
        }
        history.Record(script[i].recordedAt);
        phase := Replacing(history.attempts);
        if script[i].engine.Some? {
          phase := Running(script[i].engine.value, history.attempts);
          return Up;
        }
        i := i + 1;
      }
      outcome := Unfinished;
    }
  }

  /** The clock never runs backwards over the script. */
  ghost predicate Chronological(script: seq<Turn>) {
    && (forall i :: 0 <= i < |script| ==> script[i].decidedAt <= script[i].recordedAt)
    && (forall i, j :: 0 <= i < j < |script| ==> script[i].recordedAt <= script[j].decidedAt)
  }

  function RecordedTimes(script: seq<Turn>): (times: seq<nat>)
    ensures |times| == |script| && forall i :: 0 <= i < |script| ==> times[i] == script[i].recordedAt
  {
    seq(|script|, i requires 0 <= i < |script| => script[i].recordedAt)
  }

  lemma {:induction false} NothingPruned(attempts: seq<nat>, now: nat, window: nat)
    requires forall i :: 0 <= i < |attempts| ==> Since(now, attempts[i]) < window
    ensures Pruned(attempts, now, window) == attempts
  {
    FilterOfSplit(attempts, Recent(now, window), 0);
  }

  /** One turn that finds all its history inside the window and launches nothing. */
  lemma {:induction false} FailingTurn(policy: RestartPolicy, phase: Phase, history: seq<nat>, script: seq<Turn>)
    requires script != [] && script[0].engine.None?
    requires forall i :: 0 <= i < |history| ==> Since(script[0].decidedAt, history[i]) < policy.window
    ensures var recorded := history + [script[0].recordedAt];
            Bring(policy, phase, history, script) ==
            if |history| >= policy.maxRestarts then (BreakerOpen(history), Terminated)
            else Bring(policy, Replacing(recorded), recorded, script[1..])
  {
    NothingPruned(history, script[0].decidedAt, policy.window);
  }

  /** The loop after `k` failed attempts that are all still inside the window. */
  lemma {:induction false} FailingTurns(policy: RestartPolicy, script: seq<Turn>, k: nat, phase: Phase)
    requires policy.Valid() && Chronological(script) && k <= policy.maxRestarts < |script|
    requires forall i :: 0 <= i < |script| ==> script[i].engine.None?
    requires script[policy.maxRestarts].decidedAt < script[0].recordedAt + policy.window
    ensures Bring(policy, phase, RecordedTimes(script[..k]), script[k..])
         == (BreakerOpen(RecordedTimes(script[..policy.maxRestarts])), Terminated)
    decreases policy.maxRestarts - k
  {
    var history := RecordedTimes(script[..k]);
    var now := script[k].decidedAt;
    assert now <= script[policy.maxRestarts].decidedAt;
    forall i | 0 <= i < k ensures Since(now, history[i]) < policy.window {
      assert history[i] == script[i].recordedAt;
      assert script[0].recordedAt <= script[i].recordedAt;
    }
    FailingTurn(policy, phase, history, script[k..]);
    if k < policy.maxRestarts {
      assert history + [script[k].recordedAt] == RecordedTimes(script[..k + 1]);
      assert script[k..][1..] == script[k + 1..];
      FailingTurns(policy, script, k + 1, Replacing(RecordedTimes(script[..k + 1])));
    }
  }

  /** From an empty record, a launcher that always fails is tried exactly `maxRestarts` times and then
      the call ends in `Terminated`, provided those attempts and their backoffs fit the window. */
  lemma FailingLauncherIsBounded(policy: RestartPolicy, script: seq<Turn>)
    requires policy.Valid() && Chronological(script) && policy.maxRestarts < |script|
    requires forall i :: 0 <= i < |script| ==> script[i].engine.None?
    requires script[policy.maxRestarts].decidedAt < script[0].recordedAt + policy.window
    ensures var (phase, outcome) := Bring(policy, Idle, [], script);
            outcome == Terminated && phase == BreakerOpen(RecordedTimes(script[..policy.maxRestarts]))
  {
    assert RecordedTimes(script[..0]) == [] && script[0..] == script;
    FailingTurns(policy, script, 0, Idle);
  }

  /** A failing turn that finds only attempts older than the window starts over from its own. */
  lemma {:induction false} SparseTurn(policy: RestartPolicy, phase: Phase, history: seq<nat>, script: seq<Turn>)
    requires policy.Valid() && script != [] && script[0].engine.None?
    requires forall i :: 0 <= i < |history| ==> history[i] + policy.window <= script[0].decidedAt
    ensures var recorded := [script[0].recordedAt];
            Bring(policy, phase, history, script) == Bring(policy, Replacing(recorded), recorded, script[1..])
  {
    FilterOfSplit(history, Recent(script[0].decidedAt, policy.window), |history|);
    assert Pruned(history, script[0].decidedAt, policy.window) == [];
    assert policy.Judge(0).Allowed?;
    assert [] + [script[0].recordedAt] == [script[0].recordedAt];
  }

  /** Attempts spaced wider than the window never open the breaker: each finds an empty record. */
  lemma {:induction false} SparseAttemptsKeepGoing(
      policy: RestartPolicy, phase: Phase, history: seq<nat>, script: seq<Turn>)
    requires policy.Valid()
    requires forall i :: 0 <= i < |script| ==> script[i].engine.None?
    requires forall i :: 0 < i < |script| ==> script[i - 1].recordedAt + policy.window <= script[i].decidedAt
    requires script != [] ==> forall i :: 0 <= i < |history| ==> history[i] + policy.window <= script[0].decidedAt
    ensures Bring(policy, phase, history, script).1 == Unfinished
    decreases |script|
  {
    if script != [] {
      var rest, recorded := script[1..], [script[0].recordedAt];
      forall i | 0 < i < |rest| ensures rest[i - 1].recordedAt + policy.window <= rest[i].decidedAt {
        assert script[i + 1 - 1].recordedAt + policy.window <= script[i + 1].decidedAt;
      }
      SparseTurn(policy, phase, history, script);
      SparseAttemptsKeepGoing(policy, Replacing(recorded), recorded, rest);
    }
  }

  // ----- the call as steps of the supervisor

  /** The clock and the launcher as one call meets them: each turn no earlier than what came before, each
      attempt once its backoff is out, each engine the supervisor's next. */
  ghost predicate Plays(policy: RestartPolicy, clock: nat, history: seq<nat>, next: Engine, script: seq<Turn>)
    decreases |script|
  {
    script == [] ||
    var turn := script[0];
    var kept := Pruned(history, turn.decidedAt, policy.window);
    && clock <= turn.decidedAt
    && (turn.engine.Some? ==> turn.engine.value == next)
    && (policy.Judge(|kept|).Allowed? ==>
          && turn.decidedAt + policy.Judge(|kept|).delay <= turn.recordedAt
          && Plays(policy, turn.recordedAt, kept + [turn.recordedAt], next, script[1..]))
  }

  ghost predicate AtTurn(st: State, task: Task, history: seq<nat>) {
    task in st.pcs && st.pcs[task] == Deciding(history) && st.ticket == Some(task)
  }

  lemma {:induction false} Extend(start: State, evs: seq<Event>, ev: Event) returns (longer: seq<Event>)
    ensures Run(Apply, start, longer) == Apply(Run(Apply, start, evs), ev)
  {
    longer := evs + [ev];
    assert longer[..|evs|] == evs;
  }

  lemma WaitUntil(start: State, evs: seq<Event>, at: nat) returns (longer: seq<Event>)
    requires Run(Apply, start, evs).clock <= at
    ensures Run(Apply, start, longer) == Run(Apply, start, evs).(clock := at)
  {
    longer := Extend(start, evs, Tick(at - Run(Apply, start, evs).clock));
  }

  lemma {:induction false} Ask(start: State, evs: seq<Event>, task: Task, history: seq<nat>)
      returns (longer: seq<Event>)
    requires var st := Run(Apply, start, evs); task in st.pcs && st.pcs[task] == Deciding(history)
    ensures Run(Apply, start, longer) == Decide(Run(Apply, start, evs), task, history)
  {
    longer := Extend(start, evs, Advance(task, false));
  }

  lemma {:induction false} RecordAndLaunch(
      start: State, evs: seq<Event>, task: Task, kept: seq<nat>, due: nat, ok: bool)
      returns (longer: seq<Event>)
    requires var st := Run(Apply, start, evs); task in st.pcs && st.pcs[task] == Waiting(kept, due) && due <= st.clock
    ensures var st := Run(Apply, start, evs);
            Run(Apply, start, longer) == Launched(Attempt(st, task, kept, due), task, kept + [st.clock], ok)
  {
    var st := Run(Apply, start, evs);
    longer := Extend(start, evs, Advance(task, false));
    var launching := Run(Apply, start, longer);
    assert launching == Attempt(st, task, kept, due);
    assert launching.pcs[task] == Launching(kept + [st.clock]);
    longer := Extend(start, longer, Advance(task, ok));
  }

  /** What a turn leaves behind. */
  ghost predicate TurnEnds(task: Task, history: seq<nat>, turn: Turn, st: State, end: State) {
    var kept := Pruned(history, turn.decidedAt, st.policy.window);
    var recorded := kept + [turn.recordedAt];
    && end.policy == st.policy && task in end.pcs
    && if st.policy.Judge(|kept|).Open? then end.phase == BreakerOpen(kept) && end.pcs[task] == Returned(false)
       else if turn.engine.Some? then
         end.phase == Running(turn.engine.value, recorded) && end.pcs[task] == Returned(true)
       else
         && end.phase == Replacing(recorded) && AtTurn(end, task, recorded)
         && end.clock == turn.recordedAt && end.nextEngine == st.nextEngine
  }

  /** One turn of the loop is a handful of the machine's steps. */
  lemma TurnIsARun(start: State, evs: seq<Event>, task: Task, history: seq<nat>, script: seq<Turn>)
      returns (longer: seq<Event>)
    requires var st := Run(Apply, start, evs);
             AtTurn(st, task, history) && script != [] && Plays(st.policy, st.clock, history, st.nextEngine, script)
    ensures TurnEnds(task, history, script[0], Run(Apply, start, evs), Run(Apply, start, longer))
  {
    var st, turn := Run(Apply, start, evs), script[0];
    var kept := Pruned(history, turn.decidedAt, st.policy.window);
    var judged := st.policy.Judge(|kept|);
    longer := WaitUntil(start, evs, turn.decidedAt);
    longer := Ask(start, longer, task, history);
    if judged.Allowed? {
      longer := WaitUntil(start, longer, turn.recordedAt);
      longer := RecordAndLaunch(start, longer, task, kept, turn.decidedAt + judged.delay, turn.engine.Some?);
    }
  }

  /** A call's loop is a run of the supervisor: the phase it leaves and the answer it gives are those the
      machine reaches by its own steps. */
  lemma {:induction false} BringUpIsARun(
      start: State, before: seq<Event>, task: Task, history: seq<nat>, script: seq<Turn>)
      returns (evs: seq<Event>)
    requires var st := Run(Apply, start, before);
             AtTurn(st, task, history) && Plays(st.policy, st.clock, history, st.nextEngine, script)
    ensures var st, end := Run(Apply, start, before), Run(Apply, start, evs);
            var (phase, outcome) := Bring(st.policy, st.phase, history, script);
            && end.phase == phase && task in end.pcs
            && match outcome
               case Up => end.pcs[task] == Returned(true)
               case Terminated => end.pcs[task] == Returned(false)
               case Unfinished => end.pcs[task].Deciding? && end.ticket == Some(task)
    decreases |script|
  {
    evs := before;
    if script != [] {
      var st, turn := Run(Apply, start, before), script[0];
      var kept := Pruned(history, turn.decidedAt, st.policy.window);
      evs := TurnIsARun(start, before, task, history, script);
      if st.policy.Judge(|kept|).Allowed? && turn.engine.None? {
        evs := BringUpIsARun(start, evs, task, kept + [turn.recordedAt], script[1..]);
      }
    }
  }
}
