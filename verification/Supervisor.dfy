/**
 The engine supervisor (crates/engine/src/supervisor/mod.rs): any number of `start` calls and the one
 heartbeat they may spawn, all replacing the engine through `bring_up` under one ticket. Every await
 and every lock acquisition is a step of its own. Shutdown is not part of this model.
 */
module Supervisor {
  import opened Numbers
  import opened Options
  import opened Runs
  import opened Restarts
  import opened Backoff

  type Engine = nat

  datatype Phase =
    | Idle
    | Running(engine: Engine, history: seq<nat>)
    | Replacing(history: seq<nat>)
    | BreakerOpen(history: seq<nat>)
  {
    function History(): seq<nat> { if Idle? then [] else history }
  }

  datatype Task = Starter(id: nat) | Heartbeat

  datatype Pc =
    | WantSlot                              // a starter queues for the heartbeat slot
    | WantTicket                            // `bring_up` queues for the replacement ticket
    | HasTicket                             // and looks for an engine
    | NeedHistory                           // and reads the restart record
    | Deciding(history: seq<nat>)
    | Waiting(history: seq<nat>, due: nat)  // out the backoff
    | Launching(history: seq<nat>)
    | Returned(ok: bool)
    | Sleeping                              // the heartbeat between probes
    | Probing(engine: Engine)
    | Condemning(probed: Option<Engine>)    // about to mourn
  {
    predicate HoldsTicket() { HasTicket? || NeedHistory? || Deciding? || Waiting? || Launching? }

    /** Past the check that found no engine. */
    predicate Replaces() { NeedHistory? || Deciding? || Waiting? || Launching? }

    predicate BringsUp() { WantTicket? || HoldsTicket() || Returned? }
  }

  datatype Install = Install(task: Task, engine: Engine)

  datatype State = State(
    policy: RestartPolicy,
    clock: nat,
    phase: Phase,
    ticket: Option<Task>,
    slot: Option<nat>,          // the starter holding the heartbeat slot
    pcs: map<Task, Pc>,
    nextEngine: Engine,
    attempts: seq<nat>,         // every launch attempt recorded since the last healthy probe
    installs: seq<Install>,
    bumps: nat)                 // the restart counter

  datatype Event =
    | Tick(elapsed: nat)
    | StartCall(id: nat)
    | Advance(task: Task, ok: bool)   // `ok`: what the awaited launch or probe answers

  function Init(policy: RestartPolicy): State {
    State(policy, 0, Idle, None, None, map[], 0, [], [], 0)
  }

  function At(st: State, task: Task, pc: Pc): State { st.(pcs := st.pcs[task := pc]) }

  // ----- bring_up

  function TakeTicket(st: State, task: Task): State {
    if st.ticket.None? then At(st, task, HasTicket).(ticket := Some(task)) else st
  }

  function LookForEngine(st: State, task: Task): State {
    if st.phase.Running? then At(st, task, Returned(true)).(ticket := None) else At(st, task, NeedHistory)
  }

  function Decide(st: State, task: Task, history: seq<nat>): State {
    var kept := Pruned(history, st.clock, st.policy.window);
    match st.policy.Judge(|kept|)
    case Open => At(st, task, Returned(false)).(phase := BreakerOpen(kept), ticket := None)
    case Allowed(delay) => At(st, task, Waiting(kept, st.clock + delay))
  }

  function Attempt(st: State, task: Task, history: seq<nat>, due: nat): State {
    if st.clock < due then st
    else
      var recorded := history + [st.clock];
      At(st, task, Launching(recorded)).(phase := Replacing(recorded), attempts := st.attempts + [st.clock])
  }

  function Launched(st: State, task: Task, history: seq<nat>, ok: bool): State {
    if ok then
      At(st, task, Returned(true)).(
        phase := Running(st.nextEngine, history), ticket := None, nextEngine := st.nextEngine + 1,
        installs := st.installs + [Install(task, st.nextEngine)])
    else At(st, task, Deciding(history))
  }

  // ----- start and the heartbeat loop

  /** The first `start` keeps the slot through its `bring_up`; one that finds the heartbeat leaves. */
  function TakeSlot(st: State, id: nat): State {
    if st.slot.Some? then st
    else if Heartbeat in st.pcs then st.(pcs := st.pcs - {Starter(id)})
    else At(st, Starter(id), WantTicket).(slot := Some(id))
  }

  function Return(st: State, task: Task, ok: bool): State {
    match task
    case Starter(_) => st.(pcs := (st.pcs - {task})[Heartbeat := Sleeping], slot := None)
    case Heartbeat => At(st, Heartbeat, Sleeping).(bumps := if ok then st.bumps + 1 else st.bumps)
  }

  function Beat(st: State): State {
    At(st, Heartbeat, if st.phase.Running? then Probing(st.phase.engine) else Condemning(None))
  }

  /** A healthy probe forgets the attempts; any other answer condemns the probed engine. */
  function Probed(st: State, engine: Engine, healthy: bool): State {
    if !healthy then At(st, Heartbeat, Condemning(Some(engine)))
    else if st.phase.Running? then
      At(st, Heartbeat, Sleeping).(phase := Running(st.phase.engine, []), attempts := [])
    else At(st, Heartbeat, Sleeping)
  }

  function Mourn(st: State): State {
    At(st, Heartbeat, WantTicket).(
      phase := if st.phase.Running? then Replacing(st.phase.history) else st.phase)
  }

  function Step(st: State, task: Task, ok: bool): State
    requires task in st.pcs
  {
    match st.pcs[task]
    case WantSlot => if task.Starter? then TakeSlot(st, task.id) else st
    case WantTicket => TakeTicket(st, task)
    case HasTicket => LookForEngine(st, task)
    case NeedHistory => At(st, task, Deciding(st.phase.History()))
    case Deciding(history) => Decide(st, task, history)
    case Waiting(history, due) => Attempt(st, task, history, due)
    case Launching(history) => Launched(st, task, history, ok)
    case Returned(up) => Return(st, task, up)
    case Sleeping => Beat(st)
    case Probing(engine) => Probed(st, engine, ok)
    case Condemning(_) => Mourn(st)
  }

  function Apply(st: State, ev: Event): State {
    match ev
    case Tick(elapsed) => st.(clock := st.clock + elapsed)
    case StartCall(id) => if Starter(id) in st.pcs then st else At(st, Starter(id), WantSlot)
    case Advance(task, ok) => if task in st.pcs then Step(st, task, ok) else st
  }

  ghost predicate Anything(st: State, ev: Event) { true }

  // ----- what every step keeps

  /** The ticket and the slot have one holder each, and the heartbeat runs only once no starter can
      be bringing an engine up. */
  ghost predicate LockInv(st: State) {
    && (st.ticket.Some? ==> st.ticket.value in st.pcs)
    && (forall t :: t in st.pcs ==> (st.pcs[t].HoldsTicket() <==> st.ticket == Some(t)))
    && (st.slot.Some? ==> Starter(st.slot.value) in st.pcs && Heartbeat !in st.pcs)
    && (forall t :: t in st.pcs && t.Starter? ==>
          if st.slot == Some(t.id) then st.pcs[t].BringsUp() else st.pcs[t].WantSlot?)
    && (Heartbeat in st.pcs ==> !st.pcs[Heartbeat].WantSlot?)
  }

  /** A replacement is under way only while no engine lives, and the heartbeat knows the engine it
      probes. */
  ghost predicate EngineInv(st: State) {
    && (forall t :: t in st.pcs && st.pcs[t].Replaces() ==> !st.phase.Running?)
    && (Heartbeat in st.pcs ==>
          match st.pcs[Heartbeat]
          case Probing(engine) => st.phase.Running? && st.phase.engine == engine
          case Condemning(None) => !st.phase.Running?
          case Condemning(Some(engine)) => st.phase.Running? && st.phase.engine == engine
          case WantTicket => !st.phase.Running?
          case HasTicket => !st.phase.Running?
          case _ => true)
  }

  function ByHeartbeat(installs: seq<Install>): nat {
    if installs == [] then 0
    else ByHeartbeat(installs[..|installs| - 1]) + if installs[|installs| - 1].task.Heartbeat? then 1 else 0
  }

  ghost predicate BumpInv(st: State) {
    ByHeartbeat(st.installs) ==
    st.bumps + if Heartbeat in st.pcs && st.pcs[Heartbeat] == Returned(true) then 1 else 0
  }

  ghost predicate Inv(st: State) { LockInv(st) && EngineInv(st) && BumpInv(st) }

  lemma StartKeepsInv(st: State, id: nat)
    requires Inv(st)
    ensures Inv(Apply(st, StartCall(id)))
  {
  }

  lemma BringUpKeepsLocks(st: State, task: Task, ok: bool)
    requires Inv(st) && task in st.pcs && st.pcs[task].BringsUp() && !st.pcs[task].Returned?
    ensures LockInv(Step(st, task, ok))
  {
  }

  lemma {:induction false} StepKeepsLocks(st: State, task: Task, ok: bool)
    requires Inv(st) && task in st.pcs
    ensures LockInv(Step(st, task, ok))
  {
    if st.pcs[task].BringsUp() && !st.pcs[task].Returned? {
      BringUpKeepsLocks(st, task, ok);
    }
  }

  lemma BringUpKeepsEngine(st: State, task: Task, ok: bool)
    requires Inv(st) && task in st.pcs && st.pcs[task].BringsUp() && !st.pcs[task].Returned?
    ensures EngineInv(Step(st, task, ok))
  {
  }

  lemma StepKeepsEngine(st: State, task: Task, ok: bool)
    requires Inv(st) && task in st.pcs
    ensures EngineInv(Step(st, task, ok))
  {
    if st.pcs[task].BringsUp() && !st.pcs[task].Returned? {
      BringUpKeepsEngine(st, task, ok);
    }
  }

  lemma StepKeepsBumps(st: State, task: Task, ok: bool)
    requires Inv(st) && task in st.pcs
    ensures BumpInv(Step(st, task, ok))
  {
    if st.pcs[task].Launching? && ok {
      var next := Step(st, task, ok);
      assert next.installs[..|st.installs|] == st.installs;
    }
  }

  // ----- the breaker

  /** `history` is the recent end of `attempts`: whatever it lacks is older than the window. */
  ghost predicate RecentEnd(attempts: seq<nat>, window: nat, clock: nat, history: seq<nat>) {
    || history == attempts
    || (attempts != [] && attempts[0] + window <= clock && RecentEnd(attempts[1..], window, clock, history))
  }

  /** All but the last `|attempts| - k` attempts are older than the window. */
  ghost predicate OldBefore(attempts: seq<nat>, window: nat, clock: nat, k: nat) {
    k <= |attempts| && forall i :: 0 <= i < k ==> attempts[i] + window <= clock
  }

  lemma {:induction false} RecentEndIsSuffix(attempts: seq<nat>, window: nat, clock: nat, history: seq<nat>)
      returns (k: nat)
    requires RecentEnd(attempts, window, clock, history)
    ensures OldBefore(attempts, window, clock, k) && history == attempts[k..]
    decreases |attempts|
  {
    k := 0;
    if history != attempts {
      k := RecentEndIsSuffix(attempts[1..], window, clock, history);
      assert attempts[1..][k..] == attempts[k + 1..];
      assert forall i :: 0 < i < k + 1 ==> attempts[i] == attempts[1..][i - 1];
      k := k + 1;
    }
  }

  lemma {:induction false} SuffixIsRecentEnd(attempts: seq<nat>, window: nat, clock: nat, k: nat)
    requires OldBefore(attempts, window, clock, k)
    ensures RecentEnd(attempts, window, clock, attempts[k..])
    decreases k
  {
    if k > 0 {
      SuffixIsRecentEnd(attempts[1..], window, clock, k - 1);
      assert attempts[1..][k - 1..] == attempts[k..];
    }
  }

  /** Attempts are recorded in the order of one monotone clock. */
  ghost predicate Recorded(attempts: seq<nat>, clock: nat) {
    Sorted(attempts) && forall i :: 0 <= i < |attempts| ==> attempts[i] <= clock
  }

  /** The next attempt may be recorded from `due` on. */
  ghost predicate Cleared(policy: RestartPolicy, history: seq<nat>, due: nat) {
    && |history| < policy.maxRestarts
    && (history != [] ==> history[|history| - 1] + policy.backoff.Delay(|history| - 1) <= due)
  }

  ghost predicate PcHistory(policy: RestartPolicy, attempts: seq<nat>, clock: nat, pc: Pc) {
    match pc
    case Deciding(history) => RecentEnd(attempts, policy.window, clock, history)
    case Waiting(history, due) =>
      RecentEnd(attempts, policy.window, clock, history) && Cleared(policy, history, due)
    case Launching(history) => RecentEnd(attempts, policy.window, clock, history)
    case _ => true
  }

  ghost predicate PhaseHistory(policy: RestartPolicy, attempts: seq<nat>, clock: nat, phase: Phase) {
    if phase.Idle? then attempts == [] else RecentEnd(attempts, policy.window, clock, phase.history)
  }

  ghost predicate HistoryInv(st: State) {
    && st.policy.Valid()
    && Recorded(st.attempts, st.clock)
    && PhaseHistory(st.policy, st.attempts, st.clock, st.phase)
    && (st.ticket.Some? && st.ticket.value in st.pcs ==>
          PcHistory(st.policy, st.attempts, st.clock, st.pcs[st.ticket.value]))
  }

  /** Any `span + 1` consecutive attempts take `time` or longer. */
  ghost predicate Spaced(attempts: seq<nat>, span: nat, time: nat) {
    attempts == [] ||
    var n := |attempts| - 1;
    Spaced(attempts[..n], span, time) && (span <= n ==> attempts[n - span] + time <= attempts[n])
  }

  lemma {:induction false} SpacedAt(attempts: seq<nat>, span: nat, time: nat, i: nat)
    requires Spaced(attempts, span, time) && i + span < |attempts|
    ensures attempts[i] + time <= attempts[i + span]
    decreases |attempts|
  {
    var n := |attempts| - 1;
    if i + span < n { SpacedAt(attempts[..n], span, time, i); }
  }

  lemma SpacedBy(attempts: seq<nat>, next: nat, span: nat, time: nat)
    requires 1 <= span && Spaced(attempts, span, time)
    requires span <= |attempts| ==> attempts[|attempts| - span] + time <= next
    ensures Spaced(attempts + [next], span, time)
  {
    assert (attempts + [next])[..|attempts|] == attempts;
  }

  ghost predicate BreakerHolds(policy: RestartPolicy, attempts: seq<nat>) {
    Spaced(attempts, policy.maxRestarts, policy.window)
  }

  /** Consecutive attempts are a window apart, or at least the first backoff. */
  ghost predicate BackedOff(policy: RestartPolicy, attempts: seq<nat>) {
    Spaced(attempts, 1, Min(policy.window, policy.backoff.Delay(0)))
  }

  lemma SuffixIsRecorded(attempts: seq<nat>, clock: nat, k: nat)
    requires Recorded(attempts, clock) && k <= |attempts|
    ensures Recorded(attempts[k..], clock)
  {
  }

  /** Pruning a recent end leaves a shorter one: what it drops is out of the window too. */
  lemma {:induction false} PruningKeepsRecentEnd(attempts: seq<nat>, window: nat, clock: nat, history: seq<nat>)
    requires Recorded(attempts, clock) && RecentEnd(attempts, window, clock, history)
    ensures RecentEnd(attempts, window, clock, Pruned(history, clock, window))
    ensures Recorded(Pruned(history, clock, window), clock)
    decreases |attempts|
  {
    if history != attempts {
      SuffixIsRecorded(attempts, clock, 1);
      PruningKeepsRecentEnd(attempts[1..], window, clock, history);
    } else {
      var k := PrunedIsRecentSuffix(attempts, clock, window);
      SuffixIsRecorded(attempts, clock, k);
      assert OldBefore(attempts, window, clock, k) by {
        forall i | 0 <= i < k ensures attempts[i] + window <= clock { assert Since(clock, attempts[i]) >= window; }
      }
      SuffixIsRecentEnd(attempts, window, clock, k);
    }
  }

  lemma JudgedIsCleared(policy: RestartPolicy, history: seq<nat>, clock: nat)
    requires policy.Judge(|history|).Allowed? && (history != [] ==> history[|history| - 1] <= clock)
    ensures Cleared(policy, history, clock + policy.Judge(|history|).delay)
  {
  }

  lemma DecideKeepsHistory(st: State, task: Task, history: seq<nat>)
    requires HistoryInv(st) && LockInv(st) && task in st.pcs && st.pcs[task] == Deciding(history)
    ensures HistoryInv(Decide(st, task, history))
  {
    assert st.ticket == Some(task);
    PruningKeepsRecentEnd(st.attempts, st.policy.window, st.clock, history);
    var kept := Pruned(history, st.clock, st.policy.window);
    if st.policy.Judge(|kept|).Allowed? {
      JudgedIsCleared(st.policy, kept, st.clock);
    }
  }

  lemma RecordKeepsRecentEnd(attempts: seq<nat>, window: nat, clock: nat, history: seq<nat>)
    requires Recorded(attempts, clock) && RecentEnd(attempts, window, clock, history)
    ensures Recorded(attempts + [clock], clock)
    ensures RecentEnd(attempts + [clock], window, clock, history + [clock])
  {
    var k := RecentEndIsSuffix(attempts, window, clock, history);
    SuffixIsRecentEnd(attempts + [clock], window, clock, k);
    assert (attempts + [clock])[k..] == history + [clock];
  }

  lemma TimeKeepsRecentEnd(attempts: seq<nat>, window: nat, clock: nat, later: nat, history: seq<nat>)
    requires clock <= later && RecentEnd(attempts, window, clock, history)
    ensures RecentEnd(attempts, window, later, history)
  {
    var k := RecentEndIsSuffix(attempts, window, clock, history);
    SuffixIsRecentEnd(attempts, window, later, k);
  }

  lemma AttemptKeepsHistory(st: State, task: Task, history: seq<nat>, due: nat)
    requires HistoryInv(st) && LockInv(st) && task in st.pcs && st.pcs[task] == Waiting(history, due)
    ensures HistoryInv(Attempt(st, task, history, due))
  {
    assert st.ticket == Some(task);
    if due <= st.clock {
      RecordKeepsRecentEnd(st.attempts, st.policy.window, st.clock, history);
      var next := Attempt(st, task, history, due);
      assert next.phase == Replacing(history + [st.clock]);
      assert next.pcs[task] == Launching(history + [st.clock]);
    }
  }

  lemma AttemptKeepsBreaker(
      policy: RestartPolicy, attempts: seq<nat>, clock: nat, history: seq<nat>, due: nat)
    requires policy.Valid() && due <= clock && Cleared(policy, history, due)
    requires RecentEnd(attempts, policy.window, clock, history)
    requires BreakerHolds(policy, attempts) && BackedOff(policy, attempts)
    ensures BreakerHolds(policy, attempts + [clock]) && BackedOff(policy, attempts + [clock])
  {
    var k := RecentEndIsSuffix(attempts, policy.window, clock, history);
    var n := |attempts|;
    assert n >= policy.maxRestarts ==> attempts[n - policy.maxRestarts] + policy.window <= clock;
    if n > 0 {
      if history == [] {
        assert attempts[n - 1] + policy.window <= clock;
      } else {
        DelayIsMonotone(policy.backoff, 0, |history| - 1);
        assert history[|history| - 1] == attempts[n - 1];
      }
    }
    SpacedBy(attempts, clock, policy.maxRestarts, policy.window);
    SpacedBy(attempts, clock, 1, Min(policy.window, policy.backoff.Delay(0)));
  }

  lemma StepKeepsHistory(st: State, task: Task, ok: bool)
    requires Inv(st) && HistoryInv(st) && task in st.pcs
    ensures HistoryInv(Step(st, task, ok))
  {
    match st.pcs[task]
    case Deciding(history) => DecideKeepsHistory(st, task, history);
    case Waiting(history, due) => AttemptKeepsHistory(st, task, history, due);
    case Probing(engine) => ProbeKeepsHistory(st, engine, ok);
    case NeedHistory => assert st.ticket == Some(task);
    case Launching(_) => assert st.ticket == Some(task);
    case _ => OtherStepKeepsHistory(st, task, ok);
  }

  /** A healthy probe forgets every attempt; no replacement is under way that could remember one. */
  lemma ProbeKeepsHistory(st: State, engine: Engine, ok: bool)
    requires LockInv(st) && HistoryInv(st) && Heartbeat in st.pcs && st.pcs[Heartbeat] == Probing(engine)
    ensures HistoryInv(Probed(st, engine, ok))
  {
    assert st.ticket.Some? ==> st.pcs[st.ticket.value].HoldsTicket();
  }

  lemma OtherStepKeepsHistory(st: State, task: Task, ok: bool)
    requires HistoryInv(st) && LockInv(st) && task in st.pcs
    requires !st.pcs[task].Replaces() && !st.pcs[task].Probing?
    ensures HistoryInv(Step(st, task, ok))
  {
    assert st.pcs[task].HoldsTicket() <==> st.ticket == Some(task);
  }

  ghost predicate BreakerInv(st: State) {
    BreakerHolds(st.policy, st.attempts) && BackedOff(st.policy, st.attempts)
  }

  /** Only an attempt is recorded, and only a healthy probe forgets. */
  lemma OtherStepKeepsAttempts(st: State, task: Task, ok: bool)
    requires task in st.pcs && !st.pcs[task].Waiting?
    ensures Step(st, task, ok).policy == st.policy
    ensures Step(st, task, ok).attempts == st.attempts || Step(st, task, ok).attempts == []
  {
  }

  lemma StepKeepsBreaker(st: State, task: Task, ok: bool)
    requires HistoryInv(st) && LockInv(st) && BreakerInv(st) && task in st.pcs
    ensures BreakerInv(Step(st, task, ok))
  {
    match st.pcs[task]
    case Waiting(history, due) =>
      if due <= st.clock {
        AttemptKeepsBreaker(st.policy, st.attempts, st.clock, history, due);
      }
    case _ => OtherStepKeepsAttempts(st, task, ok);
  }

  lemma TickKeepsHistory(st: State, elapsed: nat)
    requires HistoryInv(st)
    ensures HistoryInv(Apply(st, Tick(elapsed)))
  {
    var window, later := st.policy.window, st.clock + elapsed;
    if !st.phase.Idle? {
      TimeKeepsRecentEnd(st.attempts, window, st.clock, later, st.phase.history);
    }
    if st.ticket.Some? && st.ticket.value in st.pcs {
      match st.pcs[st.ticket.value]
      case Deciding(history) => TimeKeepsRecentEnd(st.attempts, window, st.clock, later, history);
      case Waiting(history, _) => TimeKeepsRecentEnd(st.attempts, window, st.clock, later, history);
      case Launching(history) => TimeKeepsRecentEnd(st.attempts, window, st.clock, later, history);
      case _ =>
    }
  }

  ghost predicate Safe(st: State) { Inv(st) && HistoryInv(st) && BreakerInv(st) }

  lemma {:induction false} AdvanceKeepsSafe(st: State, task: Task, ok: bool)
    requires Safe(st) && task in st.pcs
    ensures Safe(Step(st, task, ok))
  {
    StepKeepsLocks(st, task, ok);
    StepKeepsEngine(st, task, ok);
    StepKeepsBumps(st, task, ok);
    StepKeepsHistory(st, task, ok);
    StepKeepsBreaker(st, task, ok);
  }

  lemma ApplyKeepsSafe(st: State, ev: Event)
    requires Safe(st)
    ensures Safe(Apply(st, ev))
  {
    match ev
    case Tick(elapsed) => TickKeepsHistory(st, elapsed);
    case StartCall(id) => StartKeepsInv(st, id);
    case Advance(task, ok) =>
      if task in st.pcs {
        AdvanceKeepsSafe(st, task, ok);
      }
  }

  lemma {:induction false} RunIsSafe(policy: RestartPolicy, evs: seq<Event>)
    requires policy.Valid()
    ensures Safe(Run(Apply, Init(policy), evs))
  {
    forall st, ev | Safe(st) && Anything(st, ev) ensures Safe(Apply(st, ev)) { ApplyKeepsSafe(st, ev); }
    Invariant(Apply, Anything, Safe, Init(policy), evs);
  }

  lemma PolicyIsFixed(policy: RestartPolicy, evs: seq<Event>)
    ensures Run(Apply, Init(policy), evs).policy == policy
  {
    Invariant(Apply, Anything, (st: State) => st.policy == policy, Init(policy), evs);
  }

  // ----- over whole runs

  /** At most one launch is in flight, none while an engine lives, and the restart counter has moved
      once for each engine the heartbeat installed (the last one may still be about to be counted). */
  lemma OneLaunchAtATime(policy: RestartPolicy, evs: seq<Event>)
    requires policy.Valid()
    ensures var end := Run(Apply, Init(policy), evs);
            && (forall t, u :: t in end.pcs && u in end.pcs && end.pcs[t].Launching? && end.pcs[u].Launching? ==>
                  t == u)
            && (forall t :: t in end.pcs && end.pcs[t].Launching? ==> !end.phase.Running?)
            && end.bumps <= ByHeartbeat(end.installs) <= end.bumps + 1
            && (Heartbeat in end.pcs && end.pcs[Heartbeat].Sleeping? ==> end.bumps == ByHeartbeat(end.installs))
  {
    RunIsSafe(policy, evs);
  }

  /** Between resets, any `maxRestarts + 1` consecutive recorded attempts span the window, across
      several `bring_up` calls, prunings, mournings and open breakers; and no two come closer than the
      first backoff unless the window is shorter. */
  lemma BreakerBoundsAttempts(policy: RestartPolicy, evs: seq<Event>, i: nat)
    requires policy.Valid()
    ensures var attempts := Run(Apply, Init(policy), evs).attempts;
            && (i + policy.maxRestarts < |attempts| ==>
                  attempts[i] + policy.window <= attempts[i + policy.maxRestarts])
            && (i + 1 < |attempts| ==>
                  attempts[i] + Min(policy.window, policy.backoff.Delay(0)) <= attempts[i + 1])
  {
    RunIsSafe(policy, evs);
    PolicyIsFixed(policy, evs);
    var attempts := Run(Apply, Init(policy), evs).attempts;
    if i + policy.maxRestarts < |attempts| {
      SpacedAt(attempts, policy.maxRestarts, policy.window, i);
    }
    if i + 1 < |attempts| {
      SpacedAt(attempts, 1, Min(policy.window, policy.backoff.Delay(0)), i);
    }
  }

  /** The heartbeat is about to mourn the engine that runs, having probed this very engine. */
  ghost predicate CondemnedByItsProbe(st: State, ev: Event) {
    && st.phase.Running? && ev.Advance? && ev.task.Heartbeat? && Heartbeat in st.pcs
    && st.pcs[Heartbeat] == Condemning(Some(st.phase.engine))
  }

  lemma StepLosesEngineOnlyByMourning(st: State, ev: Event)
    requires LockInv(st) && EngineInv(st) && st.phase.Running?
    ensures var next := Apply(st, ev);
            || (next.phase.Running? && next.phase.engine == st.phase.engine)
            || (CondemnedByItsProbe(st, ev) && next.phase == Replacing(st.phase.history))
  {
  }

  /** A live engine is never overwritten: it is only ever lost to the heartbeat mourning it after its
      own probe of this engine failed, and the restart record survives it. */
  lemma EngineLostOnlyToItsProbe(policy: RestartPolicy, evs: seq<Event>, ev: Event)
    requires policy.Valid() && Run(Apply, Init(policy), evs).phase.Running?
    ensures var st := Run(Apply, Init(policy), evs);
            var next := Apply(st, ev);
            || (next.phase.Running? && next.phase.engine == st.phase.engine)
            || (CondemnedByItsProbe(st, ev) && next.phase == Replacing(st.phase.history))
  {
    RunIsSafe(policy, evs);
    StepLosesEngineOnlyByMourning(Run(Apply, Init(policy), evs), ev);
  }

  // ----- what a start and a probe lead to when nobody interferes

  /** `n` steps of one task, every launch and probe going well. */
  function Steps(st: State, task: Task, n: nat): State {
    if n == 0 then st else Apply(Steps(st, task, n - 1), Advance(task, true))
  }

  /** `bring_up` from the ticket to its return, one launch and one backoff in between. */
  function BroughtUp(st: State, task: Task, delay: nat): State {
    Steps(Apply(Steps(st, task, 4), Tick(delay)), task, 2)
  }

  /** Where a free ticket and no engine lead: an open breaker is reported and left at that; otherwise the delay is
      waited out, the attempt recorded, and a new engine installed. */
  ghost predicate BringsUp(st: State, task: Task) {
    var kept := Pruned(st.phase.History(), st.clock, st.policy.window);
    match st.policy.Judge(|kept|)
    case Open => Steps(st, task, 4) == At(st, task, Returned(false)).(phase := BreakerOpen(kept))
    case Allowed(delay) => Launches(st, BroughtUp(st, task, delay), task, kept, st.clock + delay)
  }

  /** The attempt at `at` is recorded and the next engine runs; slot and restart count are as before. */
  ghost predicate Launches(st: State, end: State, task: Task, kept: seq<nat>, at: nat) {
    && end.pcs == st.pcs[task := Returned(true)] && end.ticket.None? && end.clock == at
    && end.phase == Running(st.nextEngine, kept + [at]) && end.nextEngine == st.nextEngine + 1
    && end.attempts == st.attempts + [at] && end.installs == st.installs + [Install(task, st.nextEngine)]
    && end.slot == st.slot && end.bumps == st.bumps && end.policy == st.policy
  }

  lemma AsksThePolicy(st: State, task: Task)
    requires task in st.pcs && st.pcs[task].WantTicket? && st.ticket.None? && !st.phase.Running?
    ensures Steps(st, task, 4) ==
            Decide(At(st, task, Deciding(st.phase.History())).(ticket := Some(task)), task, st.phase.History())
  {
    var history := st.phase.History();
    var s1 := At(st, task, HasTicket).(ticket := Some(task));
    var s2 := At(s1, task, NeedHistory);
    assert Steps(st, task, 1) == s1 by { assert Steps(st, task, 0) == st; }
    assert Steps(st, task, 2) == s2;
    assert Steps(st, task, 3) == At(s2, task, Deciding(history));
    assert st.pcs[task := HasTicket][task := NeedHistory][task := Deciding(history)]
        == st.pcs[task := Deciding(history)];
  }

  lemma FindsTheBreakerOpen(st: State, task: Task, history: seq<nat>)
    requires history == st.phase.History()
    requires st.policy.Judge(|Pruned(history, st.clock, st.policy.window)|).Open?
    ensures Decide(At(st, task, Deciding(history)).(ticket := Some(task)), task, history) ==
            At(st, task, Returned(false)).(phase := BreakerOpen(Pruned(history, st.clock, st.policy.window)),
                                           ticket := None)
  {
    assert st.pcs[task := Deciding(history)][task := Returned(false)] == st.pcs[task := Returned(false)];
  }

  /** The call with the policy's answer and its backoff waited out. */
  function BackedOffAt(st: State, task: Task, kept: seq<nat>, due: nat): State {
    At(st, task, Waiting(kept, due)).(ticket := Some(task), clock := due)
  }

  lemma MayLaunch(st: State, task: Task, history: seq<nat>, delay: nat)
    requires st.policy.Judge(|Pruned(history, st.clock, st.policy.window)|) == Allowed(delay)
    ensures Apply(Decide(At(st, task, Deciding(history)).(ticket := Some(task)), task, history), Tick(delay))
         == BackedOffAt(st, task, Pruned(history, st.clock, st.policy.window), st.clock + delay)
  {
    var kept, due := Pruned(history, st.clock, st.policy.window), st.clock + delay;
    assert st.pcs[task := Deciding(history)][task := Waiting(kept, due)] == st.pcs[task := Waiting(kept, due)];
  }

  lemma BreakerIsReported(st: State, task: Task)
    requires task in st.pcs && st.pcs[task].WantTicket? && st.ticket.None? && !st.phase.Running?
    requires st.policy.Judge(|Pruned(st.phase.History(), st.clock, st.policy.window)|).Open?
    ensures BringsUp(st, task)
  {
    AsksThePolicy(st, task);
    FindsTheBreakerOpen(st, task, st.phase.History());
  }

  lemma AsksAndWaits(st: State, task: Task, delay: nat, n: nat) returns (waiting: State)
    requires task in st.pcs && st.pcs[task].WantTicket? && st.ticket.None? && !st.phase.Running?
    requires st.policy.Judge(|Pruned(st.phase.History(), st.clock, st.policy.window)|) == Allowed(delay) && n == 4
    ensures waiting == Apply(Steps(st, task, n), Tick(delay))
    ensures waiting == BackedOffAt(st, task, Pruned(st.phase.History(), st.clock, st.policy.window), st.clock + delay)
  {
    AsksThePolicy(st, task);
    MayLaunch(st, task, st.phase.History(), delay);
    waiting := Apply(Steps(st, task, n), Tick(delay));
  }

  lemma EngineIsLaunched(st: State, task: Task, delay: nat)
    requires task in st.pcs && st.pcs[task].WantTicket? && st.ticket.None? && !st.phase.Running?
    requires st.policy.Judge(|Pruned(st.phase.History(), st.clock, st.policy.window)|) == Allowed(delay)
    ensures BringsUp(st, task)
  {
    var waiting := AsksAndWaits(st, task, delay, 4);
    WaitsAndLaunches(st, waiting, task, Pruned(st.phase.History(), st.clock, st.policy.window), st.clock + delay, 2);
    assert BroughtUp(st, task, delay) == Steps(waiting, task, 2);
  }

  lemma UndisturbedBringUp(st: State, task: Task)
    requires task in st.pcs && st.pcs[task].WantTicket? && st.ticket.None? && !st.phase.Running?
    ensures BringsUp(st, task)
  {
    match st.policy.Judge(|Pruned(st.phase.History(), st.clock, st.policy.window)|)
    case Open => BreakerIsReported(st, task);
    case Allowed(delay) => EngineIsLaunched(st, task, delay);
  }

  lemma TwoSteps(st: State, task: Task)
    ensures Steps(st, task, 2) == Apply(Apply(st, Advance(task, true)), Advance(task, true))
  {
    assert Steps(st, task, 0) == st;
    assert Steps(st, task, 1) == Apply(st, Advance(task, true));
  }

  lemma WaitsAndLaunches(st: State, waiting: State, task: Task, kept: seq<nat>, due: nat, n: nat)
    requires waiting == BackedOffAt(st, task, kept, due) && n == 2
    ensures Launches(st, Steps(waiting, task, n), task, kept, due)
  {
    TwoSteps(waiting, task);
    var launching := Attempt(waiting, task, kept, due);
    assert Step(waiting, task, true) == launching;
    assert Step(launching, task, true) == Launched(launching, task, kept + [due], true);
    assert st.pcs[task := Waiting(kept, due)][task := Launching(kept + [due])][task := Returned(true)]
        == st.pcs[task := Returned(true)];
  }

  ghost predicate Asleep(end: State, phase: Phase, bumps: nat) {
    Heartbeat in end.pcs && end.pcs[Heartbeat].Sleeping? && end.phase == phase && end.bumps == bumps
  }

  /** The heartbeat's `bring_up` with the ticket free: it finds the breaker open, or a new engine runs and is
      counted. */
  ghost predicate HeartbeatBringsUp(st: State) {
    var kept := Pruned(st.phase.History(), st.clock, st.policy.window);
    match st.policy.Judge(|kept|)
    case Open => Asleep(Steps(st, Heartbeat, 5), BreakerOpen(kept), st.bumps)
    case Allowed(delay) =>
      Asleep(Steps(BroughtUp(st, Heartbeat, delay), Heartbeat, 1),
             Running(st.nextEngine, kept + [st.clock + delay]), st.bumps + 1)
  }

  /** A probe's answer decides: a healthy engine goes on with a clean record; any other is mourned with its
      record kept, and with the ticket free a launch that works replaces it and is counted once. */
  lemma ProbedEngineIsKeptOrReplaced(policy: RestartPolicy, evs: seq<Event>)
    requires policy.Valid()
    requires var st := Run(Apply, Init(policy), evs); Heartbeat in st.pcs && st.pcs[Heartbeat].Probing?
    ensures var st := Run(Apply, Init(policy), evs);
            var healthy := Apply(st, Advance(Heartbeat, true));
            var mourned := Apply(Apply(st, Advance(Heartbeat, false)), Advance(Heartbeat, true));
            && st.phase.Running? && st.phase.engine == st.pcs[Heartbeat].engine < st.nextEngine
            && healthy == At(st, Heartbeat, Sleeping).(phase := Running(st.phase.engine, []), attempts := [])
            && mourned == At(st, Heartbeat, WantTicket).(phase := Replacing(st.phase.history))
            && (st.ticket.None? ==> HeartbeatBringsUp(mourned))
  {
    RunIsSafe(policy, evs);
    EnginesAreNew(policy, evs);
    var st := Run(Apply, Init(policy), evs);
    ProbeAnswers(st);
    if st.ticket.None? {
      var mourned := At(st, Heartbeat, WantTicket).(phase := Replacing(st.phase.history));
      UndisturbedBringUp(mourned, Heartbeat);
      ReturnsAsleep(mourned);
    }
  }

  lemma ProbeAnswers(st: State)
    requires EngineInv(st) && Heartbeat in st.pcs && st.pcs[Heartbeat].Probing?
    ensures st.phase.Running? && st.phase.engine == st.pcs[Heartbeat].engine
    ensures Apply(st, Advance(Heartbeat, true)) ==
            At(st, Heartbeat, Sleeping).(phase := Running(st.phase.engine, []), attempts := [])
    ensures Apply(Apply(st, Advance(Heartbeat, false)), Advance(Heartbeat, true)) ==
            At(st, Heartbeat, WantTicket).(phase := Replacing(st.phase.history))
  {
    var engine := st.pcs[Heartbeat].engine;
    assert st.pcs[Heartbeat := Condemning(Some(engine))][Heartbeat := WantTicket] == st.pcs[Heartbeat := WantTicket];
  }

  /** The last step of a heartbeat's `bring_up`. */
  lemma ReturnsAsleep(st: State)
    requires Heartbeat in st.pcs && BringsUp(st, Heartbeat)
    ensures HeartbeatBringsUp(st)
  {
    var kept := Pruned(st.phase.History(), st.clock, st.policy.window);
    match st.policy.Judge(|kept|)
    case Open => ReturnStep(Steps(st, Heartbeat, 4), false);
    case Allowed(delay) =>
      var up := BroughtUp(st, Heartbeat, delay);
      ReturnStep(up, true);
      assert Steps(up, Heartbeat, 0) == up;
  }

  lemma ReturnStep(st: State, up: bool)
    requires Heartbeat in st.pcs && st.pcs[Heartbeat] == Returned(up)
    ensures Asleep(Apply(st, Advance(Heartbeat, true)), st.phase, if up then st.bumps + 1 else st.bumps)
  {
  }

  /** An engine runs under a number below the next. */
  lemma EnginesAreNew(policy: RestartPolicy, evs: seq<Event>)
    ensures var st := Run(Apply, Init(policy), evs); st.phase.Running? ==> st.phase.engine < st.nextEngine
  {
    Invariant(Apply, Anything, (st: State) => st.phase.Running? ==> st.phase.engine < st.nextEngine, Init(policy), evs);
  }

  /** A starter's return leaves the heartbeat asleep in its place. */
  ghost predicate Started(st: State, end: State, phase: Phase) {
    && end.phase == phase && end.bumps == st.bumps && end.slot.None? && end.ticket.None?
    && end.pcs == st.pcs[Heartbeat := Sleeping]
  }

  lemma StarterReturns(st: State, before: State, task: Task, up: bool)
    requires task.Starter? && task !in before.pcs && st.pcs == before.pcs[task := Returned(up)]
    requires st.bumps == before.bumps && st.ticket.None?
    ensures Started(before, Apply(st, Advance(task, true)), st.phase)
  {
    assert st.pcs - {task} == before.pcs;
  }

  /** The starter with the heartbeat slot in hand. */
  function Slotted(st: State, id: nat): State { At(st, Starter(id), WantTicket).(slot := Some(id)) }

  lemma StarterTakesSlot(st: State, id: nat)
    requires Starter(id) !in st.pcs && Heartbeat !in st.pcs && st.slot.None?
    ensures Steps(Apply(st, StartCall(id)), Starter(id), 1) == Slotted(st, id)
  {
    var queued := Apply(st, StartCall(id));
    assert Steps(queued, Starter(id), 0) == queued;
    assert st.pcs[Starter(id) := WantSlot][Starter(id) := WantTicket] == st.pcs[Starter(id) := WantTicket];
  }

  /** The first `start` takes the slot, brings an engine up and leaves the heartbeat behind, whether or not the
      breaker let it launch; nothing is counted as a restart. */
  lemma StartLaunches(st: State, id: nat)
    requires Starter(id) !in st.pcs && Heartbeat !in st.pcs
    requires st.slot.None? && st.ticket.None? && !st.phase.Running?
    ensures var task := Starter(id);
            var slotted := Steps(Apply(st, StartCall(id)), task, 1);
            var kept := Pruned(st.phase.History(), st.clock, st.policy.window);
            match st.policy.Judge(|kept|)
            case Open => Started(st, Steps(slotted, task, 5), BreakerOpen(kept))
            case Allowed(delay) =>
              Started(st, Steps(BroughtUp(slotted, task, delay), task, 1),
                      Running(st.nextEngine, kept + [st.clock + delay]))
  {
    StarterTakesSlot(st, id);
    UndisturbedBringUp(Slotted(st, id), Starter(id));
    match st.policy.Judge(|Pruned(st.phase.History(), st.clock, st.policy.window)|)
    case Open => StarterLeavesItOpen(st, id, Steps(Slotted(st, id), Starter(id), 4));
    case Allowed(delay) => StarterComesBack(st, id, BroughtUp(Slotted(st, id), Starter(id), delay));
  }

  lemma StarterLeavesItOpen(st: State, id: nat, asked: State)
    requires Starter(id) !in st.pcs && st.ticket.None?
    requires asked.pcs == Slotted(st, id).pcs[Starter(id) := Returned(false)]
    requires asked.bumps == st.bumps && asked.ticket.None?
    ensures Started(st, Apply(asked, Advance(Starter(id), true)), asked.phase)
  {
    assert asked.pcs == st.pcs[Starter(id) := Returned(false)];
    StarterReturns(asked, st, Starter(id), false);
  }

  lemma StarterComesBack(st: State, id: nat, up: State)
    requires Starter(id) !in st.pcs && up.pcs == Slotted(st, id).pcs[Starter(id) := Returned(true)]
    requires up.bumps == st.bumps && up.ticket.None?
    ensures Started(st, Steps(up, Starter(id), 1), up.phase)
  {
    assert up.pcs == st.pcs[Starter(id) := Returned(true)];
    StarterReturns(up, st, Starter(id), true);
    assert Steps(up, Starter(id), 0) == up;
  }

  /** A later one finds the heartbeat and leaves everything as it is. */
  lemma LaterStartLeaves(st: State, id: nat)
    requires Starter(id) !in st.pcs && Heartbeat in st.pcs && st.slot.None?
    ensures Steps(Apply(st, StartCall(id)), Starter(id), 1) == st
  {
    var queued := Apply(st, StartCall(id));
    assert Steps(queued, Starter(id), 0) == queued;
    assert queued.pcs - {Starter(id)} == st.pcs;
  }

  /** The heartbeat probes what runs; with nothing running it goes straight to bringing an engine up. */
  lemma HeartbeatLooks(st: State)
    requires Heartbeat in st.pcs && st.pcs[Heartbeat].Sleeping?
    ensures st.phase.Running? ==> Steps(st, Heartbeat, 1) == At(st, Heartbeat, Probing(st.phase.engine))
    ensures !st.phase.Running? ==> Steps(st, Heartbeat, 2) == At(st, Heartbeat, WantTicket)
  {
    assert Steps(st, Heartbeat, 0) == st;
    if !st.phase.Running? {
      assert Steps(st, Heartbeat, 1) == At(st, Heartbeat, Condemning(None));
      assert st.pcs[Heartbeat := Condemning(None)][Heartbeat := WantTicket] == st.pcs[Heartbeat := WantTicket];
    }
  }

  /** A call that gets the ticket only after another has brought an engine up uses that one. */
  lemma QueuedCallUsesTheEngine(st: State, task: Task)
    requires task in st.pcs && st.pcs[task].WantTicket? && st.ticket.None? && st.phase.Running?
    ensures Steps(st, task, 2) == At(st, task, Returned(true))
  {
    assert Steps(st, task, 0) == st;
    assert Steps(st, task, 1) == At(st, task, HasTicket).(ticket := Some(task));
    assert st.pcs[task := HasTicket][task := Returned(true)] == st.pcs[task := Returned(true)];
  }
}
