/**
 Session recovery racing session close (crates/session/src/manager.rs). One watcher rebuilds sessions
 after engine replacements; any number of `session` and `close_session` calls run beside it. Each
 engine round trip, lock acquisition and publish is a step of its own, and session ids are never
 reused.

 A context is closed here when `close` was called on it; a context of a dead engine died with it.
 */
module Recovery {
  import opened Options
  import opened Runs

  type SessionId = nat
  type ContextId = nat     // its position among all contexts ever built
  type EngineId = nat

  datatype Context = Context(session: SessionId, engine: EngineId)

  /** `close_session` after it removed the session from the map. */
  datatype Closer = Reading | Closing(context: ContextId) | Announcing | Forgetting | Finished

  datatype Watcher =
    | Parked                                             // awaits a restart bump
    | Snapshotting
    | StartingRound
    | Picking                                            // takes the next pending session
    | Building(session: SessionId)                       // found open before the rebuild
    | Installing(session: SessionId, context: ContextId)
    | Publishing(session: SessionId)
    | Rechecking(session: SessionId)
    | Reclosing(session: SessionId)                      // found closed after the rebuild
    | ReclosingContext(session: SessionId, context: ContextId)
    | Reforgetting(session: SessionId)
  {
    predicate WorksOn(id: SessionId) {
      !Parked? && !Snapshotting? && !StartingRound? && !Picking? && session == id
    }

    /** From the installed context on, until the session is found open or torn down. */
    predicate Rebuilt(id: SessionId) {
      WorksOn(id) && !Building? && !Installing?
    }
  }

  /** The rounds of one pass; a session that failed in all of them waits for the next bump. */
  const RECOVERY_ROUNDS: nat := 3

  /** One bump's pass: the sessions it found, and what became of them. */
  datatype Pass = Pass(
    snapshot: set<SessionId>,
    round: nat,
    engine: EngineId,
    remaining: set<SessionId>,
    failed: set<SessionId>,
    skipped: set<SessionId>,      // found closed before their rebuild
    rebuilt: set<SessionId>)

  datatype State = State(
    maxSessions: nat,
    engine: Option<EngineId>,
    nextEngine: EngineId,
    bumps: nat,
    seen: nat,
    contexts: seq<Context>,
    closed: set<ContextId>,
    orphaned: set<ContextId>,     // replaced by a rebuild with nobody left to close them
    installed: map<SessionId, ContextId>,
    open: set<SessionId>,
    rings: set<SessionId>,
    talked: set<SessionId>,       // a call published to the session since it was last forgotten
    closers: map<SessionId, Closer>,
    watcher: Watcher,
    pass: Pass)

  datatype Event =
    | EngineDies
    | EngineInstalled
    | Bump
    | OpenSession(id: SessionId)
    | CloseSession(id: SessionId)
    | CloserStep(id: SessionId)
    | CallPublishes(id: SessionId)              // an action or a settled approval still in flight on the session
    | WatcherStep(pick: SessionId, ok: bool)    // `ok`: the context was created, or the last event published

  function Init(maxSessions: nat): State {
    State(maxSessions, None, 0, 0, 0, [], {}, {}, map[], {}, {}, {}, map[], Parked, Pass({}, 0, 0, {}, {}, {}, {}))
  }

  // ----- sessions

  /** `session`: under the map lock from the lookup to the insert. Capacity is refused first. */
  function OpenOne(st: State, id: SessionId): State {
    if id in st.installed || |st.open| >= st.maxSessions || st.engine.None? then st
    else
      st.(contexts := st.contexts + [Context(id, st.engine.value)],
          installed := st.installed[id := |st.contexts|],
          open := st.open + {id}, rings := st.rings + {id})
  }

  /** A call outlives the session it runs on: what it publishes re-creates the ring. */
  function Publish(st: State, id: SessionId): State {
    if id in st.installed then st.(rings := st.rings + {id}, talked := st.talked + {id}) else st
  }

  function Forgotten(st: State, id: SessionId): State {
    st.(rings := st.rings - {id}, talked := st.talked - {id})
  }

  function Remove(st: State, id: SessionId): State {
    if id in st.open then st.(open := st.open - {id}, closers := st.closers[id := Reading]) else st
  }

  function CloserMove(st: State, id: SessionId): State {
    if id !in st.closers || id !in st.installed then st
    else match st.closers[id]
      case Reading => st.(closers := st.closers[id := Closing(st.installed[id])])
      case Closing(context) => st.(closers := st.closers[id := Announcing], closed := st.closed + {context})
      case Announcing => st.(closers := st.closers[id := Forgetting], rings := st.rings + {id})
      case Forgetting => Forgotten(st, id).(closers := st.closers[id := Finished])
      case Finished => st
  }

  // ----- the watcher

  function EndRound(st: State): State {
    var pass := st.pass.(remaining := st.pass.failed, failed := {}, round := st.pass.round + 1);
    st.(pass := pass,
        watcher := if pass.remaining == {} || pass.round >= RECOVERY_ROUNDS then Parked else StartingRound)
  }

  function Pick(st: State, id: SessionId): State {
    if st.pass.remaining == {} then EndRound(st)
    else if id !in st.pass.remaining then st
    else
      var taken := st.pass.(remaining := st.pass.remaining - {id});
      if id in st.open then st.(pass := taken, watcher := Building(id))
      else st.(pass := taken.(skipped := taken.skipped + {id}))
  }

  function Build(st: State, id: SessionId, ok: bool): State {
    if ok then
      st.(contexts := st.contexts + [Context(id, st.pass.engine)], watcher := Installing(id, |st.contexts|))
    else st.(pass := st.pass.(failed := st.pass.failed + {id}), watcher := Picking)
  }

  /** The context a rebuild replaces has nobody left to close it, unless it is closed already or the
      session's closer has it in hand. */
  predicate LeavesBehind(st: State, id: SessionId)
    requires id in st.installed
  {
    st.installed[id] !in st.closed && !CloserHolds(st, id, st.installed[id])
  }

  function Install(st: State, id: SessionId, context: ContextId): State {
    if id !in st.installed then st
    else
      st.(installed := st.installed[id := context], watcher := Publishing(id),
          orphaned := if LeavesBehind(st, id) then st.orphaned + {st.installed[id]} else st.orphaned)
  }

  function WatcherMove(st: State, pick: SessionId, ok: bool): State {
    match st.watcher
    case Parked => if st.seen < st.bumps then st.(seen := st.bumps, watcher := Snapshotting) else st
    case Snapshotting =>
      st.(pass := Pass(st.open, 0, 0, st.open, {}, {}, {}),
          watcher := if st.open == {} then Parked else StartingRound)
    case StartingRound =>
      if st.engine.None? then st.(watcher := Parked)
      else st.(pass := st.pass.(engine := st.engine.value), watcher := Picking)
    case Picking => Pick(st, pick)
    case Building(id) => Build(st, id, ok)
    case Installing(id, context) => Install(st, id, context)
    case Publishing(id) => st.(rings := st.rings + {id}, watcher := if ok then Rechecking(id) else Publishing(id))
    case Rechecking(id) =>
      st.(pass := st.pass.(rebuilt := st.pass.rebuilt + {id}),
          watcher := if id in st.open then Picking else Reclosing(id))
    case Reclosing(id) => if id in st.installed then st.(watcher := ReclosingContext(id, st.installed[id])) else st
    case ReclosingContext(id, context) => st.(closed := st.closed + {context}, watcher := Reforgetting(id))
    case Reforgetting(id) => Forgotten(st, id).(watcher := Picking)
  }

  function Apply(st: State, ev: Event): State {
    match ev
    case EngineDies => st.(engine := None)
    case EngineInstalled =>
      if st.engine.None? then st.(engine := Some(st.nextEngine), nextEngine := st.nextEngine + 1) else st
    case Bump => st.(bumps := st.bumps + 1)
    case OpenSession(id) => OpenOne(st, id)
    case CloseSession(id) => Remove(st, id)
    case CloserStep(id) => CloserMove(st, id)
    case CallPublishes(id) => Publish(st, id)
    case WatcherStep(pick, ok) => WatcherMove(st, pick, ok)
  }

  ghost predicate Anything(st: State, ev: Event) { true }

  // ----- what every step keeps

  /** The context exists and was built for the session. */
  ghost predicate BuiltFor(st: State, context: ContextId, id: SessionId) {
    context < |st.contexts| && st.contexts[context].session == id
  }

  /** The session's closer has read this context and not closed it yet. */
  predicate CloserHolds(st: State, id: SessionId, context: ContextId) {
    id in st.closers && st.closers[id] == Closing(context)
  }

  /** A context is closed or orphaned, not both, or somebody still has it in hand. */
  ghost predicate ContextInv(st: State, c: ContextId)
    requires c < |st.contexts|
  {
    var id := st.contexts[c].session;
    && id in st.installed
    && (c in st.orphaned ==>
          c !in st.closed && st.installed[id] != c && !CloserHolds(st, id, c) && st.watcher != Installing(id, c))
    && (c in st.closed || c in st.orphaned || st.installed[id] == c || CloserHolds(st, id, c)
        || st.watcher == Installing(id, c))
  }

  /** A removed session's installed context and its ring are somebody's to tear down. */
  ghost predicate SessionInv(st: State, id: SessionId) {
    && (id in st.installed <==> id in st.open || id in st.closers)
    && (id in st.installed ==> BuiltFor(st, st.installed[id], id))
    && (id in st.closers ==>
          && id !in st.open
          && (st.closers[id].Closing? ==> BuiltFor(st, st.closers[id].context, id))
          && (st.installed[id] in st.closed || st.closers[id].Reading? || CloserHolds(st, id, st.installed[id])
              || (st.watcher.Rebuilt(id) && !st.watcher.Reforgetting?))
          && (id in st.rings ==> !st.closers[id].Finished? || st.watcher.Rebuilt(id) || id in st.talked))
    && (id in st.talked ==> id in st.rings && id in st.installed)
  }

  ghost predicate WatcherInv(st: State) {
    match st.watcher
    case Building(id) => id in st.installed
    case Installing(id, context) =>
      && id in st.installed && BuiltFor(st, context, id)
      && st.installed[id] != context && context !in st.closed && !CloserHolds(st, id, context)
    case Publishing(id) => id in st.installed
    case Rechecking(id) => id in st.installed
    case Reclosing(id) => id in st.closers
    case ReclosingContext(id, context) => id in st.closers && id in st.installed && st.installed[id] == context
    case Reforgetting(id) => id in st.closers && id in st.installed && st.installed[id] in st.closed
    case _ => true
  }

  ghost predicate Inv(st: State) {
    && (forall c :: 0 <= c < |st.contexts| ==> ContextInv(st, c))
    && (forall id :: SessionInv(st, id))
    && (forall c :: c in st.closed ==> c < |st.contexts|)
    && (forall c :: c in st.orphaned ==> c < |st.contexts|)
    && st.pass.remaining + st.pass.failed <= st.installed.Keys
    && WatcherInv(st)
  }

  lemma OpenKeepsInv(st: State, id: SessionId)
    requires Inv(st)
    ensures Inv(OpenOne(st, id))
  {
    var next := OpenOne(st, id);
    assert SessionInv(st, id);
    forall c | 0 <= c < |next.contexts| ensures ContextInv(next, c) {
      if c < |st.contexts| { assert ContextInv(st, c); }
    }
    forall s ensures SessionInv(next, s) { assert SessionInv(st, s); }
  }

  lemma PublishKeepsInv(st: State, id: SessionId)
    requires Inv(st)
    ensures Inv(Publish(st, id))
  {
    var next := Publish(st, id);
    forall c | 0 <= c < |next.contexts| ensures ContextInv(next, c) { assert ContextInv(st, c); }
    forall s ensures SessionInv(next, s) { assert SessionInv(st, s); }
  }

  lemma RemoveKeepsInv(st: State, id: SessionId)
    requires Inv(st)
    ensures Inv(Remove(st, id))
  {
    var next := Remove(st, id);
    assert SessionInv(st, id);
    forall c | 0 <= c < |next.contexts| ensures ContextInv(next, c) { assert ContextInv(st, c); }
    forall s ensures SessionInv(next, s) { assert SessionInv(st, s); }
  }

  lemma CloserKeepsInv(st: State, id: SessionId)
    requires Inv(st)
    ensures Inv(CloserMove(st, id))
  {
    var next := CloserMove(st, id);
    assert SessionInv(st, id);
    forall c | 0 <= c < |next.contexts| ensures ContextInv(next, c) { assert ContextInv(st, c); }
    forall s ensures SessionInv(next, s) { assert SessionInv(st, s); }
  }

  lemma WatcherKeepsInv(st: State, pick: SessionId, ok: bool)
    requires Inv(st)
    ensures Inv(WatcherMove(st, pick, ok))
  {
    match st.watcher
    case Building(id) => BuildKeepsInv(st, id, ok);
    case Installing(id, context) => InstallKeepsInv(st, id, context);
    case Reclosing(id) => ReclosingKeepsInv(st, id, pick, ok);
    case ReclosingContext(id, _) => ReclosingKeepsInv(st, id, pick, ok);
    case Reforgetting(id) => ReclosingKeepsInv(st, id, pick, ok);
    case Publishing(id) => RebuiltKeepsInv(st, id, pick, ok);
    case Rechecking(id) => RebuiltKeepsInv(st, id, pick, ok);
    case _ => PassKeepsInv(st, pick, ok);
  }

  lemma PickKeepsInv(st: State, pick: SessionId)
    requires Inv(st) && st.watcher.Picking?
    ensures Inv(Pick(st, pick))
  {
    var next := Pick(st, pick);
    forall c | 0 <= c < |next.contexts| ensures ContextInv(next, c) { assert ContextInv(st, c); }
    forall s ensures SessionInv(next, s) && (s in st.open ==> s in st.installed) { assert SessionInv(st, s); }
  }

  lemma PassKeepsInv(st: State, pick: SessionId, ok: bool)
    requires Inv(st)
    requires st.watcher.Parked? || st.watcher.Snapshotting? || st.watcher.StartingRound? || st.watcher.Picking?
    ensures Inv(WatcherMove(st, pick, ok))
  {
    if st.watcher.Picking? {
      PickKeepsInv(st, pick);
    } else {
      var next := WatcherMove(st, pick, ok);
      forall c | 0 <= c < |next.contexts| ensures ContextInv(next, c) { assert ContextInv(st, c); }
      forall s ensures SessionInv(next, s) && (s in st.open ==> s in st.installed) { assert SessionInv(st, s); }
    }
  }

  lemma RebuiltKeepsInv(st: State, id: SessionId, pick: SessionId, ok: bool)
    requires Inv(st) && (st.watcher == Publishing(id) || st.watcher == Rechecking(id))
    ensures Inv(WatcherMove(st, pick, ok))
  {
    var next := WatcherMove(st, pick, ok);
    assert SessionInv(st, id);
    forall c | 0 <= c < |next.contexts| ensures ContextInv(next, c) { assert ContextInv(st, c); }
    forall s ensures SessionInv(next, s) { assert SessionInv(st, s); }
  }

  lemma BuildKeepsInv(st: State, id: SessionId, ok: bool)
    requires Inv(st) && st.watcher == Building(id)
    ensures Inv(Build(st, id, ok))
  {
    var next := Build(st, id, ok);
    assert SessionInv(st, id);
    forall c | 0 <= c < |next.contexts| ensures ContextInv(next, c) {
      if c < |st.contexts| { assert ContextInv(st, c); }
    }
    forall s ensures SessionInv(next, s) { assert SessionInv(st, s); }
  }

  lemma InstallKeepsInv(st: State, id: SessionId, context: ContextId)
    requires Inv(st) && st.watcher == Installing(id, context)
    ensures Inv(Install(st, id, context))
  {
    var next := Install(st, id, context);
    assert SessionInv(st, id) && ContextInv(st, context);
    forall c | 0 <= c < |next.contexts| ensures ContextInv(next, c) { assert ContextInv(st, c); }
    forall s ensures SessionInv(next, s) { assert SessionInv(st, s); }
  }

  lemma ReclosingKeepsInv(st: State, id: SessionId, pick: SessionId, ok: bool)
    requires Inv(st) && st.watcher.Rebuilt(id) && id in st.closers
    requires !st.watcher.Publishing? && !st.watcher.Rechecking?
    ensures Inv(WatcherMove(st, pick, ok))
  {
    var next := WatcherMove(st, pick, ok);
    assert SessionInv(st, id);
    forall c | 0 <= c < |next.contexts| ensures ContextInv(next, c) { assert ContextInv(st, c); }
    forall s ensures SessionInv(next, s) { assert SessionInv(st, s); }
  }

  lemma ApplyKeepsInv(st: State, ev: Event)
    requires Inv(st)
    ensures Inv(Apply(st, ev))
  {
    match ev
    case OpenSession(id) => OpenKeepsInv(st, id);
    case CloseSession(id) => RemoveKeepsInv(st, id);
    case CloserStep(id) => CloserKeepsInv(st, id);
    case CallPublishes(id) => PublishKeepsInv(st, id);
    case WatcherStep(pick, ok) => WatcherKeepsInv(st, pick, ok);
    case _ =>
      var next := Apply(st, ev);
      forall c | 0 <= c < |next.contexts| ensures ContextInv(next, c) { assert ContextInv(st, c); }
      forall s ensures SessionInv(next, s) { assert SessionInv(st, s); }
  }

  lemma RunKeepsInv(maxSessions: nat, evs: seq<Event>)
    ensures Inv(Run(Apply, Init(maxSessions), evs))
  {
    assert Inv(Init(maxSessions)) by {
      forall id ensures SessionInv(Init(maxSessions), id) {}
    }
    forall st, ev | Inv(st) && Anything(st, ev) ensures Inv(Apply(st, ev)) { ApplyKeepsInv(st, ev); }
    Invariant(Apply, Anything, Inv, Init(maxSessions), evs);
  }

  // ----- over whole runs

  /** The close has run to its end, and the watcher has left the session. */
  ghost predicate TornDown(st: State, id: SessionId) {
    id in st.closers && st.closers[id].Finished? && !st.watcher.WorksOn(id)
  }

  ghost predicate Forgets(st: State, ev: Event, id: SessionId) {
    || (ev == CloserStep(id) && id in st.closers && id in st.installed && st.closers[id].Forgetting?)
    || (ev.WatcherStep? && st.watcher == Reforgetting(id))
  }

  /** Some call published to the session and nothing forgot the session since. */
  ghost predicate PublishedSinceForget(maxSessions: nat, evs: seq<Event>, id: SessionId) {
    evs != []
    && var init, last := evs[..|evs| - 1], evs[|evs| - 1];
       var st := Run(Apply, Init(maxSessions), init);
       !Forgets(st, last, id)
       && ((last == CallPublishes(id) && id in st.installed) || PublishedSinceForget(maxSessions, init, id))
  }

  lemma {:induction false} TalkedExactly(maxSessions: nat, evs: seq<Event>, id: SessionId)
    ensures id in Run(Apply, Init(maxSessions), evs).talked <==> PublishedSinceForget(maxSessions, evs, id)
  {
    if evs != [] {
      var init := evs[..|evs| - 1];
      TalkedExactly(maxSessions, init, id);
      StepTalks(Run(Apply, Init(maxSessions), init), evs[|evs| - 1], id);
    }
  }

  lemma StepTalks(st: State, ev: Event, id: SessionId)
    ensures id in Apply(st, ev).talked <==>
            !Forgets(st, ev, id) && ((ev == CallPublishes(id) && id in st.installed) || id in st.talked)
  {
    match ev
    case WatcherStep(_, _) =>
    case _ =>
  }

  /** However close, recovery and calls still in flight interleave, a close landing mid-rebuild included:
      once close and watcher are done with a session, its ring is back exactly if a call published to it
      after it was last forgotten, and of the contexts ever built for it exactly those are closed that no
      rebuild left behind. */
  lemma ClosedSessionIsTornDown(maxSessions: nat, evs: seq<Event>, id: SessionId)
    requires TornDown(Run(Apply, Init(maxSessions), evs), id)
    ensures var end := Run(Apply, Init(maxSessions), evs);
            && id !in end.open
            && (id in end.rings <==> PublishedSinceForget(maxSessions, evs, id))
            && forall c :: 0 <= c < |end.contexts| && end.contexts[c].session == id ==>
                             (c in end.closed <==> c !in end.orphaned)
  {
    RunKeepsInv(maxSessions, evs);
    TalkedExactly(maxSessions, evs, id);
    var end := Run(Apply, Init(maxSessions), evs);
    assert SessionInv(end, id);
    forall c | 0 <= c < |end.contexts| && end.contexts[c].session == id
      ensures c in end.closed <==> c !in end.orphaned
    {
      assert ContextInv(end, c);
    }
  }

  /** No context of this engine is alive any more, and none will be. */
  ghost predicate Dead(st: State, engine: EngineId) { engine < st.nextEngine && st.engine != Some(engine) }

  /** A rebuild is about to leave a context behind in a live engine: nobody has closed it or is about to,
      and the rebuild replaces it on the engine it already lives on. */
  ghost predicate LeavesALiveContext(st: State, ev: Event) {
    && ev.WatcherStep? && st.watcher.Installing? && st.watcher.session in st.installed
    && st.installed[st.watcher.session] < |st.contexts| && LeavesBehind(st, st.watcher.session)
    && !Dead(st, st.contexts[st.installed[st.watcher.session]].engine)
  }

  ghost predicate LeavesOnlyDead(st: State, ev: Event) { !LeavesALiveContext(st, ev) }

  ghost predicate OrphansAreDead(st: State) {
    forall c :: c in st.orphaned && c < |st.contexts| ==> Dead(st, st.contexts[c].engine)
  }

  lemma StepKeepsOrphansDead(st: State, ev: Event)
    requires Inv(st) && OrphansAreDead(st)
    ensures OrphansAreDead(Apply(st, ev)) <==> LeavesOnlyDead(st, ev)
  {
    if ev.WatcherStep? && st.watcher.Installing? {
      var id := st.watcher.session;
      assert SessionInv(st, id);
      if LeavesALiveContext(st, ev) { assert st.installed[id] in Apply(st, ev).orphaned; }
    }
  }

  /** All that was ever left behind is dead, all along, exactly while no rebuild leaves a live context. */
  lemma {:induction false} OrphansDeadExactly(maxSessions: nat, evs: seq<Event>)
    ensures AllAlong(Apply, OrphansAreDead, Init(maxSessions), evs)
            <==> LegalRun(Apply, LeavesOnlyDead, Init(maxSessions), evs)
  {
    forall st, ev | Inv(st) ensures Inv(Apply(st, ev)) { ApplyKeepsInv(st, ev); }
    forall st, ev | Inv(st) && OrphansAreDead(st) ensures OrphansAreDead(Apply(st, ev)) <==> LeavesOnlyDead(st, ev) {
      StepKeepsOrphansDead(st, ev);
    }
    RunKeepsInv(maxSessions, []);
    AllAlongExactly(Apply, LeavesOnlyDead, Inv, OrphansAreDead, Init(maxSessions), evs);
  }

  /** As long as no rebuild leaves a live context, a closed session leaves none: each of its contexts is
      closed, or died with its engine. */
  lemma {:induction false} ClosedSessionLeavesNothingAlive(
      maxSessions: nat, evs: seq<Event>, id: SessionId, c: ContextId)
    requires LegalRun(Apply, LeavesOnlyDead, Init(maxSessions), evs)
    requires var end := Run(Apply, Init(maxSessions), evs);
             TornDown(end, id) && c < |end.contexts| && end.contexts[c].session == id
    ensures var end := Run(Apply, Init(maxSessions), evs);
            c in end.closed || Dead(end, end.contexts[c].engine)
  {
    RunKeepsInv(maxSessions, evs);
    OrphansDeadExactly(maxSessions, evs);
    ClosedSessionIsTornDown(maxSessions, evs, id);
  }

  /** The server never holds more than its cap of open sessions. */
  lemma CapacityHolds(maxSessions: nat, evs: seq<Event>)
    ensures |Run(Apply, Init(maxSessions), evs).open| <= maxSessions
  {
    Invariant(Apply, Anything, (st: State) => |st.open| <= st.maxSessions == maxSessions, Init(maxSessions), evs);
  }

  /** A session opens exactly if its id is new, an engine runs, and fewer than the cap are open; it gets a context
      of its own on that engine. */
  lemma SessionOpensExactly(st: State, id: SessionId)
    requires id !in st.open
    ensures var next := Apply(st, OpenSession(id));
            && (id in next.open <==> id !in st.installed && st.engine.Some? && |st.open| < st.maxSessions)
            && (id in next.open ==>
                  && next.open == st.open + {id} && next.installed == st.installed[id := |st.contexts|]
                  && next.contexts == st.contexts + [Context(id, st.engine.value)])
            && (id !in next.open ==> next == st)
  {
  }

  // ----- a pass loses no session

  /** The session's rebuild is under way. */
  predicate InHand(watcher: Watcher, id: SessionId) {
    && watcher.WorksOn(id)
    && (watcher.Building? || watcher.Installing? || watcher.Publishing? || watcher.Rechecking?)
  }

  /** A session a pass found is still pending, failed so far, being rebuilt, rebuilt, or was found
      closed; and what was found closed stays closed. */
  ghost predicate PassInv(st: State, id: SessionId) {
    && (id in st.pass.snapshot <==>
          || id in st.pass.remaining || id in st.pass.failed || id in st.pass.skipped || id in st.pass.rebuilt
          || InHand(st.watcher, id))
    && (id in st.pass.skipped ==> id !in st.open)
    && (id in st.pass.snapshot || id in st.open ==> id in st.installed)
    && (st.watcher.Parked? || st.watcher.Snapshotting? || st.watcher.StartingRound? ==> id !in st.pass.failed)
  }

  lemma ApplyKeepsPass(st: State, ev: Event, id: SessionId)
    requires PassInv(st, id)
    ensures PassInv(Apply(st, ev), id)
  {
    match ev
    case WatcherStep(pick, ok) => WatcherKeepsPass(st, pick, ok, id);
    case _ =>
  }

  lemma WatcherKeepsPass(st: State, pick: SessionId, ok: bool, id: SessionId)
    requires PassInv(st, id)
    ensures PassInv(WatcherMove(st, pick, ok), id)
  {
    match st.watcher
    case Picking =>
    case _ =>
  }

  /** When the watcher parks, every session its last pass found was rebuilt, or found closed, or stays
      listed as unrecovered for the next bump; none is lost between the rounds. */
  lemma PassLosesNoSession(maxSessions: nat, evs: seq<Event>, id: SessionId)
    ensures var end := Run(Apply, Init(maxSessions), evs);
            && (end.watcher.Parked? && id in end.pass.snapshot ==>
                  id in end.pass.rebuilt || id in end.pass.skipped || id in end.pass.remaining)
            && (id in end.pass.skipped ==> id !in end.open)
  {
    var inv := st => PassInv(st, id);
    forall st, ev | inv(st) && Anything(st, ev) ensures inv(Apply(st, ev)) { ApplyKeepsPass(st, ev, id); }
    Invariant(Apply, Anything, inv, Init(maxSessions), evs);
  }

  // ----- a rebuild over a live context leaves it behind

  /** Engine 0 died and engine 1 took its place; a session opened on engine 1 before the watcher took
      its snapshot. */
  const OPENED_LATE := State(
    8, Some(1), 2, 1, 0, [Context(5, 1)], {}, {}, map[5 := 0], {5}, {5}, {}, map[], Parked,
    Pass({}, 0, 0, {}, {}, {}, {}))

  lemma Follow(reached: State -> bool, from: State, ev: Event) returns (st: State)
    requires Closed(Apply, Anything, Init(8), reached) && reached(from)
    ensures st == Apply(from, ev) && reached(st)
  {
    assert Anything(from, ev);
    st := Apply(from, ev);
  }

  lemma SessionOpensAfterReplacement(reached: State -> bool)
    requires Closed(Apply, Anything, Init(8), reached)
    ensures reached(OPENED_LATE)
  {
    var st := Follow(reached, Init(8), EngineInstalled);
    st := Follow(reached, st, EngineDies);
    st := Follow(reached, st, EngineInstalled);
    st := Follow(reached, st, OpenSession(5));
    assert st.installed == map[5 := 0];
    st := Follow(reached, st, Bump);
    assert st == OPENED_LATE;
  }

  /** The pass rebuilds that session on the engine it already lives on. */
  lemma PassRebuildsIt(reached: State -> bool) returns (end: State)
    requires Closed(Apply, Anything, Init(8), reached) && reached(OPENED_LATE)
    ensures reached(end) && end.watcher == Rechecking(5) && end.engine == Some(1) && end.closed == {}
    ensures end.contexts == [Context(5, 1), Context(5, 1)] && end.installed == map[5 := 1] && end.open == {5}
    ensures end.closers == map[]
  {
    var step := WatcherStep(5, true);
    end := Follow(reached, OPENED_LATE, step);
    end := Follow(reached, end, step);
    end := Follow(reached, end, step);
    assert end.watcher == Picking && 5 in end.pass.remaining;
    end := Follow(reached, end, step);
    end := Follow(reached, end, step);
    assert end.watcher == Installing(5, 1);
    end := Follow(reached, end, step);
    assert end.installed == map[5 := 1];
    end := Follow(reached, end, step);
  }

  /** A close that nothing interleaves with. */
  lemma CloserRunsOut(reached: State -> bool, st: State, context: ContextId) returns (end: State)
    requires Closed(Apply, Anything, Init(8), reached) && reached(st)
    requires st.open == {5} && st.installed == map[5 := context] && st.closers == map[] && !st.watcher.WorksOn(5)
    ensures reached(end) && TornDown(end, 5) && end.watcher == st.watcher && 5 !in end.rings
    ensures end.closed == st.closed + {context} && end.installed == st.installed
    ensures end.contexts == st.contexts && end.engine == st.engine
  {
    end := Follow(reached, st, CloseSession(5));
    assert end.closers == map[5 := Reading];
    end := Follow(reached, end, CloserStep(5));
    assert end.closers == map[5 := Closing(context)];
    end := Follow(reached, end, CloserStep(5));
    end := Follow(reached, end, CloserStep(5));
    assert end.closers == map[5 := Forgetting];
    end := Follow(reached, end, CloserStep(5));
    assert end.closers == map[5 := Finished];
  }

  lemma CloseFinishes(reached: State -> bool, st: State) returns (end: State)
    requires Closed(Apply, Anything, Init(8), reached) && reached(st)
    requires st.watcher == Rechecking(5) && st.open == {5} && st.installed == map[5 := 1] && st.closed == {}
    requires st.closers == map[]
    ensures reached(end) && TornDown(end, 5) && end.closed == {1}
    ensures end.contexts == st.contexts && end.engine == st.engine
  {
    end := Follow(reached, st, WatcherStep(5, true));
    end := CloserRunsOut(reached, end, 1);
  }

  /** The condition on rebuilds is needed: a session opened on the new engine before the watcher takes
      its snapshot is rebuilt there a second time, and after the session is closed its first context
      stays open in the live engine. */
  lemma RebuildOnTheSameEngineLeaksAContext()
    ensures exists end :: && Reachable(Apply, Anything, Init(8), end) && TornDown(end, 5)
                          && end.contexts == [Context(5, 1), Context(5, 1)]
                          && 0 !in end.closed && !Dead(end, end.contexts[0].engine)
  {
    ReachableIsClosed(Apply, Anything, Init(8));
    var reached := st => Reachable(Apply, Anything, Init(8), st);
    SessionOpensAfterReplacement(reached);
    var mid := PassRebuildsIt(reached);
    var end := CloseFinishes(reached, mid);
    assert reached(end);
  }

  // ----- a call that outlives its session brings the ring back

  lemma CallSettlesAfterTheClose(reached: State -> bool) returns (end: State)
    requires Closed(Apply, Anything, Init(8), reached)
    ensures reached(end) && TornDown(end, 5) && end.watcher == Parked && 5 in end.rings
  {
    end := Follow(reached, Init(8), EngineInstalled);
    end := Follow(reached, end, OpenSession(5));
    assert end.installed == map[5 := 0] && end.open == {5};
    end := CloserRunsOut(reached, end, 0);
    end := Follow(reached, end, CallPublishes(5));
  }

  /** An action or an approval that settles after the close re-creates the ring, and with the close and
      the watcher both done nothing is left to forget it. */
  lemma LateCallRevivesTheRing()
    ensures exists end :: Reachable(Apply, Anything, Init(8), end)
                          && TornDown(end, 5) && end.watcher == Parked && 5 in end.rings
  {
    ReachableIsClosed(Apply, Anything, Init(8));
    var reached := st => Reachable(Apply, Anything, Init(8), st);
    var end := CallSettlesAfterTheClose(reached);
    assert reached(end);
  }

  // ----- a close and a pass that nothing interleaves with

  /** The closer's four steps after the removal: the session's context is closed and its ring is gone. */
  lemma UndisturbedClose(st: State, id: SessionId)
    requires id in st.open && id in st.installed
    ensures var s1 := Apply(Apply(st, CloseSession(id)), CloserStep(id));
            var end := Apply(Apply(Apply(s1, CloserStep(id)), CloserStep(id)), CloserStep(id));
            && end.open == st.open - {id} && end.closed == st.closed + {st.installed[id]}
            && id !in end.rings && end.closers == st.closers[id := Finished] && end.installed == st.installed
  {
    var s1 := Apply(Apply(st, CloseSession(id)), CloserStep(id));
    assert s1.closers == st.closers[id := Closing(st.installed[id])];
    var s2 := Apply(s1, CloserStep(id));
    assert s2.closers == st.closers[id := Announcing];
    var s3 := Apply(s2, CloserStep(id));
    assert s3.closers == st.closers[id := Forgetting];
  }

  /** Only the watcher moves; every context creation goes the same way. */
  function Alone(created: bool): (State, Event) -> bool {
    (st: State, ev: Event) => ev.WatcherStep? && (ev.ok == created || !st.watcher.Building?)
  }

  lemma Watch(reached: State -> bool, start: State, created: bool, from: State, pick: SessionId, ok: bool)
      returns (st: State)
    requires Closed(Apply, Alone(created), start, reached) && reached(from)
    requires ok == created || !from.watcher.Building?
    ensures st == WatcherMove(from, pick, ok) && reached(st)
  {
    assert Alone(created)(from, WatcherStep(pick, ok));
    st := Apply(from, WatcherStep(pick, ok));
  }

  /** The session lives in a context that was built on the engine after the pass began. */
  ghost predicate FreshOn(st: State, id: SessionId, engine: EngineId, before: nat) {
    && id in st.installed && before <= st.installed[id] < |st.contexts|
    && st.contexts[st.installed[id]] == Context(id, engine)
  }

  /** In the middle of a pass that has rebuilt all of the open sessions but these. */
  ghost predicate Midway(first: State, st: State, engine: EngineId, rest: set<SessionId>) {
    && st.open == first.open && st.watcher == Picking && rest <= first.open
    && st.pass.engine == engine && st.pass.remaining == rest && st.pass.failed == {} && st.pass.skipped == {}
    && st.pass.rebuilt == first.open - rest && |st.contexts| >= |first.contexts| && st.seen == first.bumps
    && (forall id :: id in first.open ==> id in st.installed)
    && forall id :: id in first.open && id !in rest ==> FreshOn(st, id, engine, |first.contexts|)
  }

  /** One session's rebuild. */
  lemma RebuildsOne(reached: State -> bool, start: State, first: State, from: State, engine: EngineId,
                    rest: set<SessionId>, id: SessionId) returns (st: State)
    requires Closed(Apply, Alone(true), start, reached) && reached(from)
    requires Midway(first, from, engine, rest) && id in rest
    ensures reached(st) && Midway(first, st, engine, rest - {id})
  {
    st := Watch(reached, start, true, from, id, true);
    st := Watch(reached, start, true, st, id, true);
    assert st.watcher == Installing(id, |from.contexts|) && st.contexts == from.contexts + [Context(id, engine)];
    st := Watch(reached, start, true, st, id, true);
    st := Watch(reached, start, true, st, id, true);
    assert st.installed == from.installed[id := |from.contexts|] && st.watcher == Rechecking(id);
    st := Watch(reached, start, true, st, id, true);
    forall other | other in first.open && other !in rest - {id}
      ensures FreshOn(st, other, engine, |first.contexts|)
    {
      if other != id { assert FreshOn(from, other, engine, |first.contexts|); }
    }
  }

  lemma {:induction false} RebuildsAll(reached: State -> bool, start: State, first: State, from: State,
                                       engine: EngineId, rest: set<SessionId>) returns (st: State)
    requires Closed(Apply, Alone(true), start, reached) && reached(from) && Midway(first, from, engine, rest)
    ensures reached(st) && Midway(first, st, engine, {})
    decreases |rest|
  {
    st := from;
    if rest != {} {
      var id :| id in rest;
      st := RebuildsOne(reached, start, first, from, engine, rest, id);
      st := RebuildsAll(reached, start, first, st, engine, rest - {id});
    }
  }

  /** Every open session was rebuilt, and the watcher has parked. */
  ghost predicate PassDone(first: State, end: State, engine: EngineId) {
    && end.watcher == Parked && end.open == first.open && end.seen == first.bumps
    && (forall id :: id in first.open ==> FreshOn(end, id, engine, |first.contexts|))
    && (first.open != {} ==> end.pass.rebuilt == first.open && end.pass.remaining == {})
  }

  lemma PassRuns(reached: State -> bool, first: State, engine: EngineId) returns (end: State)
    requires Closed(Apply, Alone(true), first, reached)
    requires first.watcher == Parked && first.seen < first.bumps && first.engine == Some(engine)
    requires forall id :: id in first.open ==> id in first.installed
    ensures reached(end) && PassDone(first, end, engine)
  {
    end := Watch(reached, first, true, first, 0, true);
    end := Watch(reached, first, true, end, 0, true);
    if first.open != {} {
      end := Watch(reached, first, true, end, 0, true);
      assert Midway(first, end, engine, first.open);
      end := RebuildsAll(reached, first, first, end, engine, first.open);
      end := Watch(reached, first, true, end, 0, true);
      forall id | id in first.open ensures FreshOn(end, id, engine, |first.contexts|) {
        assert FreshOn(end, id, engine, |first.contexts|);
      }
    }
  }

  /** Left alone with an engine that creates contexts, a restart bump has every open session rebuilt in a new
      context on that engine, and the watcher parks. */
  lemma UndisturbedPass(maxSessions: nat, evs: seq<Event>)
    requires var st := Run(Apply, Init(maxSessions), evs);
             st.watcher == Parked && st.seen < st.bumps && st.engine.Some?
    ensures var st := Run(Apply, Init(maxSessions), evs);
            exists end :: Reachable(Apply, Alone(true), st, end) && PassDone(st, end, st.engine.value)
  {
    RunKeepsInv(maxSessions, evs);
    var st := Run(Apply, Init(maxSessions), evs);
    forall id | id in st.open ensures id in st.installed { assert SessionInv(st, id); }
    ReachableIsClosed(Apply, Alone(true), st);
    var reached := end => Reachable(Apply, Alone(true), st, end);
    var end := PassRuns(reached, st, st.engine.value);
    assert reached(end);
  }

  /** A rebuild's own events bring the ring of a session back that was closed meanwhile; the watcher then closes
      the context it built and forgets the session again. */
  lemma RebuildOfAClosedSessionIsUndone(st: State, id: SessionId, context: ContextId, pick: SessionId)
    requires st.watcher == Installing(id, context) && id in st.installed && id !in st.open
    ensures var published := WatcherMove(WatcherMove(st, pick, true), pick, true);
            var reclosing := WatcherMove(WatcherMove(published, pick, true), pick, true);
            var end := WatcherMove(WatcherMove(reclosing, pick, true), pick, true);
            && id in published.rings && published.installed[id] == context
            && end.watcher == Picking && context in end.closed && id !in end.rings
  {
    var installed := WatcherMove(st, pick, true);
    assert installed.watcher == Publishing(id) && installed.installed == st.installed[id := context];
    var rechecked := WatcherMove(WatcherMove(installed, pick, true), pick, true);
    assert rechecked.watcher == Reclosing(id);
  }

  /** Parked, the watcher waits for a bump it has not seen. */
  lemma ParkedWaitsForABump(st: State, pick: SessionId, ok: bool)
    requires st.watcher == Parked && st.seen == st.bumps
    ensures WatcherMove(st, pick, ok) == st
    ensures WatcherMove(Apply(st, Bump), pick, ok).watcher == Snapshotting
  {
  }

  /** A round that finds no engine leaves its sessions listed for the next bump. */
  lemma RoundNeedsAnEngine(st: State, pick: SessionId, ok: bool)
    requires st.watcher.StartingRound?
    ensures var next := WatcherMove(st, pick, ok);
            if st.engine.None? then next == st.(watcher := Parked)
            else next.watcher == Picking && next.pass == st.pass.(engine := st.engine.value)
  {
  }

  // ----- an engine that creates no context

  /** In the middle of a round in which nothing could be created; `rest` is yet to be tried. */
  ghost predicate Failing(first: State, st: State, round: nat, rest: set<SessionId>) {
    && st.watcher == Picking && rest <= first.open && st.pass.round == round
    && st.pass.remaining == rest && st.pass.failed == first.open - rest
    && st.open == first.open && st.installed == first.installed && st.contexts == first.contexts
    && st.engine == first.engine
  }

  lemma {:induction false} RoundFails(reached: State -> bool, start: State, first: State, from: State, round: nat,
                                      rest: set<SessionId>) returns (st: State)
    requires Closed(Apply, Alone(false), start, reached) && reached(from) && Failing(first, from, round, rest)
    ensures reached(st) && Failing(first, st, round, {})
    decreases |rest|
  {
    st := from;
    if rest != {} {
      var id :| id in rest;
      st := Watch(reached, start, false, from, id, false);
      st := Watch(reached, start, false, st, id, false);
      assert st.pass.failed == first.open - (rest - {id});
      st := RoundFails(reached, start, first, st, round, rest - {id});
    }
  }

  /** Nothing was rebuilt, and every session stays listed after as many rounds. */
  ghost predicate GaveUpAfter(first: State, end: State, rounds: nat) {
    && end.watcher == Parked && end.pass.round == rounds && end.pass.remaining == first.open
    && end.open == first.open && end.installed == first.installed && end.contexts == first.contexts
  }

  lemma {:induction false} RoundsFail(reached: State -> bool, start: State, first: State, from: State, round: nat)
      returns (end: State)
    requires Closed(Apply, Alone(false), start, reached) && reached(from) && first.open != {}
    requires round < 3 && Failing(first, from, round, first.open) && first.engine.Some?
    ensures reached(end) && GaveUpAfter(first, end, 3)
    decreases 3 - round
  {
    end := RoundFails(reached, start, first, from, round, first.open);
    end := Watch(reached, start, false, end, 0, false);
    assert end.pass.remaining == first.open && end.pass.failed == {} && end.pass.round == round + 1;
    if round + 1 < 3 {
      end := Watch(reached, start, false, end, 0, false);
      end := RoundsFail(reached, start, first, end, round + 1);
    }
  }

  lemma FailingPassRuns(reached: State -> bool, first: State) returns (end: State)
    requires Closed(Apply, Alone(false), first, reached)
    requires first.watcher == Parked && first.seen < first.bumps && first.engine.Some? && first.open != {}
    ensures reached(end) && GaveUpAfter(first, end, 3)
  {
    end := Watch(reached, first, false, first, 0, false);
    end := Watch(reached, first, false, end, 0, false);
    end := Watch(reached, first, false, end, 0, false);
    assert end.pass.failed == first.open - first.open;
    end := RoundsFail(reached, first, first, end, 0);
  }

  /** With an engine on which no context can be created the watcher tries every open session in three rounds,
      leaves the sessions as they are, and keeps all of them listed. */
  lemma FailingPassKeepsSessions(st: State)
    requires st.watcher == Parked && st.seen < st.bumps && st.engine.Some? && st.open != {}
    ensures exists end :: Reachable(Apply, Alone(false), st, end) && GaveUpAfter(st, end, 3)
  {
    ReachableIsClosed(Apply, Alone(false), st);
    var reached := end => Reachable(Apply, Alone(false), st, end);
    var end := FailingPassRuns(reached, st);
    assert reached(end);
  }
}
