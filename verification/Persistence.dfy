/**
 Persist-on-change of a session's storage state and the explicit load beside it
 (crates/session/src/session/mod.rs). A save decides, writes and records under one lock; a load reads
 the file first and records what it read under the lock only at its end.
 */
module Persistence {
  import opened Runs

  type Captured = seq<char>

  /** The state an absent or unreadable file reads back as. */
  const EMPTY: Captured := []

  datatype StateFile = Absent | Corrupt | Holds(state: Captured)
  {
    function Read(): Captured { if Holds? then state else EMPTY }
  }

  /** What a load read, and how many writes the file had seen when it did. */
  datatype Load = Load(read: Captured, began: nat)

  /** `memory` and `persisted` are one claim: when the flag is up, the file holds that state. `written` is
      every state a save wrote, in order. */
  datatype State = State(
    memory: Captured,
    persisted: bool,
    file: StateFile,
    loads: map<nat, Load>,
    written: seq<Captured>)

  datatype Event =
    | Save(captured: Captured, written: bool)   // `written`: the write, if one is needed, lands
    | BeginLoad(call: nat)
    | EndLoad(call: nat)

  function Init(file: StateFile): State { State(EMPTY, false, file, map[], []) }

  predicate NeedsNoWrite(st: State, captured: Captured) { captured == st.memory && st.persisted }

  function Apply(st: State, ev: Event): State {
    match ev
    case Save(captured, written) =>
      if NeedsNoWrite(st, captured) then st
      else if written then
        st.(memory := captured, persisted := true, file := Holds(captured), written := st.written + [captured])
      else st.(memory := captured, persisted := false)
    case BeginLoad(call) => st.(loads := st.loads[call := Load(st.file.Read(), |st.written|)])
    case EndLoad(call) =>
      if call in st.loads then st.(memory := st.loads[call].read, loads := st.loads - {call}) else st
  }

  /** A state marked persisted is the one in the file. */
  predicate Claim(st: State) { st.persisted ==> st.file == Holds(st.memory) }

  predicate Anything(st: State, ev: Event) { true }

  // ----- what the file holds, from the writes it has seen

  /** The file as the writes left it, and each load's state as the file was when it began. */
  ghost predicate FileInv(original: StateFile, st: State) {
    && st.file == After(original, st.written)
    && (st.persisted ==> st.written != [])
    && forall call :: call in st.loads ==> LoadInv(original, st, st.loads[call])
  }

  function After(original: StateFile, written: seq<Captured>): StateFile {
    if written == [] then original else Holds(written[|written| - 1])
  }

  predicate LoadInv(original: StateFile, st: State, load: Load) {
    load.began <= |st.written| && load.read == After(original, st.written[..load.began]).Read()
  }

  lemma ApplyKeepsFileInv(original: StateFile, st: State, ev: Event)
    requires FileInv(original, st)
    ensures FileInv(original, Apply(st, ev))
  {
    var next := Apply(st, ev);
    forall call | call in next.loads ensures LoadInv(original, next, next.loads[call]) {
      if ev == BeginLoad(call) {
        assert st.written[..|st.written|] == st.written;
      } else {
        assert LoadInv(original, st, st.loads[call]);
        assert next.written[..next.loads[call].began] == st.written[..next.loads[call].began];
      }
    }
  }

  lemma {:induction false} RunKeepsFileInv(original: StateFile, evs: seq<Event>)
    ensures FileInv(original, Run(Apply, Init(original), evs))
  {
    var inv := st => FileInv(original, st);
    forall st, ev | inv(st) ensures inv(Apply(st, ev)) { ApplyKeepsFileInv(original, st, ev); }
    Invariant(Apply, Anything, inv, Init(original), evs);
  }

  // ----- when a load ends too late

  /** The event ends a load that a save overtook: with the flag up, the last write of all fell between the
      load's two halves and wrote something else than the load had read. */
  predicate EndsOvertaken(st: State, ev: Event) {
    && ev.EndLoad? && ev.call in st.loads && st.persisted
    && st.loads[ev.call].began < |st.written|
    && st.written[|st.written| - 1] != st.loads[ev.call].read
  }

  predicate NotOvertaken(st: State, ev: Event) { !EndsOvertaken(st, ev) }

  /** After any history at all, the end of a load leaves the claim true exactly when no save overtook it. */
  lemma {:induction false} LoadKeepsClaimExactly(original: StateFile, evs: seq<Event>, call: nat)
    requires call in Run(Apply, Init(original), evs).loads
    ensures var st := Run(Apply, Init(original), evs);
            Claim(Apply(st, EndLoad(call))) <==> !EndsOvertaken(st, EndLoad(call))
  {
    RunKeepsFileInv(original, evs);
    var st := Run(Apply, Init(original), evs);
    assert LoadInv(original, st, st.loads[call]);
    assert st.written[..|st.written|] == st.written;
  }

  lemma StepKeepsClaim(original: StateFile, st: State, ev: Event)
    requires FileInv(original, st) && Claim(st)
    ensures Claim(Apply(st, ev)) <==> !EndsOvertaken(st, ev)
  {
    if ev.EndLoad? && ev.call in st.loads {
      assert LoadInv(original, st, st.loads[ev.call]);
      assert st.written[..|st.written|] == st.written;
    }
  }

  /** The claim holds throughout a history exactly when no save overtakes a load in it. */
  lemma {:induction false} ClaimHoldsThroughout(original: StateFile, evs: seq<Event>)
    ensures AllAlong(Apply, Claim, Init(original), evs) <==> LegalRun(Apply, NotOvertaken, Init(original), evs)
  {
    var inv := st => FileInv(original, st);
    forall st, ev | inv(st) ensures inv(Apply(st, ev)) { ApplyKeepsFileInv(original, st, ev); }
    forall st, ev | inv(st) && Claim(st) ensures Claim(Apply(st, ev)) <==> NotOvertaken(st, ev) {
      StepKeepsClaim(original, st, ev);
    }
    AllAlongExactly(Apply, NotOvertaken, inv, Claim, Init(original), evs);
  }

  /** While no load is overtaken, leaving out a write loses nothing: after any save whose write lands if one
      is needed, the file holds what was captured. */
  lemma {:induction false} FileFollowsTheCaptures(original: StateFile, evs: seq<Event>, captured: Captured)
    requires LegalRun(Apply, NotOvertaken, Init(original), evs)
    ensures var st := Run(Apply, Init(original), evs);
            Claim(st) && Apply(st, Save(captured, true)).file == Holds(captured)
  {
    ClaimHoldsThroughout(original, evs);
    assert evs[..|evs|] == evs;
  }

  /** The state a session last captured or loaded, whether or not a write of it worked. */
  function Newest(original: StateFile, evs: seq<Event>): Captured {
    if evs == [] then EMPTY
    else
      var init, last := evs[..|evs| - 1], evs[|evs| - 1];
      match last
      case Save(captured, _) => captured
      case BeginLoad(_) => Newest(original, init)
      case EndLoad(call) =>
        var st := Run(Apply, Init(original), init);
        if call in st.loads then st.loads[call].read else Newest(original, init)
  }

  /** What recovery replays is always the newest state. */
  lemma {:induction false} MemoryIsNewest(original: StateFile, evs: seq<Event>)
    ensures Run(Apply, Init(original), evs).memory == Newest(original, evs)
  {
    if evs != [] { MemoryIsNewest(original, evs[..|evs| - 1]); }
  }

  /** A save is left out exactly when the state is marked persisted already; one that is not leaves the flag
      up exactly if its write lands, so that a failed one is made up for by the next, changed or not. */
  lemma SaveWritesExactly(st: State, captured: Captured, lands: bool)
    ensures var next := Apply(st, Save(captured, lands));
            && (next.written == st.written + [captured] <==> lands && !(captured == st.memory && st.persisted))
            && (next.written == st.written || next.written == st.written + [captured])
            && (!(captured == st.memory && st.persisted) ==> (next.persisted <==> lands))
            && (!lands && next != st ==> Apply(next, Save(captured, true)).written == st.written + [captured])
  {
    assert |st.written + [captured]| == |st.written| + 1;
  }

  predicate LeftBehind(st: State, lost: Captured) {
    && NeedsNoWrite(st, lost) && st.file != Holds(lost)
    && Apply(st, Save(lost, true)).file != Holds(lost)
  }

  lemma Follow(reached: State -> bool, from: State, ev: Event) returns (st: State)
    requires Closed(Apply, Anything, Init(Absent), reached) && reached(from)
    ensures st == Apply(from, ev) && reached(st)
  {
    assert Anything(from, ev);
    st := Apply(from, ev);
  }

  /** With a save between a load's two halves the claim fails: the loaded state is marked persisted while
      the file holds the newer one, and capturing it again writes nothing. */
  lemma StaleLoadLeavesTheFileBehind(older: Captured, newer: Captured)
    requires older != newer
    ensures exists st :: Reachable(Apply, Anything, Init(Absent), st) && LeftBehind(st, older)
  {
    ReachableIsClosed(Apply, Anything, Init(Absent));
    var reached := st => Reachable(Apply, Anything, Init(Absent), st);
    var st := Follow(reached, Init(Absent), Save(older, true));
    st := Follow(reached, st, BeginLoad(0));
    st := Follow(reached, st, Save(newer, true));
    st := Follow(reached, st, EndLoad(0));
    assert reached(st) && LeftBehind(st, older);
  }
}
