/**
 Runs in which the guarantees of the page registry fail, or a session's pages end up other than one would
 expect. Each ends with no call and no rebuild under way.
 */
module TabFailures {
  import opened Options
  import opened Runs
  import opened Pages
  import opened Tabs
  import opened TabGuarantees

  /** The first page of a lone session, on every engine it comes to. */
  const FIRST := Opened(1, 0)

  const START := Init(1)

  /** A session with one page, at "u". */
  const ONE_PAGE := State(
    [PageSlot(FIRST, "u", Handle(0, 0), true)], false, [Context(0, 1, 1)], map[Entry(0, FIRST) := 0],
    [Tab(FIRST, 0, true, true, None, Listed)], map[], None, false)

  predicate AtRest(st: State) { st.calls == map[] && st.rebuild.None? && !st.abandoned }

  lemma Follow(reached: State -> bool, from: State, ev: Event) returns (st: State)
    requires Closed(Apply, Anything, START, reached) && reached(from)
    ensures st == Apply(from, ev) && reached(st)
  {
    assert Anything(from, ev);
    st := Apply(from, ev);
  }

  lemma OpenerReads(reached: State -> bool, from: State, call: nat, opener: Opener) returns (st: State)
    requires Closed(Apply, Anything, START, reached) && reached(from)
    requires call !in from.calls && !opener.Adoption? && !from.recovering && from.contexts != []
    requires opener.Lookup? ==> FirstActive(from.slots).None?
    ensures reached(st) && st == Goto(from, call, Opening(opener, Current(from)))
  {
    st := Follow(reached, from, if opener.Lookup? then StartLookup(call) else StartOpenTab(call));
    assert st == Goto(from, call, Asking(opener));
    st := Follow(reached, st, Step(call, true));
    assert st == Goto(from, call, Choosing(opener));
    st := Follow(reached, st, Step(call, true));
    assert st == Goto(from, call, Opening(opener, Current(from)));
  }

  function Opens(from: State, call: nat, opener: Opener): State
    requires from.contexts != []
  {
    Goto(OpenIn(from, Current(from), InHand(call)), call,
         Holding(opener, NextId(from, Current(from)), Handle(|from.tabs|, Current(from))))
  }

  lemma OpensFromThere(from: State, call: nat, opener: Opener)
    requires from.contexts != [] && !opener.Adoption?
    ensures Open(Goto(from, call, Opening(opener, Current(from))), call, opener, Current(from), true)
         == Opens(from, call, opener)
  {
    var held := Holding(opener, NextId(from, Current(from)), Handle(|from.tabs|, Current(from)));
    assert from.calls[call := Opening(opener, Current(from))][call := held] == from.calls[call := held];
  }

  /** A call opens the next page of the current context. */
  lemma OpenerHolds(reached: State -> bool, from: State, call: nat, opener: Opener) returns (st: State)
    requires Closed(Apply, Anything, START, reached) && reached(from)
    requires call !in from.calls && !opener.Adoption? && !from.recovering && from.contexts != []
    requires opener.Lookup? ==> FirstActive(from.slots).None?
    ensures reached(st) && st == Opens(from, call, opener)
  {
    st := OpenerReads(reached, from, call, opener);
    st := Follow(reached, st, Step(call, true));
    OpensFromThere(from, call, opener);
  }

  lemma LookupOpensOne(reached: State -> bool)
    requires Closed(Apply, Anything, START, reached)
    ensures reached(ONE_PAGE)
  {
    var st := OpenerHolds(reached, START, 0, Lookup);
    st := Follow(reached, st, Step(0, true));
    assert st.slots == [PageSlot(FIRST, "", Handle(0, 0), true)] && st.calls == map[];
    st := Follow(reached, st, SetUrl(FIRST, "u"));
    assert st.slots == ONE_PAGE.slots && st.tabs == ONE_PAGE.tabs && st.contexts == ONE_PAGE.contexts;
    assert st == ONE_PAGE;
  }

  /** A replacement's rebuild of a list whose one page is at "u" opens it as the first page again. */
  lemma RebuildOne(reached: State -> bool, from: State) returns (st: State)
    requires Closed(Apply, Anything, START, reached) && reached(from) && !from.abandoned
    requires from.rebuild.Some? && !from.rebuild.value.swapped && from.rebuild.value.answered == []
    requires from.rebuild.value.saved == [RecoveryPoint("u", true)] && from.rebuild.value.activeIndex == Some(0)
    requires from.rebuild.value.restored == [] && |from.contexts| == 1 && from.contexts[0].engine == 0
    ensures reached(st) && st.slots == [PageSlot(FIRST, "u", Handle(|from.tabs|, 1), true)]
    ensures st.rebuild == None && !st.recovering && !st.abandoned && st.calls == from.calls
    ensures st.contexts == from.contexts + [Context(1, 1, 1)]
    ensures st.pages == from.pages[Entry(1, FIRST) := |from.tabs|]
    ensures |st.tabs| == |from.tabs| + 1 && st.tabs[|from.tabs|] == Tab(FIRST, 1, true, true, None, Listed)
    ensures forall h :: 0 <= h < |from.tabs| ==>
              st.tabs[h].id == from.tabs[h].id && st.tabs[h].closer == from.tabs[h].closer
  {
    st := Follow(reached, from, SwapContext(true, 0));
    assert st.contexts == from.contexts + [Context(1, 1, 0)];
    st := Follow(reached, st, Restore(true));
    assert st.rebuild.value.restored == [PageSlot(FIRST, "u", Handle(|from.tabs|, 1), true)];
    st := Follow(reached, st, FinishRebuild);
  }

  // ----- two active pages

  predicate TwoActive(st: State) {
    AtRest(st) && |st.slots| == 2 && st.slots[0].active && st.slots[1].active && st.slots[0].id == st.slots[1].id
  }

  /** A call still holds the first page of the dead engine. */
  lemma OpenerMeetsTheRebuild(reached: State -> bool, opener: Opener) returns (st: State)
    requires Closed(Apply, Anything, START, reached) && !opener.Adoption?
    ensures reached(st)
    ensures st == State([], false, [Context(0, 1, 1), Context(1, 1, 0)], map[Entry(0, FIRST) := 0],
                        [Tab(FIRST, 0, true, true, None, InHand(0))],
                        map[0 := Holding(opener, FIRST, Handle(0, 0))], None, false)
  {
    st := OpenerHolds(reached, START, 0, opener);
    st := EmptyRebuild(reached, st);
    assert st.tabs == [Tab(FIRST, 0, true, true, None, InHand(0))];
  }

  /** A replacement's rebuild of an empty list. */
  lemma EmptyRebuild(reached: State -> bool, from: State) returns (st: State)
    requires Closed(Apply, Anything, START, reached) && reached(from)
    requires from.slots == [] && from.rebuild.None? && !from.recovering && |from.contexts| == 1
    requires forall h :: 0 <= h < |from.tabs| ==> from.tabs[h].place.InHand?
    ensures reached(st)
    ensures st == from.(contexts := from.contexts + [Context(from.contexts[0].engine + 1, 1, 0)])
  {
    st := Follow(reached, from, BeginRebuild);
    assert st.rebuild.value.saved == [];
    st := Follow(reached, st, SwapContext(true, 0));
    assert st.rebuild.value.restored == [];
    st := Follow(reached, st, FinishRebuild);
    assert st.tabs == from.tabs;
  }

  lemma BothAreActivated(reached: State -> bool) returns (st: State)
    requires Closed(Apply, Anything, START, reached)
    ensures reached(st) && TwoActive(st)
  {
    st := OpenerMeetsTheRebuild(reached, Lookup);
    st := OpenerHolds(reached, st, 1, OpenTab);
    assert st.calls[1] == Holding(OpenTab, FIRST, Handle(1, 1));
    st := Follow(reached, st, Step(1, true));
    assert st.slots == [PageSlot(FIRST, "", Handle(1, 1), false)] && st.calls[1] == Activating(FIRST);
    st := Follow(reached, st, Step(0, true));
    assert st.slots == [PageSlot(FIRST, "", Handle(1, 1), false), PageSlot(FIRST, "", Handle(0, 0), true)];
    assert st.calls == map[1 := Activating(FIRST)];
    st := Follow(reached, st, Step(1, true));
    assert st.calls == map[];
  }

  /** A lookup registers the page it opened on the dead engine behind one of the same id on the new one, and
      `tabs_open` activates both. */
  lemma TwoPagesBecomeActive()
    ensures exists st :: Reachable(Apply, Anything, START, st) && TwoActive(st)
  {
    ReachableIsClosed(Apply, Anything, START);
    var reached := st => Reachable(Apply, Anything, START, st);
    var st := BothAreActivated(reached);
    assert reached(st);
  }

  // ----- closes that meet a rebuild

  predicate LosesATab(st: State) { AtRest(st) && Owned(st, 1) && !AccountedFor(st, 1) }

  /** The engine has closed the one page, and the call has yet to untrack it, when a rebuild takes over. */
  lemma CloseMeetsTheTakeOver(reached: State -> bool) returns (st: State)
    requires Closed(Apply, Anything, START, reached) && reached(ONE_PAGE)
    ensures reached(st) && st.calls == map[1 := Untracking(FIRST)] && st.slots == ONE_PAGE.slots && !st.abandoned
    ensures st.contexts == ONE_PAGE.contexts && |st.tabs| == 1 && st.tabs[0].closer == Some(1)
    ensures st.tabs[0].id == FIRST && st.recovering
    ensures st.rebuild == Some(Rebuild([RecoveryPoint("u", true)], {0}, Some(0), false, [], []))
  {
    st := Follow(reached, ONE_PAGE, StartClose(1, FIRST));
    st := Follow(reached, st, Step(1, true));
    assert st.calls == map[1 := Reaching(FIRST)];
    st := Follow(reached, st, Step(1, true));
    assert st.calls == map[1 := Closing(FIRST, 0)];
    st := Follow(reached, st, Step(1, true));
    assert st.calls == map[1 := Untracking(FIRST)] && st.tabs[0].closer == Some(1);
    st := Follow(reached, st, BeginRebuild);
    assert st.rebuild.value.saved == [RecoveryPoint("u", true)] && st.rebuild.value.taken == {0};
  }

  lemma UntrackedAfterwards(reached: State -> bool) returns (st: State)
    requires Closed(Apply, Anything, START, reached) && reached(ONE_PAGE)
    ensures reached(st) && LosesATab(st)
  {
    st := CloseMeetsTheTakeOver(reached);
    st := RebuildOne(reached, st);
    st := Follow(reached, st, Step(1, true));
    assert st.calls == map[] && st.slots == [];
  }

  /** The close untracks the page the rebuild restored under the same id: it stays open, and nobody lists it. */
  lemma CloseUntracksALiveTab()
    ensures exists st :: Reachable(Apply, Anything, START, st) && LosesATab(st)
  {
    ReachableIsClosed(Apply, Anything, START);
    var reached := st => Reachable(Apply, Anything, START, st);
    LookupOpensOne(reached);
    var st := UntrackedAfterwards(reached);
    assert reached(st);
  }

  predicate CameBack(st: State) {
    && AtRest(st) && |st.tabs| == 2 && st.tabs[0].closer.Some? && st.tabs[0].id == FIRST
    && st.slots == [PageSlot(FIRST, "u", Handle(1, 1), true)] && Owned(st, 1)
  }

  lemma UntrackedMeanwhile(reached: State -> bool) returns (st: State)
    requires Closed(Apply, Anything, START, reached) && reached(ONE_PAGE)
    ensures reached(st) && CameBack(st)
  {
    st := CloseMeetsTheTakeOver(reached);
    st := Follow(reached, st, Step(1, true));
    assert st.calls == map[] && |st.tabs| == 1 && st.tabs[0].id == FIRST;
    st := RebuildOne(reached, st);
  }

  /** A take-over before the untracking brings the page back after its close is reported; on a replacement
      engine it can have the very id that was closed. */
  lemma ClosedPageComesBack()
    ensures exists st :: Reachable(Apply, Anything, START, st) && CameBack(st)
  {
    ReachableIsClosed(Apply, Anything, START);
    var reached := st => Reachable(Apply, Anything, START, st);
    LookupOpensOne(reached);
    var st := UntrackedMeanwhile(reached);
    assert reached(st);
  }

  // ----- a close that takes the wrong slot away

  predicate ClosedStaysListed(st: State) {
    && AtRest(st) && |st.tabs| == 2 && st.tabs[1].closer.Some? && !st.tabs[1].live
    && st.slots == [PageSlot(FIRST, "", Handle(1, 1), true)]
  }

  /** `tabs_open` registers the dead engine's page. */
  lemma TheOldIsListed(reached: State -> bool) returns (st: State)
    requires Closed(Apply, Anything, START, reached)
    ensures reached(st) && st.contexts == [Context(0, 1, 1), Context(1, 1, 1)] && !st.recovering && st.rebuild.None?
    ensures st.slots == [PageSlot(FIRST, "", Handle(0, 0), false)] && !st.abandoned
    ensures st.calls == map[0 := Activating(FIRST), 1 := Holding(Lookup, FIRST, Handle(1, 1))]
    ensures |st.tabs| == 2 && st.tabs[1].closable && Entry(1, FIRST) in st.pages && st.pages[Entry(1, FIRST)] == 1
  {
    st := OpenerMeetsTheRebuild(reached, OpenTab);
    st := OpenerHolds(reached, st, 1, Lookup);
    assert st.calls == map[0 := Holding(OpenTab, FIRST, Handle(0, 0)), 1 := Holding(Lookup, FIRST, Handle(1, 1))];
    st := Follow(reached, st, Step(0, true));
  }

  /** The new engine's page of the same id follows, and both are activated. */
  lemma BothAreListed(reached: State -> bool) returns (st: State)
    requires Closed(Apply, Anything, START, reached)
    ensures reached(st) && AtRest(st) && st.contexts == [Context(0, 1, 1), Context(1, 1, 1)] && !st.recovering
    ensures st.slots == [PageSlot(FIRST, "", Handle(0, 0), true), PageSlot(FIRST, "", Handle(1, 1), true)]
    ensures |st.tabs| == 2 && st.tabs[1].closable && Entry(1, FIRST) in st.pages && st.pages[Entry(1, FIRST)] == 1
  {
    st := TheOldIsListed(reached);
    st := Follow(reached, st, Step(1, true));
    assert st.slots == [PageSlot(FIRST, "", Handle(0, 0), false), PageSlot(FIRST, "", Handle(1, 1), true)];
    assert st.calls == map[0 := Activating(FIRST)];
    st := Follow(reached, st, Step(0, true));
    assert st.calls == map[];
  }

  /** The close as far as the engine's answer. */
  lemma TheNewIsClosed(reached: State -> bool, from: State) returns (st: State)
    requires Closed(Apply, Anything, START, reached) && reached(from)
    requires AtRest(from) && Current(from) == 1 && !from.recovering && Tracks(from.slots, FIRST)
    requires |from.tabs| == 2 && from.tabs[1].closable
    requires Entry(1, FIRST) in from.pages && from.pages[Entry(1, FIRST)] == 1
    ensures reached(st) && st.calls == map[2 := Untracking(FIRST)] && st.slots == from.slots
    ensures st.rebuild.None? && !st.abandoned
    ensures |st.tabs| == 2 && st.tabs[1].closer == Some(2) && !st.tabs[1].live
  {
    st := Follow(reached, from, StartClose(2, FIRST));
    st := Follow(reached, st, Step(2, true));
    assert st.calls == map[2 := Reaching(FIRST)];
    st := Follow(reached, st, Step(2, true));
    assert st.calls == map[2 := Closing(FIRST, 1)];
    st := Follow(reached, st, Step(2, true));
  }

  lemma TheOldIsUntracked(reached: State -> bool, from: State) returns (st: State)
    requires Closed(Apply, Anything, START, reached) && reached(from)
    requires AtRest(from) && Current(from) == 1 && !from.recovering
    requires from.slots == [PageSlot(FIRST, "", Handle(0, 0), true), PageSlot(FIRST, "", Handle(1, 1), true)]
    requires |from.tabs| == 2 && from.tabs[1].closable
    requires Entry(1, FIRST) in from.pages && from.pages[Entry(1, FIRST)] == 1
    ensures reached(st) && ClosedStaysListed(st)
  {
    st := TheNewIsClosed(reached, from);
    st := Follow(reached, st, Step(2, true));
    assert st.calls == map[];
  }

  /** A close of an id tracked twice has the new engine's tab closed and the dead engine's slot removed: the
      closed page stays in the list, for every later rebuild to bring back. */
  lemma ClosedPageStaysListed()
    ensures exists st :: Reachable(Apply, Anything, START, st) && ClosedStaysListed(st)
  {
    ReachableIsClosed(Apply, Anything, START);
    var reached := st => Reachable(Apply, Anything, START, st);
    var st := BothAreListed(reached);
    st := TheOldIsUntracked(reached, st);
    assert reached(st);
  }

  // ----- a rebuild that is abandoned

  predicate AbandonedHalfway(st: State) {
    && st.calls == map[] && st.rebuild.None? && Current(st) == 1
    && st.slots == ONE_PAGE.slots && Owned(st, 1) && !AccountedFor(st, 1)
  }

  lemma PageIsReopened(reached: State -> bool) returns (st: State)
    requires Closed(Apply, Anything, START, reached) && reached(ONE_PAGE)
    ensures reached(st) && st.calls == map[] && Current(st) == 1 && st.slots == ONE_PAGE.slots
    ensures st.rebuild.Some? && st.rebuild.value.swapped
    ensures |st.tabs| == 2 && st.tabs[1] == Tab(FIRST, 1, true, true, None, InRebuild)
    ensures Entry(1, FIRST) in st.pages && st.pages[Entry(1, FIRST)] == 1
  {
    st := Follow(reached, ONE_PAGE, BeginRebuild);
    assert st.rebuild.value.saved == [RecoveryPoint("u", true)];
    st := Follow(reached, st, SwapContext(true, 0));
    st := Follow(reached, st, Restore(true));
  }

  /** The step on its own. */
  lemma GateIsDropped(st: State)
    requires st.calls == map[] && Current(st) == 1 && st.slots == ONE_PAGE.slots && st.rebuild.Some?
    requires |st.tabs| == 2 && st.tabs[1] == Tab(FIRST, 1, true, true, None, InRebuild)
    requires Entry(1, FIRST) in st.pages && st.pages[Entry(1, FIRST)] == 1
    ensures AbandonedHalfway(Abandon(st))
  {
    assert Abandon(st).tabs[1].live && Abandon(st).tabs[1].id == FIRST;
  }

  lemma HalfwayIsReached(reached: State -> bool) returns (st: State)
    requires Closed(Apply, Anything, START, reached) && reached(ONE_PAGE)
    ensures reached(st) && AbandonedHalfway(st)
  {
    st := PageIsReopened(reached);
    GateIsDropped(st);
    st := Follow(reached, st, AbandonRebuild);
  }

  /** A rebuild whose future is dropped leaves the dead context's page in the list, and the page it has
      reopened in nobody's hands. */
  lemma AbandonedRebuildLosesItsPages()
    ensures exists st :: Reachable(Apply, Anything, START, st) && AbandonedHalfway(st)
  {
    ReachableIsClosed(Apply, Anything, START);
    var reached := st => Reachable(Apply, Anything, START, st);
    LookupOpensOne(reached);
    var st := HalfwayIsReached(reached);
    assert reached(st);
  }

  // ----- pages of a dead context

  predicate TracksADeadContext(st: State) {
    AtRest(st) && exists slot :: slot in st.slots && slot.handle.context < Current(st)
  }

  /** The lookup of a dead engine's page ends. */
  lemma RegisteredTooLate(reached: State -> bool) returns (st: State)
    requires Closed(Apply, Anything, START, reached)
    ensures reached(st) && TracksADeadContext(st)
  {
    st := OpenerMeetsTheRebuild(reached, Lookup);
    st := Follow(reached, st, Step(0, true));
    assert st.slots == [PageSlot(FIRST, "", Handle(0, 0), true)] && st.calls == map[];
    assert st.slots[0] in st.slots;
  }

  /** A page opened before a rebuild and registered after it is tracked in the dead context. */
  lemma LateRegistrationIsStale()
    ensures exists st :: Reachable(Apply, Anything, START, st) && TracksADeadContext(st)
  {
    ReachableIsClosed(Apply, Anything, START);
    var reached := st => Reachable(Apply, Anything, START, st);
    var st := RegisteredTooLate(reached);
    assert reached(st);
  }

  // ----- windows nobody offers again

  /** The window is driven by the current context, so that it is no foreign page there, and nobody lists it. */
  predicate LosesAWindow(st: State) { AtRest(st) && Owned(st, 0) && st.tabs[0].id == Window(0) && !AccountedFor(st, 0) }

  const ADOPTION := Adoption(0, "w")

  lemma AdoptionMeetsTheRebuild(reached: State -> bool) returns (st: State)
    requires Closed(Apply, Anything, START, reached)
    ensures reached(st) && st.calls == map[0 := Opening(ADOPTION, 1)] && st.pages == map[] && st.slots == []
    ensures st.tabs == [Tab(Window(0), 0, true, false, None, Loose)] && st.recovering && !st.abandoned
    ensures st.contexts == [Context(0, 1, 0), Context(0, 2, 0)]
    ensures st.rebuild.Some? && st.rebuild.value.swapped && st.rebuild.value.saved == []
    ensures st.rebuild.value.restored == [] && st.rebuild.value.answered == []
  {
    st := Follow(reached, START, WindowAppears(0, false));
    st := Follow(reached, st, StartAdoption(0, 0, "w"));
    st := Follow(reached, st, Step(0, true));
    assert st.calls == map[0 := Choosing(ADOPTION)];
    st := Follow(reached, st, BeginRebuild);
    st := Follow(reached, st, SwapContext(false, 0));
    st := Follow(reached, st, Step(0, true));
    assert st.calls == map[0 := Opening(ADOPTION, 1)];
  }

  lemma AdoptionIsRefused(reached: State -> bool) returns (st: State)
    requires Closed(Apply, Anything, START, reached)
    ensures reached(st) && LosesAWindow(st)
  {
    st := AdoptionMeetsTheRebuild(reached);
    st := Follow(reached, st, Step(0, true));
    assert st.calls == map[0 := Adopting(ADOPTION, 1)];
    st := Follow(reached, st, Step(0, true));
    assert st.calls == map[0 := Holding(ADOPTION, Window(0), Handle(0, 1))];
    st := Follow(reached, st, Step(0, true));
    assert st.calls == map[];
    st := Follow(reached, st, FinishRebuild);
  }

  /** An adoption through the new context that a rebuild refuses: the context keeps the window in its map, where
      no later listing finds it foreign. */
  lemma RefusedAdoptionLosesAWindow()
    ensures exists st :: Reachable(Apply, Anything, START, st) && LosesAWindow(st)
  {
    ReachableIsClosed(Apply, Anything, START);
    var reached := st => Reachable(Apply, Anything, START, st);
    var st := AdoptionIsRefused(reached);
    assert reached(st);
  }
}
