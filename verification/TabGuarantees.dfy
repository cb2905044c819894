/**
 What the page registry guarantees over every run of a session's calls, and exactly when: one active page,
 no id tracked twice, no tab lost. An engine counts its contexts and pages anew, so the ids a call carries
 across a context swap can name another page afterwards.
 */
module TabGuarantees {
  import opened Options
  import opened Runs
  import opened Pages
  import opened Tabs

  // ----- ids

  /** Two tabs of one id are on different engines. */
  lemma IdsRepeatAcrossEngines(number: nat, evs: seq<Event>, g: nat, h: nat)
    requires var st := Run(Apply, Init(number), evs); g < h < |st.tabs| && st.tabs[g].id == st.tabs[h].id
    ensures var st := Run(Apply, Init(number), evs);
            && st.tabs[g].home < |st.contexts| && st.tabs[h].home < |st.contexts|
            && st.contexts[st.tabs[g].home].engine != st.contexts[st.tabs[h].home].engine
  {
    RunKeepsInv(number, evs);
    var st := Run(Apply, Init(number), evs);
    assert IdInv(st.contexts, st.tabs, g) && IdInv(st.contexts, st.tabs, h);
  }

  // ----- no id is tracked twice

  /** A lookup registers a page under an id the list tracks: it asks only whether a page is active. */
  predicate Doubles(st: State, ev: Event) {
    && ev.Step? && ev.call in st.calls && st.calls[ev.call].Holding? && st.calls[ev.call].opener.Lookup?
    && !Refused(st, Lookup, st.calls[ev.call].page) && Tracks(st.slots, st.calls[ev.call].page)
  }

  predicate NotDoubling(st: State, ev: Event) { !Doubles(st, ev) }

  predicate IdsDistinct(st: State) { DistinctIds(st.slots) }

  lemma SameIdsDistinct(a: seq<PageSlot>, b: seq<PageSlot>)
    requires |a| == |b| && forall i :: 0 <= i < |a| ==> a[i].id == b[i].id
    requires DistinctIds(a)
    ensures DistinctIds(b)
  {
  }

  lemma AppendDistinct(slots: seq<PageSlot>, slot: PageSlot)
    requires DistinctIds(slots)
    ensures DistinctIds(slots + [slot]) <==> !Tracks(slots, slot.id)
  {
    var longer := slots + [slot];
    if Tracks(slots, slot.id) {
      var i := Position(slots, slot.id).value;
      assert longer[i].id == longer[|slots|].id;
    }
  }

  lemma RestoredDistinct(st: State)
    requires Inv(st) && st.rebuild.Some?
    ensures DistinctIds(Rebuilt(st.rebuild.value.restored))
  {
    var restored := st.rebuild.value.restored;
    forall i, j | 0 <= i < j < |restored| ensures restored[i].id != restored[j].id {
      assert RestoredInv(st, restored[i]) && RestoredInv(st, restored[j]);
      assert IdInv(st.contexts, st.tabs, restored[i].handle.tab) && IdInv(st.contexts, st.tabs, restored[j].handle.tab);
    }
    SameIdsDistinct(restored, Rebuilt(restored));
  }

  lemma OtherStepsKeepSlots(st: State, call: nat, ok: bool)
    requires call in st.calls && !st.calls[call].Holding? && !st.calls[call].Untracking? && !st.calls[call].Activating?
    ensures StepCall(st, call, ok).slots == st.slots
  {
  }

  lemma StepKeepsDistinct(st: State, call: nat, ok: bool)
    requires Inv(st) && IdsDistinct(st)
    ensures IdsDistinct(StepCall(st, call, ok)) <==> !Doubles(st, Step(call, ok))
  {
    if call in st.calls {
      match st.calls[call]
      case Holding(opener, page, handle) =>
        AppendDistinct(st.slots, PageSlot(page, Url(opener), handle, opener.Lookup?));
      case Untracking(page) => RemovingKeepsDistinct(st.slots, page);
      case Activating(page) => SameIdsDistinct(st.slots, Activated(st.slots, page));
      case _ => OtherStepsKeepSlots(st, call, ok);
    }
  }

  lemma EventKeepsDistinct(st: State, ev: Event)
    requires Inv(st) && IdsDistinct(st)
    ensures IdsDistinct(Apply(st, ev)) <==> !Doubles(st, ev)
  {
    match ev
    case Step(call, ok) => StepKeepsDistinct(st, call, ok);
    case Select(page) => SameIdsDistinct(st.slots, Activated(st.slots, page));
    case SetUrl(page, url) => SameIdsDistinct(st.slots, WithUrl(st.slots, page, url));
    case FinishRebuild => if st.rebuild.Some? { RestoredDistinct(st); }
    case _ => assert Apply(st, ev).slots == st.slots;
  }

  /** No id is ever tracked twice exactly when no lookup registers a page whose id is tracked. */
  lemma {:induction false} DistinctIdsExactly(number: nat, evs: seq<Event>)
    ensures AllAlong(Apply, IdsDistinct, Init(number), evs) <==> LegalRun(Apply, NotDoubling, Init(number), evs)
  {
    forall st, ev | Inv(st) ensures Inv(Apply(st, ev)) { ApplyKeepsInv(st, ev); }
    forall st, ev | Inv(st) && IdsDistinct(st) ensures IdsDistinct(Apply(st, ev)) <==> NotDoubling(st, ev) {
      EventKeepsDistinct(st, ev);
    }
    AllAlongExactly(Apply, NotDoubling, Inv, IdsDistinct, Init(number), evs);
  }

  // ----- one active page

  predicate TrackedTwice(slots: seq<PageSlot>, page: PageId) {
    exists i, j :: 0 <= i < j < |slots| && slots[i].id == page && slots[j].id == page
  }

  /** A `tabs_open` or a selection activates an id that is tracked twice. */
  predicate ActivatesTwo(st: State, ev: Event) {
    || (ev.Select? && TrackedTwice(st.slots, ev.page))
    || (ev.Step? && ev.call in st.calls && st.calls[ev.call].Activating?
        && TrackedTwice(st.slots, st.calls[ev.call].page))
  }

  predicate NotActivatingTwo(st: State, ev: Event) { !ActivatesTwo(st, ev) }

  predicate OneActive(st: State) { AtMostOneActive(st.slots) }

  lemma ActivateExactly(st: State, page: PageId)
    requires OneActive(st)
    ensures OneActive(Activate(st, page)) <==> !TrackedTwice(st.slots, page)
  {
    ActivationExactly(st.slots, page);
  }

  lemma StepKeepsOneActive(st: State, call: nat, ok: bool)
    requires OneActive(st)
    ensures OneActive(StepCall(st, call, ok)) <==> !ActivatesTwo(st, Step(call, ok))
  {
    if call in st.calls {
      match st.calls[call]
      case Holding(opener, page, handle) =>
      case Untracking(page) => RemovingKeepsOneActive(st.slots, page);
      case Activating(page) => ActivateExactly(st, page);
      case _ => OtherStepsKeepSlots(st, call, ok);
    }
  }

  lemma EventKeepsOneActive(st: State, ev: Event)
    requires Inv(st) && OneActive(st)
    ensures OneActive(Apply(st, ev)) <==> !ActivatesTwo(st, ev)
  {
    match ev
    case Step(call, ok) => StepKeepsOneActive(st, call, ok);
    case Select(page) => ActivateExactly(st, page);
    case FinishRebuild => if st.rebuild.Some? { RebuiltHasOneActive(st.rebuild.value.restored); }
    case SetUrl(page, url) =>
    case _ => assert Apply(st, ev).slots == st.slots;
  }

  /** At most one page is ever active exactly when no id is activated that is tracked twice. */
  lemma {:induction false} OneActiveExactly(number: nat, evs: seq<Event>)
    ensures AllAlong(Apply, OneActive, Init(number), evs) <==> LegalRun(Apply, NotActivatingTwo, Init(number), evs)
  {
    forall st, ev | Inv(st) ensures Inv(Apply(st, ev)) { ApplyKeepsInv(st, ev); }
    forall st, ev | Inv(st) && OneActive(st) ensures OneActive(Apply(st, ev)) <==> NotActivatingTwo(st, ev) {
      EventKeepsOneActive(st, ev);
    }
    AllAlongExactly(Apply, NotActivatingTwo, Inv, OneActive, Init(number), evs);
  }

  // ----- no tab is lost

  /** A live tab in the page map of the session's context. */
  predicate Owned(st: State, tab: nat) { tab < |st.tabs| && st.tabs[tab].live && DrivenHere(st, tab) }

  predicate HeldElsewhere(st: State, tab: nat, call: nat) {
    exists other :: other in st.calls && other != call && Holds(st.calls[other], tab)
  }

  /** Someone answers for the tab: the list, a call about to register or close it, or a rebuild in progress. */
  predicate AccountedFor(st: State, tab: nat)
    requires tab < |st.tabs|
  {
    || InList(st.slots, tab)
    || (exists call :: call in st.calls && Holds(st.calls[call], tab))
    || (st.rebuild.Some? && InList(st.rebuild.value.restored, tab))
  }

  predicate Kept(st: State, tab: nat) { Owned(st, tab) ==> AccountedFor(st, tab) }

  /** A call lets go of a tab nobody else holds: an untracking takes it away under its id, a rebuild refuses
      its adoption, or the engine will not close a page the registry refused. */
  predicate Drops(st: State, call: nat, ok: bool, tab: nat) {
    && call in st.calls && !HeldElsewhere(st, tab, call)
    && match st.calls[call]
       case Untracking(page) => Tracks(st.slots, page) && FirstTab(st.slots, page) == tab
       case Holding(opener, _, handle) =>
         opener.Adoption? && handle.tab == tab && st.recovering && !InList(st.slots, tab)
       case Discarding(_, handle) => handle.tab == tab && !ok
       case _ => false
  }

  /** A step lets go of an owned tab: a call drops it, or a rebuild that has restored it is abandoned. */
  predicate Loses(st: State, ev: Event, tab: nat) {
    && Owned(st, tab)
    && match ev
       case Step(call, ok) => Drops(st, call, ok, tab)
       case AbandonRebuild => st.rebuild.Some? && InList(st.rebuild.value.restored, tab)
       case _ => false
  }

  /** Where no call lets go of the tab and the lists and the map stay, so does the account. */
  lemma SameListsKeep(st: State, next: State, call: nat, tab: nat)
    requires Kept(st, tab) && tab < |st.tabs| && |next.tabs| >= |st.tabs|
    requires Owned(next, tab) ==> Owned(st, tab)
    requires forall c :: c in st.calls && c != call ==> c in next.calls && next.calls[c] == st.calls[c]
    requires call in st.calls && Holds(st.calls[call], tab) ==>
               InList(next.slots, tab) || (call in next.calls && Holds(next.calls[call], tab))
    requires InList(st.slots, tab) ==> InList(next.slots, tab)
    requires st.rebuild.Some? && InList(st.rebuild.value.restored, tab) ==>
               next.rebuild.Some? && InList(next.rebuild.value.restored, tab)
    ensures Kept(next, tab)
  {
    if Owned(next, tab) && (exists c :: c in st.calls && Holds(st.calls[c], tab)) {
      var c :| c in st.calls && Holds(st.calls[c], tab);
      if c != call { assert Holds(next.calls[c], tab); }
    }
  }

  lemma UntrackKeepsAccount(st: State, call: nat, page: PageId, ok: bool, tab: nat)
    requires Inv(st) && Kept(st, tab) && call in st.calls && st.calls[call] == Untracking(page)
    ensures Kept(End(Untrack(st, page), call), tab) <==> !Loses(st, Step(call, ok), tab)
  {
    if tab < |st.tabs| && Tracks(st.slots, page) {
      InListWithout(st.slots, page, tab);
      var slot := st.slots[Position(st.slots, page).value];
      assert SlotInv(st, slot);
      if slot.handle.tab == tab {
        TakenIsLost(st, call, page, tab);
      } else {
        SameListsKeep(st, End(Untrack(st, page), call), call, tab);
      }
    } else if tab < |st.tabs| {
      SameListsKeep(st, End(Untrack(st, page), call), call, tab);
    }
  }

  lemma TakenIsLost(st: State, call: nat, page: PageId, tab: nat)
    requires Inv(st) && call in st.calls && st.calls[call] == Untracking(page)
    requires Tracks(st.slots, page) && FirstTab(st.slots, page) == tab && tab < |st.tabs|
    requires st.tabs[tab].place.Listed?
    ensures Kept(End(Untrack(st, page), call), tab) <==> !Owned(st, tab) || HeldElsewhere(st, tab, call)
  {
    InListWithout(st.slots, page, tab);
    NotRestored(st, tab);
    HeldWithout(st, End(Untrack(st, page), call), call, tab);
  }

  /** After a call ended, its tab is held if another call holds it. */
  lemma HeldWithout(st: State, next: State, call: nat, tab: nat)
    requires next.calls == st.calls - {call}
    ensures (exists c :: c in next.calls && Holds(next.calls[c], tab)) <==> HeldElsewhere(st, tab, call)
  {
    if HeldElsewhere(st, tab, call) {
      var c :| c in st.calls && c != call && Holds(st.calls[c], tab);
      assert Holds(next.calls[c], tab);
    }
    if c :| c in next.calls && Holds(next.calls[c], tab) { assert Holds(st.calls[c], tab); }
  }

  lemma NotRestored(st: State, tab: nat)
    requires Inv(st) && tab < |st.tabs| && !st.tabs[tab].place.InRebuild?
    ensures st.rebuild.Some? ==> !InList(st.rebuild.value.restored, tab)
  {
    if st.rebuild.Some? {
      var restored := st.rebuild.value.restored;
      forall i | 0 <= i < |restored| ensures restored[i].handle.tab != tab { assert RestoredInv(st, restored[i]); }
    }
  }

  lemma NotListed(st: State, tab: nat)
    requires Inv(st) && tab < |st.tabs| && !st.tabs[tab].place.Listed?
    ensures !InList(st.slots, tab)
  {
    forall i | 0 <= i < |st.slots| ensures st.slots[i].handle.tab != tab { assert SlotInv(st, st.slots[i]); }
  }

  /** A page its opener holds is held by nobody else. */
  lemma HeldOnce(st: State, call: nat, tab: nat)
    requires Inv(st) && tab < |st.tabs| && st.tabs[tab].place == InHand(call)
    ensures !HeldElsewhere(st, tab, call)
  {
    assert PlaceInv(st, tab);
    forall other | other in st.calls && other != call ensures !Holds(st.calls[other], tab) {
      assert CallInv(st, other);
    }
  }

  lemma DiscardKeepsAccount(st: State, call: nat, page: PageId, handle: Handle, ok: bool, tab: nat)
    requires Inv(st) && Kept(st, tab) && call in st.calls && st.calls[call] == Discarding(page, handle)
    ensures Kept(Discard(st, call, page, handle, ok), tab) <==> !Loses(st, Step(call, ok), tab)
  {
    assert CallInv(st, call);
    if tab == handle.tab {
      DiscardedIsLost(st, call, page, handle, ok);
    } else if tab < |st.tabs| {
      SameListsKeep(st, Discard(st, call, page, handle, ok), call, tab);
    }
  }

  lemma DiscardedIsLost(st: State, call: nat, page: PageId, handle: Handle, ok: bool)
    requires Inv(st) && call in st.calls && st.calls[call] == Discarding(page, handle)
    requires handle.tab < |st.tabs| && st.tabs[handle.tab].place == InHand(call) && HandleInv(st, page, handle)
    ensures var tab := handle.tab;
            && (Kept(Discard(st, call, page, handle, ok), tab) <==> ok || !Owned(st, tab))
            && !HeldElsewhere(st, tab, call)
  {
    var next := Discard(st, call, page, handle, ok);
    HeldOnce(st, call, handle.tab);
    NotListed(st, handle.tab);
    NotRestored(st, handle.tab);
    HeldWithout(st, next, call, handle.tab);
    assert PlaceInv(st, handle.tab);
    assert ok ==> !Owned(next, handle.tab);
  }

  lemma RefusedAdoptionExactly(st: State, call: nat, opener: Opener, page: PageId, handle: Handle, ok: bool)
    requires Inv(st) && Kept(st, handle.tab) && call in st.calls && st.calls[call] == Holding(opener, page, handle)
    requires opener.Adoption? && Refused(st, opener, page)
    ensures Kept(End(st, call), handle.tab) <==> !Loses(st, Step(call, ok), handle.tab)
  {
    var tab := handle.tab;
    assert CallInv(st, call);
    WindowIsNotRestored(st, tab);
    HeldWithout(st, End(st, call), call, tab);
    if Tracks(st.slots, page) {
      var slot := st.slots[Position(st.slots, page).value];
      assert SlotInv(st, slot);
      assert IdInv(st.contexts, st.tabs, tab) && IdInv(st.contexts, st.tabs, slot.handle.tab);
      assert InList(st.slots, tab);
    }
  }

  lemma WindowIsNotRestored(st: State, tab: nat)
    requires Inv(st) && tab < |st.tabs| && st.tabs[tab].id.Window?
    ensures !st.tabs[tab].place.Stranded? && (st.rebuild.Some? ==> !InList(st.rebuild.value.restored, tab))
  {
    assert PlaceInv(st, tab);
    NotRestored(st, tab);
  }

  lemma RegisterKeepsAccount(
      st: State, call: nat, opener: Opener, page: PageId, handle: Handle, ok: bool, tab: nat)
    requires Inv(st) && Kept(st, tab) && call in st.calls && st.calls[call] == Holding(opener, page, handle)
    ensures Kept(Register(st, call, opener, page, handle), tab) <==> !Loses(st, Step(call, ok), tab)
  {
    assert CallInv(st, call);
    if Refused(st, opener, page) {
      if opener.Adoption? && handle.tab == tab {
        RefusedAdoptionExactly(st, call, opener, page, handle, ok);
      } else if tab < |st.tabs| {
        SameListsKeep(st, Register(st, call, opener, page, handle), call, tab);
      }
    } else if tab < |st.tabs| {
      InListAppend(st.slots, PageSlot(page, Url(opener), handle, opener.Lookup?), tab);
      assert PlaceInv(st, tab);
      HeldIsUnlisted(st, call, opener, page, handle);
      SameListsKeep(st, Register(st, call, opener, page, handle), call, tab);
    }
  }

  lemma OpenKeepsAccount(st: State, call: nat, opener: Opener, context: nat, ok: bool, tab: nat)
    requires Inv(st) && Kept(st, tab) && call in st.calls && st.calls[call] == Opening(opener, context)
    ensures Kept(Open(st, call, opener, context, ok), tab)
  {
    var next := Open(st, call, opener, context, ok);
    if tab < |st.tabs| {
      SameListsKeep(st, next, call, tab);
    } else if tab < |next.tabs| {
      assert Holds(next.calls[call], tab);
    }
  }

  /** A call that holds no tab goes on, or ends. */
  lemma MoveKeepsAccount(st: State, calls: map<nat, Call>, call: nat, tab: nat)
    requires Kept(st, tab) && (call in st.calls ==> !Holds(st.calls[call], tab))
    requires forall c :: c in st.calls && c != call ==> c in calls && calls[c] == st.calls[c]
    ensures Kept(st.(calls := calls), tab)
  {
    if tab < |st.tabs| { SameListsKeep(st, st.(calls := calls), call, tab); }
  }

  lemma CloseKeepsAccount(st: State, context: nat, page: PageId, closer: Option<nat>, tab: nat)
    requires Kept(st, tab)
    ensures Kept(CloseIn(st, context, page, closer), tab)
  {
    if tab < |st.tabs| { SameListsKeep(st, CloseIn(st, context, page, closer), 0, tab); }
  }

  lemma ClosingKeepsAccount(st: State, call: nat, page: PageId, context: nat, tab: nat)
    requires Inv(st) && Kept(st, tab) && call in st.calls && st.calls[call] == Closing(page, context)
    ensures Kept(Goto(CloseIn(st, context, page, Some(call)), call, Untracking(page)), tab) && Kept(End(st, call), tab)
  {
    CloseKeepsAccount(st, context, page, Some(call), tab);
    var closed := CloseIn(st, context, page, Some(call));
    MoveKeepsAccount(closed, closed.calls[call := Untracking(page)], call, tab);
    MoveKeepsAccount(st, st.calls - {call}, call, tab);
  }

  /** Driving a window concerns no other tab. */
  lemma DrivingKeepsAccount(st: State, window: nat, context: nat, tab: nat)
    requires Kept(st, tab) && window < |st.tabs| && tab != window
    ensures Kept(st.(pages := st.pages[Entry(context, Window(window)) := window],
                     tabs := st.tabs[window := st.tabs[window].(closer := None)]), tab)
  {
    if tab < |st.tabs| {
      SameListsKeep(st, st.(pages := st.pages[Entry(context, Window(window)) := window],
                            tabs := st.tabs[window := st.tabs[window].(closer := None)]), 0, tab);
    }
  }

  lemma AdoptKeepsAccount(st: State, call: nat, opener: Opener, context: nat, ok: bool, tab: nat)
    requires Inv(st) && Kept(st, tab) && call in st.calls && st.calls[call] == Adopting(opener, context)
    ensures Kept(Adopt(st, call, opener, context, ok), tab)
  {
    assert CallInv(st, call);
    var window := opener.window;
    var entry := Entry(context, Window(window));
    var held := Holding(opener, Window(window), Handle(window, context));
    if !Tracks(st.slots, Window(window)) && (entry in st.pages || (ok && Adoptable(st, window, context))) {
      if tab == window {
        assert Holds(Adopt(st, call, opener, context, ok).calls[call], tab);
      } else {
        if entry !in st.pages { DrivingKeepsAccount(st, window, context, tab); }
        var driving := if entry in st.pages then st
                       else st.(pages := st.pages[entry := window],
                                tabs := st.tabs[window := st.tabs[window].(closer := None)]);
        MoveKeepsAccount(driving, st.calls[call := held], call, tab);
      }
    } else {
      MoveKeepsAccount(st, st.calls - {call}, call, tab);
    }
  }

  lemma PlainKeepsAccount(st: State, call: nat, ok: bool, tab: nat)
    requires Inv(st) && Kept(st, tab) && call in st.calls && Plain(st.calls[call])
    ensures Kept(StepCall(st, call, ok), tab)
  {
    var next := StepCall(st, call, ok);
    PlainStep(st, call, ok);
    if st.calls[call].Activating? { SameHandles(st.slots, Activated(st.slots, st.calls[call].page)); }
    if tab < |st.tabs| { SameListsKeep(st, next, call, tab); }
  }

  lemma StepKeepsAccount(st: State, call: nat, ok: bool, tab: nat)
    requires Inv(st) && Kept(st, tab)
    ensures Kept(StepCall(st, call, ok), tab) <==> !Loses(st, Step(call, ok), tab)
  {
    if call in st.calls {
      match st.calls[call]
      case Opening(opener, context) => OpenKeepsAccount(st, call, opener, context, ok, tab);
      case Adopting(opener, context) => AdoptKeepsAccount(st, call, opener, context, ok, tab);
      case Holding(opener, page, handle) => RegisterKeepsAccount(st, call, opener, page, handle, ok, tab);
      case Discarding(page, handle) => DiscardKeepsAccount(st, call, page, handle, ok, tab);
      case Closing(page, context) => ClosingKeepsAccount(st, call, page, context, tab);
      case Untracking(page) => UntrackKeepsAccount(st, call, page, ok, tab);
      case _ => PlainKeepsAccount(st, call, ok, tab);
    }
  }

  lemma StartKeepsAccount(st: State, call: nat, first: Call, allowed: bool, tab: nat)
    requires Inv(st) && Kept(st, tab)
    ensures Kept(Start(st, call, first, allowed), tab)
  {
    var next := Start(st, call, first, allowed);
    if tab < |st.tabs| && call !in st.calls { SameListsKeep(st, next, call, tab); }
  }

  /** New flags and URLs. */
  lemma RelabelKeepsAccount(st: State, slots: seq<PageSlot>, tab: nat)
    requires Kept(st, tab) && |slots| == |st.slots|
    requires forall i :: 0 <= i < |slots| ==> slots[i].handle == st.slots[i].handle
    ensures Kept(st.(slots := slots), tab)
  {
    SameHandles(st.slots, slots);
    if tab < |st.tabs| { SameListsKeep(st, st.(slots := slots), 0, tab); }
  }

  lemma EngineKeepsAccount(st: State, ev: Event, tab: nat)
    requires Inv(st) && Kept(st, tab) && (ev.WindowAppears? || ev.TabDies? || ev.NumberLost?)
    ensures Kept(Apply(st, ev), tab)
  {
    if tab < |st.tabs| {
      SameListsKeep(st, Apply(st, ev), 0, tab);
    } else {
      forall entry | entry in st.pages ensures st.pages[entry] < |st.tabs| {
        assert EntryInv(st.contexts, st.tabs, st.pages, entry);
      }
    }
  }

  /** A context swapped in drives nothing yet. */
  lemma SwapKeepsAccount(st: State, ev: Event, tab: nat)
    requires Inv(st) && Kept(st, tab) && ev.SwapContext?
    ensures Kept(Apply(st, ev), tab)
  {
    forall entry | entry in st.pages ensures entry.context < |st.contexts| {
      assert EntryInv(st.contexts, st.tabs, st.pages, entry);
    }
  }

  lemma RestoreKeepsAccount(st: State, r: Rebuild, ok: bool, tab: nat)
    requires Inv(st) && Kept(st, tab) && st.rebuild == Some(r) && |r.answered| < |r.saved|
    ensures Kept(RestoreNext(st, r, ok), tab)
  {
    var next := RestoreNext(st, r, ok);
    if |next.rebuild.value.restored| > |r.restored| {
      InListAppend(r.restored, next.rebuild.value.restored[|r.restored|], tab);
    }
    if tab < |st.tabs| { SameListsKeep(st, next, 0, tab); }
  }

  /** No listed tab is driven by the context swapped in, so the write-back loses none. */
  lemma WriteBackKeepsAccount(st: State, r: Rebuild, tab: nat)
    requires Inv(st) && Kept(st, tab) && st.rebuild == Some(r) && r.swapped
    ensures Kept(WriteBack(st, r), tab)
  {
    var next := WriteBack(st, r);
    SameHandles(r.restored, next.slots);
    if InList(st.slots, tab) {
      var i :| 0 <= i < |st.slots| && st.slots[i].handle.tab == tab;
      assert SlotInv(st, st.slots[i]);
    } else if Owned(next, tab) && (exists c :: c in st.calls && Holds(st.calls[c], tab)) {
      var c :| c in st.calls && Holds(st.calls[c], tab);
      assert Holds(next.calls[c], tab);
    }
  }

  /** What a rebuild has restored nobody else lists or holds. */
  lemma RestoredIsNowhereElse(st: State, r: Rebuild, tab: nat)
    requires Inv(st) && st.rebuild == Some(r) && InList(r.restored, tab) && tab < |st.tabs|
    ensures !InList(st.slots, tab) && forall call :: call in st.calls ==> !Holds(st.calls[call], tab)
  {
    var i :| 0 <= i < |r.restored| && r.restored[i].handle.tab == tab;
    assert RestoredInv(st, r.restored[i]);
    NotListed(st, tab);
    forall call | call in st.calls ensures !Holds(st.calls[call], tab) { assert CallInv(st, call); }
  }

  lemma AbandonKeepsAccount(st: State, r: Rebuild, tab: nat)
    requires Inv(st) && Kept(st, tab) && st.rebuild == Some(r)
    ensures Kept(Abandon(st), tab) <==> !Loses(st, AbandonRebuild, tab)
  {
    if tab < |st.tabs| && InList(r.restored, tab) {
      RestoredIsNowhereElse(st, r, tab);
    } else if tab < |st.tabs| {
      SameListsKeep(st, Abandon(st), 0, tab);
    }
  }

  lemma RebuildKeepsAccount(st: State, ev: Event, tab: nat)
    requires Inv(st) && Kept(st, tab)
    requires ev.BeginRebuild? || ev.Restore? || ev.FinishRebuild? || ev.AbandonRebuild?
    ensures Kept(Apply(st, ev), tab) <==> !Loses(st, ev, tab)
  {
    if st.rebuild.None? {
      if tab < |st.tabs| { SameListsKeep(st, Apply(st, ev), 0, tab); }
    } else {
      var r := st.rebuild.value;
      match ev
      case Restore(ok) => if r.swapped && |r.answered| < |r.saved| { RestoreKeepsAccount(st, r, ok, tab); }
      case FinishRebuild => if r.swapped { WriteBackKeepsAccount(st, r, tab); }
      case AbandonRebuild => AbandonKeepsAccount(st, r, tab);
      case _ =>
    }
  }

  lemma EventKeepsAccount(st: State, ev: Event, tab: nat)
    requires Inv(st) && Kept(st, tab)
    ensures Kept(Apply(st, ev), tab) <==> !Loses(st, ev, tab)
  {
    match ev
    case Step(call, ok) => StepKeepsAccount(st, call, ok, tab);
    case StartLookup(call) =>
      StartKeepsAccount(st, call, Asking(Lookup), st.recovering || FirstActive(st.slots).None?, tab);
    case StartOpenTab(call) => StartKeepsAccount(st, call, Asking(OpenTab), true, tab);
    case StartAdoption(call, window, url) => StartKeepsAccount(st, call, Asking(Adoption(window, url)), true, tab);
    case StartClose(call, page) => StartKeepsAccount(st, call, Finding(page), !st.recovering, tab);
    case SwapContext(_, _) => SwapKeepsAccount(st, ev, tab);
    case BeginRebuild => RebuildKeepsAccount(st, ev, tab);
    case Restore(_) => RebuildKeepsAccount(st, ev, tab);
    case FinishRebuild => RebuildKeepsAccount(st, ev, tab);
    case AbandonRebuild => RebuildKeepsAccount(st, ev, tab);
    case Select(page) => if Tracks(st.slots, page) { RelabelKeepsAccount(st, Activated(st.slots, page), tab); }
    case SetUrl(page, url) => RelabelKeepsAccount(st, WithUrl(st.slots, page, url), tab);
    case _ => EngineKeepsAccount(st, ev, tab);
  }

  /** Whenever a tab is live and driven by the session's context someone answers for it, exactly if no step
      lets go of it. */
  lemma {:induction false} NoTabIsLost(number: nat, evs: seq<Event>, tab: nat)
    ensures AllAlong(Apply, (st: State) => Kept(st, tab), Init(number), evs)
            <==> LegalRun(Apply, (st: State, ev: Event) => !Loses(st, ev, tab), Init(number), evs)
  {
    var kept, keeps := (st: State) => Kept(st, tab), (st: State, ev: Event) => !Loses(st, ev, tab);
    forall st, ev | Inv(st) ensures Inv(Apply(st, ev)) { ApplyKeepsInv(st, ev); }
    forall st, ev | Inv(st) && kept(st) ensures kept(Apply(st, ev)) <==> keeps(st, ev) {
      EventKeepsAccount(st, ev, tab);
    }
    AllAlongExactly(Apply, keeps, Inv, kept, Init(number), evs);
  }

  predicate NotAbandoning(st: State, ev: Event) { !ev.AbandonRebuild? }

  lemma {:induction false} NothingAbandoned(number: nat, evs: seq<Event>)
    requires AbandonRebuild !in evs
    ensures !Run(Apply, Init(number), evs).abandoned
  {
    forall st: State, ev | !st.abandoned && NotAbandoning(st, ev) ensures !Apply(st, ev).abandoned {
      if ev.Step? { StepIsLocal(st, ev.call, ev.ok, 0, 0); }
    }
    Invariant(Apply, NotAbandoning, (st: State) => !st.abandoned, Init(number), evs);
  }

  /** In every interleaving the registry refuses work exactly while a rebuild owns it, a rebuild never writes
      over a tab it did not take over, no tab is listed twice, and tabs are left stranded only by a rebuild
      that was abandoned. */
  lemma {:induction false} RebuildOwnsTheList(number: nat, evs: seq<Event>)
    ensures var st := Run(Apply, Init(number), evs);
            && (st.recovering <==> st.rebuild.Some?)
            && (st.rebuild.Some? ==> ListedTabs(st.slots) <= st.rebuild.value.taken)
            && DistinctTabs(st.slots)
            && (AbandonRebuild !in evs ==> forall h :: 0 <= h < |st.tabs| ==> !st.tabs[h].place.Stranded?)
  {
    RunKeepsInv(number, evs);
    var st := Run(Apply, Init(number), evs);
    forall slot | st.rebuild.Some? && slot in st.slots ensures slot.handle.tab in st.rebuild.value.taken {
      assert SlotInv(st, slot);
    }
    if AbandonRebuild !in evs {
      NothingAbandoned(number, evs);
      forall h | 0 <= h < |st.tabs| ensures !st.tabs[h].place.Stranded? { assert PlaceInv(st, h); }
    }
  }

  // ----- a rebuild brings the pages back

  /** The list as it was when the last rebuild took it over. */
  function TakenOver(number: nat, evs: seq<Event>): seq<PageSlot> {
    if evs == [] then []
    else
      var init, last := evs[..|evs| - 1], evs[|evs| - 1];
      var st := Run(Apply, Init(number), init);
      if last.BeginRebuild? && st.rebuild.None? then st.slots else TakenOver(number, init)
  }

  lemma StepSavesNothing(st: State, ev: Event)
    ensures var next := Apply(st, ev);
            next.rebuild.Some? ==>
              if st.rebuild.Some? then next.rebuild.value.saved == st.rebuild.value.saved
              else ev.BeginRebuild? && next.rebuild.value.saved == RecoveryPoints(st.slots)
  {
    if ev.Step? { StepIsLocal(st, ev.call, ev.ok, ev.call, 0); }
  }

  lemma {:induction false} SavedAsTakenOver(number: nat, evs: seq<Event>)
    ensures var st := Run(Apply, Init(number), evs);
            st.rebuild.Some? ==> st.rebuild.value.saved == RecoveryPoints(TakenOver(number, evs))
  {
    if evs != [] {
      var init := evs[..|evs| - 1];
      SavedAsTakenOver(number, init);
      StepSavesNothing(Run(Apply, Init(number), init), evs[|evs| - 1]);
    }
  }

  /** The points that were somewhere and that the engine reopened. */
  function Reopened(saved: seq<RecoveryPoint>, answered: seq<bool>): seq<nat>
    requires |saved| == |answered|
    decreases |saved|
  {
    if saved == [] then []
    else
      var k := |saved| - 1;
      Reopened(saved[..k], answered[..k]) + if Blank(saved[k].url) || !answered[k] then [] else [k]
  }

  ghost predicate Ascending(indices: seq<nat>) { forall i, j :: 0 <= i < j < |indices| ==> indices[i] < indices[j] }

  lemma {:induction false} ReopenedExactly(saved: seq<RecoveryPoint>, answered: seq<bool>)
    requires |saved| == |answered|
    ensures Ascending(Reopened(saved, answered))
    ensures forall k: nat :: k in Reopened(saved, answered) <==>
              k < |saved| && saved[k].url != "" && saved[k].url != "about:blank" && answered[k]
    decreases |saved|
  {
    if saved != [] {
      var n := |saved| - 1;
      var before := Reopened(saved[..n], answered[..n]);
      ReopenedExactly(saved[..n], answered[..n]);
      forall i | 0 <= i < |before| ensures before[i] < n {
        var k: nat := before[i];
        assert k in before;
      }
    }
  }

  lemma {:induction false} RestorableAreReopened(saved: seq<RecoveryPoint>, answered: seq<bool>, at: Option<nat>)
    requires |saved| == |answered|
    ensures var points, kept := Restorable(saved, answered, at), Reopened(saved, answered);
            && |points| == |kept|
            && forall i :: 0 <= i < |kept| ==>
                 kept[i] < |saved| && points[i] == RecoveryPoint(saved[kept[i]].url, at == Some(kept[i]))
    decreases |saved|
  {
    if saved != [] { RestorableAreReopened(saved[..|saved| - 1], answered[..|saved| - 1], at); }
  }

  /** `now` has one page for each of these positions of `was`, in their order; the page active then is the
      active one now if it is among them, and otherwise the first page is. */
  ghost predicate Restores(was: seq<PageSlot>, kept: seq<nat>, now: seq<PageSlot>) {
    && |now| == |kept|
    && (forall i :: 0 <= i < |kept| ==> kept[i] < |was| && now[i].url == was[kept[i]].url)
    && (forall i :: 0 <= i < |kept| ==>
          (now[i].active <==>
             if exists k :: k in kept && ActiveIs(was, k) then ActiveIs(was, kept[i]) else i == 0))
  }

  /** The page a lookup would have found. */
  predicate ActiveIs(slots: seq<PageSlot>, k: nat) {
    k < |slots| && slots[k].active && forall i :: 0 <= i < k ==> !slots[i].active
  }

  /** The rebuild's bookkeeping, read off the list it took over. */
  lemma ActiveIndexIs(was: seq<PageSlot>, at: Option<nat>)
    requires FirstActivePoint(RecoveryPoints(was), at)
    ensures forall k: nat :: at == Some(k) <==> ActiveIs(was, k)
  {
    var saved := RecoveryPoints(was);
    assert forall i :: 0 <= i < |was| ==> saved[i].active == was[i].active;
    assert at.Some? ==> was[at.value].active;
    forall k: nat | ActiveIs(was, k) ensures at == Some(k) { assert saved[k].active; }
  }

  lemma PromotesTheFirst(slots: seq<PageSlot>, i: nat)
    requires i < |slots|
    ensures Rebuilt(slots)[i].url == slots[i].url
    ensures Rebuilt(slots)[i].active <==>
            if exists k :: 0 <= k < |slots| && slots[k].active then slots[i].active else i == 0
  {
    if FirstActive(slots).Some? { assert slots[FirstActive(slots).value].active; }
  }

  /** The pages of the list that was taken over: those that were somewhere and that the engine reopened. */
  ghost predicate ThoseReopened(was: seq<PageSlot>, answered: seq<bool>, kept: seq<nat>) {
    && |answered| == |was| && Ascending(kept)
    && forall k: nat :: k in kept <==>
         k < |was| && was[k].url != "" && was[k].url != "about:blank" && answered[k]
  }

  lemma ReopenedOfSlots(was: seq<PageSlot>, answered: seq<bool>)
    requires |was| == |answered|
    ensures ThoseReopened(was, answered, Reopened(RecoveryPoints(was), answered))
  {
    var saved := RecoveryPoints(was);
    ReopenedExactly(saved, answered);
    assert forall k :: 0 <= k < |was| ==> saved[k].url == was[k].url;
  }

  lemma RestoredAreReopened(was: seq<PageSlot>, r: Rebuild) returns (kept: seq<nat>)
    requires RebuildInv(r) && |r.answered| == |r.saved| && r.saved == RecoveryPoints(was)
    ensures ThoseReopened(was, r.answered, kept) && Restores(was, kept, Rebuilt(r.restored))
  {
    kept := Reopened(r.saved, r.answered);
    assert r.saved[..|r.answered|] == r.saved;
    ReopenedOfSlots(was, r.answered);
    RestorableAreReopened(r.saved, r.answered, r.activeIndex);
    ActiveIndexIs(was, r.activeIndex);
    RestoredRestores(was, r, kept);
  }

  /** The write-back puts in place exactly the pages of the list the rebuild took over that were somewhere and
      that the engine reopened, in their order at their URLs; the page that was active is the one active
      page again if it is among them. */
  lemma {:induction false} RebuildRestoresThePages(number: nat, evs: seq<Event>) returns (kept: seq<nat>)
    requires var st := Run(Apply, Init(number), evs);
             st.rebuild.Some? && st.rebuild.value.swapped
             && |st.rebuild.value.answered| == |st.rebuild.value.saved|
    ensures var st := Run(Apply, Init(number), evs);
            var was, after := TakenOver(number, evs), Apply(st, FinishRebuild);
            && ThoseReopened(was, st.rebuild.value.answered, kept) && Restores(was, kept, after.slots)
            && (after.slots != [] ==> ExactlyOneActive(after.slots))
            && !after.recovering && after.rebuild.None?
  {
    RunKeepsInv(number, evs);
    SavedAsTakenOver(number, evs);
    var r := Run(Apply, Init(number), evs).rebuild.value;
    kept := RestoredAreReopened(TakenOver(number, evs), r);
    RebuiltHasOneActive(r.restored);
  }

  lemma RestoredRestores(was: seq<PageSlot>, r: Rebuild, kept: seq<nat>)
    requires r.saved == RecoveryPoints(was) && |r.restored| == |kept|
    requires forall i :: 0 <= i < |kept| ==>
               && kept[i] < |was|
               && RecoveryPoints(r.restored)[i] == RecoveryPoint(was[kept[i]].url, r.activeIndex == Some(kept[i]))
    requires forall k: nat :: r.activeIndex == Some(k) <==> ActiveIs(was, k)
    ensures Restores(was, kept, Rebuilt(r.restored))
  {
    var now := Rebuilt(r.restored);
    assert forall i :: 0 <= i < |kept| ==>
             r.restored[i].active == RecoveryPoints(r.restored)[i].active == ActiveIs(was, kept[i]);
    if k :| k in kept && ActiveIs(was, k) {
      var j :| 0 <= j < |kept| && kept[j] == k;
      assert r.restored[j].active;
    }
    forall i | 0 <= i < |kept|
      ensures now[i].url == was[kept[i]].url
      ensures now[i].active <==>
              if exists k :: k in kept && ActiveIs(was, k) then ActiveIs(was, kept[i]) else i == 0
    {
      PromotesTheFirst(r.restored, i);
      assert RecoveryPoints(r.restored)[i].url == r.restored[i].url;
    }
  }

  // ----- swaps that meet no call under way

  /** A call a swap may meet: it has read neither the list nor the context, or only closes what it opened. */
  predicate Settled(call: Call) { call.Asking? || call.Choosing? || call.Discarding? }

  /** No swap falls between what a call reads and its end, no rebuild is abandoned, and the engine closes
      the pages the registry refused. */
  ghost predicate Quiet(st: State, ev: Event) {
    && (Swaps(st, ev) ==> forall call :: call in st.calls ==> Settled(st.calls[call]))
    && !ev.AbandonRebuild?
    && (ev.Step? && ev.call in st.calls && st.calls[ev.call].Discarding? ==> ev.ok)
  }

  predicate BeforeSwap(st: State) { st.rebuild.Some? ==> !st.rebuild.value.swapped }

  /** The current context has given out the id. */
  predicate GivenHere(st: State, page: PageId) {
    && st.contexts != []
    && match page
       case Opened(number, serial) =>
         number == st.contexts[Current(st)].number && serial < st.contexts[Current(st)].drawn
       case Window(_) => true
  }

  predicate QuietCall(st: State, call: Call) {
    match call
    case Opening(_, context) => context == Current(st)
    case Adopting(_, context) => context == Current(st)
    case Holding(_, _, handle) => handle.context == Current(st)
    case Finding(_) => BeforeSwap(st)
    case Reaching(page) => BeforeSwap(st) && GivenHere(st, page)
    case Closing(page, context) => BeforeSwap(st) && GivenHere(st, page) && context == Current(st)
    case Untracking(page) =>
      BeforeSwap(st) && GivenHere(st, page) && (page.Opened? ==> Entry(Current(st), page) !in st.pages)
    case _ => true
  }

  predicate QuietSlot(st: State, slot: PageSlot) { BeforeSwap(st) ==> slot.handle.context == Current(st) }

  predicate QuietInv(st: State) {
    && Inv(st) && IdsDistinct(st) && OneActive(st)
    && (forall call :: call in st.calls ==> QuietCall(st, st.calls[call]))
    && (forall slot :: slot in st.slots ==> QuietSlot(st, slot))
  }

  lemma DistinctAreNotTwice(slots: seq<PageSlot>, page: PageId)
    requires DistinctIds(slots)
    ensures !TrackedTwice(slots, page)
  {
  }

  /** A lookup's page and a listed one come from the same context, which gives an id out once. */
  lemma QuietIdsDiffer(st: State, call: nat, slot: PageSlot)
    requires QuietInv(st) && BeforeSwap(st) && slot in st.slots
    requires call in st.calls && st.calls[call].Holding? && st.calls[call].opener.Lookup?
    ensures slot.id != st.calls[call].page
  {
    var handle := st.calls[call].handle;
    assert CallInv(st, call) && SlotInv(st, slot) && QuietCall(st, st.calls[call]) && QuietSlot(st, slot);
    assert IdInv(st.contexts, st.tabs, handle.tab) && IdInv(st.contexts, st.tabs, slot.handle.tab);
  }

  lemma QuietNeverDoubles(st: State, ev: Event)
    requires QuietInv(st)
    ensures !Doubles(st, ev)
  {
    if st.rebuild.None? && ev.Step? && ev.call in st.calls && st.calls[ev.call].Holding? &&
       st.calls[ev.call].opener.Lookup?
    {
      forall slot | slot in st.slots ensures slot.id != st.calls[ev.call].page { QuietIdsDiffer(st, ev.call, slot); }
    }
  }

  lemma QuietGivesOneActive(st: State, ev: Event)
    requires QuietInv(st)
    ensures !ActivatesTwo(st, ev)
  {
    match ev
    case Select(page) => DistinctAreNotTwice(st.slots, page);
    case Step(call, _) =>
      if call in st.calls && st.calls[call].Activating? { DistinctAreNotTwice(st.slots, st.calls[call].page); }
    case _ =>
  }

  /** What an untracking takes away its engine close has closed. */
  lemma QuietNeverLoses(st: State, ev: Event, tab: nat)
    requires QuietInv(st) && Quiet(st, ev) && (tab < |st.tabs| ==> st.tabs[tab].id.Opened?)
    ensures !Loses(st, ev, tab)
  {
    if ev.Step? && ev.call in st.calls {
      assert QuietCall(st, st.calls[ev.call]) && CallInv(st, ev.call);
      if st.calls[ev.call].Untracking? && Tracks(st.slots, st.calls[ev.call].page) {
        assert SlotInv(st, st.slots[Position(st.slots, st.calls[ev.call].page).value]);
      }
    }
  }

  // Slots come from handles in the current context.

  lemma RelabelledSlot(st: State, slots: seq<PageSlot>, slot: PageSlot)
    requires QuietInv(st) && |slots| == |st.slots| && (slot in slots || slot in st.slots)
    requires forall i :: 0 <= i < |slots| ==> slots[i].handle == st.slots[i].handle
    ensures QuietSlot(st, slot)
  {
    if slot in st.slots {
      assert QuietSlot(st, slot);
    } else {
      var i :| 0 <= i < |slots| && slots[i] == slot;
      assert QuietSlot(st, st.slots[i]);
    }
  }

  lemma ActivatedSlot(st: State, page: PageId, slot: PageSlot)
    requires QuietInv(st) && slot in Activate(st, page).slots
    ensures QuietSlot(st, slot)
  {
    RelabelledSlot(st, Activated(st.slots, page), slot);
  }

  lemma RestoredSlot(st: State, slot: PageSlot)
    requires QuietInv(st) && st.rebuild.Some? && slot in Rebuilt(st.rebuild.value.restored)
    ensures slot.handle.context == Current(st)
  {
    var restored := st.rebuild.value.restored;
    var i :| 0 <= i < |restored| && Rebuilt(restored)[i] == slot;
    assert RestoredInv(st, restored[i]);
  }

  lemma RegisteredSlot(st: State, call: nat, opener: Opener, page: PageId, handle: Handle, slot: PageSlot)
    requires QuietInv(st) && call in st.calls && st.calls[call] == Holding(opener, page, handle)
    requires slot in Register(st, call, opener, page, handle).slots
    ensures QuietSlot(st, slot)
  {
    assert QuietCall(st, st.calls[call]);
    if slot in st.slots { assert QuietSlot(st, slot); }
  }

  lemma UntrackedSlot(st: State, page: PageId, slot: PageSlot)
    requires QuietInv(st) && slot in Untrack(st, page).slots
    ensures QuietSlot(st, slot)
  {
    if Tracks(st.slots, page) {
      var was := SlotBefore(st.slots, page, slot);
      assert QuietSlot(st, was);
    } else {
      assert QuietSlot(st, slot);
    }
  }

  lemma QuietStepSlot(st: State, call: nat, ok: bool, slot: PageSlot)
    requires QuietInv(st) && slot in StepCall(st, call, ok).slots
    ensures QuietSlot(st, slot)
  {
    if call in st.calls {
      match st.calls[call]
      case Holding(opener, page, handle) => RegisteredSlot(st, call, opener, page, handle, slot);
      case Untracking(page) => UntrackedSlot(st, page, slot);
      case Activating(page) => ActivatedSlot(st, page, slot);
      case _ =>
        OtherStepsKeepSlots(st, call, ok);
        assert QuietSlot(st, slot);
    } else {
      assert QuietSlot(st, slot);
    }
  }

  // What calls rely on outlasts every step but a swap.

  /** Nothing but a swap changes the context, and an id given out comes back into no map. */
  predicate Calmly(st: State, next: State) {
    && st.contexts != [] && |next.contexts| == |st.contexts| && (BeforeSwap(st) ==> BeforeSwap(next))
    && next.contexts[Current(st)].number == st.contexts[Current(st)].number
    && next.contexts[Current(st)].drawn >= st.contexts[Current(st)].drawn
    && forall entry :: entry in next.pages && entry !in st.pages && entry.page.Opened? ==>
         entry.context != Current(st) || !GivenHere(st, entry.page)
  }

  lemma QuietCallStays(st: State, next: State, call: Call)
    requires QuietCall(st, call) && Calmly(st, next)
    ensures QuietCall(next, call)
  {
  }

  lemma StepIsCalm(st: State, call: nat, ok: bool)
    requires Inv(st)
    ensures Calmly(st, StepCall(st, call, ok))
  {
    if call in st.calls {
      match st.calls[call]
      case Opening(opener, context) => OpenIsCalm(st, call, opener, context, ok);
      case Adopting(opener, context) => AdoptIsCalm(st, call, opener, context, ok);
      case Holding(opener, page, handle) => RegisterIsCalm(st, call, opener, page, handle);
      case Discarding(page, handle) => DiscardIsCalm(st, call, page, handle, ok);
      case Closing(page, context) => CloseIsCalm(st, context, page, Some(call));
      case Untracking(page) => UntrackIsCalm(st, page);
      case _ => PlainIsCalm(st, call, ok);
    }
  }

  lemma PlainIsCalm(st: State, call: nat, ok: bool)
    requires Inv(st) && call in st.calls && Plain(st.calls[call])
    ensures Calmly(st, StepCall(st, call, ok))
  {
    PlainStep(st, call, ok);
    StepIsLocal(st, call, ok, 0, 0);
  }

  lemma RegisterIsCalm(st: State, call: nat, opener: Opener, page: PageId, handle: Handle)
    requires Inv(st)
    ensures Calmly(st, Register(st, call, opener, page, handle))
  {
  }

  lemma CloseIsCalm(st: State, context: nat, page: PageId, closer: Option<nat>)
    requires Inv(st)
    ensures Calmly(st, CloseIn(st, context, page, closer))
  {
  }

  lemma DiscardIsCalm(st: State, call: nat, page: PageId, handle: Handle, ok: bool)
    requires Inv(st)
    ensures Calmly(st, Discard(st, call, page, handle, ok))
  {
  }

  lemma UntrackIsCalm(st: State, page: PageId)
    requires Inv(st)
    ensures Calmly(st, Untrack(st, page))
  {
  }

  lemma OpenIsCalm(st: State, call: nat, opener: Opener, context: nat, ok: bool)
    requires Inv(st)
    ensures Calmly(st, Open(st, call, opener, context, ok))
  {
  }

  lemma AdoptIsCalm(st: State, call: nat, opener: Opener, context: nat, ok: bool)
    requires Inv(st)
    ensures Calmly(st, Adopt(st, call, opener, context, ok))
  {
  }

  lemma EventIsCalm(st: State, ev: Event)
    requires Inv(st) && !ev.SwapContext? && !ev.AbandonRebuild?
    ensures Calmly(st, Apply(st, ev))
  {
    match ev
    case Step(call, ok) => StepIsCalm(st, call, ok);
    case _ =>
  }

  /** The call, if it goes on. */
  predicate QuietAt(st: State, call: nat) { call in st.calls ==> QuietCall(st, st.calls[call]) }

  lemma QuietOpens(st: State, call: nat, opener: Opener, context: nat, ok: bool)
    requires context == Current(st)
    ensures QuietAt(Open(st, call, opener, context, ok), call)
  {
  }

  lemma QuietAdopts(st: State, call: nat, opener: Opener, context: nat, ok: bool)
    requires context == Current(st)
    ensures QuietAt(Adopt(st, call, opener, context, ok), call)
  {
  }

  lemma QuietRegisters(st: State, call: nat, opener: Opener, page: PageId, handle: Handle)
    ensures QuietAt(Register(st, call, opener, page, handle), call)
  {
  }

  lemma QuietCloses(st: State, call: nat, page: PageId, context: nat)
    requires Inv(st) && BeforeSwap(st) && GivenHere(st, page) && context == Current(st)
    ensures QuietAt(Goto(CloseIn(st, context, page, Some(call)), call, Untracking(page)), call)
  {
    var entry := Entry(context, page);
    if entry in st.pages { assert EntryInv(st.contexts, st.tabs, st.pages, entry); }
  }

  lemma QuietPlainNext(st: State, call: nat, ok: bool)
    requires QuietInv(st) && call in st.calls && Plain(st.calls[call])
    ensures QuietAt(StepCall(st, call, ok), call)
  {
    assert QuietCall(st, st.calls[call]);
    if st.calls[call].Finding? && Tracks(st.slots, st.calls[call].page) { FoundIsGiven(st, st.calls[call].page); }
  }

  lemma QuietNext(st: State, call: nat, ok: bool)
    requires QuietInv(st)
    ensures QuietAt(StepCall(st, call, ok), call)
  {
    if call in st.calls {
      assert QuietCall(st, st.calls[call]);
      match st.calls[call]
      case Opening(opener, context) => QuietOpens(st, call, opener, context, ok);
      case Adopting(opener, context) => QuietAdopts(st, call, opener, context, ok);
      case Holding(opener, page, handle) => QuietRegisters(st, call, opener, page, handle);
      case Discarding(_, _) =>
      case Closing(page, context) => QuietCloses(st, call, page, context);
      case Untracking(_) =>
      case _ => QuietPlainNext(st, call, ok);
    }
  }

  lemma FoundIsGiven(st: State, page: PageId)
    requires QuietInv(st) && BeforeSwap(st) && Tracks(st.slots, page)
    ensures GivenHere(st, page)
  {
    var slot := st.slots[Position(st.slots, page).value];
    assert SlotInv(st, slot) && QuietSlot(st, slot) && IdInv(st.contexts, st.tabs, slot.handle.tab);
  }

  lemma QuietCallsStay(st: State, ev: Event, call: nat)
    requires QuietInv(st) && Quiet(st, ev) && !ev.SwapContext?
    ensures QuietAt(Apply(st, ev), call)
  {
    EventIsCalm(st, ev);
    if call in st.calls {
      QuietCallStays(st, Apply(st, ev), st.calls[call]);
    }
    if ev.Step? {
      if ev.call == call { QuietNext(st, call, ev.ok); } else { StepIsLocal(st, ev.call, ev.ok, call, 0); }
    }
  }

  lemma QuietStepSlots(st: State, call: nat, ok: bool, slot: PageSlot)
    requires QuietInv(st) && slot in StepCall(st, call, ok).slots
    ensures QuietSlot(StepCall(st, call, ok), slot)
  {
    StepIsLocal(st, call, ok, 0, 0);
    QuietStepSlot(st, call, ok, slot);
  }

  lemma QuietRebuildSlots(st: State, ev: Event, slot: PageSlot)
    requires QuietInv(st) && slot in Apply(st, ev).slots
    requires ev.BeginRebuild? || ev.Restore? || ev.FinishRebuild?
    ensures QuietSlot(Apply(st, ev), slot)
  {
    assert slot in st.slots ==> QuietSlot(st, slot);
    if ev.FinishRebuild? && st.rebuild.Some? && slot in Rebuilt(st.rebuild.value.restored) { RestoredSlot(st, slot); }
  }

  lemma QuietSlotsStay(st: State, ev: Event, slot: PageSlot)
    requires QuietInv(st) && Quiet(st, ev) && !ev.SwapContext? && slot in Apply(st, ev).slots
    ensures QuietSlot(Apply(st, ev), slot)
  {
    assert slot in st.slots ==> QuietSlot(st, slot);
    match ev
    case Step(call, ok) => QuietStepSlots(st, call, ok, slot);
    case Select(page) => ActivatedSlot(st, page, slot);
    case SetUrl(page, url) => RelabelledSlot(st, WithUrl(st.slots, page, url), slot);
    case BeginRebuild => QuietRebuildSlots(st, ev, slot);
    case Restore(_) => QuietRebuildSlots(st, ev, slot);
    case FinishRebuild => QuietRebuildSlots(st, ev, slot);
    case _ =>
  }

  lemma QuietStays(st: State, ev: Event)
    requires QuietInv(st) && Quiet(st, ev)
    ensures QuietInv(Apply(st, ev))
  {
    var next := Apply(st, ev);
    ApplyKeepsInv(st, ev);
    QuietNeverDoubles(st, ev);
    EventKeepsDistinct(st, ev);
    QuietGivesOneActive(st, ev);
    EventKeepsOneActive(st, ev);
    forall call | call in next.calls ensures QuietCall(next, next.calls[call]) {
      if !ev.SwapContext? { QuietCallsStay(st, ev, call); } else { SwapIsQuiet(st, ev, call); }
    }
    forall slot | slot in next.slots ensures QuietSlot(next, slot) {
      if !ev.SwapContext? { QuietSlotsStay(st, ev, slot); } else { assert QuietSlot(st, slot); }
    }
  }

  lemma SwapIsQuiet(st: State, ev: Event, call: nat)
    requires QuietInv(st) && Quiet(st, ev) && ev.SwapContext?
    ensures QuietAt(Apply(st, ev), call)
  {
    if call in st.calls { assert QuietCall(st, st.calls[call]); }
  }

  /** If no call reads the list or the context before a swap and ends after it, all three guarantees hold for
      the pages the session opened, and outside a rebuild every listed page is in the current context. */
  lemma {:induction false} QuietSwapsKeepEverything(number: nat, evs: seq<Event>, tab: nat)
    requires LegalRun(Apply, Quiet, Init(number), evs)
    ensures var st := Run(Apply, Init(number), evs);
            && DistinctIds(st.slots) && AtMostOneActive(st.slots)
            && (tab < |st.tabs| && st.tabs[tab].id.Opened? && Owned(st, tab) ==> AccountedFor(st, tab))
            && (st.rebuild.None? ==> forall slot :: slot in st.slots ==> slot.handle.context == Current(st))
  {
    var inv := (st: State) =>
      QuietInv(st) && (tab < |st.tabs| && st.tabs[tab].id.Opened? ==> Kept(st, tab));
    forall st, ev | inv(st) && Quiet(st, ev) ensures inv(Apply(st, ev)) {
      QuietStays(st, ev);
      QuietKeepsAccount(st, ev, tab);
    }
    Invariant(Apply, Quiet, inv, Init(number), evs);
    var st := Run(Apply, Init(number), evs);
    forall slot | slot in st.slots && st.rebuild.None? ensures slot.handle.context == Current(st) {
      assert QuietSlot(st, slot);
    }
  }

  lemma IdsStay(st: State, ev: Event, tab: nat)
    requires tab < |st.tabs|
    ensures tab < |Apply(st, ev).tabs| && Apply(st, ev).tabs[tab].id == st.tabs[tab].id
  {
    if ev.Step? { StepIsLocal(st, ev.call, ev.ok, ev.call, tab); }
  }

  lemma QuietKeepsAccount(st: State, ev: Event, tab: nat)
    requires QuietInv(st) && Quiet(st, ev) && (tab < |st.tabs| && st.tabs[tab].id.Opened? ==> Kept(st, tab))
    ensures var next := Apply(st, ev); tab < |next.tabs| && next.tabs[tab].id.Opened? ==> Kept(next, tab)
  {
    if tab >= |st.tabs| || st.tabs[tab].id.Opened? {
      EventKeepsAccount(st, ev, tab);
      QuietNeverLoses(st, ev, tab);
    } else {
      IdsStay(st, ev, tab);
    }
  }
}
