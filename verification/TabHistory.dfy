/**
 Where the listed pages of a session come from: which belong to a replaced context, and which were closed
 before. Every answer is a predicate on the events so far.
 */
module TabHistory {
  import opened Options
  import opened Runs
  import opened Pages
  import opened Tabs
  import opened TabGuarantees

  predicate Enters(st: State, ev: Event, tab: nat) {
    !InList(st.slots, tab) && InList(Apply(st, ev).slots, tab)
  }

  // ----- pages of a replaced context

  /** The call reads the context it will work in. */
  predicate Reads(st: State, ev: Event, call: nat) {
    ev.Step? && ev.call == call && call in st.calls && st.calls[call].Choosing?
  }

  /** A swap took place after the call last read its context. */
  predicate SwappedSinceRead(number: nat, evs: seq<Event>, call: nat) {
    evs != []
    && var init, last := evs[..|evs| - 1], evs[|evs| - 1];
       var st := Run(Apply, Init(number), init);
       !Reads(st, last, call) && (Swaps(st, last) || SwappedSinceRead(number, init, call))
  }

  /** A rebuild is abandoned with the new context in place: it leaves the list it found. */
  predicate AbandonsSwapped(st: State, ev: Event) {
    ev.AbandonRebuild? && st.rebuild.Some? && st.rebuild.value.swapped
  }

  /** The tab last entered the list by a call that had read its context before a swap, or it was left there by
      a rebuild abandoned after its swap. */
  predicate LeftBehind(number: nat, evs: seq<Event>, tab: nat) {
    evs != []
    && var init, last := evs[..|evs| - 1], evs[|evs| - 1];
       var st := Run(Apply, Init(number), init);
       if Enters(st, last, tab) then last.Step? && SwappedSinceRead(number, init, last.call)
       else AbandonsSwapped(st, last) || LeftBehind(number, init, tab)
  }

  /** The context a call works in. */
  function ContextRead(call: Call): Option<nat> {
    match call
    case Opening(_, context) => Some(context)
    case Adopting(_, context) => Some(context)
    case Holding(_, _, handle) => Some(handle.context)
    case _ => None
  }

  predicate Carries(st: State, call: nat, swapped: bool) {
    call in st.calls && ContextRead(st.calls[call]).Some? ==>
      (ContextRead(st.calls[call]).value < Current(st) <==> swapped)
  }

  /** The call, if it still works in a context, works in this one. */
  predicate WorksIn(st: State, call: nat, context: Option<nat>) {
    call in st.calls && ContextRead(st.calls[call]).Some? ==> ContextRead(st.calls[call]) == context
  }

  lemma OpenWorks(st: State, call: nat, opener: Opener, context: nat, ok: bool)
    ensures WorksIn(Open(st, call, opener, context, ok), call, Some(context))
  {
  }

  lemma AdoptWorks(st: State, call: nat, opener: Opener, context: nat, ok: bool)
    ensures WorksIn(Adopt(st, call, opener, context, ok), call, Some(context))
  {
  }

  lemma PlainWorks(st: State, call: nat, ok: bool)
    requires call in st.calls && Plain(st.calls[call]) && st.contexts != []
    ensures WorksIn(StepCall(st, call, ok), call, if st.calls[call].Choosing? then Some(Current(st)) else None)
  {
  }

  lemma NextReads(st: State, call: nat, ok: bool)
    requires Inv(st) && call in st.calls
    ensures WorksIn(StepCall(st, call, ok), call,
                    if st.calls[call].Choosing? then Some(Current(st)) else ContextRead(st.calls[call]))
  {
    match st.calls[call]
    case Opening(opener, context) => OpenWorks(st, call, opener, context, ok);
    case Adopting(opener, context) => AdoptWorks(st, call, opener, context, ok);
    case Holding(_, _, _) =>
    case Discarding(_, _) =>
    case Closing(_, _) =>
    case Untracking(_) =>
    case _ => PlainWorks(st, call, ok);
  }

  lemma EventCarries(st: State, ev: Event, call: nat, swapped: bool)
    requires Inv(st) && Carries(st, call, swapped)
    ensures Carries(Apply(st, ev), call, !Reads(st, ev, call) && (Swaps(st, ev) || swapped))
  {
    if call in st.calls { assert CallInv(st, call); }
    if ev.Step? {
      StepIsLocal(st, ev.call, ev.ok, call, 0);
      if ev.call == call && call in st.calls { NextReads(st, call, ev.ok); }
    }
  }

  lemma {:induction false} RunCarries(number: nat, evs: seq<Event>, call: nat)
    ensures Carries(Run(Apply, Init(number), evs), call, SwappedSinceRead(number, evs, call))
  {
    if evs != [] {
      var init := evs[..|evs| - 1];
      RunCarries(number, init, call);
      RunKeepsInv(number, init);
      EventCarries(Run(Apply, Init(number), init), evs[|evs| - 1], call, SwappedSinceRead(number, init, call));
    }
  }

  /** Between rebuilds the tab's slot is of an older context exactly if it is late. */
  predicate Dated(st: State, slot: PageSlot, late: bool) {
    BeforeSwap(st) ==> (slot.handle.context < Current(st) <==> late)
  }

  predicate ListedDated(st: State, tab: nat, late: bool) {
    forall slot :: slot in st.slots && slot.handle.tab == tab ==> Dated(st, slot, late)
  }

  lemma ListedSlot(slots: seq<PageSlot>, slot: PageSlot)
    requires slot in slots
    ensures InList(slots, slot.handle.tab)
  {
    var i :| 0 <= i < |slots| && slots[i] == slot;
  }

  lemma RelabelledDated(st: State, slots: seq<PageSlot>, slot: PageSlot, late: bool)
    requires ListedDated(st, slot.handle.tab, late) && |slots| == |st.slots| && slot in slots
    requires forall i :: 0 <= i < |slots| ==> slots[i].handle == st.slots[i].handle
    ensures Dated(st, slot, late) && InList(st.slots, slot.handle.tab)
  {
    var i :| 0 <= i < |slots| && slots[i] == slot;
    assert st.slots[i] in st.slots && Dated(st, st.slots[i], late);
  }

  lemma RegisteredDated(st: State, call: nat, opener: Opener, page: PageId, handle: Handle, slot: PageSlot,
                        swapped: bool, late: bool)
    requires Inv(st) && call in st.calls && st.calls[call] == Holding(opener, page, handle)
    requires Carries(st, call, swapped) && ListedDated(st, slot.handle.tab, late)
    requires slot in Register(st, call, opener, page, handle).slots
    ensures Dated(st, slot, if InList(st.slots, slot.handle.tab) then late else swapped)
  {
    if slot in st.slots {
      ListedSlot(st.slots, slot);
    } else {
      HeldIsUnlisted(st, call, opener, page, handle);
    }
  }

  lemma UntrackedDated(st: State, page: PageId, slot: PageSlot, late: bool)
    requires ListedDated(st, slot.handle.tab, late) && slot in Untrack(st, page).slots
    ensures Dated(st, slot, late) && InList(st.slots, slot.handle.tab)
  {
    if Tracks(st.slots, page) {
      var was := SlotBefore(st.slots, page, slot);
      ListedSlot(st.slots, was);
      assert Dated(st, was, late);
    } else {
      ListedSlot(st.slots, slot);
    }
  }

  lemma StepDated(st: State, call: nat, ok: bool, slot: PageSlot, swapped: bool, late: bool)
    requires Inv(st) && Carries(st, call, swapped) && ListedDated(st, slot.handle.tab, late)
    requires slot in StepCall(st, call, ok).slots
    ensures Dated(StepCall(st, call, ok), slot, if InList(st.slots, slot.handle.tab) then late else swapped)
  {
    StepIsLocal(st, call, ok, 0, 0);
    if call in st.calls && st.calls[call].Holding? {
      RegisteredDated(st, call, st.calls[call].opener, st.calls[call].page, st.calls[call].handle, slot, swapped, late);
    } else if call in st.calls && st.calls[call].Untracking? {
      UntrackedDated(st, st.calls[call].page, slot, late);
    } else if call in st.calls && st.calls[call].Activating? {
      RelabelledDated(st, Activate(st, st.calls[call].page).slots, slot, late);
    } else {
      if call in st.calls { OtherStepsKeepSlots(st, call, ok); }
      ListedSlot(st.slots, slot);
    }
  }

  /** What a rebuild restored was in no list, and is in the current context. */
  lemma RestoredDated(st: State, slot: PageSlot)
    requires Inv(st) && st.rebuild.Some? && slot in Rebuilt(st.rebuild.value.restored)
    ensures slot.handle.context == Current(st) && !InList(st.slots, slot.handle.tab)
  {
    var restored := st.rebuild.value.restored;
    var i :| 0 <= i < |restored| && Rebuilt(restored)[i] == slot;
    assert RestoredInv(st, restored[i]);
    NotListed(st, slot.handle.tab);
  }

  lemma RebuildDated(st: State, ev: Event, slot: PageSlot, late: bool)
    requires Inv(st) && (ev.BeginRebuild? || ev.SwapContext? || ev.Restore? || ev.FinishRebuild?)
    requires slot in Apply(st, ev).slots && ListedDated(st, slot.handle.tab, late)
    ensures Dated(Apply(st, ev), slot, InList(st.slots, slot.handle.tab) && late)
  {
    if slot in st.slots { ListedSlot(st.slots, slot); }
    if ev.FinishRebuild? && st.rebuild.Some? && slot in Rebuilt(st.rebuild.value.restored) { RestoredDated(st, slot); }
  }

  lemma RelabelDated(st: State, ev: Event, slot: PageSlot, late: bool)
    requires (ev.Select? || ev.SetUrl?) && slot in Apply(st, ev).slots && ListedDated(st, slot.handle.tab, late)
    ensures Dated(Apply(st, ev), slot, late) && InList(st.slots, slot.handle.tab)
  {
    RelabelledDated(st, Apply(st, ev).slots, slot, late);
  }

  lemma EventDated(st: State, ev: Event, slot: PageSlot, swapped: bool, late: bool)
    requires Inv(st) && slot in Apply(st, ev).slots
    requires (ev.Step? ==> Carries(st, ev.call, swapped)) && ListedDated(st, slot.handle.tab, late)
    ensures Dated(Apply(st, ev), slot, if InList(st.slots, slot.handle.tab) then AbandonsSwapped(st, ev) || late
                                       else ev.Step? && swapped)
  {
    if slot in st.slots {
      ListedSlot(st.slots, slot);
      assert SlotInv(st, slot);
    }
    match ev
    case Step(call, ok) => StepDated(st, call, ok, slot, swapped, late);
    case Select(page) => RelabelDated(st, ev, slot, late);
    case SetUrl(page, url) => RelabelDated(st, ev, slot, late);
    case BeginRebuild => RebuildDated(st, ev, slot, late);
    case SwapContext(_, _) => RebuildDated(st, ev, slot, late);
    case Restore(_) => RebuildDated(st, ev, slot, late);
    case FinishRebuild => RebuildDated(st, ev, slot, late);
    case _ =>
  }

  lemma {:induction false} RunDated(number: nat, evs: seq<Event>, tab: nat)
    ensures ListedDated(Run(Apply, Init(number), evs), tab, LeftBehind(number, evs, tab))
  {
    if evs != [] {
      var init, last := evs[..|evs| - 1], evs[|evs| - 1];
      var before, st := Run(Apply, Init(number), init), Run(Apply, Init(number), evs);
      RunDated(number, init, tab);
      RunKeepsInv(number, init);
      forall slot | slot in st.slots && slot.handle.tab == tab
        ensures Dated(st, slot, LeftBehind(number, evs, tab))
      {
        var swapped := last.Step? && SwappedSinceRead(number, init, last.call);
        if last.Step? { RunCarries(number, init, last.call); }
        EventDated(before, last, slot, swapped, LeftBehind(number, init, tab));
        ListedSlot(st.slots, slot);
      }
    }
  }

  /** Outside rebuilds a listed page belongs to the session's context exactly unless it last entered the list by
      a call that had read its context before a swap, or was left there by a rebuild abandoned after its swap. */
  lemma TrackedPagesAreCurrent(number: nat, evs: seq<Event>, slot: PageSlot)
    requires var st := Run(Apply, Init(number), evs); st.rebuild.None? && slot in st.slots
    ensures var st := Run(Apply, Init(number), evs);
            slot.handle.context == Current(st) <==> !LeftBehind(number, evs, slot.handle.tab)
  {
    RunDated(number, evs, slot.handle.tab);
    RunKeepsInv(number, evs);
    var st := Run(Apply, Init(number), evs);
    assert SlotInv(st, slot) && Dated(st, slot, LeftBehind(number, evs, slot.handle.tab));
  }

  // ----- closed pages in the list

  predicate WasClosed(st: State, tab: nat) { tab < |st.tabs| && st.tabs[tab].closer.Some? }

  /** The call the engine closed the tab for has yet to untrack it. */
  predicate AwaitsUntracking(st: State, tab: nat) {
    && WasClosed(st, tab) && st.tabs[tab].closer.value in st.calls
    && st.calls[st.tabs[tab].closer.value] == Untracking(st.tabs[tab].id)
  }

  /** The closing call is about to untrack the id, and the list's first slot with it is another tab's. */
  predicate Missed(st: State, ev: Event, tab: nat) {
    && ev.Step? && AwaitsUntracking(st, tab) && st.tabs[tab].closer.value == ev.call
    && Tracks(st.slots, st.tabs[tab].id) && FirstTab(st.slots, st.tabs[tab].id) != tab
  }

  /** The tab was closed before it last entered the list, or its closing call has untracked another since. */
  predicate Lingers(number: nat, evs: seq<Event>, tab: nat) {
    evs != []
    && var init, last := evs[..|evs| - 1], evs[|evs| - 1];
       var st := Run(Apply, Init(number), init);
       if Enters(st, last, tab) then WasClosed(st, tab) else Missed(st, last, tab) || Lingers(number, init, tab)
  }

  predicate ClosedAt(st: State, tab: nat, lingers: bool) {
    InList(st.slots, tab) ==> (WasClosed(st, tab) <==> AwaitsUntracking(st, tab) || lingers)
  }

  /** A tab is in the list before, or enters it and takes its past along. */
  predicate ClosedNext(st: State, next: State, tab: nat, lingers: bool) {
    ClosedAt(next, tab, if InList(st.slots, tab) then lingers else WasClosed(st, tab))
  }

  /** Where its own closer has nothing to do with the step, or the tab enters the list. */
  lemma SameClosed(st: State, next: State, tab: nat, lingers: bool)
    requires ClosedAt(st, tab, lingers)
    requires InList(next.slots, tab) && tab < |st.tabs| ==>
               && tab < |next.tabs| && next.tabs[tab].closer == st.tabs[tab].closer
               && next.tabs[tab].id == st.tabs[tab].id
               && (AwaitsUntracking(st, tab) && InList(st.slots, tab) ==> AwaitsUntracking(next, tab))
    requires InList(next.slots, tab) ==> tab < |st.tabs| || !WasClosed(next, tab)
    ensures ClosedNext(st, next, tab, lingers)
  {
  }

  lemma ListedIsTracked(st: State, tab: nat) returns (slot: PageSlot)
    requires Inv(st) && InList(st.slots, tab)
    ensures tab < |st.tabs| && slot in st.slots && slot.handle.tab == tab && slot.id == st.tabs[tab].id
    ensures Tracks(st.slots, slot.id) && st.tabs[tab].place.Listed?
  {
    var i :| 0 <= i < |st.slots| && st.slots[i].handle.tab == tab;
    slot := st.slots[i];
    assert SlotInv(st, slot);
  }

  /** Driving a window leaves every other tab's past alone. */
  lemma DrivingClosed(st: State, window: nat, context: nat, call: nat, next: Call, tab: nat, lingers: bool)
    requires ClosedAt(st, tab, lingers) && window < |st.tabs| && tab != window && tab < |st.tabs|
    requires call in st.calls && !st.calls[call].Untracking?
    ensures ClosedNext(st, Goto(st.(pages := st.pages[Entry(context, Window(window)) := window],
                                    tabs := st.tabs[window := st.tabs[window].(closer := None)]), call, next),
                       tab, lingers)
  {
  }

  lemma AdoptClosed(st: State, call: nat, opener: Opener, context: nat, ok: bool, tab: nat, lingers: bool)
    requires Inv(st) && ClosedAt(st, tab, lingers) && call in st.calls && st.calls[call] == Adopting(opener, context)
    ensures ClosedNext(st, Adopt(st, call, opener, context, ok), tab, lingers)
  {
    assert CallInv(st, call);
    if InList(st.slots, tab) {
      var slot := ListedIsTracked(st, tab);
      var window := opener.window;
      var held := Holding(opener, Window(window), Handle(window, context));
      if !Tracks(st.slots, Window(window)) && Entry(context, Window(window)) !in st.pages
         && ok && Adoptable(st, window, context) {
        DrivingClosed(st, window, context, call, held, tab, lingers);
      } else {
        SameClosed(st, Goto(st, call, held), tab, lingers);
        SameClosed(st, End(st, call), tab, lingers);
      }
    }
  }

  lemma OpenClosed(st: State, call: nat, opener: Opener, context: nat, ok: bool, tab: nat, lingers: bool)
    requires Inv(st) && ClosedAt(st, tab, lingers) && call in st.calls && st.calls[call] == Opening(opener, context)
    ensures ClosedNext(st, Open(st, call, opener, context, ok), tab, lingers)
  {
    if InList(st.slots, tab) {
      var slot := ListedIsTracked(st, tab);
      SameClosed(st, Open(st, call, opener, context, ok), tab, lingers);
    }
  }

  lemma RegisterClosed(
      st: State, call: nat, opener: Opener, page: PageId, handle: Handle, tab: nat, lingers: bool)
    requires Inv(st) && ClosedAt(st, tab, lingers)
    requires call in st.calls && st.calls[call] == Holding(opener, page, handle)
    ensures ClosedNext(st, Register(st, call, opener, page, handle), tab, lingers)
  {
    assert CallInv(st, call);
    var next := Register(st, call, opener, page, handle);
    if InList(st.slots, tab) { var slot := ListedIsTracked(st, tab); }
    if InList(next.slots, tab) && !Refused(st, opener, page) {
      InListAppend(st.slots, PageSlot(page, Url(opener), handle, opener.Lookup?), tab);
    }
    SameClosed(st, next, tab, lingers);
  }

  /** The discarded tab is its opener's, and in no list. */
  lemma DiscardClosed(st: State, call: nat, page: PageId, handle: Handle, ok: bool, tab: nat, lingers: bool)
    requires Inv(st) && ClosedAt(st, tab, lingers) && call in st.calls && st.calls[call] == Discarding(page, handle)
    ensures ClosedNext(st, Discard(st, call, page, handle, ok), tab, lingers)
  {
    if InList(st.slots, tab) {
      var slot := ListedIsTracked(st, tab);
      assert CallInv(st, call);
      var entry := Entry(handle.context, page);
      if entry in st.pages {
        assert EntryInv(st.contexts, st.tabs, st.pages, entry);
        assert IdInv(st.contexts, st.tabs, st.pages[entry]) && IdInv(st.contexts, st.tabs, handle.tab);
      }
      SameClosed(st, Discard(st, call, page, handle, ok), tab, lingers);
    }
  }

  lemma ClosingClosed(st: State, call: nat, page: PageId, context: nat, tab: nat, lingers: bool)
    requires Inv(st) && ClosedAt(st, tab, lingers) && call in st.calls && st.calls[call] == Closing(page, context)
    ensures ClosedNext(st, Goto(CloseIn(st, context, page, Some(call)), call, Untracking(page)), tab, lingers)
    ensures ClosedNext(st, End(st, call), tab, lingers)
  {
    if InList(st.slots, tab) {
      var slot := ListedIsTracked(st, tab);
      var entry := Entry(context, page);
      if entry in st.pages { assert EntryInv(st.contexts, st.tabs, st.pages, entry); }
      var next := Goto(CloseIn(st, context, page, Some(call)), call, Untracking(page));
      if entry in st.pages && st.pages[entry] == tab {
        assert AwaitsUntracking(next, tab);
      } else {
        SameClosed(st, next, tab, lingers);
      }
      SameClosed(st, End(st, call), tab, lingers);
    }
  }

  /** Its own closer takes the tab out of the list, unless it misses it. */
  lemma UntrackClosed(st: State, call: nat, page: PageId, ok: bool, tab: nat, lingers: bool)
    requires Inv(st) && ClosedAt(st, tab, lingers)
    requires call in st.calls && st.calls[call] == Untracking(page)
    ensures ClosedNext(st, End(Untrack(st, page), call), tab, Missed(st, Step(call, ok), tab) || lingers)
  {
    var next := End(Untrack(st, page), call);
    if InList(st.slots, tab) {
      var slot := ListedIsTracked(st, tab);
      if Tracks(st.slots, page) { InListWithout(st.slots, page, tab); }
      if !Missed(st, Step(call, ok), tab) { SameClosed(st, next, tab, lingers); }
    } else if Tracks(st.slots, page) {
      InListWithout(st.slots, page, tab);
    }
  }

  lemma PlainClosed(st: State, call: nat, ok: bool, tab: nat, lingers: bool)
    requires Inv(st) && ClosedAt(st, tab, lingers) && call in st.calls && Plain(st.calls[call])
    ensures ClosedNext(st, StepCall(st, call, ok), tab, lingers)
  {
    var next := StepCall(st, call, ok);
    PlainStep(st, call, ok);
    if st.calls[call].Activating? {
      SameHandles(st.slots, Activated(st.slots, st.calls[call].page));
    } else {
      OtherStepsKeepSlots(st, call, ok);
    }
    if InList(st.slots, tab) {
      var slot := ListedIsTracked(st, tab);
      if AwaitsUntracking(st, tab) { StepIsLocal(st, call, ok, st.tabs[tab].closer.value, tab); }
      SameClosed(st, next, tab, lingers);
    }
  }

  lemma StepClosed(st: State, call: nat, ok: bool, tab: nat, lingers: bool)
    requires Inv(st) && ClosedAt(st, tab, lingers)
    ensures ClosedNext(st, StepCall(st, call, ok), tab, Missed(st, Step(call, ok), tab) || lingers)
  {
    if call in st.calls {
      match st.calls[call]
      case Opening(opener, context) => OpenClosed(st, call, opener, context, ok, tab, lingers);
      case Adopting(opener, context) => AdoptClosed(st, call, opener, context, ok, tab, lingers);
      case Holding(opener, page, handle) => RegisterClosed(st, call, opener, page, handle, tab, lingers);
      case Discarding(page, handle) => DiscardClosed(st, call, page, handle, ok, tab, lingers);
      case Closing(page, context) => ClosingClosed(st, call, page, context, tab, lingers);
      case Untracking(page) => UntrackClosed(st, call, page, ok, tab, lingers);
      case _ => PlainClosed(st, call, ok, tab, lingers);
    }
  }

  lemma RelabelClosed(st: State, ev: Event, tab: nat, lingers: bool)
    requires ClosedAt(st, tab, lingers) && (ev.Select? || ev.SetUrl?)
    ensures ClosedNext(st, Apply(st, ev), tab, lingers)
  {
    SameHandles(st.slots, Apply(st, ev).slots);
  }

  lemma StartClosed(st: State, call: nat, first: Call, allowed: bool, tab: nat, lingers: bool)
    requires ClosedAt(st, tab, lingers)
    ensures ClosedNext(st, Start(st, call, first, allowed), tab, lingers)
  {
    SameClosed(st, Start(st, call, first, allowed), tab, lingers);
  }

  lemma OutsideClosed(st: State, ev: Event, tab: nat, lingers: bool)
    requires Inv(st) && ClosedAt(st, tab, lingers)
    requires ev.WindowAppears? || ev.TabDies? || ev.NumberLost?
    ensures ClosedNext(st, Apply(st, ev), tab, lingers)
  {
    if InList(st.slots, tab) {
      var slot := ListedIsTracked(st, tab);
      SameClosed(st, Apply(st, ev), tab, lingers);
    }
  }

  lemma GateClosed(st: State, ev: Event, tab: nat, lingers: bool)
    requires Inv(st) && ClosedAt(st, tab, lingers)
    requires ev.BeginRebuild? || ev.SwapContext? || ev.AbandonRebuild?
    ensures ClosedNext(st, Apply(st, ev), tab, lingers)
  {
    if InList(st.slots, tab) {
      var slot := ListedIsTracked(st, tab);
      SameClosed(st, Apply(st, ev), tab, lingers);
    }
  }

  lemma RestoreClosed(st: State, ev: Event, tab: nat, lingers: bool)
    requires Inv(st) && ClosedAt(st, tab, lingers) && (ev.Restore? || ev.FinishRebuild?)
    ensures ClosedNext(st, Apply(st, ev), tab, lingers)
  {
    var next := Apply(st, ev);
    if InList(st.slots, tab) { var slot := ListedIsTracked(st, tab); }
    if next.slots == st.slots {
      SameClosed(st, next, tab, lingers);
    } else if InList(next.slots, tab) {
      var i :| 0 <= i < |next.slots| && next.slots[i].handle.tab == tab;
      assert RestoredInv(st, st.rebuild.value.restored[i]);
      RestoredDated(st, next.slots[i]);
      SameClosed(st, next, tab, lingers);
    }
  }

  lemma EventClosed(st: State, ev: Event, tab: nat, lingers: bool)
    requires Inv(st) && ClosedAt(st, tab, lingers)
    ensures ClosedNext(st, Apply(st, ev), tab, Missed(st, ev, tab) || lingers)
  {
    match ev
    case Step(call, ok) => StepClosed(st, call, ok, tab, lingers);
    case StartLookup(call) =>
      StartClosed(st, call, Asking(Lookup), st.recovering || FirstActive(st.slots).None?, tab, lingers);
    case StartOpenTab(call) => StartClosed(st, call, Asking(OpenTab), true, tab, lingers);
    case StartAdoption(call, window, url) => StartClosed(st, call, Asking(Adoption(window, url)), true, tab, lingers);
    case StartClose(call, page) => StartClosed(st, call, Finding(page), !st.recovering, tab, lingers);
    case Select(_) => RelabelClosed(st, ev, tab, lingers);
    case SetUrl(_, _) => RelabelClosed(st, ev, tab, lingers);
    case Restore(_) => RestoreClosed(st, ev, tab, lingers);
    case FinishRebuild => RestoreClosed(st, ev, tab, lingers);
    case BeginRebuild => GateClosed(st, ev, tab, lingers);
    case SwapContext(_, _) => GateClosed(st, ev, tab, lingers);
    case AbandonRebuild => GateClosed(st, ev, tab, lingers);
    case _ => OutsideClosed(st, ev, tab, lingers);
  }

  lemma {:induction false} RunClosed(number: nat, evs: seq<Event>, tab: nat)
    ensures ClosedAt(Run(Apply, Init(number), evs), tab, Lingers(number, evs, tab))
  {
    if evs != [] {
      var init, last := evs[..|evs| - 1], evs[|evs| - 1];
      RunClosed(number, init, tab);
      RunKeepsInv(number, init);
      EventClosed(Run(Apply, Init(number), init), last, tab, Lingers(number, init, tab));
    }
  }

  /** A rebuild takes over a page that a `close_page` has had closed exactly if that call has yet to untrack
      it, or it entered the list after it was closed, or the call has untracked another page of its id. */
  lemma TakeOverMeetsClosedPages(number: nat, evs: seq<Event>, tab: nat)
    requires Run(Apply, Init(number), evs).rebuild.None?
    ensures var st := Run(Apply, Init(number), evs);
            var r := Apply(st, BeginRebuild).rebuild.value;
            && r.saved == RecoveryPoints(st.slots)
            && (tab in r.taken && WasClosed(st, tab) <==>
                  InList(st.slots, tab) && (AwaitsUntracking(st, tab) || Lingers(number, evs, tab)))
  {
    RunClosed(number, evs, tab);
    TakenIsListed(Run(Apply, Init(number), evs).slots, tab);
  }

  lemma TakenIsListed(slots: seq<PageSlot>, tab: nat)
    ensures tab in ListedTabs(slots) <==> InList(slots, tab)
  {
    if tab in ListedTabs(slots) {
      var slot :| slot in slots && slot.handle.tab == tab;
      ListedSlot(slots, slot);
    }
    if InList(slots, tab) {
      var i :| 0 <= i < |slots| && slots[i].handle.tab == tab;
      assert slots[i] in slots;
    }
  }
}
