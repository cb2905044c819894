/**
 What one call of a session comes to when nothing else happens meanwhile and the engine does as it is asked.
 */
module TabCalls {
  import opened Options
  import opened Runs
  import opened Pages
  import opened Tabs

  /** Nobody but the call makes a step, and each works. */
  function Alone(call: nat): (State, Event) -> bool { (st, ev) => ev == Step(call, true) }

  ghost predicate LeadsTo(start: State, call: nat, end: State) { Reachable(Apply, Alone(call), start, end) }

  lemma Follow(reached: State -> bool, start: State, call: nat, from: State) returns (st: State)
    requires Closed(Apply, Alone(call), start, reached) && reached(from)
    ensures st == StepCall(from, call, true) && reached(st)
  {
    assert Alone(call)(from, Step(call, true));
    st := Apply(from, Step(call, true));
  }

  /** Only calls differ. */
  lemma GotoAgain(st: State, call: nat, first: Call, second: Call)
    ensures Goto(Goto(st, call, first), call, second) == Goto(st, call, second)
  {
    assert st.calls[call := first][call := second] == st.calls[call := second];
  }

  lemma GotoEnds(st: State, call: nat, next: Call)
    requires call !in st.calls
    ensures End(Goto(st, call, next), call) == st
  {
    assert st.calls[call := next] - {call} == st.calls;
  }

  // ----- openers

  /** Any opener outside a rebuild reads the context. */
  lemma OpenerReads(reached: State -> bool, start: State, st: State, call: nat, opener: Opener) returns (end: State)
    requires start == Goto(st, call, Asking(opener)) && !st.recovering && st.contexts != []
    requires Closed(Apply, Alone(call), start, reached)
    ensures reached(end) && end == Goto(st, call, Opening(opener, Current(st)))
  {
    end := Follow(reached, start, call, start);
    GotoAgain(st, call, Asking(opener), Choosing(opener));
    end := Follow(reached, start, call, end);
    GotoAgain(st, call, Choosing(opener), Opening(opener, Current(st)));
  }

  /** The session's next page, open and listed. */
  function WithPage(st: State, active: bool): State
    requires st.contexts != []
  {
    var id, handle := NextId(st, Current(st)), Handle(|st.tabs|, Current(st));
    OpenIn(st, Current(st), Listed).(slots := st.slots + [PageSlot(id, "", handle, active)])
  }

  lemma PageIsRegistered(st: State, call: nat, opener: Opener)
    requires st.contexts != [] && call !in st.calls && !opener.Adoption?
    requires !Refused(st, opener, NextId(st, Current(st)))
    ensures var held := Holding(opener, NextId(st, Current(st)), Handle(|st.tabs|, Current(st)));
            Register(Goto(OpenIn(st, Current(st), InHand(call)), call, held), call, opener, held.page, held.handle) ==
            if opener.Lookup? then WithPage(st, true)
            else Goto(WithPage(st, false), call, Activating(NextId(st, Current(st))))
  {
    var id, handle := NextId(st, Current(st)), Handle(|st.tabs|, Current(st));
    var held := Holding(opener, id, handle);
    var open := OpenIn(st, Current(st), InHand(call));
    assert Moved(open.tabs, |st.tabs|, Listed) == OpenIn(st, Current(st), Listed).tabs;
    GotoEnds(st, call, held);
    assert st.calls[call := held][call := Activating(id)] == st.calls[call := Activating(id)];
  }

  lemma OpenerRegisters(reached: State -> bool, start: State, st: State, call: nat, opener: Opener)
      returns (end: State)
    requires start == Goto(st, call, Asking(opener)) && st.contexts != [] && call !in st.calls && !opener.Adoption?
    requires !Refused(st, opener, NextId(st, Current(st)))
    requires Closed(Apply, Alone(call), start, reached)
    ensures reached(end)
    ensures end == if opener.Lookup? then WithPage(st, true)
                   else Goto(WithPage(st, false), call, Activating(NextId(st, Current(st))))
  {
    var context := Current(st);
    var held := Holding(opener, NextId(st, context), Handle(|st.tabs|, context));
    end := OpenerReads(reached, start, st, call, opener);
    end := Follow(reached, start, call, end);
    GotoAgain(OpenIn(st, context, InHand(call)), call, Opening(opener, context), held);
    assert end == Goto(OpenIn(st, context, InHand(call)), call, held);
    end := Follow(reached, start, call, end);
    PageIsRegistered(st, call, opener);
  }

  /** A lookup in a list without an active page opens one in the current context and makes it active; with an
      active page it opens nothing. */
  lemma LookupOpensAPage(st: State, call: nat)
    requires call !in st.calls && !st.recovering && st.contexts != []
    ensures FirstActive(st.slots).Some? ==> Apply(st, StartLookup(call)) == st
    ensures FirstActive(st.slots).None? ==> LeadsTo(Apply(st, StartLookup(call)), call, WithPage(st, true))
  {
    if FirstActive(st.slots).None? {
      var start := Goto(st, call, Asking(Lookup));
      ReachableIsClosed(Apply, Alone(call), start);
      var reached := end => Reachable(Apply, Alone(call), start, end);
      var end := OpenerRegisters(reached, start, st, call, Lookup);
      assert reached(end);
    }
  }

  /** `tabs_open` opens a page and makes it the active one, unless its id is tracked. */
  lemma OpenTabOpensAPage(st: State, call: nat)
    requires call !in st.calls && !st.recovering && st.contexts != []
    requires !Tracks(st.slots, NextId(st, Current(st)))
    ensures LeadsTo(Apply(st, StartOpenTab(call)), call,
                    WithPage(st, true).(slots := Inactive(st.slots) + [WithPage(st, true).slots[|st.slots|]]))
  {
    var start := Goto(st, call, Asking(OpenTab));
    ReachableIsClosed(Apply, Alone(call), start);
    var reached := end => Reachable(Apply, Alone(call), start, end);
    var end := TabIsActivated(reached, start, st, call);
    assert reached(end);
  }

  function Inactive(slots: seq<PageSlot>): seq<PageSlot> {
    seq(|slots|, i requires 0 <= i < |slots| => slots[i].(active := false))
  }

  lemma TabIsActivated(reached: State -> bool, start: State, st: State, call: nat) returns (end: State)
    requires start == Goto(st, call, Asking(OpenTab)) && st.contexts != [] && call !in st.calls && !st.recovering
    requires !Tracks(st.slots, NextId(st, Current(st)))
    requires Closed(Apply, Alone(call), start, reached)
    ensures reached(end)
    ensures end == WithPage(st, true).(slots := Inactive(st.slots) + [WithPage(st, true).slots[|st.slots|]])
  {
    end := OpenerRegisters(reached, start, st, call, OpenTab);
    end := Follow(reached, start, call, end);
    NewPageIsActivated(st, call);
  }

  lemma NewPageIsActivated(st: State, call: nat)
    requires st.contexts != [] && call !in st.calls && !Tracks(st.slots, NextId(st, Current(st)))
    ensures var id := NextId(st, Current(st));
            End(Activate(Goto(WithPage(st, false), call, Activating(id)), id), call) ==
            WithPage(st, true).(slots := Inactive(st.slots) + [WithPage(st, true).slots[|st.slots|]])
  {
    var id := NextId(st, Current(st));
    OnlyTheLastIsActive(st.slots, PageSlot(id, "", Handle(|st.tabs|, Current(st)), false));
    GotoEnds(WithPage(st, false), call, Activating(id));
  }

  lemma OnlyTheLastIsActive(slots: seq<PageSlot>, slot: PageSlot)
    requires !Tracks(slots, slot.id)
    ensures Tracks(slots + [slot], slot.id)
    ensures Activated(slots + [slot], slot.id) == Inactive(slots) + [slot.(active := true)]
  {
    assert (slots + [slot])[|slots|].id == slot.id;
  }

  // ----- adoption

  /** A live window of the current context's own isolation, or one outside all isolation on its engine, that the
      context does not drive yet. */
  predicate ForeignHere(st: State, window: nat) {
    && st.contexts != [] && window < |st.tabs| && st.tabs[window].home < |st.contexts|
    && var tab, current := st.tabs[window], Current(st);
       && tab.id == Window(window) && tab.live && Entry(current, Window(window)) !in st.pages
       && (tab.closable ==> tab.home == current)
       && (!tab.closable ==> st.contexts[tab.home].engine == st.contexts[current].engine)
  }

  /** Any other window is passed over, one the context drives already included. */
  lemma AdoptionPassesOver(st: State, call: nat, window: nat, url: string)
    requires call !in st.calls && !st.recovering && st.contexts != [] && !ForeignHere(st, window)
    ensures LeadsTo(Apply(st, StartAdoption(call, window, url)), call, st)
  {
    var opener := Adoption(window, url);
    var start := Goto(st, call, Asking(opener));
    ReachableIsClosed(Apply, Alone(call), start);
    var reached := end => Reachable(Apply, Alone(call), start, end);
    var end := ListingPassesOver(reached, start, st, call, opener);
    assert reached(end);
  }

  lemma ListingPassesOver(reached: State -> bool, start: State, st: State, call: nat, opener: Opener)
      returns (end: State)
    requires opener.Adoption? && start == Goto(st, call, Asking(opener)) && Closed(Apply, Alone(call), start, reached)
    requires call !in st.calls && !st.recovering && st.contexts != [] && !ForeignHere(st, opener.window)
    ensures reached(end) && end == st
  {
    end := OpenerReads(reached, start, st, call, opener);
    end := Follow(reached, start, call, end);
    GotoEnds(st, call, Opening(opener, Current(st)));
  }

  /** A window the context reports is adopted: driven by the context and listed, not active. */
  lemma AdoptionListsAWindow(st: State, call: nat, window: nat, url: string)
    requires call !in st.calls && !st.recovering && ForeignHere(st, window) && !Tracks(st.slots, Window(window))
    ensures var end := st.(pages := st.pages[Entry(Current(st), Window(window)) := window],
                           tabs := st.tabs[window := st.tabs[window].(closer := None, place := Listed)],
                           slots := st.slots + [PageSlot(Window(window), url, Handle(window, Current(st)), false)]);
            LeadsTo(Apply(st, StartAdoption(call, window, url)), call, end)
  {
    var start := Goto(st, call, Asking(Adoption(window, url)));
    ReachableIsClosed(Apply, Alone(call), start);
    var reached := end => Reachable(Apply, Alone(call), start, end);
    var end := WindowIsAdopted(reached, start, st, call, window, url);
    end := WindowIsListed(reached, start, st, end, call, window, url);
    assert reached(end);
  }

  function Driven(st: State, window: nat): State
    requires window < |st.tabs| && st.contexts != []
  {
    st.(pages := st.pages[Entry(Current(st), Window(window)) := window],
        tabs := st.tabs[window := st.tabs[window].(closer := None)])
  }

  lemma WindowIsAdopted(reached: State -> bool, start: State, st: State, call: nat, window: nat, url: string)
      returns (end: State)
    requires start == Goto(st, call, Asking(Adoption(window, url))) && Closed(Apply, Alone(call), start, reached)
    requires call !in st.calls && !st.recovering && st.contexts != [] && Adoptable(st, window, Current(st))
    requires Entry(Current(st), Window(window)) !in st.pages && !Tracks(st.slots, Window(window))
    ensures reached(end)
    ensures end == Goto(Driven(st, window), call,
                        Holding(Adoption(window, url), Window(window), Handle(window, Current(st))))
  {
    var opener, context := Adoption(window, url), Current(st);
    end := OpenerReads(reached, start, st, call, opener);
    end := Follow(reached, start, call, end);
    GotoAgain(st, call, Opening(opener, context), Adopting(opener, context));
    assert end == Goto(st, call, Adopting(opener, context));
    end := Follow(reached, start, call, end);
    GotoAgain(Driven(st, window), call, Adopting(opener, context),
              Holding(opener, Window(window), Handle(window, context)));
  }

  lemma WindowIsListed(reached: State -> bool, start: State, st: State, from: State, call: nat, window: nat,
                       url: string) returns (end: State)
    requires Closed(Apply, Alone(call), start, reached) && reached(from)
    requires call !in st.calls && !st.recovering && st.contexts != [] && window < |st.tabs|
    requires !Tracks(st.slots, Window(window))
    requires from == Goto(Driven(st, window), call,
                          Holding(Adoption(window, url), Window(window), Handle(window, Current(st))))
    ensures reached(end)
    ensures end == st.(pages := st.pages[Entry(Current(st), Window(window)) := window],
                       tabs := st.tabs[window := st.tabs[window].(closer := None, place := Listed)],
                       slots := st.slots + [PageSlot(Window(window), url, Handle(window, Current(st)), false)])
  {
    end := Follow(reached, start, call, from);
    var driven := Driven(st, window);
    GotoEnds(driven, call, from.calls[call]);
    assert Moved(driven.tabs, window, Listed) == st.tabs[window := st.tabs[window].(closer := None, place := Listed)];
  }

  // ----- closing

  /** `close_page` on a page of the current context closes its tab and takes it off the list, the next one
      taking over if it was active; an id that is not listed changes nothing. */
  lemma CloseClosesAPage(st: State, call: nat, page: PageId)
    requires call !in st.calls && !st.recovering && st.contexts != []
    ensures !Tracks(st.slots, page) ==> LeadsTo(Apply(st, StartClose(call, page)), call, st)
    ensures Tracks(st.slots, page) ==>
              LeadsTo(Apply(st, StartClose(call, page)), call,
                      Untrack(CloseIn(st, Current(st), page, Some(call)), page))
  {
    var start := Goto(st, call, Finding(page));
    ReachableIsClosed(Apply, Alone(call), start);
    var reached := end => Reachable(Apply, Alone(call), start, end);
    var end := CloseRuns(reached, start, st, call, page);
    assert reached(end);
  }

  lemma CloseRuns(reached: State -> bool, start: State, st: State, call: nat, page: PageId) returns (end: State)
    requires start == Goto(st, call, Finding(page)) && Closed(Apply, Alone(call), start, reached)
    requires call !in st.calls && st.contexts != []
    ensures reached(end)
    ensures end == if Tracks(st.slots, page) then Untrack(CloseIn(st, Current(st), page, Some(call)), page) else st
  {
    end := Follow(reached, start, call, start);
    if !Tracks(st.slots, page) {
      GotoEnds(st, call, Finding(page));
    } else {
      GotoAgain(st, call, Finding(page), Reaching(page));
      end := Follow(reached, start, call, end);
      GotoAgain(st, call, Reaching(page), Closing(page, Current(st)));
      assert end == Goto(st, call, Closing(page, Current(st)));
      end := CloseAnswers(reached, start, st, end, call, page);
    }
  }

  lemma CloseAnswers(reached: State -> bool, start: State, st: State, from: State, call: nat, page: PageId)
      returns (end: State)
    requires Closed(Apply, Alone(call), start, reached) && reached(from) && call !in st.calls && st.contexts != []
    requires from == Goto(st, call, Closing(page, Current(st)))
    ensures reached(end) && end == Untrack(CloseIn(st, Current(st), page, Some(call)), page)
  {
    var closed := CloseIn(st, Current(st), page, Some(call));
    end := Follow(reached, start, call, from);
    GotoAgain(closed, call, Closing(page, Current(st)), Untracking(page));
    assert end == Goto(closed, call, Untracking(page));
    end := Follow(reached, start, call, end);
    GotoEnds(Untrack(closed, page), call, Untracking(page));
  }

  /** What that comes to for the list: the page's tab leaves it, the others stay, and if a page was active one
      still is. */
  lemma ClosedPageLeavesTheList(slots: seq<PageSlot>, page: PageId, tab: nat)
    requires Tracks(slots, page) && DistinctTabs(slots)
    ensures InList(Without(slots, page), tab) <==> InList(slots, tab) && tab != FirstTab(slots, page)
    ensures AtMostOneActive(slots) && |slots| > 1 && FirstActive(slots).Some? ==>
              ExactlyOneActive(Without(slots, page))
  {
    InListWithout(slots, page, tab);
    if AtMostOneActive(slots) && FirstActive(slots).Some? {
      RemovingKeepsOneActive(slots, page);
      if !slots[Position(slots, page).value].active { ActiveStays(slots, page); }
    }
  }

  lemma ActiveStays(slots: seq<PageSlot>, page: PageId)
    requires Tracks(slots, page) && !slots[Position(slots, page).value].active && FirstActive(slots).Some?
    ensures FirstActive(Without(slots, page)).Some?
  {
    var at, k := Position(slots, page).value, FirstActive(slots).value;
    var rest := slots[..at] + slots[at + 1..];
    assert rest[if k < at then k else k - 1] == slots[k];
  }

  /** And for the tab: its context lets go of it, and it is dead if it was the context's to close. */
  lemma ClosedTabIsGone(st: State, call: nat, tab: nat)
    requires tab < |st.tabs| && DrivenHere(st, tab)
    ensures var end := CloseIn(st, Current(st), st.tabs[tab].id, Some(call));
            && |end.tabs| == |st.tabs| && !DrivenHere(end, tab) && end.tabs[tab].closer == Some(call)
            && (end.tabs[tab].live <==> st.tabs[tab].live && !st.tabs[tab].closable)
            && forall other :: 0 <= other < |st.tabs| && other != tab ==> end.tabs[other] == st.tabs[other]
  {
  }

  // ----- when the engine does not do as it is asked

  /** A page that would not close stays listed, and a page that would not open leaves no trace. */
  lemma FailedCallChangesNothing(st: State, call: nat)
    requires call in st.calls
    requires var c := st.calls[call];
             || c.Closing? || c.Opening?
             || (c.Adopting? && c.opener.Adoption? && Entry(c.context, Window(c.opener.window)) !in st.pages)
    ensures StepCall(st, call, false) == End(st, call)
  {
  }

  /** A page the registry refuses is closed by the call that opened it: its context drives it no more, and the
      list is as it was. */
  lemma RefusedPageIsClosed(st: State, call: nat, opener: Opener, page: PageId, handle: Handle)
    requires Inv(st) && call in st.calls && st.calls[call] == Holding(opener, page, handle)
    requires Refused(st, opener, page) && !opener.Adoption?
    ensures var end := StepCall(StepCall(st, call, true), call, true);
            && end.slots == st.slots && call !in end.calls && Entry(handle.context, page) !in end.pages
            && (Entry(handle.context, page) in st.pages && st.tabs[handle.tab].closable ==>
                  |end.tabs| == |st.tabs| && !end.tabs[handle.tab].live)
  {
    assert CallInv(st, call);
    var entry := Entry(handle.context, page);
    var refused := StepCall(st, call, true);
    assert refused == Goto(st, call, Discarding(page, handle));
    assert StepCall(refused, call, true) == Discard(refused, call, page, handle, true);
    if entry in st.pages { MappedToTheHandle(st, page, handle); }
  }

  lemma MappedToTheHandle(st: State, page: PageId, handle: Handle)
    requires Inv(st) && HandleInv(st, page, handle) && page.Opened? && Entry(handle.context, page) in st.pages
    ensures st.pages[Entry(handle.context, page)] == handle.tab
  {
    var entry := Entry(handle.context, page);
    assert EntryInv(st.contexts, st.tabs, st.pages, entry);
    assert IdInv(st.contexts, st.tabs, st.pages[entry]) && IdInv(st.contexts, st.tabs, handle.tab);
  }
}
