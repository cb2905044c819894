/**
 What a session's calls do to its page registry and to the engine's tabs (crates/session/src/session/mod.rs):
 lookups that open a first page, `tabs_open`, adoption of foreign windows, closes, and rebuilds after an
 engine replacement, with every lock and every engine round trip a step of its own.

 Tabs and contexts have serial numbers here that are never reused. The ids the code sees are not: every
 engine counts its contexts from one, and every context its pages from zero.
 */
module Tabs {
  import opened Options
  import opened Runs
  import opened Pages

  /** A browser context: its engine, its number on it, and how many page numbers it has given out. */
  datatype Context = Context(engine: nat, number: nat, drawn: nat)

  /** A place in the page map of one context. */
  datatype Entry = Entry(context: nat, page: PageId)

  datatype Opener = Lookup | OpenTab | Adoption(window: nat, url: string)

  datatype Call =
    | Asking(opener: Opener)                          // whether the registry takes pages now
    | Choosing(opener: Opener)                        // the context to work in
    | Opening(opener: Opener, context: nat)           // an adoption lists the foreign windows
    | Adopting(opener: Opener, context: nat)
    | Holding(opener: Opener, page: PageId, handle: Handle)    // open in the engine, not in the list
    | Activating(page: PageId)
    | Discarding(page: PageId, handle: Handle)        // refused by the registry
    | Finding(page: PageId)                           // a close looks its page up
    | Reaching(page: PageId)                          // and reads the context to close it in
    | Closing(page: PageId, context: nat)
    | Untracking(page: PageId)                        // the engine answered the close

  /** Where a tab is accounted for; bookkeeping that no step reads. */
  datatype Place =
    | Loose
    | InHand(call: nat)    // of the call that opened it
    | Listed
    | InRebuild
    | Stranded             // left behind by a rebuild that was abandoned

  /** `home` is the context it appeared in. A window outside the session's isolation is not closable: the
      engine lets go of it instead. `closer` is the call the engine did either for, which no step reads. */
  datatype Tab = Tab(id: PageId, home: nat, live: bool, closable: bool, closer: Option<nat>, place: Place)

  datatype Rebuild = Rebuild(
    saved: seq<RecoveryPoint>,
    taken: set<nat>,                 // the tabs the registry listed when the rebuild took it over
    activeIndex: Option<nat>,
    swapped: bool,                   // the new context is in place
    answered: seq<bool>,             // for each point handled so far, whether the engine opened its page
    restored: seq<PageSlot>)

  datatype State = State(
    slots: seq<PageSlot>,
    recovering: bool,
    contexts: seq<Context>,          // the session's contexts so far, the current one last
    pages: map<Entry, nat>,          // the page maps of all of them
    tabs: seq<Tab>,
    calls: map<nat, Call>,
    rebuild: Option<Rebuild>,
    abandoned: bool)                 // some rebuild was

  datatype Event =
    | StartLookup(call: nat)
    | StartOpenTab(call: nat)
    | StartAdoption(call: nat, window: nat, url: string)
    | StartClose(call: nat, page: PageId)
    | Step(call: nat, ok: bool)               // `ok`: the engine round trip worked
    | Select(page: PageId)
    | SetUrl(page: PageId, url: string)
    | WindowAppears(context: nat, closable: bool)
    | TabDies(tab: nat)
    | NumberLost(context: nat)                // drawn for a page whose preparation failed
    | BeginRebuild
    | SwapContext(replacement: bool, skipped: nat)    // on a new engine or not; numbers other sessions drew
    | Restore(ok: bool)
    | FinishRebuild
    | AbandonRebuild

  /** A session begins in the context its engine numbers next. */
  function Init(number: nat): State { State([], false, [Context(0, number, 0)], map[], [], map[], None, false) }

  function Current(st: State): int { |st.contexts| - 1 }

  function Moved(tabs: seq<Tab>, tab: nat, place: Place): seq<Tab> {
    if tab < |tabs| then tabs[tab := tabs[tab].(place := place)] else tabs
  }

  // ----- the engine

  function Drawn(contexts: seq<Context>, context: nat): seq<Context> {
    if context < |contexts| then contexts[context := contexts[context].(drawn := contexts[context].drawn + 1)]
    else contexts
  }

  function NextId(st: State, context: nat): PageId
    requires context < |st.contexts|
  {
    Opened(st.contexts[context].number, st.contexts[context].drawn)
  }

  function OpenIn(st: State, context: nat, place: Place): State
    requires context < |st.contexts|
  {
    var id := NextId(st, context);
    st.(contexts := Drawn(st.contexts, context),
        pages := st.pages[Entry(context, id) := |st.tabs|],
        tabs := st.tabs + [Tab(id, context, true, true, None, place)])
  }

  /** Closing an id the context's map does not hold answers success and does nothing. */
  function CloseIn(st: State, context: nat, page: PageId, closer: Option<nat>): State {
    var entry := Entry(context, page);
    if entry !in st.pages || st.pages[entry] >= |st.tabs| then st
    else
      var tab := st.pages[entry];
      var was := st.tabs[tab];
      st.(pages := st.pages - {entry},
          tabs := st.tabs[tab := was.(live := was.live && !was.closable, closer := closer)])
  }

  /** What a context reports and will attach to: windows of its own isolation and the engine's own. */
  predicate Adoptable(st: State, window: nat, context: nat) {
    && window < |st.tabs| && context < |st.contexts| && st.tabs[window].home < |st.contexts|
    && st.tabs[window].id == Window(window) && st.tabs[window].live
    && (if st.tabs[window].closable then st.tabs[window].home == context
        else st.contexts[st.tabs[window].home].engine == st.contexts[context].engine)
  }

  // ----- calls

  function Start(st: State, call: nat, first: Call, allowed: bool): State {
    if call !in st.calls && allowed then st.(calls := st.calls[call := first]) else st
  }

  function Goto(st: State, call: nat, next: Call): State { st.(calls := st.calls[call := next]) }

  function End(st: State, call: nat): State { st.(calls := st.calls - {call}) }

  function Open(st: State, call: nat, opener: Opener, context: nat, ok: bool): State {
    if !ok || context >= |st.contexts| then End(st, call)
    else if opener.Adoption? then
      if Entry(context, Window(opener.window)) !in st.pages && Adoptable(st, opener.window, context)
      then Goto(st, call, Adopting(opener, context))
      else End(st, call)
    else
      Goto(OpenIn(st, context, InHand(call)), call,
           Holding(opener, NextId(st, context), Handle(|st.tabs|, context)))
  }

  /** Adoption skips a window the list tracks and is idempotent on one its context drives already. */
  function Adopt(st: State, call: nat, opener: Opener, context: nat, ok: bool): State {
    if !opener.Adoption? || Tracks(st.slots, Window(opener.window)) then End(st, call)
    else
      var window := opener.window;
      var entry := Entry(context, Window(window));
      var held := Holding(opener, Window(window), Handle(window, context));
      if entry in st.pages then Goto(st, call, held)
      else if ok && Adoptable(st, window, context) then
        Goto(st.(pages := st.pages[entry := window], tabs := st.tabs[window := st.tabs[window].(closer := None)]),
             call, held)
      else End(st, call)
  }

  function Url(opener: Opener): string { if opener.Adoption? then opener.url else "" }

  /** A lookup's page is registered only when no page is active, the others' unless the id is tracked,
      nobody's during a rebuild. */
  predicate Refused(st: State, opener: Opener, page: PageId) {
    st.recovering || (if opener.Lookup? then FirstActive(st.slots).Some? else Tracks(st.slots, page))
  }

  /** A refused page is closed by the call that opened it. */
  function Register(st: State, call: nat, opener: Opener, page: PageId, handle: Handle): State {
    if Refused(st, opener, page) then
      if opener.Adoption? then End(st, call) else Goto(st, call, Discarding(page, handle))
    else
      var admitted := st.(slots := st.slots + [PageSlot(page, Url(opener), handle, opener.Lookup?)],
                          tabs := Moved(st.tabs, handle.tab, Listed));
      if opener.OpenTab? then Goto(admitted, call, Activating(page)) else End(admitted, call)
  }

  function Activate(st: State, page: PageId): State {
    if Tracks(st.slots, page) then st.(slots := Activated(st.slots, page)) else st
  }

  /** The tab of the slot an untracking of the id takes away. */
  function FirstTab(slots: seq<PageSlot>, page: PageId): nat
    requires Tracks(slots, page)
  {
    slots[Position(slots, page).value].handle.tab
  }

  function Untrack(st: State, page: PageId): State {
    if Tracks(st.slots, page)
    then st.(slots := Without(st.slots, page), tabs := Moved(st.tabs, FirstTab(st.slots, page), Loose))
    else st
  }

  /** A refused page the engine would not close stays open, and nobody asks again. */
  function Discard(st: State, call: nat, page: PageId, handle: Handle, ok: bool): State {
    var closed := if ok then CloseIn(st, handle.context, page, None) else st;
    End(closed.(tabs := Moved(closed.tabs, handle.tab, Loose)), call)
  }

  function StepCall(st: State, call: nat, ok: bool): State {
    if call !in st.calls then st
    else match st.calls[call]
      case Asking(opener) => if st.recovering then End(st, call) else Goto(st, call, Choosing(opener))
      case Choosing(opener) => if st.contexts == [] then st else Goto(st, call, Opening(opener, Current(st)))
      case Opening(opener, context) => Open(st, call, opener, context, ok)
      case Adopting(opener, context) => Adopt(st, call, opener, context, ok)
      case Holding(opener, page, handle) => Register(st, call, opener, page, handle)
      case Activating(page) => End(Activate(st, page), call)
      case Discarding(page, handle) => Discard(st, call, page, handle, ok)
      case Finding(page) => if Tracks(st.slots, page) then Goto(st, call, Reaching(page)) else End(st, call)
      case Reaching(page) => if st.contexts == [] then st else Goto(st, call, Closing(page, Current(st)))
      case Closing(page, context) =>
        if ok then Goto(CloseIn(st, context, page, Some(call)), call, Untracking(page)) else End(st, call)
      case Untracking(page) => End(Untrack(st, page), call)
  }

  // ----- rebuilds

  predicate Blank(url: string) { url == "" || url == "about:blank" }

  function ListedTabs(slots: seq<PageSlot>): set<nat> { set slot | slot in slots :: slot.handle.tab }

  function TakeOver(st: State): State {
    if st.rebuild.Some? then st
    else
      st.(recovering := true,
          rebuild := Some(Rebuild(RecoveryPoints(st.slots), ListedTabs(st.slots), FirstActive(st.slots),
                                  false, [], [])))
  }

  predicate Swaps(st: State, ev: Event) { ev.SwapContext? && st.rebuild.Some? && !st.rebuild.value.swapped }

  /** The number a context gets is one past those its engine has given out. */
  function NextContext(last: Context, replacement: bool, skipped: nat): Context {
    if replacement then Context(last.engine + 1, skipped + 1, 0)
    else Context(last.engine, last.number + skipped + 1, 0)
  }

  function Swap(st: State, r: Rebuild, replacement: bool, skipped: nat): State {
    if st.contexts == [] then st
    else
      st.(contexts := st.contexts + [NextContext(st.contexts[Current(st)], replacement, skipped)],
          rebuild := Some(r.(swapped := true)))
  }

  function RestoreNext(st: State, r: Rebuild, ok: bool): State
    requires |r.answered| < |r.saved|
  {
    var position := |r.answered|;
    var next := r.(answered := r.answered + [ok]);
    var url := r.saved[position].url;
    if Blank(url) || !ok || st.contexts == [] then st.(rebuild := Some(next))
    else
      var slot := PageSlot(NextId(st, Current(st)), url, Handle(|st.tabs|, Current(st)),
                           r.activeIndex == Some(position));
      OpenIn(st, Current(st), InRebuild).(rebuild := Some(next.(restored := r.restored + [slot])))
  }

  /** What a rebuild brings back: the points that were somewhere, minus those the engine would not open,
      in their order; the first active one alone comes back active. */
  function Restorable(saved: seq<RecoveryPoint>, answered: seq<bool>, activeIndex: Option<nat>): seq<RecoveryPoint>
    requires |saved| == |answered|
    decreases |saved|
  {
    if saved == [] then []
    else
      var k := |saved| - 1;
      var before := Restorable(saved[..k], answered[..k], activeIndex);
      if Blank(saved[k].url) || !answered[k] then before
      else before + [RecoveryPoint(saved[k].url, activeIndex == Some(k))]
  }

  function PlaceAfterRebuild(place: Place): Place {
    match place
    case Listed => Loose
    case InRebuild => Listed
    case other => other
  }

  function WriteBack(st: State, r: Rebuild): State {
    st.(slots := Rebuilt(r.restored), recovering := false, rebuild := None,
        tabs := seq(|st.tabs|, i requires 0 <= i < |st.tabs| =>
          st.tabs[i].(place := PlaceAfterRebuild(st.tabs[i].place))))
  }

  function Abandon(st: State): State {
    st.(recovering := false, rebuild := None, abandoned := true,
        tabs := seq(|st.tabs|, i requires 0 <= i < |st.tabs| =>
          if st.tabs[i].place.InRebuild? then st.tabs[i].(place := Stranded) else st.tabs[i]))
  }

  function Apply(st: State, ev: Event): State {
    match ev
    case StartLookup(call) => Start(st, call, Asking(Lookup), st.recovering || FirstActive(st.slots).None?)
    case StartOpenTab(call) => Start(st, call, Asking(OpenTab), true)
    case StartAdoption(call, window, url) => Start(st, call, Asking(Adoption(window, url)), true)
    case StartClose(call, page) => Start(st, call, Finding(page), !st.recovering)
    case Step(call, ok) => StepCall(st, call, ok)
    case Select(page) => Activate(st, page)
    case SetUrl(page, url) => st.(slots := WithUrl(st.slots, page, url))
    case WindowAppears(context, closable) =>
      if context < |st.contexts|
      then st.(tabs := st.tabs + [Tab(Window(|st.tabs|), context, true, closable, None, Loose)])
      else st
    case TabDies(tab) =>
      if tab < |st.tabs| then st.(tabs := st.tabs[tab := st.tabs[tab].(live := false)]) else st
    case NumberLost(context) => st.(contexts := Drawn(st.contexts, context))
    case BeginRebuild => TakeOver(st)
    case SwapContext(replacement, skipped) =>
      if Swaps(st, ev) then Swap(st, st.rebuild.value, replacement, skipped) else st
    case Restore(ok) =>
      if st.rebuild.Some? && st.rebuild.value.swapped && |st.rebuild.value.answered| < |st.rebuild.value.saved|
      then RestoreNext(st, st.rebuild.value, ok)
      else st
    case FinishRebuild =>
      if st.rebuild.Some? && st.rebuild.value.swapped && |st.rebuild.value.answered| == |st.rebuild.value.saved|
      then WriteBack(st, st.rebuild.value)
      else st
    case AbandonRebuild => if st.rebuild.Some? then Abandon(st) else st
  }

  predicate Anything(st: State, ev: Event) { true }

  // ----- what a call's step leaves alone

  /** The other steps touch no tab and no context. */
  predicate Plain(call: Call) {
    call.Asking? || call.Choosing? || call.Activating? || call.Finding? || call.Reaching?
  }

  lemma PlainStep(st: State, call: nat, ok: bool)
    requires call in st.calls && Plain(st.calls[call])
    ensures var next := StepCall(st, call, ok);
            next.contexts == st.contexts && next.tabs == st.tabs && next.pages == st.pages
  {
  }

  /** The other calls, the rebuild, the number of contexts, the ids of tabs. */
  predicate Local(st: State, next: State, call: nat, other: nat, tab: nat) {
    && (other != call ==>
          && (other in next.calls <==> other in st.calls)
          && (other in st.calls ==> next.calls[other] == st.calls[other]))
    && (tab < |st.tabs| ==> tab < |next.tabs| && next.tabs[tab].id == st.tabs[tab].id)
    && next.rebuild == st.rebuild && next.abandoned == st.abandoned && |next.contexts| == |st.contexts|
  }

  lemma OpenIsLocal(st: State, call: nat, opener: Opener, context: nat, ok: bool, other: nat, tab: nat)
    ensures Local(st, Open(st, call, opener, context, ok), call, other, tab)
  {
  }

  lemma AdoptIsLocal(st: State, call: nat, opener: Opener, context: nat, ok: bool, other: nat, tab: nat)
    ensures Local(st, Adopt(st, call, opener, context, ok), call, other, tab)
  {
  }

  lemma RegisterIsLocal(st: State, call: nat, opener: Opener, page: PageId, handle: Handle, other: nat, tab: nat)
    ensures Local(st, Register(st, call, opener, page, handle), call, other, tab)
  {
  }

  lemma DiscardIsLocal(st: State, call: nat, page: PageId, handle: Handle, ok: bool, other: nat, tab: nat)
    ensures Local(st, Discard(st, call, page, handle, ok), call, other, tab)
  {
  }

  lemma CloseIsLocal(st: State, call: nat, page: PageId, context: nat, other: nat, tab: nat)
    ensures Local(st, Goto(CloseIn(st, context, page, Some(call)), call, Untracking(page)), call, other, tab)
    ensures Local(st, End(st, call), call, other, tab)
  {
  }

  lemma UntrackIsLocal(st: State, call: nat, page: PageId, other: nat, tab: nat)
    ensures Local(st, End(Untrack(st, page), call), call, other, tab)
  {
  }

  lemma PlainIsLocal(st: State, call: nat, ok: bool, other: nat, tab: nat)
    requires call in st.calls && Plain(st.calls[call])
    ensures Local(st, StepCall(st, call, ok), call, other, tab)
  {
    PlainStep(st, call, ok);
  }

  lemma StepIsLocal(st: State, call: nat, ok: bool, other: nat, tab: nat)
    ensures Local(st, StepCall(st, call, ok), call, other, tab)
  {
    if call in st.calls {
      match st.calls[call]
      case Opening(opener, context) => OpenIsLocal(st, call, opener, context, ok, other, tab);
      case Adopting(opener, context) => AdoptIsLocal(st, call, opener, context, ok, other, tab);
      case Holding(opener, page, handle) => RegisterIsLocal(st, call, opener, page, handle, other, tab);
      case Discarding(page, handle) => DiscardIsLocal(st, call, page, handle, ok, other, tab);
      case Closing(page, context) => CloseIsLocal(st, call, page, context, other, tab);
      case Untracking(page) => UntrackIsLocal(st, call, page, other, tab);
      case _ => PlainIsLocal(st, call, ok, other, tab);
    }
  }

  // ----- ids

  predicate ContextsInv(contexts: seq<Context>) {
    && contexts != []
    && forall i, j :: 0 <= i < j < |contexts| ==>
         && contexts[i].engine <= contexts[j].engine
         && (contexts[i].engine == contexts[j].engine ==> contexts[i].number < contexts[j].number)
  }

  /** An id says where it comes from, and its context gave it out once. */
  predicate IdInv(contexts: seq<Context>, tabs: seq<Tab>, h: nat)
    requires h < |tabs|
  {
    var tab := tabs[h];
    && tab.home < |contexts|
    && (match tab.id
        case Opened(number, n) => number == contexts[tab.home].number && n < contexts[tab.home].drawn
        case Window(target) => target == h)
    && forall g :: 0 <= g < h && tabs[g].home == tab.home ==> tabs[g].id != tab.id
  }

  predicate EntryInv(contexts: seq<Context>, tabs: seq<Tab>, pages: map<Entry, nat>, entry: Entry)
    requires entry in pages
  {
    && entry.context < |contexts| && pages[entry] < |tabs|
    && tabs[pages[entry]].id == entry.page
    && (entry.page.Opened? ==> tabs[pages[entry]].home == entry.context)
  }

  predicate TabsInv(contexts: seq<Context>, tabs: seq<Tab>) {
    && ContextsInv(contexts)
    && forall h :: 0 <= h < |tabs| ==> IdInv(contexts, tabs, h)
  }

  predicate PagesInv(contexts: seq<Context>, tabs: seq<Tab>, pages: map<Entry, nat>) {
    forall entry :: entry in pages ==> EntryInv(contexts, tabs, pages, entry)
  }

  predicate IdsInv(st: State) {
    TabsInv(st.contexts, st.tabs) && PagesInv(st.contexts, st.tabs, st.pages)
  }

  /** The same tabs, whatever became of them. */
  predicate SameTabs(a: seq<Tab>, b: seq<Tab>) {
    |a| == |b| && forall h :: 0 <= h < |a| ==> a[h].id == b[h].id && a[h].home == b[h].home
  }

  lemma SameTabsKeepIds(contexts: seq<Context>, a: seq<Tab>, b: seq<Tab>, pages: map<Entry, nat>)
    requires TabsInv(contexts, a) && PagesInv(contexts, a, pages) && SameTabs(a, b)
    ensures TabsInv(contexts, b) && PagesInv(contexts, b, pages)
  {
    forall h | 0 <= h < |b| ensures IdInv(contexts, b, h) { assert IdInv(contexts, a, h); }
    forall entry | entry in pages ensures EntryInv(contexts, b, pages, entry) {
      assert EntryInv(contexts, a, pages, entry);
    }
  }

  lemma FewerPagesKeepIds(contexts: seq<Context>, tabs: seq<Tab>, pages: map<Entry, nat>, entry: Entry)
    requires PagesInv(contexts, tabs, pages)
    ensures PagesInv(contexts, tabs, pages - {entry})
  {
    forall e | e in pages - {entry} ensures EntryInv(contexts, tabs, pages - {entry}, e) {
      assert EntryInv(contexts, tabs, pages, e);
    }
  }

  lemma DrawKeepsIds(st: State, context: nat)
    requires IdsInv(st)
    ensures IdsInv(st.(contexts := Drawn(st.contexts, context)))
  {
    var contexts := Drawn(st.contexts, context);
    forall h | 0 <= h < |st.tabs| ensures IdInv(contexts, st.tabs, h) { assert IdInv(st.contexts, st.tabs, h); }
    forall entry | entry in st.pages ensures EntryInv(contexts, st.tabs, st.pages, entry) {
      assert EntryInv(st.contexts, st.tabs, st.pages, entry);
    }
  }

  lemma NextIdIsNew(st: State, context: nat)
    requires IdsInv(st) && context < |st.contexts|
    ensures forall h :: 0 <= h < |st.tabs| && st.tabs[h].home == context ==> st.tabs[h].id != NextId(st, context)
    ensures Entry(context, NextId(st, context)) !in st.pages
  {
    forall h | 0 <= h < |st.tabs| && st.tabs[h].home == context ensures st.tabs[h].id != NextId(st, context) {
      assert IdInv(st.contexts, st.tabs, h);
    }
    forall entry | entry in st.pages ensures entry != Entry(context, NextId(st, context)) {
      assert EntryInv(st.contexts, st.tabs, st.pages, entry);
      assert IdInv(st.contexts, st.tabs, st.pages[entry]);
    }
  }

  /** A further tab, in its home under an id that is new there. */
  lemma NewTabKeepsIds(contexts: seq<Context>, tabs: seq<Tab>, pages: map<Entry, nat>, tab: Tab)
    requires TabsInv(contexts, tabs) && PagesInv(contexts, tabs, pages) && IdInv(contexts, tabs + [tab], |tabs|)
    ensures TabsInv(contexts, tabs + [tab]) && PagesInv(contexts, tabs + [tab], pages)
    ensures PagesInv(contexts, tabs + [tab], pages[Entry(tab.home, tab.id) := |tabs|])
  {
    var more := tabs + [tab];
    forall h | 0 <= h < |more| ensures IdInv(contexts, more, h) {
      if h < |tabs| { assert IdInv(contexts, tabs, h); }
    }
    forall entry | entry in pages ensures EntryInv(contexts, more, pages, entry) {
      assert EntryInv(contexts, tabs, pages, entry);
    }
    var added := pages[Entry(tab.home, tab.id) := |tabs|];
    forall entry | entry in added ensures EntryInv(contexts, more, added, entry) {
      if entry in pages { assert EntryInv(contexts, tabs, pages, entry); }
    }
  }

  lemma OpenKeepsIds(st: State, context: nat, place: Place)
    requires IdsInv(st) && context < |st.contexts|
    ensures IdsInv(OpenIn(st, context, place))
  {
    DrawKeepsIds(st, context);
    NextIdIsNew(st, context);
    NewTabKeepsIds(Drawn(st.contexts, context), st.tabs, st.pages,
                   Tab(NextId(st, context), context, true, true, None, place));
  }

  lemma WindowKeepsIds(st: State, context: nat, closable: bool)
    requires IdsInv(st) && context < |st.contexts|
    ensures IdsInv(Apply(st, WindowAppears(context, closable)))
  {
    forall h | 0 <= h < |st.tabs| ensures st.tabs[h].id != Window(|st.tabs|) {
      assert IdInv(st.contexts, st.tabs, h);
    }
    NewTabKeepsIds(st.contexts, st.tabs, st.pages, Tab(Window(|st.tabs|), context, true, closable, None, Loose));
  }

  lemma SwapKeepsIds(st: State, r: Rebuild, replacement: bool, skipped: nat)
    requires IdsInv(st)
    ensures IdsInv(Swap(st, r, replacement, skipped))
  {
    var contexts := Swap(st, r, replacement, skipped).contexts;
    forall h | 0 <= h < |st.tabs| ensures IdInv(contexts, st.tabs, h) { assert IdInv(st.contexts, st.tabs, h); }
    forall entry | entry in st.pages ensures EntryInv(contexts, st.tabs, st.pages, entry) {
      assert EntryInv(st.contexts, st.tabs, st.pages, entry);
    }
  }

  lemma CloseKeepsIds(st: State, context: nat, page: PageId, closer: Option<nat>)
    requires IdsInv(st)
    ensures IdsInv(CloseIn(st, context, page, closer)) && SameTabs(st.tabs, CloseIn(st, context, page, closer).tabs)
  {
    var tabs := CloseIn(st, context, page, closer).tabs;
    SameTabsKeepIds(st.contexts, st.tabs, tabs, st.pages);
    FewerPagesKeepIds(st.contexts, tabs, st.pages, Entry(context, page));
  }

  lemma MoveKeepsIds(st: State, tab: nat, place: Place)
    requires IdsInv(st)
    ensures IdsInv(st.(tabs := Moved(st.tabs, tab, place)))
  {
    SameTabsKeepIds(st.contexts, st.tabs, Moved(st.tabs, tab, place), st.pages);
  }

  lemma NewPageKeepsIds(contexts: seq<Context>, tabs: seq<Tab>, pages: map<Entry, nat>, context: nat, window: nat)
    requires PagesInv(contexts, tabs, pages) && context < |contexts|
    requires window < |tabs| && tabs[window].id == Window(window)
    ensures PagesInv(contexts, tabs, pages[Entry(context, Window(window)) := window])
  {
    var added := pages[Entry(context, Window(window)) := window];
    forall entry | entry in added ensures EntryInv(contexts, tabs, added, entry) {
      if entry in pages { assert EntryInv(contexts, tabs, pages, entry); }
    }
  }

  /** Adopting puts the window under its own id. */
  lemma AdoptKeepsIds(st: State, call: nat, ok: bool)
    requires IdsInv(st) && call in st.calls && st.calls[call].Adopting? && st.calls[call].context < |st.contexts|
    ensures IdsInv(StepCall(st, call, ok))
  {
    var opener, context := st.calls[call].opener, st.calls[call].context;
    if opener.Adoption? && ok && Adoptable(st, opener.window, context) {
      var window := opener.window;
      var tabs := st.tabs[window := st.tabs[window].(closer := None)];
      SameTabsKeepIds(st.contexts, st.tabs, tabs, st.pages);
      NewPageKeepsIds(st.contexts, tabs, st.pages, context, window);
    }
  }

  lemma RegisterKeepsIds(st: State, call: nat, ok: bool)
    requires IdsInv(st) && call in st.calls && st.calls[call].Holding?
    ensures IdsInv(StepCall(st, call, ok))
  {
    MoveKeepsIds(st, st.calls[call].handle.tab, Listed);
  }

  lemma DiscardKeepsIds(st: State, call: nat, ok: bool)
    requires IdsInv(st) && call in st.calls && st.calls[call].Discarding?
    ensures IdsInv(StepCall(st, call, ok))
  {
    var page, handle := st.calls[call].page, st.calls[call].handle;
    CloseKeepsIds(st, handle.context, page, None);
    MoveKeepsIds(if ok then CloseIn(st, handle.context, page, None) else st, handle.tab, Loose);
  }

  lemma UntrackKeepsIds(st: State, call: nat, ok: bool)
    requires IdsInv(st) && call in st.calls && st.calls[call].Untracking?
    ensures IdsInv(StepCall(st, call, ok))
  {
    var page := st.calls[call].page;
    if Tracks(st.slots, page) { MoveKeepsIds(st, FirstTab(st.slots, page), Loose); }
  }

  lemma OpeningKeepsIds(st: State, call: nat, ok: bool)
    requires IdsInv(st) && call in st.calls && st.calls[call].Opening?
    ensures IdsInv(StepCall(st, call, ok))
  {
    var context := st.calls[call].context;
    if context < |st.contexts| { OpenKeepsIds(st, context, InHand(call)); }
  }

  lemma ClosingKeepsIds(st: State, call: nat, ok: bool)
    requires IdsInv(st) && call in st.calls && st.calls[call].Closing?
    ensures IdsInv(StepCall(st, call, ok))
  {
    CloseKeepsIds(st, st.calls[call].context, st.calls[call].page, Some(call));
  }

  lemma StepKeepsIds(st: State, call: nat, ok: bool)
    requires IdsInv(st)
    requires call in st.calls && st.calls[call].Adopting? ==> st.calls[call].context < |st.contexts|
    ensures IdsInv(StepCall(st, call, ok))
  {
    if call in st.calls {
      match st.calls[call]
      case Opening(_, _) => OpeningKeepsIds(st, call, ok);
      case Adopting(_, _) => AdoptKeepsIds(st, call, ok);
      case Holding(_, _, _) => RegisterKeepsIds(st, call, ok);
      case Discarding(_, _) => DiscardKeepsIds(st, call, ok);
      case Closing(_, _) => ClosingKeepsIds(st, call, ok);
      case Untracking(_) => UntrackKeepsIds(st, call, ok);
      case _ => PlainStep(st, call, ok);
    }
  }

  lemma RebuildKeepsIds(st: State, ev: Event)
    requires IdsInv(st) && st.rebuild.Some?
    requires ev.Restore? || ev.FinishRebuild? || ev.AbandonRebuild?
    ensures IdsInv(Apply(st, ev))
  {
    if ev.Restore? {
      OpenKeepsIds(st, Current(st), InRebuild);
    } else {
      SameTabsKeepIds(st.contexts, st.tabs, Apply(st, ev).tabs, st.pages);
    }
  }

  lemma ApplyKeepsIds(st: State, ev: Event)
    requires IdsInv(st)
    requires forall call :: call in st.calls && st.calls[call].Adopting? ==> st.calls[call].context < |st.contexts|
    ensures IdsInv(Apply(st, ev))
  {
    match ev
    case Step(call, ok) => StepKeepsIds(st, call, ok);
    case WindowAppears(context, closable) => if context < |st.contexts| { WindowKeepsIds(st, context, closable); }
    case NumberLost(context) => DrawKeepsIds(st, context);
    case TabDies(_) => SameTabsKeepIds(st.contexts, st.tabs, Apply(st, ev).tabs, st.pages);
    case SwapContext(replacement, skipped) =>
      if Swaps(st, ev) { SwapKeepsIds(st, st.rebuild.value, replacement, skipped); }
    case Restore(_) => if st.rebuild.Some? { RebuildKeepsIds(st, ev); }
    case FinishRebuild => if st.rebuild.Some? { RebuildKeepsIds(st, ev); }
    case AbandonRebuild => if st.rebuild.Some? { RebuildKeepsIds(st, ev); }
    case _ =>
  }

  // ----- lists, hands and rebuilds

  predicate Holds(call: Call, tab: nat) { (call.Holding? || call.Discarding?) && call.handle.tab == tab }

  predicate InList(slots: seq<PageSlot>, tab: nat) { exists i :: 0 <= i < |slots| && slots[i].handle.tab == tab }

  predicate DistinctTabs(slots: seq<PageSlot>) {
    forall i, j :: 0 <= i < j < |slots| ==> slots[i].handle.tab != slots[j].handle.tab
  }

  /** The current context drives the tab. */
  predicate DrivenHere(st: State, tab: nat)
    requires tab < |st.tabs|
  {
    && st.contexts != []
    && var entry := Entry(Current(st), st.tabs[tab].id);
       entry in st.pages && st.pages[entry] == tab
  }

  predicate HandleInv(st: State, page: PageId, handle: Handle) {
    && handle.tab < |st.tabs| && st.tabs[handle.tab].id == page
    && handle.context < |st.contexts| && (page.Opened? ==> handle.context == st.tabs[handle.tab].home)
  }

  predicate CallInv(st: State, call: nat)
    requires call in st.calls
  {
    match st.calls[call]
    case Opening(_, context) => context < |st.contexts|
    case Adopting(opener, context) => opener.Adoption? && context < |st.contexts|
    case Holding(opener, page, handle) =>
      && HandleInv(st, page, handle)
      && if opener.Adoption? then page.Window? else page.Opened? && st.tabs[handle.tab].place == InHand(call)
    case Discarding(page, handle) =>
      HandleInv(st, page, handle) && page.Opened? && st.tabs[handle.tab].place == InHand(call)
    case Closing(_, context) => context < |st.contexts|
    case _ => true
  }

  predicate PlaceInv(st: State, tab: nat)
    requires tab < |st.tabs|
  {
    match st.tabs[tab].place
    case Loose => true
    case InHand(call) => st.tabs[tab].id.Opened? && call in st.calls && Holds(st.calls[call], tab)
    case Listed => InList(st.slots, tab)
    case InRebuild =>
      && st.tabs[tab].id.Opened? && st.tabs[tab].home == Current(st)
      && st.rebuild.Some? && st.rebuild.value.swapped && InList(st.rebuild.value.restored, tab)
    case Stranded => st.tabs[tab].id.Opened? && st.abandoned
  }

  predicate SlotInv(st: State, slot: PageSlot) {
    && HandleInv(st, slot.id, slot.handle) && st.tabs[slot.handle.tab].place.Listed?
    && (st.rebuild.Some? ==> slot.handle.tab in st.rebuild.value.taken)
    && (st.rebuild.Some? && st.rebuild.value.swapped ==>
          slot.handle.context < Current(st) && !DrivenHere(st, slot.handle.tab))
  }

  predicate RestoredInv(st: State, slot: PageSlot) {
    && HandleInv(st, slot.id, slot.handle) && slot.id.Opened? && slot.handle.context == Current(st)
    && st.tabs[slot.handle.tab].place.InRebuild?
  }

  /** The index is that of the first active point, if any is active. */
  predicate FirstActivePoint(saved: seq<RecoveryPoint>, at: Option<nat>) {
    match at
    case Some(k) => k < |saved| && saved[k].active && forall i :: 0 <= i < k ==> !saved[i].active
    case None => forall i :: 0 <= i < |saved| ==> !saved[i].active
  }

  predicate RebuildInv(r: Rebuild) {
    && FirstActivePoint(r.saved, r.activeIndex)
    && |r.answered| <= |r.saved| && (!r.swapped ==> r.answered == [])
    && AtMostOneActive(r.restored) && DistinctTabs(r.restored)
    && (FirstActive(r.restored).Some? ==> r.activeIndex.Some? && r.activeIndex.value < |r.answered|)
    && RecoveryPoints(r.restored) == Restorable(r.saved[..|r.answered|], r.answered, r.activeIndex)
  }

  predicate ListsInv(st: State) {
    && (st.recovering <==> st.rebuild.Some?)
    && (forall call :: call in st.calls ==> CallInv(st, call))
    && (forall tab :: 0 <= tab < |st.tabs| ==> PlaceInv(st, tab))
    && (forall slot :: slot in st.slots ==> SlotInv(st, slot))
    && DistinctTabs(st.slots)
    && (st.rebuild.Some? ==>
          && RebuildInv(st.rebuild.value)
          && forall slot :: slot in st.rebuild.value.restored ==> RestoredInv(st, slot))
  }

  predicate Inv(st: State) { IdsInv(st) && ListsInv(st) }

  lemma InListAppend(slots: seq<PageSlot>, slot: PageSlot, tab: nat)
    ensures InList(slots + [slot], tab) <==> InList(slots, tab) || slot.handle.tab == tab
  {
    var longer := slots + [slot];
    if InList(slots, tab) {
      var i :| 0 <= i < |slots| && slots[i].handle.tab == tab;
      assert longer[i].handle.tab == tab;
    }
    if slot.handle.tab == tab { assert longer[|slots|].handle.tab == tab; }
  }

  /** New flags or URLs leave the tabs in the list as they are. */
  lemma SameHandles(a: seq<PageSlot>, b: seq<PageSlot>)
    requires |a| == |b| && forall i :: 0 <= i < |a| ==> a[i].handle == b[i].handle
    ensures forall tab :: InList(a, tab) <==> InList(b, tab)
    ensures DistinctTabs(a) ==> DistinctTabs(b)
  {
    forall tab ensures InList(a, tab) <==> InList(b, tab) {
      if InList(a, tab) {
        var i :| 0 <= i < |a| && a[i].handle.tab == tab;
        assert b[i].handle.tab == tab;
      }
      if InList(b, tab) {
        var i :| 0 <= i < |b| && b[i].handle.tab == tab;
        assert a[i].handle.tab == tab;
      }
    }
  }

  /** What is left when the first slot with the id is taken away. */
  lemma WithoutSlot(slots: seq<PageSlot>, page: PageId, i: nat)
    requires Tracks(slots, page) && i < |slots| - 1
    ensures |Without(slots, page)| == |slots| - 1
    ensures var j := if i < Position(slots, page).value then i else i + 1;
            Without(slots, page)[i].handle == slots[j].handle && Without(slots, page)[i].id == slots[j].id
  {
  }

  lemma InListWithout(slots: seq<PageSlot>, page: PageId, tab: nat)
    requires Tracks(slots, page) && DistinctTabs(slots)
    ensures InList(Without(slots, page), tab) <==> InList(slots, tab) && tab != FirstTab(slots, page)
  {
    var at, rest := Position(slots, page).value, Without(slots, page);
    if InList(slots, tab) && tab != FirstTab(slots, page) {
      var i :| 0 <= i < |slots| && slots[i].handle.tab == tab;
      WithoutSlot(slots, page, if i < at then i else i - 1);
      assert rest[if i < at then i else i - 1].handle.tab == tab;
    }
    if InList(rest, tab) {
      assert |rest| == |slots| - 1;
      var i :| 0 <= i < |rest| && rest[i].handle.tab == tab;
      WithoutSlot(slots, page, i);
    }
  }

  lemma WithoutKeepsTabs(slots: seq<PageSlot>, page: PageId)
    requires Tracks(slots, page) && DistinctTabs(slots)
    ensures DistinctTabs(Without(slots, page))
  {
    var rest := Without(slots, page);
    assert |rest| == |slots| - 1;
    forall i, j | 0 <= i < j < |rest| ensures rest[i].handle.tab != rest[j].handle.tab {
      WithoutSlot(slots, page, i);
      WithoutSlot(slots, page, j);
    }
  }

  lemma SlotBefore(slots: seq<PageSlot>, page: PageId, slot: PageSlot) returns (was: PageSlot)
    requires Tracks(slots, page) && slot in Without(slots, page)
    ensures was in slots && was.id == slot.id && was.handle == slot.handle
  {
    var rest := Without(slots, page);
    assert |rest| == |slots| - 1;
    var i :| 0 <= i < |rest| && rest[i] == slot;
    WithoutSlot(slots, page, i);
    was := slots[if i < Position(slots, page).value then i else i + 1];
  }

  // ----- what each kind of step keeps

  /** Only calls move. */
  lemma CallsKeepLists(st: State, calls: map<nat, Call>)
    requires ListsInv(st)
    requires forall call :: call in calls ==> CallInv(st.(calls := calls), call)
    requires forall tab :: 0 <= tab < |st.tabs| && st.tabs[tab].place.InHand? ==> PlaceInv(st.(calls := calls), tab)
    ensures ListsInv(st.(calls := calls))
  {
    var next := st.(calls := calls);
    forall tab | 0 <= tab < |next.tabs| ensures PlaceInv(next, tab) { assert PlaceInv(st, tab); }
    forall slot | slot in next.slots ensures SlotInv(next, slot) { assert SlotInv(st, slot); }
    if st.rebuild.Some? {
      forall slot | slot in st.rebuild.value.restored ensures RestoredInv(next, slot) { assert RestoredInv(st, slot); }
    }
  }

  /** The call holds no tab of its own. */
  predicate Unburdened(st: State, call: nat) {
    call in st.calls ==>
      (st.calls[call].Holding? ==> st.calls[call].opener.Adoption?) && !st.calls[call].Discarding?
  }

  lemma GotoKeepsLists(st: State, call: nat, next: Call)
    requires ListsInv(st) && Unburdened(st, call) && CallInv(Goto(st, call, next), call)
    ensures ListsInv(Goto(st, call, next))
  {
    var after := Goto(st, call, next);
    assert call in st.calls ==> CallInv(st, call);
    forall c | c in after.calls ensures CallInv(after, c) { if c != call { assert CallInv(st, c); } }
    forall tab | 0 <= tab < |st.tabs| && st.tabs[tab].place.InHand? ensures PlaceInv(after, tab) {
      assert PlaceInv(st, tab);
    }
    CallsKeepLists(st, after.calls);
  }

  lemma EndKeepsLists(st: State, call: nat)
    requires ListsInv(st) && Unburdened(st, call)
    ensures ListsInv(End(st, call))
  {
    var after := End(st, call);
    assert call in st.calls ==> CallInv(st, call);
    forall c | c in after.calls ensures CallInv(after, c) { assert CallInv(st, c); }
    forall tab | 0 <= tab < |st.tabs| && st.tabs[tab].place.InHand? ensures PlaceInv(after, tab) {
      assert PlaceInv(st, tab);
    }
    CallsKeepLists(st, after.calls);
  }

  /** The same tabs in the same places. */
  predicate SamePlaces(a: seq<Tab>, b: seq<Tab>) {
    |a| == |b| && forall h :: 0 <= h < |a| ==> a[h].id == b[h].id && a[h].home == b[h].home && a[h].place == b[h].place
  }

  /** Tabs die, maps and counters change, but no listed tab comes to be driven here. */
  lemma EngineKeepsLists(st: State, next: State)
    requires ListsInv(st) && SamePlaces(st.tabs, next.tabs) && |next.contexts| == |st.contexts|
    requires next == st.(contexts := next.contexts, tabs := next.tabs, pages := next.pages)
    requires forall slot :: slot in st.slots && slot.handle.tab < |st.tabs| && DrivenHere(next, slot.handle.tab) ==>
               DrivenHere(st, slot.handle.tab)
    ensures ListsInv(next)
  {
    forall call | call in next.calls ensures CallInv(next, call) { assert CallInv(st, call); }
    forall tab | 0 <= tab < |next.tabs| ensures PlaceInv(next, tab) { assert PlaceInv(st, tab); }
    forall slot | slot in next.slots ensures SlotInv(next, slot) { assert SlotInv(st, slot); }
    if st.rebuild.Some? {
      forall slot | slot in st.rebuild.value.restored ensures RestoredInv(next, slot) { assert RestoredInv(st, slot); }
    }
  }

  lemma DeathKeepsLists(st: State, tab: nat)
    requires ListsInv(st)
    ensures ListsInv(Apply(st, TabDies(tab)))
  {
    EngineKeepsLists(st, Apply(st, TabDies(tab)));
  }

  lemma CloseKeepsLists(st: State, context: nat, page: PageId, closer: Option<nat>)
    requires ListsInv(st)
    ensures ListsInv(CloseIn(st, context, page, closer))
  {
    EngineKeepsLists(st, CloseIn(st, context, page, closer));
  }

  lemma RelabelKeepsLists(st: State, slots: seq<PageSlot>)
    requires ListsInv(st) && |slots| == |st.slots|
    requires forall i :: 0 <= i < |slots| ==> slots[i].id == st.slots[i].id && slots[i].handle == st.slots[i].handle
    ensures ListsInv(st.(slots := slots))
  {
    var next := st.(slots := slots);
    SameHandles(st.slots, slots);
    forall call | call in next.calls ensures CallInv(next, call) { assert CallInv(st, call); }
    forall tab | 0 <= tab < |next.tabs| ensures PlaceInv(next, tab) { assert PlaceInv(st, tab); }
    forall slot | slot in next.slots ensures SlotInv(next, slot) {
      var i :| 0 <= i < |slots| && slots[i] == slot;
      assert SlotInv(st, st.slots[i]);
    }
    if st.rebuild.Some? {
      forall slot | slot in st.rebuild.value.restored ensures RestoredInv(next, slot) { assert RestoredInv(st, slot); }
    }
  }

  lemma ActivateKeepsLists(st: State, page: PageId)
    requires ListsInv(st)
    ensures ListsInv(Activate(st, page))
  {
    if Tracks(st.slots, page) { RelabelKeepsLists(st, Activated(st.slots, page)); }
  }

  /** A new tab, in the hands of the call that opened it. */
  lemma OpenKeepsLists(st: State, call: nat, opener: Opener, context: nat)
    requires Inv(st) && call in st.calls && st.calls[call] == Opening(opener, context) && !opener.Adoption?
    requires context < |st.contexts|
    ensures ListsInv(Open(st, call, opener, context, true))
  {
    var next := Open(st, call, opener, context, true);
    forall c | c in next.calls ensures CallInv(next, c) { if c != call { assert CallInv(st, c); } }
    forall tab | 0 <= tab < |next.tabs| ensures PlaceInv(next, tab) {
      if tab < |st.tabs| { assert PlaceInv(st, tab); }
    }
    forall slot | slot in next.slots ensures SlotInv(next, slot) { assert SlotInv(st, slot); }
    if st.rebuild.Some? {
      forall slot | slot in st.rebuild.value.restored ensures RestoredInv(next, slot) { assert RestoredInv(st, slot); }
    }
  }

  lemma WindowKeepsLists(st: State, tab: Tab)
    requires ListsInv(st) && tab.place.Loose?
    ensures ListsInv(st.(tabs := st.tabs + [tab]))
  {
    var next := st.(tabs := st.tabs + [tab]);
    forall c | c in next.calls ensures CallInv(next, c) { assert CallInv(st, c); }
    forall h | 0 <= h < |next.tabs| ensures PlaceInv(next, h) { if h < |st.tabs| { assert PlaceInv(st, h); } }
    forall slot | slot in next.slots ensures SlotInv(next, slot) { assert SlotInv(st, slot); }
    if st.rebuild.Some? {
      forall slot | slot in st.rebuild.value.restored ensures RestoredInv(next, slot) { assert RestoredInv(st, slot); }
    }
  }

  /** No slot has a window that is not tracked, so that driving it here reaches none of them. */
  lemma DrivingKeepsLists(st: State, window: nat, context: nat)
    requires ListsInv(st) && window < |st.tabs| && !Tracks(st.slots, Window(window))
    ensures ListsInv(st.(pages := st.pages[Entry(context, Window(window)) := window],
                         tabs := st.tabs[window := st.tabs[window].(closer := None)]))
  {
    forall slot | slot in st.slots ensures slot.id != Window(window) && SlotInv(st, slot) {
      var i :| 0 <= i < |st.slots| && st.slots[i] == slot;
    }
    EngineKeepsLists(st, st.(pages := st.pages[Entry(context, Window(window)) := window],
                             tabs := st.tabs[window := st.tabs[window].(closer := None)]));
  }

  lemma AdoptKeepsLists(st: State, call: nat, opener: Opener, context: nat, ok: bool)
    requires Inv(st) && call in st.calls && st.calls[call] == Adopting(opener, context)
    ensures ListsInv(Adopt(st, call, opener, context, ok))
  {
    assert CallInv(st, call);
    var window := opener.window;
    var entry := Entry(context, Window(window));
    var held := Holding(opener, Window(window), Handle(window, context));
    if !Tracks(st.slots, Window(window)) && entry in st.pages {
      assert EntryInv(st.contexts, st.tabs, st.pages, entry);
      assert IdInv(st.contexts, st.tabs, st.pages[entry]);
      GotoKeepsLists(st, call, held);
    } else if !Tracks(st.slots, Window(window)) && ok && Adoptable(st, window, context) {
      DrivingKeepsLists(st, window, context);
      GotoKeepsLists(st.(pages := st.pages[entry := window],
                         tabs := st.tabs[window := st.tabs[window].(closer := None)]), call, held);
    } else {
      EndKeepsLists(st, call);
    }
  }

  lemma RefuseKeepsLists(st: State, call: nat, opener: Opener, page: PageId, handle: Handle)
    requires ListsInv(st) && call in st.calls && st.calls[call] == Holding(opener, page, handle)
    requires Refused(st, opener, page)
    ensures ListsInv(Register(st, call, opener, page, handle))
  {
    assert CallInv(st, call);
    if opener.Adoption? {
      EndKeepsLists(st, call);
    } else {
      var next := Goto(st, call, Discarding(page, handle));
      forall c | c in next.calls ensures CallInv(next, c) { if c != call { assert CallInv(st, c); } }
      forall tab | 0 <= tab < |st.tabs| && st.tabs[tab].place.InHand? ensures PlaceInv(next, tab) {
        assert PlaceInv(st, tab);
      }
      CallsKeepLists(st, next.calls);
    }
  }

  /** A tab in hand, or a window whose id the list does not track, is not in the list. */
  lemma HeldIsUnlisted(st: State, call: nat, opener: Opener, page: PageId, handle: Handle)
    requires ListsInv(st) && call in st.calls && st.calls[call] == Holding(opener, page, handle)
    requires !Refused(st, opener, page)
    ensures !InList(st.slots, handle.tab)
  {
    assert CallInv(st, call);
    forall i | 0 <= i < |st.slots| ensures st.slots[i].handle.tab != handle.tab { assert SlotInv(st, st.slots[i]); }
  }

  lemma AdmitKeepsLists(st: State, call: nat, opener: Opener, page: PageId, handle: Handle)
    requires ListsInv(st) && call in st.calls && st.calls[call] == Holding(opener, page, handle)
    requires !Refused(st, opener, page)
    ensures ListsInv(Register(st, call, opener, page, handle))
  {
    assert CallInv(st, call);
    HeldIsUnlisted(st, call, opener, page, handle);
    var slot := PageSlot(page, Url(opener), handle, opener.Lookup?);
    var next := Register(st, call, opener, page, handle);
    assert next.slots == st.slots + [slot];
    forall c | c in next.calls ensures CallInv(next, c) { if c != call { assert CallInv(st, c); } }
    forall tab | 0 <= tab < |next.tabs| ensures PlaceInv(next, tab) {
      assert PlaceInv(st, tab);
      InListAppend(st.slots, slot, tab);
    }
    forall s | s in next.slots ensures SlotInv(next, s) { if s in st.slots { assert SlotInv(st, s); } }
    forall i | 0 <= i < |st.slots| ensures st.slots[i].handle.tab != handle.tab {}
  }

  lemma ReleaseKeepsLists(st: State, call: nat, page: PageId, handle: Handle)
    requires ListsInv(st) && call in st.calls && st.calls[call] == Discarding(page, handle)
    ensures ListsInv(End(st.(tabs := Moved(st.tabs, handle.tab, Loose)), call))
  {
    assert CallInv(st, call);
    var next := End(st.(tabs := Moved(st.tabs, handle.tab, Loose)), call);
    forall c | c in next.calls ensures CallInv(next, c) { assert CallInv(st, c); }
    forall tab | 0 <= tab < |next.tabs| ensures PlaceInv(next, tab) { assert PlaceInv(st, tab); }
    forall s | s in next.slots ensures SlotInv(next, s) { assert SlotInv(st, s); }
    if st.rebuild.Some? {
      forall s | s in st.rebuild.value.restored ensures RestoredInv(next, s) { assert RestoredInv(st, s); }
    }
  }

  lemma DiscardKeepsLists(st: State, call: nat, page: PageId, handle: Handle, ok: bool)
    requires ListsInv(st) && call in st.calls && st.calls[call] == Discarding(page, handle)
    ensures ListsInv(Discard(st, call, page, handle, ok))
  {
    CloseKeepsLists(st, handle.context, page, None);
    ReleaseKeepsLists(if ok then CloseIn(st, handle.context, page, None) else st, call, page, handle);
  }

  lemma UntrackKeepsSlots(st: State, page: PageId, slot: PageSlot)
    requires ListsInv(st) && Tracks(st.slots, page) && slot in Untrack(st, page).slots
    ensures SlotInv(Untrack(st, page), slot)
  {
    var was := SlotBefore(st.slots, page, slot);
    assert SlotInv(st, was);
    assert InList(Untrack(st, page).slots, slot.handle.tab) by {
      var i :| 0 <= i < |Untrack(st, page).slots| && Untrack(st, page).slots[i] == slot;
    }
    InListWithout(st.slots, page, slot.handle.tab);
  }

  lemma UntrackKeepsPlaces(st: State, page: PageId, tab: nat)
    requires ListsInv(st) && Tracks(st.slots, page) && tab < |st.tabs|
    ensures PlaceInv(Untrack(st, page), tab)
  {
    assert PlaceInv(st, tab);
    InListWithout(st.slots, page, tab);
  }

  lemma UntrackKeepsLists(st: State, page: PageId)
    requires ListsInv(st)
    ensures ListsInv(Untrack(st, page))
  {
    if Tracks(st.slots, page) {
      var next := Untrack(st, page);
      assert SlotInv(st, st.slots[Position(st.slots, page).value]);
      WithoutKeepsTabs(st.slots, page);
      forall c | c in next.calls ensures CallInv(next, c) { assert CallInv(st, c); }
      forall tab | 0 <= tab < |next.tabs| ensures PlaceInv(next, tab) { UntrackKeepsPlaces(st, page, tab); }
      forall s | s in next.slots ensures SlotInv(next, s) { UntrackKeepsSlots(st, page, s); }
      if st.rebuild.Some? {
        forall s | s in st.rebuild.value.restored ensures RestoredInv(next, s) { assert RestoredInv(st, s); }
      }
    }
  }

  lemma TakeOverKeepsLists(st: State)
    requires ListsInv(st)
    ensures ListsInv(TakeOver(st))
  {
    if st.rebuild.None? {
      var next := TakeOver(st);
      forall c | c in next.calls ensures CallInv(next, c) { assert CallInv(st, c); }
      forall tab | 0 <= tab < |next.tabs| ensures PlaceInv(next, tab) { assert PlaceInv(st, tab); }
      forall s | s in next.slots ensures SlotInv(next, s) { assert SlotInv(st, s); }
    }
  }

  lemma SwapKeepsLists(st: State, replacement: bool, skipped: nat)
    requires Inv(st) && st.rebuild.Some? && !st.rebuild.value.swapped
    ensures ListsInv(Swap(st, st.rebuild.value, replacement, skipped))
  {
    var r := st.rebuild.value;
    var next := Swap(st, r, replacement, skipped);
    assert r.restored == [] by { assert |RecoveryPoints(r.restored)| == 0; }
    forall entry | entry in st.pages ensures entry.context < |st.contexts| {
      assert EntryInv(st.contexts, st.tabs, st.pages, entry);
    }
    forall c | c in next.calls ensures CallInv(next, c) { assert CallInv(st, c); }
    forall tab | 0 <= tab < |next.tabs| ensures PlaceInv(next, tab) { assert PlaceInv(st, tab); }
    forall s | s in next.slots ensures SlotInv(next, s) {
      assert SlotInv(st, s);
    }
  }

  lemma RestorableGrows(r: Rebuild, ok: bool)
    requires |r.answered| < |r.saved|
    ensures var position := |r.answered|;
            var before := Restorable(r.saved[..position], r.answered, r.activeIndex);
            Restorable(r.saved[..position + 1], r.answered + [ok], r.activeIndex) ==
            if Blank(r.saved[position].url) || !ok then before
            else before + [RecoveryPoint(r.saved[position].url, r.activeIndex == Some(position))]
  {
    var position := |r.answered|;
    assert r.saved[..position + 1][..position] == r.saved[..position];
    assert (r.answered + [ok])[..position] == r.answered;
  }

  lemma AppendKeepsOneActive(slots: seq<PageSlot>, slot: PageSlot)
    requires AtMostOneActive(slots) && DistinctTabs(slots) && !InList(slots, slot.handle.tab)
    requires slot.active ==> FirstActive(slots).None?
    ensures AtMostOneActive(slots + [slot]) && DistinctTabs(slots + [slot])
    ensures FirstActive(slots + [slot]).Some? <==> FirstActive(slots).Some? || slot.active
  {
    var longer := slots + [slot];
    if FirstActive(slots).Some? { assert longer[FirstActive(slots).value].active; }
    if slot.active { assert longer[|slots|].active; }
    if FirstActive(longer).Some? && !slot.active { assert slots[FirstActive(longer).value].active; }
  }

  lemma PointsGrow(slots: seq<PageSlot>, slot: PageSlot)
    ensures RecoveryPoints(slots + [slot]) == RecoveryPoints(slots) + [RecoveryPoint(slot.url, slot.active)]
  {
  }

  lemma AnswerKeepsRebuildInv(r: Rebuild, ok: bool, slot: PageSlot)
    requires RebuildInv(r) && r.swapped && |r.answered| < |r.saved|
    requires slot.url == r.saved[|r.answered|].url && (slot.active <==> r.activeIndex == Some(|r.answered|))
    requires !InList(r.restored, slot.handle.tab)
    ensures var next := r.(answered := r.answered + [ok]);
            RebuildInv(if Blank(slot.url) || !ok then next else next.(restored := r.restored + [slot]))
  {
    var next := r.(answered := r.answered + [ok]);
    RestorableGrows(r, ok);
    if !Blank(slot.url) && ok {
      AppendKeepsOneActive(r.restored, slot);
      PointsGrow(r.restored, slot);
    }
    assert |next.answered| == |r.answered| + 1;
  }

  lemma NextIsNotRestored(st: State)
    requires ListsInv(st) && st.rebuild.Some?
    ensures !InList(st.rebuild.value.restored, |st.tabs|)
  {
    var restored := st.rebuild.value.restored;
    forall i | 0 <= i < |restored| ensures restored[i].handle.tab != |st.tabs| { assert RestoredInv(st, restored[i]); }
  }

  lemma PassOverKeepsLists(st: State, ok: bool)
    requires Inv(st) && st.rebuild.Some? && st.rebuild.value.swapped
    requires var r := st.rebuild.value; |r.answered| < |r.saved| && (Blank(r.saved[|r.answered|].url) || !ok)
    ensures ListsInv(RestoreNext(st, st.rebuild.value, ok))
  {
    var r := st.rebuild.value;
    var next := RestoreNext(st, r, ok);
    var point := r.saved[|r.answered|];
    NextIsNotRestored(st);
    AnswerKeepsRebuildInv(r, ok, PageSlot(Window(0), point.url, Handle(|st.tabs|, 0),
                                          r.activeIndex == Some(|r.answered|)));
    forall c | c in next.calls ensures CallInv(next, c) { assert CallInv(st, c); }
    forall tab | 0 <= tab < |next.tabs| ensures PlaceInv(next, tab) { assert PlaceInv(st, tab); }
    forall s | s in next.slots ensures SlotInv(next, s) { assert SlotInv(st, s); }
    forall s | s in r.restored ensures RestoredInv(next, s) { assert RestoredInv(st, s); }
  }

  lemma ReopenKeepsLists(st: State)
    requires Inv(st) && st.rebuild.Some? && st.rebuild.value.swapped
    requires var r := st.rebuild.value; |r.answered| < |r.saved| && !Blank(r.saved[|r.answered|].url)
    ensures ListsInv(RestoreNext(st, st.rebuild.value, true))
  {
    var r := st.rebuild.value;
    var next := RestoreNext(st, r, true);
    var slot := next.rebuild.value.restored[|r.restored|];
    NextIsNotRestored(st);
    AnswerKeepsRebuildInv(r, true, slot);
    forall c | c in next.calls ensures CallInv(next, c) { assert CallInv(st, c); }
    forall tab | 0 <= tab < |next.tabs| ensures PlaceInv(next, tab) {
      if tab < |st.tabs| { assert PlaceInv(st, tab); }
      InListAppend(r.restored, slot, tab);
    }
    forall s | s in next.slots ensures SlotInv(next, s) { assert SlotInv(st, s); }
    forall s | s in next.rebuild.value.restored ensures RestoredInv(next, s) {
      if s in r.restored { assert RestoredInv(st, s); }
    }
  }

  lemma WriteBackKeepsLists(st: State)
    requires Inv(st) && st.rebuild.Some? && st.rebuild.value.swapped
    ensures ListsInv(WriteBack(st, st.rebuild.value))
  {
    var r := st.rebuild.value;
    var next := WriteBack(st, r);
    assert forall i :: 0 <= i < |r.restored| ==>
             next.slots[i].id == r.restored[i].id && next.slots[i].handle == r.restored[i].handle;
    SameHandles(r.restored, next.slots);
    forall c | c in next.calls ensures CallInv(next, c) { assert CallInv(st, c); }
    forall tab | 0 <= tab < |next.tabs| ensures PlaceInv(next, tab) { assert PlaceInv(st, tab); }
    forall s | s in next.slots ensures SlotInv(next, s) {
      var i :| 0 <= i < |next.slots| && next.slots[i] == s;
      assert RestoredInv(st, r.restored[i]);
    }
  }

  lemma AbandonKeepsLists(st: State)
    requires ListsInv(st) && st.rebuild.Some?
    ensures ListsInv(Abandon(st))
  {
    var next := Abandon(st);
    forall c | c in next.calls ensures CallInv(next, c) { assert CallInv(st, c); }
    forall tab | 0 <= tab < |next.tabs| ensures PlaceInv(next, tab) { assert PlaceInv(st, tab); }
    forall s | s in next.slots ensures SlotInv(next, s) { assert SlotInv(st, s); }
  }

  lemma OpeningKeepsLists(st: State, call: nat, ok: bool)
    requires Inv(st) && call in st.calls && st.calls[call].Opening?
    ensures ListsInv(StepCall(st, call, ok))
  {
    assert CallInv(st, call);
    var opener, context := st.calls[call].opener, st.calls[call].context;
    if !ok || context >= |st.contexts| {
      EndKeepsLists(st, call);
    } else if opener.Adoption? {
      EndKeepsLists(st, call);
      GotoKeepsLists(st, call, Adopting(opener, context));
    } else {
      OpenKeepsLists(st, call, opener, context);
    }
  }

  lemma PlainKeepsLists(st: State, call: nat, ok: bool)
    requires Inv(st) && call in st.calls && Plain(st.calls[call])
    ensures ListsInv(StepCall(st, call, ok))
  {
    match st.calls[call]
    case Activating(page) =>
      ActivateKeepsLists(st, page);
      EndKeepsLists(Activate(st, page), call);
    case Asking(opener) =>
      EndKeepsLists(st, call);
      GotoKeepsLists(st, call, Choosing(opener));
    case Choosing(opener) => GotoKeepsLists(st, call, Opening(opener, Current(st)));
    case Finding(page) =>
      EndKeepsLists(st, call);
      GotoKeepsLists(st, call, Reaching(page));
    case Reaching(page) => GotoKeepsLists(st, call, Closing(page, Current(st)));
  }

  lemma StepKeepsLists(st: State, call: nat, ok: bool)
    requires Inv(st)
    ensures ListsInv(StepCall(st, call, ok))
  {
    if call in st.calls {
      assert CallInv(st, call);
      match st.calls[call]
      case Opening(_, _) => OpeningKeepsLists(st, call, ok);
      case Adopting(opener, context) => AdoptKeepsLists(st, call, opener, context, ok);
      case Holding(opener, page, handle) =>
        if Refused(st, opener, page) {
          RefuseKeepsLists(st, call, opener, page, handle);
        } else {
          AdmitKeepsLists(st, call, opener, page, handle);
        }
      case Discarding(page, handle) => DiscardKeepsLists(st, call, page, handle, ok);
      case Closing(page, context) =>
        EndKeepsLists(st, call);
        CloseKeepsLists(st, context, page, Some(call));
        GotoKeepsLists(CloseIn(st, context, page, Some(call)), call, Untracking(page));
      case Untracking(page) =>
        UntrackKeepsLists(st, page);
        EndKeepsLists(Untrack(st, page), call);
      case _ => PlainKeepsLists(st, call, ok);
    }
  }

  lemma RebuildKeepsLists(st: State, ev: Event)
    requires Inv(st) && (ev.Restore? || ev.FinishRebuild? || ev.AbandonRebuild?)
    ensures ListsInv(Apply(st, ev))
  {
    if st.rebuild.Some? {
      var r := st.rebuild.value;
      match ev
      case Restore(ok) =>
        if r.swapped && |r.answered| < |r.saved| {
          if Blank(r.saved[|r.answered|].url) || !ok { PassOverKeepsLists(st, ok); } else { ReopenKeepsLists(st); }
        }
      case FinishRebuild => if r.swapped { WriteBackKeepsLists(st); }
      case AbandonRebuild => AbandonKeepsLists(st);
    }
  }

  lemma StartKeepsLists(st: State, call: nat, first: Call, allowed: bool)
    requires ListsInv(st) && (first.Asking? || first.Finding?)
    ensures ListsInv(Start(st, call, first, allowed))
  {
    if call !in st.calls { GotoKeepsLists(st, call, first); }
  }

  lemma ApplyKeepsLists(st: State, ev: Event)
    requires Inv(st)
    ensures ListsInv(Apply(st, ev))
  {
    match ev
    case StartLookup(call) =>
      StartKeepsLists(st, call, Asking(Lookup), st.recovering || FirstActive(st.slots).None?);
    case StartOpenTab(call) => StartKeepsLists(st, call, Asking(OpenTab), true);
    case StartAdoption(call, window, url) => StartKeepsLists(st, call, Asking(Adoption(window, url)), true);
    case StartClose(call, page) => StartKeepsLists(st, call, Finding(page), !st.recovering);
    case Step(call, ok) => StepKeepsLists(st, call, ok);
    case Select(page) => ActivateKeepsLists(st, page);
    case SetUrl(page, url) => RelabelKeepsLists(st, WithUrl(st.slots, page, url));
    case WindowAppears(context, closable) =>
      WindowKeepsLists(st, Tab(Window(|st.tabs|), context, true, closable, None, Loose));
    case TabDies(tab) => DeathKeepsLists(st, tab);
    case NumberLost(context) => EngineKeepsLists(st, st.(contexts := Drawn(st.contexts, context)));
    case BeginRebuild => TakeOverKeepsLists(st);
    case SwapContext(replacement, skipped) =>
      if Swaps(st, ev) { SwapKeepsLists(st, replacement, skipped); }
    case _ => RebuildKeepsLists(st, ev);
  }

  lemma ApplyKeepsInv(st: State, ev: Event)
    requires Inv(st)
    ensures Inv(Apply(st, ev))
  {
    forall call | call in st.calls && st.calls[call].Adopting? ensures st.calls[call].context < |st.contexts| {
      assert CallInv(st, call);
    }
    ApplyKeepsIds(st, ev);
    ApplyKeepsLists(st, ev);
  }

  lemma {:induction false} RunKeepsInv(number: nat, evs: seq<Event>)
    ensures Inv(Run(Apply, Init(number), evs))
  {
    forall st, ev | Inv(st) ensures Inv(Apply(st, ev)) { ApplyKeepsInv(st, ev); }
    Invariant(Apply, Anything, Inv, Init(number), evs);
  }
}
