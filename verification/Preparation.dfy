/**
 The ref-scope preparation protocol of one CDP target.

 `prepare_once` (crates/engine-cdp/src/context.rs) is a chain of browser calls. Each call may or
 may not run in the browser, and its answer may or may not come back; a call whose answer is lost
 fails the attempt. Between any two calls the page may run script or navigate, and the attempt's
 future may be dropped. The target's gate admits one attempt at a time, so one program counter is
 enough.
 */
module Preparation {
  import opened Options
  import opened Runs

  /** The value a minter answers with. */
  type Scope = nat

  /** The main-world scope minter of a document, as the browser reports it. */
  datatype Minter =
    | Missing
    | Mutable                  // present, but the page can still replace it
    | DocumentStart            // locked by the registered document-start script
    | Defined(scope: Scope)    // locked by an engine define
    | Planted                  // locked by the page
    | Blocked                  // fixed by the page as something else than a locked function
  {
    predicate Replaceable() { Missing? || Mutable? }

    predicate Locked() { DocumentStart? || Defined? || Planted? }

    predicate EngineInstalled() { DocumentStart? || Defined? }
  }

  /** `shadow`: the isolated world holds the document-start minter. `claim`: the isolated world's
      scope claim. */
  datatype Document = Document(id: nat, shadow: bool, claim: Option<Scope>, minter: Minter)

  /** How far the running attempt is; each constructor names the call about to be made. */
  datatype Pc =
    | Idle
    | Registering
    | ProbingStart
    | ReadingLock
    | ProbingClaim(scope: Scope)
    | ReadingMinter(scope: Scope, own: bool)
    | CallingMinter(scope: Scope, doc: nat, own: bool)
    | Minting
    | Claiming(scope: Scope)
    | Defining(scope: Scope, previous: Option<Scope>)

  /** One define call: the document it met, and whether it installed the minter. */
  datatype Define = Define(doc: nat, landed: bool)

  datatype State = State(
    doc: Document,
    recorded: Option<Scope>,    // the scope the gate remembers
    pc: Pc,
    minted: set<Scope>,         // every scope an attempt drew
    known: set<Scope>,          // the scopes page script has had a chance to read
    defines: seq<Define>,       // every define call made
    prepared: seq<Document>)    // the document each `Ok` was answered for

  /** What a navigation finds registered for the document it creates. */
  datatype Registration = Bare | MainOnly | Full

  datatype Event =
    | Begin
    | Abandon                                            // the attempt's future is dropped
    | Reply(runs: bool, answered: bool, value: Scope)    // the pending call
    | Plant(minter: Minter)                              // page script replaces the minter
    | Navigate(registration: Registration)

  function Loaded(id: nat, registration: Registration): Document {
    match registration
    case Bare => Document(id, false, None, Missing)
    case MainOnly => Document(id, false, None, DocumentStart)
    case Full => Document(id, true, None, DocumentStart)
  }

  function Init(doc: Document): State {
    State(doc, None, Idle, {}, {}, [], [])
  }

  // ----- the steps of an attempt

  function Fail(st: State): State { st.(pc := Idle) }

  function Succeed(st: State): State { st.(pc := Idle, prepared := st.prepared + [st.doc]) }

  /** Past the document-start check: the remembered scope is looked up, or a fresh one is minted. */
  function Recall(st: State): State {
    st.(pc := match st.recorded case None => Minting case Some(scope) => ProbingClaim(scope))
  }

  function Answer(minter: Minter, value: Scope): Scope {
    if minter.Defined? then minter.scope else value
  }

  function CallMinter(st: State, answered: bool, value: Scope): State
    requires st.pc.CallingMinter?
  {
    if !answered || st.doc.id != st.pc.doc then Fail(st)
    else if Answer(st.doc.minter, value) == st.pc.scope then Succeed(st)
    else if st.pc.own then Fail(st)
    else st.(pc := Minting)
  }

  function Claim(st: State, runs: bool, answered: bool): State
    requires st.pc.Claiming?
  {
    var scope := st.pc.scope;
    var claimed := if runs then st.(doc := st.doc.(claim := Some(scope))) else st;
    if !answered then Fail(claimed)
    else claimed.(recorded := Some(scope), pc := Defining(scope, st.recorded))
  }

  function DefineScope(st: State, runs: bool, answered: bool): State
    requires st.pc.Defining?
  {
    var scope := st.pc.scope;
    var lands := runs && st.doc.minter.Replaceable();
    var called := st.(defines := st.defines + [Define(st.doc.id, lands)]);
    var after := if lands
                 then called.(doc := st.doc.(minter := Defined(scope)), known := st.known + {scope})
                 else called;
    if !answered then Fail(after)
    else if lands then after.(pc := ReadingMinter(scope, true))
    else Fail(after.(recorded := st.pc.previous))
  }

  function Step(st: State, runs: bool, answered: bool, value: Scope): State {
    match st.pc
    case Idle => st
    case Registering => if answered then st.(pc := ProbingStart) else Fail(st)
    case ProbingStart =>
      if !answered then Fail(st) else if st.doc.shadow then st.(pc := ReadingLock) else Recall(st)
    case ReadingLock => if answered && st.doc.minter.Locked() then Succeed(st) else Recall(st)
    case ProbingClaim(scope) =>
      if !answered then Fail(st)
      else st.(pc := if st.doc.claim == Some(scope) then ReadingMinter(scope, false) else Minting)
    case ReadingMinter(scope, own) =>
      if answered && st.doc.minter.Locked() then st.(pc := CallingMinter(scope, st.doc.id, own))
      else Fail(st)
    case CallingMinter(_, _, _) => CallMinter(st, answered, value)
    case Minting =>
      if answered then st.(minted := st.minted + {value}, pc := Claiming(value)) else Fail(st)
    case Claiming(_) => Claim(st, runs, answered)
    case Defining(_, _) => DefineScope(st, runs, answered)
  }

  function Apply(st: State, ev: Event): State {
    match ev
    case Begin => if st.pc.Idle? then st.(pc := Registering) else st
    case Abandon => Fail(st)
    case Reply(runs, answered, value) => Step(st, runs, answered, value)
    case Plant(minter) =>
      if st.doc.minter.Replaceable() || (st.doc.minter.Blocked? && minter.Planted?)
      then st.(doc := st.doc.(minter := minter))
      else st
    case Navigate(registration) => st.(doc := Loaded(st.doc.id + 1, registration))
  }

  // ----- the environment the protocol is written for

  /** The attempt stands where it will trust what it finds without asking for a claim again: about to read
      a minter it takes for the document-start one, about to read the one its claim vouched for when the
      page may know that scope, or about to define under a claim it has made. */
  predicate Trusting(st: State) {
    st.pc.ReadingLock? || st.pc.Defining? || (st.pc.ReadingMinter? && st.pc.scope in st.known)
  }

  /** What the protocol assumes of one event: an answer implies the call ran; minted scopes are
      fresh; a page answers only with values it could have read, a document-start minter with a new
      one; page script runs after document start and can plant only its own minter; and no document
      without its registration loads under a trusting attempt. */
  predicate Legal(st: State, ev: Event) {
    match ev
    case Reply(runs, answered, value) =>
      && (answered ==> runs)
      && (st.pc.Minting? ==> value !in st.minted)
      && (st.pc.CallingMinter? ==>
            && (st.doc.minter.Planted? ==> value in st.known || value !in st.minted)
            && (st.doc.minter.DocumentStart? ==> value !in st.minted))
    case Plant(minter) => !minter.EngineInstalled()
    case Navigate(registration) => registration.Bare? ==> !Trusting(st)
    case _ => true
  }

  /** A document no attempt has met yet. */
  predicate Untouched(doc: Document) {
    doc.claim.None? && !doc.minter.Defined? && (doc.shadow ==> doc.minter.DocumentStart?)
  }

  // ----- the inductive invariant

  /** The claim and the record both name the install a document carries, and a claimed scope the
      page has read is one the engine defined here. */
  ghost predicate DocumentInv(st: State) {
    && (st.doc.minter.Defined? ==>
          st.doc.claim == Some(st.doc.minter.scope) == st.recorded && st.doc.minter.scope in st.known)
    && (st.doc.shadow ==> st.doc.minter.DocumentStart?)
    && (st.doc.claim.Some? ==> st.doc.claim.value in st.minted)
    && (st.doc.claim.Some? && st.doc.claim.value in st.known ==>
          st.doc.minter == Defined(st.doc.claim.value))
    && (st.recorded.Some? ==> st.recorded.value in st.minted)
    && st.known <= st.minted
  }

  ghost predicate DefinesInv(st: State) {
    && (forall i :: 0 <= i < |st.defines| ==> st.defines[i].doc <= st.doc.id)
    && (forall i :: 0 <= i < |st.defines| && st.defines[i].landed && st.defines[i].doc == st.doc.id ==>
          st.doc.minter.Defined?)
  }

  /** The document still bears out the scope: it is covered from document start, it carries the claim and,
      after an own define, the install; or the page cannot have read the scope. */
  ghost predicate Vouched(st: State, scope: Scope, own: bool) {
    || st.doc.minter.DocumentStart?
    || (st.doc.claim == Some(scope) && (own ==> st.doc.minter == Defined(scope)))
    || scope !in st.known
  }

  /** What each program counter knows, whatever was loaded meanwhile. */
  ghost predicate PcInv(st: State) {
    match st.pc
    case ReadingLock => st.doc.minter.DocumentStart?
    case ProbingClaim(scope) => st.recorded == Some(scope)
    case ReadingMinter(scope, own) => st.recorded == Some(scope) && Vouched(st, scope, own)
    case CallingMinter(scope, met, own) =>
      && st.recorded == Some(scope) && met <= st.doc.id
      && (met == st.doc.id ==> st.doc.minter.Locked() && Vouched(st, scope, own))
    case Minting => !st.doc.minter.Defined?
    case Claiming(scope) => !st.doc.minter.Defined? && scope in st.minted && scope !in st.known
    case Defining(scope, previous) =>
      && !st.doc.minter.Defined? && scope !in st.known
      && st.recorded == Some(scope) && (st.doc.minter.DocumentStart? || st.doc.claim == Some(scope))
      && (previous.Some? ==> previous.value in st.minted)
    case _ => true
  }

  ghost predicate Inv(st: State) { DocumentInv(st) && DefinesInv(st) && PcInv(st) }

  /** A landed define is the last define its document ever receives. */
  ghost predicate NeverRedefined(st: State) {
    forall i, j :: 0 <= i < j < |st.defines| && st.defines[i].landed ==> st.defines[j].doc != st.defines[i].doc
  }

  ghost predicate OnlyEngineMinters(st: State) {
    forall i :: 0 <= i < |st.prepared| ==> st.prepared[i].minter.EngineInstalled()
  }

  lemma {:induction false} ApplyKeepsInv(st: State, ev: Event)
    requires Inv(st) && Legal(st, ev)
    ensures Inv(Apply(st, ev))
  {
    match ev
    case Reply(runs, answered, value) => StepKeepsInv(st, runs, answered, value);
    case _ =>
  }

  lemma StepKeepsInv(st: State, runs: bool, answered: bool, value: Scope)
    requires Inv(st) && Legal(st, Reply(runs, answered, value))
    ensures Inv(Step(st, runs, answered, value))
  {
    match st.pc
    case Claiming(_) => ClaimKeepsInv(st, runs, answered);
    case Defining(_, _) => DefineKeepsInv(st, runs, answered);
    case _ =>
  }

  lemma ClaimKeepsInv(st: State, runs: bool, answered: bool)
    requires Inv(st) && st.pc.Claiming? && (answered ==> runs)
    ensures Inv(Claim(st, runs, answered))
  {
  }

  lemma DefineKeepsInv(st: State, runs: bool, answered: bool)
    requires Inv(st) && st.pc.Defining? && (answered ==> runs)
    ensures Inv(DefineScope(st, runs, answered))
  {
  }

  lemma ApplyKeepsGuarantees(st: State, ev: Event)
    requires Inv(st) && Legal(st, ev) && NeverRedefined(st) && OnlyEngineMinters(st)
    ensures NeverRedefined(Apply(st, ev)) && OnlyEngineMinters(Apply(st, ev))
  {
  }

  ghost predicate Safe(st: State) { Inv(st) && NeverRedefined(st) && OnlyEngineMinters(st) }

  lemma ApplyKeepsSafe(st: State, ev: Event)
    requires Safe(st) && Legal(st, ev)
    ensures Safe(Apply(st, ev))
  {
    ApplyKeepsInv(st, ev);
    ApplyKeepsGuarantees(st, ev);
  }

  /** Over every run of attempts on one target, with calls lost or answered at will, attempts
      dropped anywhere and navigations in between: no define meets a document on which an earlier
      define landed, and every `Ok` was answered for a document whose minter the engine installed. */
  lemma {:induction false} PreparationIsSafe(doc: Document, evs: seq<Event>)
    requires Untouched(doc) && LegalRun(Apply, Legal, Init(doc), evs)
    ensures var end := Run(Apply, Init(doc), evs);
            Inv(end) && NeverRedefined(end) && OnlyEngineMinters(end)
  {
    forall st, ev | Safe(st) && Legal(st, ev) ensures Safe(Apply(st, ev)) { ApplyKeepsSafe(st, ev); }
    Invariant(Apply, Legal, Safe, Init(doc), evs);
  }

  // ----- when an attempt recovers

  /** What an attempt that nothing disturbs needs of the document it finds: cover from document
      start, an engine install it can recognize, or a minter it can still replace with no claim
      standing in for a define that never landed. */
  predicate Preparable(st: State) {
    || st.doc.shadow
    || st.doc.minter.Defined?
    || (st.doc.minter.Replaceable() && (st.recorded.None? || st.doc.claim != st.recorded))
  }

  /** `n` calls of an attempt, each run and answered, with no page action in between. */
  function Undisturbed(st: State, drawn: Scope, answer: Scope, n: nat): State {
    if n == 0 then st
    else
      var before := Undisturbed(st, drawn, answer, n - 1);
      Apply(before, Reply(true, true, if before.pc.Minting? then drawn else answer))
  }

  /** What an undisturbed attempt comes to. */
  ghost predicate Exactly(st: State, end: State, drawn: Scope) {
    && end.pc.Idle?
    && end.prepared == (if Preparable(st) then st.prepared + [end.doc] else st.prepared)
    && (Preparable(st) ==>
          end.doc.minter == (if st.doc.minter.EngineInstalled() then st.doc.minter else Defined(drawn)))
    && (st.doc.shadow || st.doc.minter.Defined? ==> end.defines == st.defines)
  }

  /** The longest attempt makes eleven calls. It succeeds exactly on a preparable document, and it
      defines only where neither the document-start script nor an earlier define has installed. */
  lemma UndisturbedAttempt(st: State, drawn: Scope, answer: Scope)
    requires Inv(st) && st.pc.Idle? && drawn !in st.minted && answer != drawn
    requires answer !in st.minted || (st.doc.minter.Planted? && answer in st.known)
    ensures Exactly(st, Undisturbed(Apply(st, Begin), drawn, answer, 11), drawn)
  {
    var s0 := Apply(st, Begin);
    assert Undisturbed(s0, drawn, answer, 1) == Step(s0, true, true, answer);
    assert Undisturbed(s0, drawn, answer, 2) == Step(Step(s0, true, true, answer), true, true, answer);
    if st.doc.shadow {
      SettledStays(s0, drawn, answer, 3, 11);
    } else if st.recorded.Some? && st.doc.claim == st.recorded {
      ClaimedAttempt(st, drawn, answer);
    } else {
      var k := if st.recorded.Some? then 3 else 2;
      assert Undisturbed(s0, drawn, answer, k).pc == Minting;
      MintAndDefine(s0, drawn, answer, k);
      SettledStays(s0, drawn, answer, if st.doc.minter.Replaceable() then k + 5 else k + 3, 11);
    }
  }

  /** The attempt on a document that carries the claim this side recorded. */
  lemma ClaimedAttempt(st: State, drawn: Scope, answer: Scope)
    requires Inv(st) && st.pc.Idle? && drawn !in st.minted && answer != drawn
    requires answer !in st.minted || (st.doc.minter.Planted? && answer in st.known)
    requires !st.doc.shadow && st.recorded.Some? && st.doc.claim == st.recorded
    ensures Exactly(st, Undisturbed(Apply(st, Begin), drawn, answer, 11), drawn)
  {
    var s0 := Apply(st, Begin);
    var s2 := Undisturbed(s0, drawn, answer, 2);
    assert s2 == Step(Step(s0, true, true, answer), true, true, answer) by {
      assert Undisturbed(s0, drawn, answer, 1) == Step(s0, true, true, answer);
    }
    assert Undisturbed(s0, drawn, answer, 3).pc == ReadingMinter(st.recorded.value, false);
    if st.doc.minter.Defined? {
      SettledStays(s0, drawn, answer, 5, 11);
    } else if !st.doc.minter.Locked() {
      SettledStays(s0, drawn, answer, 4, 11);
    } else {
      assert Undisturbed(s0, drawn, answer, 4).pc == CallingMinter(st.recorded.value, st.doc.id, false);
      assert Undisturbed(s0, drawn, answer, 5).pc == Minting;
      MintAndDefine(s0, drawn, answer, 5);
      SettledStays(s0, drawn, answer, 8, 11);
    }
  }

  /** Once an attempt is over, further answers change nothing. */
  lemma {:induction false} SettledStays(st: State, drawn: Scope, answer: Scope, m: nat, n: nat)
    requires m <= n && Undisturbed(st, drawn, answer, m).pc.Idle?
    ensures Undisturbed(st, drawn, answer, n) == Undisturbed(st, drawn, answer, m)
    decreases n
  {
    if m < n { SettledStays(st, drawn, answer, m, n - 1); }
  }

  /** From the mint on: the define meets the minter the attempt found, and lands exactly if that can be
      replaced; a locked minter refuses it, and so does a property the page fixed as anything else. */
  lemma MintAndDefine(st: State, drawn: Scope, answer: Scope, k: nat)
    requires Undisturbed(st, drawn, answer, k).pc.Minting?
    requires drawn !in Undisturbed(st, drawn, answer, k).minted
    ensures var at := Undisturbed(st, drawn, answer, k);
            var end := Undisturbed(st, drawn, answer, if at.doc.minter.Replaceable() then k + 5 else k + 3);
            && end.pc.Idle?
            && (!at.doc.minter.Replaceable() ==> end.prepared == at.prepared && end.recorded == at.recorded)
            && (at.doc.minter.Replaceable() ==>
                  end.doc.minter == Defined(drawn) && end.prepared == at.prepared + [end.doc])
  {
    var at := Undisturbed(st, drawn, answer, k);
    assert Undisturbed(st, drawn, answer, k + 1).pc == Claiming(drawn);
    assert Undisturbed(st, drawn, answer, k + 2).pc == Defining(drawn, at.recorded);
    var defined := Undisturbed(st, drawn, answer, k + 3);
    if at.doc.minter.Replaceable() {
      assert defined.pc == ReadingMinter(drawn, true);
      assert Undisturbed(st, drawn, answer, k + 4).pc == CallingMinter(drawn, at.doc.id, true);
      assert Undisturbed(st, drawn, answer, k + 5).pc.Idle?;
    }
  }

  /** Why the record outlives a page whose close was not confirmed: were it forgotten while the document
      with its define lives on, the next attempt would define there again, and fail. */
  lemma ForgettingALiveTargetRedefines(st: State, drawn: Scope, answer: Scope)
    requires st.pc.Idle? && !st.doc.shadow && st.doc.minter.Defined? && drawn !in st.minted
    ensures var end := Undisturbed(Apply(st.(recorded := None), Begin), drawn, answer, 5);
            && end.pc.Idle? && end.prepared == st.prepared
            && end.defines == st.defines + [Define(st.doc.id, false)]
  {
    var s0 := Apply(st.(recorded := None), Begin);
    assert Undisturbed(s0, drawn, answer, 1).pc == ProbingStart;
    assert Undisturbed(s0, drawn, answer, 2).pc == Minting;
    assert Undisturbed(s0, drawn, answer, 3).pc == Claiming(drawn);
    assert Undisturbed(s0, drawn, answer, 4).pc == Defining(drawn, None);
  }

  /** An undisturbed attempt on a document just loaded: covered from its start it needs no define, without any
      cover one define prepares it, and with its main world covered alone the locked minter refuses. */
  lemma LoadedDocumentIsPrepared(st: State, registration: Registration, drawn: Scope, answer: Scope)
    requires Inv(st) && st.pc.Idle? && drawn !in st.minted && answer !in st.minted && answer != drawn
    ensures var loaded := Apply(st, Navigate(registration));
            var end := Undisturbed(Apply(loaded, Begin), drawn, answer, 11);
            match registration
            case Full => end.prepared == st.prepared + [end.doc] && end.defines == st.defines
            case Bare => end.prepared == st.prepared + [end.doc] && end.doc.minter == Defined(drawn)
            case MainOnly => end.prepared == st.prepared
  {
    var loaded := Apply(st, Navigate(registration));
    ApplyKeepsInv(st, Navigate(registration));
    UndisturbedAttempt(loaded, drawn, answer);
  }

  // ----- answers that are lost

  /** A call whose answer is lost fails the attempt, except the look at the lock, which counts as not finding
      one; and what the record then says of the target is the last scope that was claimed. */
  lemma LostAnswerFailsTheAttempt(st: State, runs: bool, value: Scope)
    requires !st.pc.Idle?
    ensures var end := Step(st, runs, false, value);
            && end.prepared == st.prepared && end.recorded == st.recorded && end.minted == st.minted
            && (!st.pc.ReadingLock? ==> end.pc.Idle?)
            && (st.pc.ReadingLock? ==>
                  end.pc == if st.recorded.Some? then ProbingClaim(st.recorded.value) else Minting)
            && (end.doc.minter != st.doc.minter ==>
                  runs && st.pc.Defining? && end.doc.minter == Defined(st.pc.scope) && end.recorded == st.recorded)
  {
  }

  /** A define that ran although its answer was lost is recognized by the next attempt: it succeeds and defines
      nothing again. */
  lemma LostDefineIsRecognized(st: State, drawn: Scope, answer: Scope)
    requires Inv(st) && st.pc.Defining? && st.doc.minter.Replaceable()
    requires drawn !in st.minted && answer != drawn && answer !in st.minted
    ensures var lost := Step(st, true, false, answer);
            var end := Undisturbed(Apply(lost, Begin), drawn, answer, 11);
            && lost.pc.Idle? && lost.defines == st.defines + [Define(st.doc.id, true)]
            && end.pc.Idle? && end.prepared == st.prepared + [end.doc] && end.defines == lost.defines
            && end.doc.minter == Defined(st.pc.scope)
  {
    var lost := Step(st, true, false, answer);
    assert DefineScope(st, true, false) == lost;
    DefineKeepsInv(st, true, false);
    UndisturbedAttempt(lost, drawn, answer);
  }

  // ----- a define that never landed strands its document

  /** The calls before an attempt decides to mint. */
  predicate MintsNothing(pc: Pc) {
    match pc
    case Idle => true
    case Registering => true
    case ProbingStart => true
    case ProbingClaim(_) => true
    case ReadingMinter(_, own) => !own
    case _ => false
  }

  /** The document carries the remembered claim, or a property the page has fixed; the engine has installed
      nothing, and the running attempt cannot. */
  ghost predicate Stranded(st: State) {
    && !st.doc.shadow && !st.doc.minter.EngineInstalled()
    && (!st.doc.minter.Replaceable() || (st.recorded.Some? && st.doc.claim == st.recorded && MintsNothing(st.pc)))
  }

  /** Once the claim for the remembered scope stands on a document where no define landed, no later
      attempt is answered `Ok` until the document is replaced: the claim sends every attempt to a
      minter that is not there, never back to the define. The same holds once the page has fixed the property. */
  lemma {:induction false} StrandedStays(st: State, evs: seq<Event>)
    requires Inv(st) && Stranded(st) && LegalRun(Apply, Legal, st, evs)
    requires forall ev :: ev in evs ==> !ev.Navigate?
    ensures var end := Run(Apply, st, evs);
            Stranded(end) && end.prepared == st.prepared && end.doc.id == st.doc.id
  {
    var legal := (s: State, ev: Event) => Legal(s, ev) && !ev.Navigate?;
    var inv := (s: State) => Inv(s) && Stranded(s) && s.prepared == st.prepared && s.doc.id == st.doc.id;
    forall s, ev | inv(s) && legal(s, ev) ensures inv(Apply(s, ev)) {
      ApplyKeepsInv(s, ev);
    }
    Invariant(Apply, legal, inv, st, evs);
  }

  // ----- which uncovered loads break the guarantees

  ghost predicate Guaranteed(st: State) { NeverRedefined(st) && OnlyEngineMinters(st) }

  /** Some legal continuation from `from` ends without one of the guarantees. */
  ghost predicate Breaks(from: State) {
    exists end :: Reachable(Apply, Legal, from, end) && !Guaranteed(end)
  }

  lemma Follow(reached: State -> bool, start: State, from: State, ev: Event) returns (st: State)
    requires Closed(Apply, Legal, start, reached) && reached(from) && Legal(from, ev)
    ensures st == Apply(from, ev) && reached(st)
  {
    st := Apply(from, ev);
  }

  /** A scope above every minted one. */
  lemma {:induction false} ScopeAbove(minted: set<Scope>) returns (above: Scope)
    ensures forall scope :: scope in minted ==> scope < above
    decreases |minted|
  {
    above := 0;
    if minted != {} {
      var some :| some in minted;
      var rest := ScopeAbove(minted - {some});
      above := if rest <= some then some + 1 else rest;
      assert forall scope :: scope in minted ==> scope == some || scope in minted - {some};
    }
  }

  /** At the check of the locked minter: the page of the new document plants one, and it passes. */
  lemma LoadAtLockCheckBreaks(st: State)
    requires st.pc.ReadingLock?
    ensures Breaks(Apply(st, Navigate(Bare)))
  {
    var start := Apply(st, Navigate(Bare));
    ReachableIsClosed(Apply, Legal, start);
    var reached := s => Reachable(Apply, Legal, start, s);
    var end := Follow(reached, start, start, Plant(Planted));
    end := Follow(reached, start, end, Reply(true, true, 0));
    assert end.prepared[|st.prepared|].minter.Planted?;
    assert reached(end) && !OnlyEngineMinters(end);
  }

  /** At the check of the claimed minter: the page plants one that answers the scope it has read. */
  lemma PageAnswersTheScope(reached: State -> bool, start: State, scope: Scope, own: bool) returns (end: State)
    requires Closed(Apply, Legal, start, reached) && reached(start)
    requires start.pc == ReadingMinter(scope, own) && scope in start.known && start.doc.minter.Missing?
    ensures reached(end) && !OnlyEngineMinters(end)
  {
    end := Follow(reached, start, start, Plant(Planted));
    end := Follow(reached, start, end, Reply(true, true, scope));
    assert end.pc == CallingMinter(scope, end.doc.id, own) && end.doc.minter.Planted?;
    end := Follow(reached, start, end, Reply(true, true, scope));
    assert end.prepared[|start.prepared|].minter.Planted?;
  }

  lemma LoadAtMinterCheckBreaks(st: State)
    requires st.pc.ReadingMinter? && st.pc.scope in st.known
    ensures Breaks(Apply(st, Navigate(Bare)))
  {
    var start := Apply(st, Navigate(Bare));
    ReachableIsClosed(Apply, Legal, start);
    var reached := s => Reachable(Apply, Legal, start, s);
    var end := PageAnswersTheScope(reached, start, st.pc.scope, st.pc.own);
    assert reached(end);
  }

  /** At the define: it lands on a document that lacks its claim. */
  lemma DefineMissesItsClaim(reached: State -> bool, start: State) returns (end: State)
    requires Closed(Apply, Legal, start, reached) && reached(start)
    requires start.pc.Defining? && start.recorded == Some(start.pc.scope)
    requires !start.doc.shadow && start.doc.claim.None? && start.doc.minter.Missing?
    ensures reached(end) && end.pc.Idle? && end.recorded == start.recorded && end.minted == start.minted
    ensures end.doc == start.doc.(minter := Defined(start.pc.scope))
    ensures end.defines == start.defines + [Define(start.doc.id, true)]
  {
    end := Follow(reached, start, start, Reply(true, true, 0));
    end := Follow(reached, start, end, Abandon);
  }

  /** Up to the mint: an attempt that finds no claim on an uncovered document. */
  lemma AttemptMints(reached: State -> bool, start: State, from: State) returns (end: State)
    requires Closed(Apply, Legal, start, reached) && reached(from)
    requires from.pc.Idle? && !from.doc.shadow && from.recorded.Some? && from.doc.claim.None?
    ensures reached(end) && end == from.(pc := Minting)
  {
    end := Follow(reached, start, from, Begin);
    end := Follow(reached, start, end, Reply(true, true, 0));
    end := Follow(reached, start, end, Reply(true, true, 0));
    assert end == from.(pc := ProbingClaim(from.recorded.value));
    end := Follow(reached, start, end, Reply(true, true, 0));
  }

  /** From the mint on: the document receives another define. */
  lemma AttemptDefines(reached: State -> bool, start: State, from: State) returns (end: State)
    requires Closed(Apply, Legal, start, reached) && reached(from) && from.pc.Minting?
    ensures reached(end) && from.defines < end.defines && end.defines[|from.defines|].doc == from.doc.id
  {
    var drawn := ScopeAbove(from.minted);
    end := Follow(reached, start, from, Reply(true, true, drawn));
    end := Follow(reached, start, end, Reply(true, true, 0));
    assert end.pc.Defining? && end.doc.id == from.doc.id && end.defines == from.defines;
    end := Follow(reached, start, end, Reply(true, true, 0));
  }

  lemma DefinesTwice(reached: State -> bool, start: State) returns (end: State)
    requires Closed(Apply, Legal, start, reached) && reached(start)
    requires start.pc.Defining? && start.recorded == Some(start.pc.scope)
    requires !start.doc.shadow && start.doc.claim.None? && start.doc.minter.Missing?
    ensures reached(end) && !NeverRedefined(end)
  {
    var misplaced := DefineMissesItsClaim(reached, start);
    var minting := AttemptMints(reached, start, misplaced);
    end := AttemptDefines(reached, start, minting);
    var i := |start.defines|;
    assert end.defines[i] == misplaced.defines[i] == Define(start.doc.id, true);
    assert end.defines[i + 1].doc == start.doc.id;
  }

  lemma LoadAtDefineBreaks(st: State)
    requires st.pc.Defining? && st.recorded == Some(st.pc.scope)
    ensures Breaks(Apply(st, Navigate(Bare)))
  {
    var start := Apply(st, Navigate(Bare));
    ReachableIsClosed(Apply, Legal, start);
    var reached := s => Reachable(Apply, Legal, start, s);
    var end := DefinesTwice(reached, start);
    assert reached(end);
  }

  /** Exactly: a document that loads without its registration leaves every continuation with both
      guarantees unless it loads under a trusting attempt, and then some continuation loses one. */
  lemma UncoveredLoadBreaksExactly(st: State)
    requires Safe(st)
    ensures Breaks(Apply(st, Navigate(Bare))) <==> Trusting(st)
  {
    if Trusting(st) {
      if st.pc.ReadingLock? { LoadAtLockCheckBreaks(st); }
      if st.pc.ReadingMinter? { LoadAtMinterCheckBreaks(st); }
      if st.pc.Defining? { LoadAtDefineBreaks(st); }
    } else {
      ApplyKeepsSafe(st, Navigate(Bare));
      forall end | Reachable(Apply, Legal, Apply(st, Navigate(Bare)), end) ensures Guaranteed(end) {
        SafeStays(Apply(st, Navigate(Bare)), end);
      }
    }
  }

  lemma SafeStays(start: State, end: State)
    requires Safe(start) && Reachable(Apply, Legal, start, end)
    ensures Safe(end)
  {
    var evs :| LegalRun(Apply, Legal, start, evs) && Run(Apply, start, evs) == end;
    forall st, ev | Safe(st) && Legal(st, ev) ensures Safe(Apply(st, ev)) { ApplyKeepsSafe(st, ev); }
    Invariant(Apply, Legal, Safe, start, evs);
  }

  const UNCOVERED := Document(0, false, None, Missing)
  const COVERED := Document(0, true, None, DocumentStart)

  /** All three kinds of trust are met in legal runs, so that both guarantees do need the assumption: an
      uncovered load can cost a second define, or an `Ok` for a minter the page planted. */
  lemma TrustIsReached()
    ensures exists st :: Reachable(Apply, Legal, Init(COVERED), st) && st.pc.ReadingLock?
    ensures exists st :: Reachable(Apply, Legal, Init(UNCOVERED), st) && st.pc.Defining?
    ensures exists st :: Reachable(Apply, Legal, Init(UNCOVERED), st) && st.pc.ReadingMinter? && st.pc.scope in st.known
  {
    ReachableIsClosed(Apply, Legal, Init(COVERED));
    var covered := s => Reachable(Apply, Legal, Init(COVERED), s);
    var st := Follow(covered, Init(COVERED), Init(COVERED), Begin);
    st := Follow(covered, Init(COVERED), st, Reply(true, true, 0));
    st := Follow(covered, Init(COVERED), st, Reply(true, true, 0));
    assert covered(st) && st.pc.ReadingLock?;
    ReachableIsClosed(Apply, Legal, Init(UNCOVERED));
    var reached := s => Reachable(Apply, Legal, Init(UNCOVERED), s);
    var defining, reading := DefineIsReached(reached);
    assert reached(defining) && reached(reading);
  }

  lemma DefineIsReached(reached: State -> bool) returns (defining: State, reading: State)
    requires Closed(Apply, Legal, Init(UNCOVERED), reached)
    ensures reached(defining) && defining.pc.Defining?
    ensures reached(reading) && reading.pc.ReadingMinter? && reading.pc.scope in reading.known
  {
    var start := Init(UNCOVERED);
    defining := Follow(reached, start, start, Begin);
    defining := Follow(reached, start, defining, Reply(true, true, 0));
    defining := Follow(reached, start, defining, Reply(true, true, 0));
    assert defining.pc.Minting?;
    defining := Follow(reached, start, defining, Reply(true, true, 7));
    defining := Follow(reached, start, defining, Reply(true, true, 0));
    reading := Follow(reached, start, defining, Reply(true, true, 0));
  }
}
