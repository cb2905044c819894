/**
 One dashboard connection over the event backbone (crates/dashboard/src/ws.rs): subscribe, replay
 every open session's history, then forward live envelopes, with a watermark that drops what a
 replay or a refill has brought already. A drain lists the sessions, reads their rings one at a time
 and writes the sorted batch; publishes, forgets, opens and closes may fall between any two steps.
 */
module Dashboard {
  import opened Options
  import opened Runs
  import opened Ring
  import opened History = Backbone

  // ----- sorting one batch

  function Insert(e: Envelope, sorted: seq<Envelope>): seq<Envelope> {
    if sorted == [] || e.seqNo <= sorted[0].seqNo then [e] + sorted
    else [sorted[0]] + Insert(e, sorted[1..])
  }

  /** `sort_by_key` on the sequence number. */
  function SortBySeq(batch: seq<Envelope>): seq<Envelope> {
    if batch == [] then [] else Insert(batch[0], SortBySeq(batch[1..]))
  }

  ghost predicate Distinct(s: seq<Envelope>) {
    forall i, j :: 0 <= i < j < |s| ==> s[i].seqNo != s[j].seqNo
  }

  lemma IncreasingPrepend(e: Envelope, s: seq<Envelope>)
    requires Increasing(s) && forall x :: x in s ==> e.seqNo < x.seqNo
    ensures Increasing([e] + s)
  {
    assert forall i :: 0 <= i < |s| ==> s[i] in s;
  }

  lemma {:induction false} InsertKeepsOrder(e: Envelope, sorted: seq<Envelope>)
    requires Increasing(sorted) && forall x :: x in sorted ==> x.seqNo != e.seqNo
    ensures Increasing(Insert(e, sorted))
    ensures forall x :: x in Insert(e, sorted) <==> x == e || x in sorted
  {
    if sorted == [] || e.seqNo <= sorted[0].seqNo {
      IncreasingPrepend(e, sorted);
    } else {
      InsertKeepsOrder(e, sorted[1..]);
      assert sorted == [sorted[0]] + sorted[1..];
      IncreasingPrepend(sorted[0], Insert(e, sorted[1..]));
    }
  }

  lemma {:induction false} SortOrders(batch: seq<Envelope>)
    requires Distinct(batch)
    ensures Increasing(SortBySeq(batch))
    ensures forall x :: x in SortBySeq(batch) <==> x in batch
  {
    if batch != [] {
      SortOrders(batch[1..]);
      assert batch == [batch[0]] + batch[1..];
      InsertKeepsOrder(batch[0], SortBySeq(batch[1..]));
    }
  }

  /** The watermark after a sorted batch was written; an empty batch keeps the one before. */
  function Watermark(sorted: seq<Envelope>, after: Option<nat>): Option<nat> {
    if sorted == [] then after else Some(sorted[|sorted| - 1].seqNo)
  }

  // ----- the connection as a machine

  datatype Phase =
    | Connecting
    | Listing                  // a drain is due
    | Reading(listed: set<SessionId>, readAt: map<SessionId, nat>, batch: seq<Envelope>)
    | Writing(rest: seq<Envelope>, final: Option<nat>)
    | Live
    | Ended

  /** `unlisted` and `raced` record which envelopes a drain has moved the watermark past without
      sending them: those of sessions it did not list, and those published to a listed session after
      its ring was read. `readAt` is the log's length when a session's ring was read. */
  datatype State = State(
    capacity: nat,
    ops: seq<Op>,
    open: set<SessionId>,
    cursor: nat,               // the bus receiver's position
    mark: Option<nat>,         // `sent_up_to`
    sent: seq<Envelope>,
    phase: Phase,
    unlisted: set<nat>,
    raced: set<nat>)
  {
    function Log(): seq<Envelope> { History.Log(ops) }

    function Ring(session: SessionId): seq<Envelope> { RingOf(capacity, ops, session) }
  }

  datatype Event =
    | Change(op: Op)
    | Open(session: SessionId)
    | Close(session: SessionId)
    | Subscribe
    | List
    | Read(session: SessionId)
    | Sort
    | Write(ok: bool)
    | Receive(ok: bool)

  function Init(capacity: nat): State {
    State(capacity, [], {}, 0, None, [], Connecting, {}, {})
  }

  function ReadRing(st: State, session: SessionId): State {
    if st.phase.Reading? && session in st.phase.listed && session !in st.phase.readAt then
      st.(phase := Reading(st.phase.listed, st.phase.readAt[session := |st.Log()|],
                           st.phase.batch + PastMark(st.Ring(session), st.mark)))
    else st
  }

  /** Past the watermark before the drain, not collected by it, and out of reach once it is done:
      the live stream is beyond it, or will drop it as covered. */
  predicate Skipped(st: State, final: Option<nat>, i: nat) {
    && st.phase.Reading? && i < |st.Log()|
    && Above(i, st.mark) && st.Log()[i] !in st.phase.batch
    && (i < st.cursor || !Above(i, final))
  }

  function SortBatch(st: State): State {
    if st.phase.Reading? && st.phase.listed == st.phase.readAt.Keys then
      var sorted := SortBySeq(st.phase.batch);
      var final := Watermark(sorted, st.mark);
      var skipped := set i: nat | 0 <= i < |st.Log()| && Skipped(st, final, i);
      st.(phase := Writing(sorted, final),
          unlisted := st.unlisted + (set i | i in skipped && st.Log()[i].session !in st.phase.listed),
          raced := st.raced + (set i | i in skipped && st.Log()[i].session in st.phase.readAt
                                       && st.phase.readAt[st.Log()[i].session] <= i))
    else st
  }

  function WriteNext(st: State, ok: bool): State {
    if !st.phase.Writing? then st
    else if st.phase.rest == [] then st.(phase := Live, mark := st.phase.final)
    else if !ok then st.(phase := Ended)
    else st.(sent := st.sent + [st.phase.rest[0]], phase := Writing(st.phase.rest[1..], st.phase.final))
  }

  /** One `recv` on the bus: a lagging receiver is moved to the oldest envelope still held. */
  function ReceiveNext(st: State, ok: bool): State {
    var log := st.Log();
    if !st.phase.Live? || st.cursor >= |log| then st
    else if |log| - st.cursor > CHANNEL_CAPACITY then
      st.(cursor := |log| - CHANNEL_CAPACITY, phase := Listing)
    else if !Above(st.cursor, st.mark) then st.(cursor := st.cursor + 1)
    else if !ok then st.(phase := Ended)
    else st.(cursor := st.cursor + 1, mark := Some(st.cursor), sent := st.sent + [log[st.cursor]])
  }

  function Apply(st: State, ev: Event): State {
    match ev
    case Change(op) => st.(ops := st.ops + [op])
    case Open(session) => st.(open := st.open + {session})
    case Close(session) => st.(open := st.open - {session})
    case Subscribe => if st.phase.Connecting? then st.(cursor := |st.Log()|, phase := Listing) else st
    case List => if st.phase.Listing? then st.(phase := Reading(st.open, map[], [])) else st
    case Read(session) => ReadRing(st, session)
    case Sort => SortBatch(st)
    case Write(ok) => WriteNext(st, ok)
    case Receive(ok) => ReceiveNext(st, ok)
  }

  // ----- what every step keeps

  ghost predicate InLog(log: seq<Envelope>, s: seq<Envelope>) {
    forall e :: e in s ==> e.seqNo < |log| && log[e.seqNo] == e
  }

  ghost predicate Covered(s: seq<Envelope>, mark: Option<nat>) {
    forall e :: e in s ==> !Above(e.seqNo, mark)
  }

  ghost predicate MarkInLog(log: seq<Envelope>, mark: Option<nat>) {
    mark.Some? ==> mark.value < |log|
  }

  ghost predicate ReadingInv(st: State)
    requires st.phase.Reading?
  {
    var Reading(listed, readAt, batch) := st.phase;
    && readAt.Keys <= listed
    && (forall s :: s in readAt ==> st.cursor <= readAt[s] <= |st.Log()|)
    && InLog(st.Log(), batch) && Distinct(batch)
    && (forall e :: e in batch ==>
          Above(e.seqNo, st.mark) && e.session in readAt && e.seqNo < readAt[e.session])
  }

  ghost predicate WritingInv(st: State)
    requires st.phase.Writing?
  {
    var Writing(rest, final) := st.phase;
    && Increasing(rest) && InLog(st.Log(), rest) && MarkInLog(st.Log(), final)
    && Covered(st.sent, final) && Covered(rest, final)
    && (forall e, r :: e in st.sent && r in rest ==> e.seqNo < r.seqNo)
    && (forall i :: Above(i, final) ==> Above(i, st.mark))
  }

  /** What was written is an increasing run of log entries, none past the watermark. */
  ghost predicate OrderInv(st: State) {
    && Increasing(st.sent) && InLog(st.Log(), st.sent)
    && MarkInLog(st.Log(), st.mark) && st.cursor <= |st.Log()|
    && (!st.phase.Writing? && !st.phase.Ended? ==> Covered(st.sent, st.mark))
    && (st.phase.Reading? ==> ReadingInv(st))
    && (st.phase.Writing? ==> WritingInv(st))
  }

  ghost predicate Gone(st: State, i: nat)
    requires i < |st.Log()|
  {
    st.Log()[i] !in st.Ring(st.Log()[i].session)
  }

  ghost predicate Settled(st: State, i: nat)
    requires i < |st.Log()|
  {
    st.Log()[i] in st.sent || Gone(st, i) || i in st.unlisted || i in st.raced
  }

  /** Where an envelope that is not settled still is. */
  ghost predicate Pending(st: State, i: nat)
    requires i < |st.Log()|
  {
    match st.phase
    case Writing(rest, final) => st.Log()[i] in rest || (Above(i, final) && st.cursor <= i)
    case Live => Above(i, st.mark) && st.cursor <= i
    case Ended => true
    case _ => Above(i, st.mark)
  }

  ghost predicate LossInv(st: State) {
    && (forall i: nat :: i < |st.Log()| ==> Settled(st, i) || Pending(st, i))
    && (st.phase.Reading? ==>
          forall i: nat :: i < |st.Log()| && Above(i, st.mark) && st.Log()[i].session in st.phase.readAt
                           && i < st.phase.readAt[st.Log()[i].session] ==>
                             st.Log()[i] in st.phase.batch || Gone(st, i))
  }

  ghost predicate Inv(st: State) { OrderInv(st) && LossInv(st) }

  // ----- one lemma a step

  lemma ChangeKeepsInv(st: State, op: Op)
    requires Inv(st)
    ensures Inv(Apply(st, Change(op)))
  {
    var next := Apply(st, Change(op));
    LogGrows(st.ops, [op]);
    assert |next.Log()| <= |st.Log()| + 1 by { assert (st.ops + [op])[..|st.ops|] == st.ops; }
    forall i: nat | i < |st.Log()| && Gone(st, i) ensures Gone(next, i) {
      GoneStaysGone(st.capacity, st.ops, [op], st.Log()[i].session, st.Log()[i]);
    }
    forall i: nat | i < |next.Log()| ensures Settled(next, i) || Pending(next, i) {
      if i < |st.Log()| {
        assert Settled(st, i) || Pending(st, i);
      }
    }
  }

  lemma RingIsOrdered(st: State, session: SessionId)
    ensures Increasing(st.Ring(session)) && InLog(st.Log(), st.Ring(session))
    ensures forall e :: e in st.Ring(session) ==> e.session == session
  {
    RememberedIsOrdered(st.ops, session);
  }

  lemma {:induction false} PastMarkKeepsOrder(s: seq<Envelope>, mark: Option<nat>)
    requires Increasing(s)
    ensures Increasing(PastMark(s, mark))
  {
    var k := PastMarkIsSuffix(s, mark);
  }

  lemma ReadKeepsOrder(st: State, session: SessionId)
    requires OrderInv(st)
    ensures OrderInv(ReadRing(st, session))
  {
    var next := ReadRing(st, session);
    if next != st {
      var more := PastMark(st.Ring(session), st.mark);
      RingIsOrdered(st, session);
      PastMarkExactly(st.Ring(session), st.mark);
      PastMarkKeepsOrder(st.Ring(session), st.mark);
      forall e, f | e in st.phase.batch && f in more ensures e.seqNo != f.seqNo {
        assert e.session in st.phase.readAt && f.session == session;
      }
    }
  }

  lemma {:induction false} ReadKeepsLoss(st: State, session: SessionId)
    requires OrderInv(st) && LossInv(st)
    ensures LossInv(ReadRing(st, session))
  {
    var next := ReadRing(st, session);
    if next != st {
      PastMarkExactly(st.Ring(session), st.mark);
      forall i: nat | i < |st.Log()| ensures Settled(next, i) || Pending(next, i) {
        assert Settled(st, i) || Pending(st, i);
      }
      forall i: nat | i < |st.Log()| && Above(i, st.mark) && st.Log()[i].session == session
        ensures st.Log()[i] in next.phase.batch || Gone(next, i)
      {
        assert st.Log()[i].seqNo == i;
      }
    }
  }

  lemma SortKeepsInv(st: State)
    requires Inv(st)
    ensures Inv(SortBatch(st))
  {
    var next := SortBatch(st);
    if next != st {
      var batch, rest, final := st.phase.batch, next.phase.rest, next.phase.final;
      SortOrders(batch);
      SortedBatchInv(st, rest);
      forall i: nat | i < |st.Log()| ensures Settled(next, i) || Pending(next, i) {
        if st.Log()[i] in batch {
          assert st.Log()[i] in rest;
        } else {
          assert Settled(st, i) || Above(i, st.mark);
        }
      }
    }
  }

  /** The sorted batch continues what was sent, and its last number becomes the watermark. */
  lemma SortedBatchInv(st: State, rest: seq<Envelope>)
    requires OrderInv(st) && st.phase.Reading?
    requires Increasing(rest) && forall x :: x in rest <==> x in st.phase.batch
    ensures WritingInv(st.(phase := Writing(rest, Watermark(rest, st.mark))))
  {
    var final := Watermark(rest, st.mark);
    forall e, r | e in st.sent && r in rest ensures e.seqNo < r.seqNo {
      assert !Above(e.seqNo, st.mark) && Above(r.seqNo, st.mark);
    }
    if rest != [] {
      var last := rest[|rest| - 1];
      assert last in rest;
      assert forall e :: e in rest ==> e.seqNo <= last.seqNo;
    }
  }

  lemma {:induction false} WriteKeepsOrder(st: State, ok: bool)
    requires OrderInv(st)
    ensures OrderInv(WriteNext(st, ok))
  {
    if st.phase.Writing? && st.phase.rest != [] && ok { WriteOneKeepsOrder(st); }
  }

  lemma IncreasingAppend(s: seq<Envelope>, e: Envelope)
    requires Increasing(s) && forall x :: x in s ==> x.seqNo < e.seqNo
    ensures Increasing(s + [e])
  {
    assert forall i :: 0 <= i < |s| ==> s[i] in s;
  }

  lemma WriteOneKeepsOrder(st: State)
    requires OrderInv(st) && st.phase.Writing? && st.phase.rest != []
    ensures OrderInv(WriteNext(st, true))
  {
    var rest := st.phase.rest;
    assert rest == [rest[0]] + rest[1..];
    assert rest[0] in rest;
    IncreasingAppend(st.sent, rest[0]);
    assert forall r :: r in rest[1..] ==> r in rest && rest[0].seqNo < r.seqNo;
  }

  lemma WriteKeepsLoss(st: State, ok: bool)
    requires LossInv(st)
    ensures LossInv(WriteNext(st, ok))
  {
    var next := WriteNext(st, ok);
    forall i: nat | i < |st.Log()| ensures Settled(next, i) || Pending(next, i) {
      assert Settled(st, i) || Pending(st, i);
      if next != st && next.phase.Writing? {
        assert st.phase.rest == [st.phase.rest[0]] + next.phase.rest;
      }
    }
  }

  lemma ReceiveKeepsOrder(st: State, ok: bool)
    requires OrderInv(st)
    ensures OrderInv(ReceiveNext(st, ok))
  {
  }

  lemma ReceiveKeepsLoss(st: State, ok: bool)
    requires LossInv(st)
    ensures LossInv(ReceiveNext(st, ok))
  {
    var next := ReceiveNext(st, ok);
    forall i: nat | i < |st.Log()| ensures Settled(next, i) || Pending(next, i) {
      assert Settled(st, i) || Pending(st, i);
      if next.sent != st.sent { assert st.Log()[st.cursor] in next.sent; }
    }
  }

  /** Opening or closing sessions, subscribing and listing send nothing and skip nothing. */
  lemma OtherKeepsInv(st: State, ev: Event)
    requires Inv(st) && (ev.Open? || ev.Close? || ev.Subscribe? || ev.List?)
    ensures Inv(Apply(st, ev))
  {
    var next := Apply(st, ev);
    forall i: nat | i < |st.Log()| ensures Settled(next, i) || Pending(next, i) {
      assert Settled(st, i) || Pending(st, i);
    }
  }

  lemma ApplyKeepsInv(st: State, ev: Event)
    requires Inv(st)
    ensures Inv(Apply(st, ev))
  {
    match ev
    case Change(op) => ChangeKeepsInv(st, op);
    case Read(session) => ReadKeepsOrder(st, session); ReadKeepsLoss(st, session);
    case Sort => SortKeepsInv(st);
    case Write(ok) => WriteKeepsOrder(st, ok); WriteKeepsLoss(st, ok);
    case Receive(ok) => ReceiveKeepsOrder(st, ok); ReceiveKeepsLoss(st, ok);
    case _ => OtherKeepsInv(st, ev);
  }

  // ----- over whole runs

  ghost predicate Anything(st: State, ev: Event) { true }

  lemma {:induction false} RunKeepsInv(capacity: nat, evs: seq<Event>)
    ensures Inv(Run(Apply, Init(capacity), evs))
  {
    forall st, ev | Inv(st) && Anything(st, ev) ensures Inv(Apply(st, ev)) { ApplyKeepsInv(st, ev); }
    Invariant(Apply, Anything, Inv, Init(capacity), evs);
  }

  /** Whatever is published, forgotten, opened or closed between any two steps, the numbers written to
      the client strictly increase over the first replay, the live events and every lag refill, and
      each write is the log's own envelope. */
  lemma SentIsIncreasing(capacity: nat, evs: seq<Event>)
    ensures var end := Run(Apply, Init(capacity), evs);
            Increasing(end.sent) && InLog(end.Log(), end.sent)
  {
    RunKeepsInv(capacity, evs);
  }

  /** A live connection accounts for every envelope: sent, still queued past the watermark, gone from
      its ring, or passed over by a drain that did not list its session or had already read its ring.
      Once the receiver has caught up, nothing is queued. */
  lemma LiveAccountsForEverything(capacity: nat, evs: seq<Event>, i: nat)
    requires var end := Run(Apply, Init(capacity), evs); end.phase.Live? && i < |end.Log()|
    ensures var end := Run(Apply, Init(capacity), evs);
            && (Settled(end, i) || (Above(i, end.mark) && end.cursor <= i))
            && (end.cursor == |end.Log()| ==> Settled(end, i))
  {
    RunKeepsInv(capacity, evs);
    var end := Run(Apply, Init(capacity), evs);
    assert Settled(end, i) || Pending(end, i);
  }

  /** What one drain loses of the sessions it lists, exactly: an envelope still in its ring stays
      within reach unless it was published after its session's ring was read and below the newest
      envelope the drain collected. */
  lemma DrainLosesExactly(st: State, i: nat)
    requires Inv(st) && st.phase.Reading? && st.phase.listed == st.phase.readAt.Keys
    requires i < |st.Log()| && Above(i, st.mark) && !Gone(st, i)
    requires st.Log()[i].session in st.phase.listed
    ensures var next := SortBatch(st);
            var late := st.phase.readAt[st.Log()[i].session] <= i && !Above(i, next.phase.final);
            && (st.Log()[i] in next.phase.rest || (Above(i, next.phase.final) && next.cursor <= i) <==> !late)
            && (late ==> i in next.raced)
  {
    SortOrders(st.phase.batch);
  }

  /** No publish falls between a drain's listing and its last ring read. */
  ghost predicate AtomicDrains(st: State, ev: Event) {
    st.phase.Reading? ==> !(ev.Change? && ev.op.Publish?)
  }

  /** The session is open whenever a drain lists the sessions. */
  ghost predicate Listed(session: SessionId, st: State, ev: Event) {
    ev.List? ==> session in st.open
  }

  ghost predicate NothingRaced(st: State) {
    && st.raced == {}
    && (st.phase.Reading? ==> forall s :: s in st.phase.readAt ==> st.phase.readAt[s] == |st.Log()|)
  }

  ghost predicate AlwaysListed(session: SessionId, st: State) {
    && (st.phase.Reading? ==> session in st.phase.listed)
    && (forall i :: i in st.unlisted ==> i < |st.Log()| && st.Log()[i].session != session)
  }

  lemma StepRacesNothing(st: State, ev: Event)
    requires Inv(st) && NothingRaced(st) && AtomicDrains(st, ev)
    ensures NothingRaced(Apply(st, ev))
  {
    if ev.Change? && ev.op.Forget? {
      ForgetStep(st.ops, ev.op.session);
    }
  }

  lemma StepListsSession(session: SessionId, st: State, ev: Event)
    requires Inv(st) && AlwaysListed(session, st) && Listed(session, st, ev)
    ensures AlwaysListed(session, Apply(st, ev))
  {
    if ev.Change? {
      LogGrows(st.ops, [ev.op]);
    }
  }

  ghost predicate AtomicAndListed(session: SessionId, st: State, ev: Event) {
    AtomicDrains(st, ev) && Listed(session, st, ev)
  }

  /** With atomic drains every envelope of a session open at each drain is accounted for at every moment of
      a connection, not only once it has caught up: it is sent, or gone from its ring, or in the batch
      being written or collected, or queued on the bus past the watermark the client has or is about to
      have, or past the watermark with a drain still due to read its ring. */
  lemma {:induction false} OpenSessionsAreAccountedFor(capacity: nat, session: SessionId, evs: seq<Event>, i: nat)
    requires LegalRun(Apply, (st, ev) => AtomicAndListed(session, st, ev), Init(capacity), evs)
    requires var end := Run(Apply, Init(capacity), evs); i < |end.Log()| && end.Log()[i].session == session
    ensures var end := Run(Apply, Init(capacity), evs);
            || end.Log()[i] in end.sent || end.Log()[i] !in end.Ring(session)
            || match end.phase
               case Writing(rest, final) => end.Log()[i] in rest || (Above(i, final) && end.cursor <= i)
               case Live => Above(i, end.mark) && end.cursor <= i
               case Connecting => Above(i, end.mark)
               case Listing => Above(i, end.mark)
               case Reading(_, readAt, batch) => Above(i, end.mark) && (session in readAt ==> end.Log()[i] in batch)
               case Ended => true
  {
    var legal := (st, ev) => AtomicAndListed(session, st, ev);
    var inv := (st: State) => Inv(st) && NothingRaced(st) && AlwaysListed(session, st);
    forall st, ev | inv(st) && legal(st, ev) ensures inv(Apply(st, ev)) {
      ApplyKeepsInv(st, ev);
      StepRacesNothing(st, ev);
      StepListsSession(session, st, ev);
    }
    Invariant(Apply, legal, inv, Init(capacity), evs);
    var end := Run(Apply, Init(capacity), evs);
    assert inv(end);
    assert Settled(end, i) || Pending(end, i);
  }

  /** So a caught-up client has been sent every envelope of such a session that its ring still holds. */
  lemma {:induction false} OpenSessionsMissNothing(capacity: nat, session: SessionId, evs: seq<Event>, i: nat)
    requires LegalRun(Apply, (st, ev) => AtomicAndListed(session, st, ev), Init(capacity), evs)
    requires var end := Run(Apply, Init(capacity), evs);
             && end.phase.Live? && end.cursor == |end.Log()|
             && i < |end.Log()| && end.Log()[i].session == session
    ensures var end := Run(Apply, Init(capacity), evs);
            end.Log()[i] in end.sent || end.Log()[i] !in end.Ring(session)
  {
    OpenSessionsAreAccountedFor(capacity, session, evs, i);
  }

  // ----- nothing is sent that was gone when the connection began

  /** Published since the connection subscribed, or in its ring at that time. */
  ghost predicate Current(capacity: nat, ops: seq<Op>, e: Envelope) {
    e.seqNo >= |Log(ops)| || e in RingOf(capacity, ops, e.session)
  }

  ghost predicate AllCurrent(capacity: nat, ops: seq<Op>, s: seq<Envelope>) {
    forall e :: e in s ==> Current(capacity, ops, e)
  }

  ghost predicate CurrentInv(capacity: nat, ops: seq<Op>, st: State) {
    && st.capacity == capacity && ops <= st.ops && |Log(ops)| <= st.cursor && !st.phase.Connecting?
    && AllCurrent(capacity, ops, st.sent)
    && (st.phase.Reading? ==> AllCurrent(capacity, ops, st.phase.batch))
    && (st.phase.Writing? ==> AllCurrent(capacity, ops, st.phase.rest))
  }

  /** What a ring holds now and is not newer than then, it held then. */
  lemma RingIsCurrent(capacity: nat, ops: seq<Op>, later: seq<Op>, session: SessionId)
    requires ops <= later
    ensures AllCurrent(capacity, ops, RingOf(capacity, later, session))
  {
    var ring := RingOf(capacity, later, session);
    assert later == ops + later[|ops|..];
    forall e | e in ring ensures Current(capacity, ops, e) {
      RememberedIsOrdered(later, session);
      assert e in Remembered(later, session);
      if e.seqNo < |Log(ops)| && e !in RingOf(capacity, ops, e.session) {
        GoneStaysGone(capacity, ops, later[|ops|..], session, e);
        assert false;
      }
    }
  }

  lemma StepSendsCurrent(capacity: nat, ops: seq<Op>, st: State, ev: Event)
    requires Inv(st) && CurrentInv(capacity, ops, st)
    ensures CurrentInv(capacity, ops, Apply(st, ev))
  {
    match ev
    case Read(session) =>
      RingIsCurrent(capacity, ops, st.ops, session);
      PastMarkExactly(st.Ring(session), st.mark);
    case Sort => if st.phase.Reading? { SortOrders(st.phase.batch); }
    case _ =>
  }

  /** However a connection goes on, it is never sent an envelope that had left its ring, evicted or
      forgotten, before it subscribed. */
  lemma {:induction false} SentWasRemembered(capacity: nat, before: seq<Event>, after: seq<Event>, e: Envelope)
    requires Run(Apply, Init(capacity), before).phase.Connecting?
    ensures var st := Run(Apply, Init(capacity), before);
            var end := Run(Apply, Apply(st, Subscribe), after);
            e in end.sent ==> Current(capacity, st.ops, e)
  {
    RunKeepsInv(capacity, before);
    RunIsUnsent(capacity, before);
    var st := Run(Apply, Init(capacity), before);
    ApplyKeepsInv(st, Subscribe);
    var inv := (s: State) => Inv(s) && CurrentInv(capacity, st.ops, s);
    forall s, ev | inv(s) ensures inv(Apply(s, ev)) {
      ApplyKeepsInv(s, ev);
      StepSendsCurrent(capacity, st.ops, s, ev);
    }
    Invariant(Apply, Anything, inv, Apply(st, Subscribe), after);
  }

  /** Before it subscribes a connection has been sent nothing. */
  lemma RunIsUnsent(capacity: nat, evs: seq<Event>)
    ensures var st := Run(Apply, Init(capacity), evs);
            st.capacity == capacity && (st.phase.Connecting? ==> st.sent == [])
  {
    Invariant(Apply, Anything, (st: State) => st.capacity == capacity && (st.phase.Connecting? ==> st.sent == []),
              Init(capacity), evs);
  }

  // ----- a drain that is not atomic can lose an envelope

  const A: SessionId := "a"
  const B: SessionId := "b"
  const FIRST := Envelope(0, A, "")
  const SECOND := Envelope(1, B, "")

  /** A published `FIRST`, then B published `SECOND`. */
  lemma TwoPublishes(ops: seq<Op>)
    requires ops == [Publish(A, ""), Publish(B, "")]
    ensures Log(ops) == [FIRST, SECOND]
    ensures Remembered(ops, A) == [FIRST] && Remembered(ops, B) == [SECOND]
  {
    assert ops[..1] == [Publish(A, "")] && ops[..1][..0] == [];
    assert Log(ops[..1]) == [FIRST];
    assert Remembered(ops[..1], A) == [FIRST] && Remembered(ops[..1], B) == [];
  }

  /** The state once A's ring was read, and A and B published after that. */
  ghost predicate Overtaken(st: State) {
    && st.ops == [Publish(A, ""), Publish(B, "")] && st.capacity == 8
    && st.open == {A, B} && st.cursor == 0 && st.mark == None && st.sent == []
    && st.phase == Reading({A, B}, map[A := 0], [])
  }

  lemma PublishesOvertakeTheDrain(reached: State -> bool) returns (end: State)
    requires Closed(Apply, Anything, Init(8), reached)
    ensures reached(end) && Overtaken(end)
  {
    assert Anything(Init(8), Open(A));
    var s1 := Apply(Init(8), Open(A));
    assert Anything(s1, Open(B));
    var s2 := Apply(s1, Open(B));
    assert Anything(s2, Subscribe);
    var s3 := Apply(s2, Subscribe);
    assert Anything(s3, List);
    var s4 := Apply(s3, List);
    assert Anything(s4, Read(A));
    var s5 := Apply(s4, Read(A));
    assert Anything(s5, Change(Publish(A, "")));
    var s6 := Apply(s5, Change(Publish(A, "")));
    assert Anything(s6, Change(Publish(B, "")));
    end := Apply(s6, Change(Publish(B, "")));
  }

  lemma OvertakenDrainReads(st: State)
    requires Overtaken(st)
    ensures ReadRing(st, B) == st.(phase := Reading({A, B}, map[A := 0, B := 2], [SECOND]))
  {
    TwoPublishes(st.ops);
    EverythingIsPastNoMark([SECOND]);
    assert st.Ring(B) == [SECOND];
    assert map[A := 0][B := 2] == map[A := 0, B := 2];
    assert [] + [SECOND] == [SECOND];
  }

  /** The drain ends with B's envelope alone, and its number for a watermark. */
  lemma OvertakenDrainSorts(st: State)
    requires st.phase == Reading({A, B}, map[A := 0, B := 2], [SECOND]) && st.mark == None
    ensures var end := SortBatch(st);
            end == st.(phase := Writing([SECOND], Some(1)), unlisted := end.unlisted, raced := end.raced)
  {
    assert st.phase.readAt.Keys == {A, B};
    assert SortBySeq([SECOND]) == [SECOND] by {
      assert [SECOND][1..] == [];
    }
  }

  lemma OvertakenDrainLoses(reached: State -> bool, st: State) returns (end: State)
    requires Closed(Apply, Anything, Init(8), reached) && reached(st)
    requires st.phase == Writing([SECOND], Some(1)) && st.sent == [] && st.cursor == 0
    requires st.Log() == [FIRST, SECOND]
    ensures reached(end) && end.phase.Live? && end.sent == [SECOND] && end.cursor == 2
    ensures end.ops == st.ops && end.open == st.open && end.capacity == st.capacity
  {
    assert Anything(st, Write(true));
    var s1 := WriteNext(st, true);
    assert s1.phase == Writing([], Some(1));
    assert Anything(s1, Write(true));
    var s2 := WriteNext(s1, true);
    assert s2.phase == Live && s2.mark == Some(1);
    assert Anything(s2, Receive(true));
    var s3 := ReceiveNext(s2, true);
    assert s3.cursor == 1;
    assert Anything(s3, Receive(true));
    end := ReceiveNext(s3, true);
    assert reached(Apply(st, Write(true))) && reached(Apply(s1, Write(true)));
    assert reached(Apply(s2, Receive(true))) && reached(Apply(s3, Receive(true)));
  }

  lemma ReachDrain(reached: State -> bool, st: State, session: SessionId)
    requires Closed(Apply, Anything, Init(8), reached) && reached(st)
    ensures reached(ReadRing(st, session)) && reached(SortBatch(st))
  {
    assert Anything(st, Read(session)) && Apply(st, Read(session)) == ReadRing(st, session);
    assert Anything(st, Sort) && Apply(st, Sort) == SortBatch(st);
  }

  lemma OvertakenDrainFinishes(reached: State -> bool, st: State) returns (end: State)
    requires Closed(Apply, Anything, Init(8), reached) && reached(st) && Overtaken(st)
    ensures reached(end) && end.phase.Live? && end.sent == [SECOND] && end.cursor == |end.Log()|
    ensures end.Log() == [FIRST, SECOND] && end.Ring(A) == [FIRST] && A in end.open
  {
    TwoPublishes(st.ops);
    ReachDrain(reached, st, B);
    OvertakenDrainReads(st);
    ReachDrain(reached, ReadRing(st, B), B);
    OvertakenDrainSorts(ReadRing(st, B));
    end := OvertakenDrainLoses(reached, SortBatch(ReadRing(st, B)));
  }

  /** Atomic drains are needed: session A's ring is read, A and B publish, B's ring is read with the
      newer envelope. The client catches up with both sessions open and never sees A's, which its ring
      still holds. */
  lemma RacingDrainLosesAnEnvelope()
    ensures exists end :: && Reachable(Apply, Anything, Init(8), end)
                          && end.phase.Live? && end.cursor == |end.Log()| && A in end.open
                          && FIRST in end.Log() && FIRST in end.Ring(A) && FIRST !in end.sent
  {
    ReachableIsClosed(Apply, Anything, Init(8));
    var reached := st => Reachable(Apply, Anything, Init(8), st);
    var mid := PublishesOvertakeTheDrain(reached);
    var end := OvertakenDrainFinishes(reached, mid);
    assert FIRST in [FIRST, SECOND] && FIRST in [FIRST] && FIRST !in [SECOND];
    assert reached(end);
  }
}
