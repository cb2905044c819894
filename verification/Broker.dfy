/**
 The approval broker (crates/policy/src/broker.rs): parks one question per id until a human decides,
 the window closes, or the caller goes away. First the broker as one object, then every interleaving
 of its callers.
 */
module Broker {
  import opened Numbers
  import opened Options
  import opened Runs

  datatype ApprovalOutcome = Granted | Denied | TimedOut

  datatype Decision = Grant | Deny
  {
    function AsOutcome(): ApprovalOutcome { if Grant? then Granted else Denied }
  }

  type ApprovalId = string

  // ----- minted ids

  function ApprovalIdOf(serial: nat): ApprovalId { "apr-" + Decimal(serial) }

  /** Different serials print differently: an id names one question. */
  lemma IdsAreDistinct(a: nat, b: nat)
    requires ApprovalIdOf(a) == ApprovalIdOf(b)
    ensures a == b
  {
    assert ApprovalIdOf(a)[4..] == Decimal(a) && ApprovalIdOf(b)[4..] == Decimal(b);
    DecimalInjective(a, b);
  }

  // ----- the broker as one object

  /** A channel for one decision; the receiving half can go away. */
  class Oneshot {
    var value: Option<Decision>
    var open: bool

    constructor ()
      ensures value == None && open
    {
      value, open := None, true;
    }

    method Send(decision: Decision) returns (ok: bool)
      modifies this
      ensures ok == old(open) && open == old(open)
      ensures value == if ok then Some(decision) else old(value)
    {
      if open { value := Some(decision); }
      ok := open;
    }
  }

  class ApprovalBroker {
    var counter: nat
    var pending: map<ApprovalId, Oneshot>

    /** Every parked id was minted here. */
    ghost predicate Valid()
      reads this
    {
      forall id :: id in pending ==> exists serial: nat :: serial < counter && id == ApprovalIdOf(serial)
    }

    constructor ()
      ensures Valid() && pending == map[]
    {
      counter, pending := 1, map[];
    }

    method Open() returns (id: ApprovalId, receiver: Oneshot)
      requires Valid()
      modifies this
      ensures Valid() && counter == old(counter) + 1
      ensures id == ApprovalIdOf(old(counter)) && id !in old(pending)
      ensures fresh(receiver) && receiver.open && receiver.value == None
      ensures pending == old(pending)[id := receiver]
    {
      var serial := counter;
      counter := counter + 1;
      id := ApprovalIdOf(serial);
      if id in pending {
        var other: nat :| other < serial && id == ApprovalIdOf(other);
        IdsAreDistinct(serial, other);
        assert false;
      }
      receiver := new Oneshot();
      pending := pending[id := receiver];
    }

    /** The first decision on a parked id takes its slot; it is delivered if someone still listens. */
    method Decide(id: ApprovalId, decision: Decision) returns (delivered: bool)
      requires Valid()
      modifies this`pending, if id in pending then {pending[id]} else {}
      ensures Valid() && pending == old(pending) - {id}
      ensures delivered <==> id in old(pending) && old(pending[id].open)
      ensures delivered ==> old(pending)[id].value == Some(decision)
    {
      if id in pending {
        var sender := pending[id];
        pending := pending - {id};
        delivered := sender.Send(decision);
      } else {
        delivered := false;
      }
    }

    /** What leaving `wait` does on every path. */
    method Reclaim(id: ApprovalId)
      requires Valid()
      modifies this`pending
      ensures Valid() && pending == old(pending) - {id}
    {
      pending := pending - {id};
    }
  }

  // ----- every interleaving of its callers

  datatype Phase =
    | Minted       // has a serial, not yet parked
    | Opened       // parked, `wait` not yet polled
    | Waiting
    | Leaving      // `wait` made up its mind, or was cancelled, and is dropping what it holds
    | Over

  /** One question. `guard` is the reclaiming guard `wait` holds from its first poll. */
  datatype Ticket = Ticket(
    phase: Phase,
    parked: bool,
    receiver: bool,
    guard: bool,
    waited: bool,
    taken: Option<Decision>,       // a `decide` took the sender and has not sent yet
    sent: Option<Decision>,
    delivered: seq<Decision>,      // the decisions whose `decide` answered true
    late: bool,                    // the delivered decision was sent after `wait` had made up its mind
    outcome: Option<ApprovalOutcome>)

  datatype State = State(next: nat, tickets: map<nat, Ticket>)

  datatype Event =
    | Mint
    | Park(id: nat)
    | FirstPoll(id: nat)
    | Abandon(id: nat)                    // the receiver is dropped and `wait` was never polled
    | Poll(id: nat, elapsed: bool)        // the channel first, then the deadline
    | Cancel(id: nat)
    | DropReceiver(id: nat)
    | DropGuard(id: nat)
    | Take(id: nat, decision: Decision)   // the first half of `decide`
    | Deliver(id: nat)                    // the second

  function Init(): State { State(1, map[]) }

  function Move(t: Ticket, ev: Event): Ticket {
    match ev
    case Mint => t
    case Park(_) => if t.phase.Minted? then t.(phase := Opened, parked := true) else t
    case FirstPoll(_) => if t.phase.Opened? then t.(phase := Waiting, guard := true, waited := true) else t
    case Abandon(_) => if t.phase.Opened? then t.(phase := Over, receiver := false) else t
    case Poll(_, elapsed) =>
      if !t.phase.Waiting? then t
      else if t.sent.Some? then t.(phase := Leaving, outcome := Some(t.sent.value.AsOutcome()))
      else if elapsed then t.(phase := Leaving, outcome := Some(TimedOut))
      else t
    case Cancel(_) => if t.phase.Waiting? then t.(phase := Leaving) else t
    case DropReceiver(_) =>
      if t.phase.Leaving? then t.(receiver := false, phase := if t.guard then Leaving else Over) else t
    case DropGuard(_) =>
      if t.phase.Leaving? then t.(guard := false, parked := false, phase := if t.receiver then Leaving else Over)
      else t
    case Take(_, decision) => if t.parked then t.(parked := false, taken := Some(decision)) else t
    case Deliver(_) =>
      if t.taken.None? then t
      else if t.receiver then
        t.(taken := None, sent := t.taken, delivered := t.delivered + [t.taken.value], late := t.phase.Leaving?)
      else t.(taken := None)
  }

  function Apply(st: State, ev: Event): State {
    if ev.Mint? then
      State(st.next + 1,
            st.tickets[st.next := Ticket(Minted, false, true, false, false, None, None, [], false, None)])
    else if ev.id in st.tickets then st.(tickets := st.tickets[ev.id := Move(st.tickets[ev.id], ev)])
    else st
  }

  /** Callers are free to do anything at any time. */
  predicate Anything(st: State, ev: Event) { true }

  /** What one question keeps. */
  predicate TicketInv(t: Ticket) {
    && (t.phase.Minted? || t.phase.Opened? ==> !t.waited)
    && (t.phase.Waiting? || t.phase.Leaving? ==> t.waited)
    && (t.guard ==> t.phase.Waiting? || t.phase.Leaving?)
    && (t.phase.Waiting? ==> t.guard)
    && (t.phase.Minted? || t.phase.Opened? || t.phase.Waiting? ==> t.receiver && t.outcome.None? && !t.late)
    && (t.phase.Leaving? ==> t.receiver || t.guard)
    && (t.phase.Over? ==> !t.receiver)
    && (t.phase.Minted? ==> !t.parked)
    && (t.phase.Minted? || t.parked ==> t.taken.None? && t.sent.None?)
    && (t.taken.Some? ==> t.sent.None?)
    && (t.waited && !t.guard ==> !t.parked)
    && (!t.waited ==> t.outcome.None?)
    && t.delivered == (if t.sent.Some? then [t.sent.value] else [])
    && (t.late ==> t.sent.Some? && (t.outcome.None? || t.outcome.value.TimedOut?))
    && (t.outcome.Some? ==>
          t.outcome.value == if t.sent.Some? && !t.late then t.sent.value.AsOutcome() else TimedOut)
  }

  lemma MoveKeepsTicketInv(t: Ticket, ev: Event)
    requires TicketInv(t)
    ensures TicketInv(Move(t, ev))
  {
  }

  predicate Inv(st: State) {
    && (forall id :: id in st.tickets ==> id < st.next)
    && (forall id :: id in st.tickets ==> TicketInv(st.tickets[id]))
  }

  lemma ApplyKeepsInv(st: State, ev: Event)
    requires Inv(st)
    ensures Inv(Apply(st, ev))
  {
    if !ev.Mint? && ev.id in st.tickets { MoveKeepsTicketInv(st.tickets[ev.id], ev); }
  }

  lemma {:induction false} RunKeepsInv(evs: seq<Event>)
    ensures Inv(Run(Apply, Init(), evs))
  {
    forall st, ev | Inv(st) ensures Inv(Apply(st, ev)) { ApplyKeepsInv(st, ev); }
    Invariant(Apply, Anything, Inv, Init(), evs);
  }

  /** At most one decision was delivered; a granted or refused wait is its doing; and a wait reports
      something else only when it had made up its mind before the decision was sent. */
  predicate Faithful(t: Ticket) {
    && |t.delivered| <= 1
    && (t.outcome == Some(Granted) ==> t.delivered == [Grant])
    && (t.outcome == Some(Denied) ==> t.delivered == [Deny])
    && (t.outcome.Some? && t.delivered != [] ==> (t.outcome.value == t.delivered[0].AsOutcome() <==> !t.late))
  }

  /** In every interleaving every question is answered faithfully, and a new one never takes over an id. */
  lemma AnswersAreFaithful(evs: seq<Event>)
    ensures var st := Run(Apply, Init(), evs);
            && st.next !in st.tickets
            && forall id :: id in st.tickets ==> Faithful(st.tickets[id])
  {
    RunKeepsInv(evs);
    var st := Run(Apply, Init(), evs);
    forall id | id in st.tickets ensures Faithful(st.tickets[id]) {
      assert TicketInv(st.tickets[id]);
    }
  }

  /** Question `id` is over, with these deliveries and this outcome. */
  predicate Settled(st: State, id: nat, waited: bool, delivered: seq<Decision>, outcome: Option<ApprovalOutcome>) {
    && id in st.tickets && id < st.next
    && var t := st.tickets[id];
       && t.phase.Over? && !t.receiver && t.waited == waited && (waited ==> !t.parked)
       && t.delivered == delivered && t.outcome == outcome
  }

  /** Once a question is over, no later decision on it is delivered and its outcome stands, whatever
      happens next; a question someone waited on has also left the parked slots. */
  lemma OverIsFinal(evs: seq<Event>, more: seq<Event>, id: nat)
    requires var st := Run(Apply, Init(), evs); id in st.tickets && st.tickets[id].phase.Over?
    ensures var st := Run(Apply, Init(), evs);
            var t := st.tickets[id];
            Settled(Run(Apply, st, more), id, t.waited, t.delivered, t.outcome)
  {
    var before := Run(Apply, Init(), evs);
    RunKeepsInv(evs);
    var t := before.tickets[id];
    assert TicketInv(t);
    var settled := (st: State) => Settled(st, id, t.waited, t.delivered, t.outcome);
    Invariant(Apply, Anything, settled, before, more);
  }

  /** A `decide` that starts once the wait is over: taken or not, it is not delivered. */
  lemma DecideAfterTheEndIsRefused(st: State, id: nat, decision: Decision)
    requires Inv(st) && id in st.tickets && st.tickets[id].phase.Over?
    ensures var taken := Apply(st, Take(id, decision));
            var done := Apply(taken, Deliver(id));
            && (st.tickets[id].waited ==> taken == st)
            && done.tickets[id].delivered == st.tickets[id].delivered
  {
    assert TicketInv(st.tickets[id]);
  }

  /** With nobody in between, the two halves of a `decide` are the broker's one: the slot is taken, and the
      decision is delivered exactly when the question was parked and someone still listens. */
  lemma DecideIsTwoSteps(st: State, id: nat, decision: Decision)
    requires Inv(st) && id in st.tickets && st.tickets[id].taken.None?
    ensures var t := st.tickets[id];
            var done := Apply(Apply(st, Take(id, decision)), Deliver(id)).tickets[id];
            && !done.parked && done.taken.None?
            && done.delivered == t.delivered + (if t.parked && t.receiver then [decision] else [])
  {
    assert TicketInv(st.tickets[id]);
  }

  /** The other way round is not promised: at the deadline a grant can be delivered, and acknowledged as
      such, while the wait reports silence. */
  lemma GrantAtTheDeadlineIsLost()
    ensures exists st :: Reachable(Apply, Anything, Init(), st) && LostGrant(st)
  {
    ReachableIsClosed(Apply, Anything, Init());
    var reached := st => Reachable(Apply, Anything, Init(), st);
    var asked := AskOne(reached);
    var over := GrantLate(reached, asked);
    assert reached(over);
  }

  predicate LostGrant(st: State) {
    && 1 in st.tickets && st.tickets[1].phase.Over?
    && st.tickets[1].delivered == [Grant] && st.tickets[1].outcome == Some(TimedOut)
  }

  lemma AskOne(reached: State -> bool) returns (st: State)
    requires Closed(Apply, Anything, Init(), reached)
    ensures reached(st)
    ensures st == State(2, map[1 := Ticket(Waiting, true, true, true, true, None, None, [], false, None)])
  {
    st := Init();
    st := Follow(reached, st, Mint);
    st := Follow(reached, st, Park(1));
    st := Follow(reached, st, FirstPoll(1));
  }

  lemma GrantLate(reached: State -> bool, from: State) returns (st: State)
    requires Closed(Apply, Anything, Init(), reached) && reached(from)
    requires from == State(2, map[1 := Ticket(Waiting, true, true, true, true, None, None, [], false, None)])
    ensures reached(st) && LostGrant(st)
  {
    st := Follow(reached, from, Take(1, Grant));
    st := Follow(reached, st, Poll(1, true));
    st := Follow(reached, st, Deliver(1));
    st := Follow(reached, st, DropReceiver(1));
    st := Follow(reached, st, DropGuard(1));
  }

  lemma Follow(reached: State -> bool, from: State, ev: Event) returns (st: State)
    requires Closed(Apply, Anything, Init(), reached) && reached(from)
    ensures st == Apply(from, ev) && reached(st)
  {
    assert Anything(from, ev);
    st := Apply(from, ev);
  }

  /** Reclaiming is `wait`'s doing alone: a receiver dropped before `wait` is ever polled leaves its slot
      parked, until a decision, never delivered, takes it. */
  lemma AbandonedSlotStaysParked(st: State, id: nat, decision: Decision)
    requires Inv(st) && id in st.tickets && st.tickets[id].phase.Opened? && st.tickets[id].parked
    ensures var gone := Apply(st, Abandon(id));
            var decided := Apply(Apply(gone, Take(id, decision)), Deliver(id));
            && gone.tickets[id].phase.Over? && gone.tickets[id].parked
            && !decided.tickets[id].parked && decided.tickets[id].delivered == []
  {
    assert TicketInv(st.tickets[id]);
  }

  /** A question that is opened and waited on. */
  function Asked(st: State): State {
    Apply(Apply(Apply(st, Mint), Park(st.next)), FirstPoll(st.next))
  }

  /** And the way out of `wait`. */
  function Left(st: State, id: nat): State { Apply(Apply(st, DropReceiver(id)), DropGuard(id)) }

  ghost predicate EndedAs(st: State, id: nat, delivered: seq<Decision>, outcome: ApprovalOutcome) {
    && id in st.tickets
    && var t := st.tickets[id];
       t.phase.Over? && !t.parked && !t.receiver && t.delivered == delivered && t.outcome == Some(outcome)
  }

  /** Left alone, a question waits until it is decided or its time is up: a decision that comes first is
      delivered and is the outcome, the end of the window without one is a timeout, and either way the slot
      is free again. */
  lemma QuestionEndsAsAnswered(st: State, decision: Decision, elapsed: bool)
    requires Inv(st)
    ensures var id, asked := st.next, Asked(st);
            var decided := Apply(Apply(asked, Take(id, decision)), Deliver(id));
            && Apply(asked, Poll(id, false)) == asked
            && EndedAs(Left(Apply(decided, Poll(id, elapsed)), id), id, [decision],
                       if decision.Grant? then Granted else Denied)
            && EndedAs(Left(Apply(asked, Poll(id, true)), id), id, [], TimedOut)
  {
    var id, asked := st.next, Asked(st);
    assert asked.tickets[id] == Ticket(Waiting, true, true, true, true, None, None, [], false, None);
    assert Apply(asked, Poll(id, false)).tickets == asked.tickets;
  }
}
