/**
 The event backbone: one counter, per-session rings and a broadcast bus behind one guard
 (crates/events/src/backbone.rs). Its specification is an unbounded log of publishes and forgets.
 */
module Backbone {
  import opened Numbers
  import opened Options
  import opened Ring

  /** The two operations that change the numbered history. */
  datatype Op = Publish(session: SessionId, event: Payload) | Forget(session: SessionId)

  // ----- the unbounded log

  /** Every envelope ever published, numbered in publishing order. */
  function Log(ops: seq<Op>): (log: seq<Envelope>)
    ensures |log| <= |ops|
    ensures forall i :: 0 <= i < |log| ==> log[i].seqNo == i
  {
    if ops == [] then []
    else
      var log := Log(ops[..|ops| - 1]);
      match ops[|ops| - 1]
      case Publish(session, event) => log + [Envelope(|log|, session, event)]
      case Forget(_) => log
  }

  /** What was published to `session` since its last forget. */
  function Remembered(ops: seq<Op>, session: SessionId): seq<Envelope> {
    if ops == [] then []
    else
      var init := ops[..|ops| - 1];
      match ops[|ops| - 1]
      case Publish(target, event) =>
        if target == session then Remembered(init, session) + [Envelope(|Log(init)|, session, event)]
        else Remembered(init, session)
      case Forget(target) => if target == session then [] else Remembered(init, session)
  }

  /** What the session's ring holds: the last `capacity` remembered envelopes. */
  function RingOf(capacity: nat, ops: seq<Op>, session: SessionId): seq<Envelope> {
    Last(Remembered(ops, session), capacity)
  }

  /** What one more publish does to the log and to each session's remembered part. */
  lemma PublishStep(ops: seq<Op>, session: SessionId, event: Payload)
    ensures var e := Envelope(|Log(ops)|, session, event);
            && Log(ops + [Publish(session, event)]) == Log(ops) + [e]
            && forall s :: Remembered(ops + [Publish(session, event)], s) ==
                             if s == session then Remembered(ops, s) + [e] else Remembered(ops, s)
  {
    assert (ops + [Publish(session, event)])[..|ops|] == ops;
  }

  lemma ForgetStep(ops: seq<Op>, session: SessionId)
    ensures Log(ops + [Forget(session)]) == Log(ops)
    ensures forall s :: Remembered(ops + [Forget(session)], s) ==
                          if s == session then [] else Remembered(ops, s)
  {
    assert (ops + [Forget(session)])[..|ops|] == ops;
  }

  lemma {:induction false} LogGrows(ops: seq<Op>, more: seq<Op>)
    ensures Log(ops) <= Log(ops + more)
    decreases |more|
  {
    if more == [] {
      assert ops + more == ops;
    } else {
      var init := more[..|more| - 1];
      LogGrows(ops, init);
      assert (ops + more)[..|ops + more| - 1] == ops + init;
    }
  }

  /** The remembered envelopes are log entries of their session, in increasing order. */
  lemma {:induction false} RememberedIsOrdered(ops: seq<Op>, session: SessionId)
    ensures Increasing(Remembered(ops, session))
    ensures forall e :: e in Remembered(ops, session) ==>
              e.session == session && e.seqNo < |Log(ops)| && Log(ops)[e.seqNo] == e
  {
    if ops != [] {
      RememberedIsOrdered(ops[..|ops| - 1], session);
    }
  }

  /** Operation `i` published `e` to the session, and no later one forgot the session. */
  ghost predicate PublishedAt(ops: seq<Op>, i: nat, session: SessionId, e: Envelope) {
    && i < |ops| && ops[i] == Publish(session, e.event)
    && e == Envelope(|Log(ops[..i])|, session, e.event)
    && Forget(session) !in ops[i..]
  }

  /** Exactly the entries published to the session with no forget of it afterwards. */
  lemma {:induction false} RememberedExactly(ops: seq<Op>, session: SessionId, e: Envelope)
    ensures e in Remembered(ops, session) <==> exists i: nat :: PublishedAt(ops, i, session, e)
  {
    if ops != [] {
      var n := |ops| - 1;
      var init, last := ops[..n], ops[n];
      RememberedExactly(init, session, e);
      assert ops[n..] == [last];
      assert PublishedAt(ops, n, session, e) <==>
             last == Publish(session, e.event) && e == Envelope(|Log(init)|, session, e.event);
      forall i: nat | i < n
        ensures PublishedAt(ops, i, session, e) <==> PublishedAt(init, i, session, e) && last != Forget(session)
      {
        assert init[..i] == ops[..i];
        assert ops[i..] == init[i..] + [last];
      }
    }
  }

  /** An envelope that has left its ring, evicted or forgotten, never comes back. */
  lemma {:induction false} GoneStaysGone(capacity: nat, ops: seq<Op>, more: seq<Op>, session: SessionId, e: Envelope)
    requires e.seqNo < |Log(ops)| && e !in RingOf(capacity, ops, session)
    ensures e !in RingOf(capacity, ops + more, session)
    decreases |more|
  {
    if more == [] {
      assert ops + more == ops;
    } else {
      var init := ops + more[..|more| - 1];
      GoneStaysGone(capacity, ops, more[..|more| - 1], session, e);
      LogGrows(ops, more[..|more| - 1]);
      assert (ops + more)[..|ops + more| - 1] == init;
      var was, now := Remembered(init, session), Remembered(ops + more, session);
      if now != was && now != [] {
        assert now[..|was|] == was;
        assert forall x :: x in Last(now, capacity) ==> x == now[|was|] || x in Last(was, capacity);
      }
    }
  }

  /** How far a receiver may fall behind before the bus drops what it has not read. */
  const CHANNEL_CAPACITY: nat := 1024

  /** What the rings hold, as a value. */
  type Contents = map<SessionId, seq<Envelope>>

  /** The session's ring holds the last `capacity` envelopes of the session since its last forget; without
      a ring there are none. */
  ghost predicate RefinesAt(contents: Contents, capacity: nat, ops: seq<Op>, session: SessionId) {
    if session in contents then contents[session] == RingOf(capacity, ops, session) else Remembered(ops, session) == []
  }

  ghost predicate Refines(contents: Contents, capacity: nat, ops: seq<Op>) {
    forall s :: RefinesAt(contents, capacity, ops, s)
  }

  /** One envelope recorded: its session's ring, empty if it had none, takes it and evicts its oldest. */
  function Recorded(contents: Contents, capacity: nat, e: Envelope): Contents {
    var ring := if e.session in contents then contents[e.session] else [];
    contents[e.session := Last(ring + [e], capacity)]
  }

  /** The rings refine the log of all that was published and forgotten; the bus has carried it whole. */
  ghost predicate Tells(contents: Contents, capacity: nat, nextSeq: nat, sent: seq<Envelope>, ops: seq<Op>) {
    Refines(contents, capacity, ops) && nextSeq == |Log(ops)| && sent == Log(ops)
  }

  lemma RecordTells(contents: Contents, capacity: nat, nextSeq: nat, sent: seq<Envelope>, ops: seq<Op>,
                    session: SessionId, event: Payload)
    requires 1 <= capacity && Tells(contents, capacity, nextSeq, sent, ops)
    ensures var e := Envelope(nextSeq, session, event);
            Tells(Recorded(contents, capacity, e), capacity, nextSeq + 1, sent + [e],
                  ops + [Op.Publish(session, event)])
  {
    PublishStep(ops, session, event);
    LastOfPush(Remembered(ops, session), Envelope(nextSeq, session, event), capacity);
    assert RefinesAt(contents, capacity, ops, session);
    var recorded := Recorded(contents, capacity, Envelope(nextSeq, session, event));
    var after := ops + [Op.Publish(session, event)];
    forall s ensures RefinesAt(recorded, capacity, after, s) {
      assert RefinesAt(contents, capacity, ops, s);
    }
  }

  /** A ring created for the envelope is as good as none. */
  lemma EmptyRingIsNoRing(contents: Contents, capacity: nat, e: Envelope)
    requires e.session !in contents
    ensures Recorded(contents[e.session := []], capacity, e) == Recorded(contents, capacity, e)
  {
  }

  lemma ForgetTells(contents: Contents, capacity: nat, nextSeq: nat, sent: seq<Envelope>, ops: seq<Op>,
                    session: SessionId)
    requires Tells(contents, capacity, nextSeq, sent, ops)
    ensures Tells(contents - {session}, capacity, nextSeq, sent, ops + [Op.Forget(session)])
  {
    ForgetStep(ops, session);
    forall s ensures RefinesAt(contents - {session}, capacity, ops + [Op.Forget(session)], s) {
      assert RefinesAt(contents, capacity, ops, s);
    }
  }

  /** The counter, the rings it numbers, and the broadcast bus: all that was sent on it, of which it keeps
      the newest `CHANNEL_CAPACITY` envelopes; a receiver is a position in it. */
  class Backbone {
    const ringCapacity: nat
    var nextSeq: nat
    var sent: seq<Envelope>
    var rings: map<SessionId, RingBuffer>
    ghost var ops: seq<Op>

    ghost predicate Sound()
      reads this`rings, rings.Values
    {
      && 1 <= ringCapacity
      && (forall s :: s in rings ==> rings[s].Valid() && rings[s].capacity == ringCapacity)
      && (forall s, t :: s in rings && t in rings && s != t ==> rings[s] != rings[t])
    }

    ghost function Held(): Contents
      reads this`rings, rings.Values
    {
      map s | s in rings :: rings[s].entries
    }

    /** The rings refine the log of all that was published and forgotten; the bus has carried it whole. */
    ghost predicate Valid()
      reads this, rings.Values
    {
      Sound() && Tells(Held(), ringCapacity, nextSeq, sent, ops)
    }

    constructor (capacity: nat)
      ensures Valid() && ringCapacity == Max(capacity, 1) && ops == []
      ensures rings == map[]
    {
      ringCapacity := Max(capacity, 1);
      nextSeq, sent := 0, [];
      rings := map[];
      ops := [];
    }

    /** The session has a ring, created empty on its first event. */
    method RingFor(session: SessionId)
      requires Sound()
      modifies this`rings
      ensures Sound() && session in rings && (rings[session] in old(rings.Values) || fresh(rings[session]))
      ensures Held() == if session in old(rings) then old(Held()) else old(Held())[session := []]
    {
      if session !in rings {
        var ring := new RingBuffer(ringCapacity);
        rings := rings[session := ring];
      }
    }

    /** Appends to the session's ring; no other ring is touched. */
    method PushTo(envelope: Envelope)
      requires Sound() && envelope.session in rings
      modifies rings[envelope.session]
      ensures Sound() && Held() == Recorded(old(Held()), ringCapacity, envelope)
    {
      rings[envelope.session].Push(envelope);
    }

    /** The event gets the next number and goes into its session's ring. */
    method Record(session: SessionId, event: Payload) returns (envelope: Envelope)
      requires Sound()
      modifies this`nextSeq, this`rings, rings.Values
      ensures Sound() && envelope == Envelope(old(nextSeq), session, event) && nextSeq == old(nextSeq) + 1
      ensures Held() == Recorded(old(Held()), ringCapacity, envelope)
    {
      envelope := Envelope(nextSeq, session, event);
      nextSeq := nextSeq + 1;
      if session !in rings { EmptyRingIsNoRing(Held(), ringCapacity, envelope); }
      RingFor(session);
      PushTo(envelope);
    }

    /** Sends a recorded envelope on the bus. */
    method FanOut(envelope: Envelope, ghost after: seq<Op>)
      requires Sound() && Tells(Held(), ringCapacity, nextSeq, sent + [envelope], after)
      modifies this`sent, this`ops
      ensures Valid() && ops == after
    {
      sent := sent + [envelope];
      ops := after;
    }

    /** The event is numbered, recorded and sent on the bus, as one step. */
    method Publish(session: SessionId, event: Payload)
      requires Valid()
      modifies this, rings.Values
      ensures Valid() && ops == old(ops) + [Op.Publish(session, event)]
    {
      ghost var after := ops + [Op.Publish(session, event)];
      RecordTells(Held(), ringCapacity, nextSeq, sent, ops, session, event);
      var envelope := Record(session, event);
      FanOut(envelope, after);
    }

    method Replay(session: SessionId) returns (history: seq<Envelope>)
      requires Valid()
      ensures history == RingOf(ringCapacity, ops, session)
    {
      assert RefinesAt(Held(), ringCapacity, ops, session);
      if session in rings {
        history := rings[session].History();
      } else {
        history := [];
      }
    }

    method ReplayAfter(session: SessionId, after: Option<nat>) returns (history: seq<Envelope>)
      requires Valid()
      ensures history == PastMark(RingOf(ringCapacity, ops, session), after)
    {
      assert RefinesAt(Held(), ringCapacity, ops, session);
      if session in rings {
        history := rings[session].HistoryAfter(after);
      } else {
        history := [];
      }
    }

    /** Drops a session's history. */
    method Forget(session: SessionId)
      requires Valid()
      modifies this
      ensures Valid() && ops == old(ops) + [Op.Forget(session)]
      ensures session !in rings
    {
      ForgetTells(Held(), ringCapacity, nextSeq, sent, ops, session);
      rings := rings - {session};
      ops := ops + [Op.Forget(session)];
      assert Held() == old(Held()) - {session};
    }
  }
}
