/**
 The two operations of the dashboard loop that write to the socket (crates/dashboard/src/ws.rs),
 and how they are steps of the connection machine.
 */
module Client {
  import opened Options
  import opened Runs
  import opened Ring
  import opened History = Backbone
  import opened Dashboard

  /** What `recv` on the live subscription answers. */
  datatype Received = Delivered(envelope: Envelope) | Lagged | StreamClosed

  /** The sessions' histories past the watermark, in listing order. */
  function Collected(capacity: nat, ops: seq<Op>, sessions: seq<SessionId>, after: Option<nat>): seq<Envelope> {
    if sessions == [] then []
    else
      var n := |sessions| - 1;
      Collected(capacity, ops, sessions[..n], after) + PastMark(RingOf(capacity, ops, sessions[n]), after)
  }

  /** One live envelope against the watermark: what is sent and how far, and whether the connection goes on;
      `writable` says that a write would work. */
  function Forwarded(envelope: Envelope, sent: seq<Envelope>, mark: Option<nat>, writable: bool)
    : (seq<Envelope>, Option<nat>, bool)
  {
    if !Above(envelope.seqNo, mark) then (sent, mark, true)
    else if writable then (sent + [envelope], Some(envelope.seqNo), true)
    else (sent, mark, false)
  }

  class Connection {
    const backbone: History.Backbone
    var sentUpTo: Option<nat>
    var written: seq<Envelope>
    var budget: nat            // writes the peer still takes before the connection is dead

    constructor (backbone: History.Backbone, budget: nat)
      ensures this.backbone == backbone && this.budget == budget
      ensures sentUpTo == None && written == []
    {
      this.backbone := backbone;
      this.budget := budget;
      sentUpTo := None;
      written := [];
    }

    /** One bounded write. */
    method Send(envelope: Envelope) returns (ok: bool)
      modifies this`written, this`budget
      ensures ok == (old(budget) > 0)
      ensures written == if ok then old(written) + [envelope] else old(written)
      ensures budget == if ok then old(budget) - 1 else 0
    {
      ok := budget > 0;
      if ok {
        written := written + [envelope];
        budget := budget - 1;
      }
    }

    /** The unsorted batch of one drain. */
    method Collect(sessions: seq<SessionId>) returns (batch: seq<Envelope>)
      requires backbone.Valid()
      ensures batch == Collected(backbone.ringCapacity, backbone.ops, sessions, sentUpTo)
    {
      batch := [];
      for i := 0 to |sessions|
        invariant batch == Collected(backbone.ringCapacity, backbone.ops, sessions[..i], sentUpTo)
      {
        assert sessions[..i + 1][..i] == sessions[..i];
        var history := backbone.ReplayAfter(sessions[i], sentUpTo);
        batch := batch + history;
      }
      assert sessions[..|sessions|] == sessions;
    }

    method WriteAll(batch: seq<Envelope>) returns (ok: bool)
      modifies this`written, this`budget
      ensures ok == (|batch| <= old(budget))
      ensures written == old(written) + (if ok then batch else batch[..old(budget)])
    {
      for i := 0 to |batch|
        invariant written == old(written) + batch[..i] && budget == old(budget) - i
      {
        var sent := Send(batch[i]);
        if !sent {
          return false;
        }
      }
      assert batch[..|batch|] == batch;
      ok := true;
    }

    /** Writes every listed session's history past the watermark in sequence order and moves the
        watermark to the last one; a failed write leaves a proper prefix and ends the connection. */
    method DrainHistory(sessions: seq<SessionId>) returns (ok: bool)
      requires backbone.Valid()
      modifies this
      ensures var batch := SortBySeq(Collected(backbone.ringCapacity, backbone.ops, sessions, old(sentUpTo)));
              && ok == (|batch| <= old(budget))
              && written == old(written) + (if ok then batch else batch[..old(budget)])
              && sentUpTo == (if ok then Watermark(batch, old(sentUpTo)) else old(sentUpTo))
    {
      var batch := Collect(sessions);
      batch := SortBySeq(batch);
      ok := WriteAll(batch);
      if ok {
        sentUpTo := Watermark(batch, sentUpTo);
      }
    }

    /** An envelope at or below the watermark is dropped, a lag refills from the rings. */
    method ForwardLiveEvent(received: Received, sessions: seq<SessionId>) returns (ok: bool)
      requires backbone.Valid()
      modifies this
      ensures received.Delivered? ==>
                (written, sentUpTo, ok) == Forwarded(received.envelope, old(written), old(sentUpTo), old(budget) > 0)
      ensures received.Lagged? ==>
                var batch := SortBySeq(Collected(backbone.ringCapacity, backbone.ops, sessions, old(sentUpTo)));
                && ok == (|batch| <= old(budget))
                && written == old(written) + (if ok then batch else batch[..old(budget)])
                && sentUpTo == (if ok then Watermark(batch, old(sentUpTo)) else old(sentUpTo))
      ensures received.StreamClosed? ==> !ok && written == old(written) && sentUpTo == old(sentUpTo)
    {
      match received
      case Delivered(envelope) =>
        if sentUpTo.Some? && envelope.seqNo <= sentUpTo.value {
          return true;
        }
        ok := Send(envelope);
        if ok {
          sentUpTo := Some(envelope.seqNo);
        }
      case Lagged => ok := DrainHistory(sessions);
      case StreamClosed => ok := false;
    }
  }

  /** The machine's receive forwards the same way, and takes a lagging receiver to a drain. */
  lemma ReceiveForwards(st: State, ok: bool)
    requires st.phase.Live? && st.cursor < |st.Log()|
    ensures var next := ReceiveNext(st, ok);
            if |st.Log()| - st.cursor > 1024 then
              && next.phase.Listing? && next.sent == st.sent && next.mark == st.mark
              && next.cursor == |st.Log()| - 1024
            else
              var (sent, mark, live) := Forwarded(st.Log()[st.cursor], st.sent, st.mark, ok);
              && next.sent == sent && next.mark == mark
              && (if live then next.phase.Live? && next.cursor == st.cursor + 1 else next.phase.Ended?)
  {
    assert st.Log()[st.cursor].seqNo == st.cursor;
  }

  // ----- a drain nothing interleaves with, as steps of the machine

  function Reads(sessions: seq<SessionId>): (evs: seq<Event>)
    ensures |evs| == |sessions| && forall i :: 0 <= i < |evs| ==> evs[i] == Read(sessions[i])
  {
    if sessions == [] then [] else Reads(sessions[..|sessions| - 1]) + [Read(sessions[|sessions| - 1])]
  }

  /** `now` is `st` after its drain has read the given sessions' rings. */
  ghost predicate HasRead(st: State, sessions: seq<SessionId>, now: State) {
    && now.phase.Reading? && now == st.(phase := now.phase)
    && now.phase.listed == st.open
    && (forall s :: s in now.phase.readAt <==> s in sessions)
    && now.phase.batch == Collected(st.capacity, st.ops, sessions, st.mark)
  }

  lemma ReadOneMore(st: State, init: seq<SessionId>, last: SessionId, now: State)
    requires HasRead(st, init, now) && last !in init && last in st.open
    ensures HasRead(st, init + [last], ReadRing(now, last))
  {
    assert (init + [last])[..|init|] == init;
  }

  lemma {:induction false} ReadsCollect(st: State, sessions: seq<SessionId>)
    requires st.phase == Reading(st.open, map[], [])
    requires forall i, j :: 0 <= i < j < |sessions| ==> sessions[i] != sessions[j]
    requires forall s :: s in sessions ==> s in st.open
    ensures HasRead(st, sessions, Run(Apply, st, Reads(sessions)))
    decreases |sessions|
  {
    if sessions != [] {
      var n := |sessions| - 1;
      var init, last := sessions[..n], sessions[n];
      ReadsCollect(st, init);
      var now := Run(Apply, st, Reads(init));
      assert Run(Apply, st, Reads(sessions)) == Apply(now, Read(last)) by {
        assert Reads(sessions)[..n] == Reads(init);
      }
      assert sessions == init + [last] && last !in init;
      ReadOneMore(st, init, last, now);
      assert Apply(now, Read(last)) == ReadRing(now, last);
    }
  }

  lemma {:induction false} WritesDeliver(st: State, n: nat)
    requires st.phase.Writing? && n <= |st.phase.rest|
    ensures Run(Apply, st, seq(n, _ => Write(true))) ==
            st.(sent := st.sent + st.phase.rest[..n], phase := Writing(st.phase.rest[n..], st.phase.final))
    decreases n
  {
    var evs := seq(n, _ => Write(true));
    if n == 0 {
      assert evs == [];
    } else {
      assert evs[..n - 1] == seq(n - 1, _ => Write(true));
      WritesDeliver(st, n - 1);
      var rest := st.phase.rest;
      assert rest[..n - 1] + [rest[n - 1]] == rest[..n];
      assert rest[n - 1..][0] == rest[n - 1] && rest[n - 1..][1..] == rest[n..];
    }
  }

  lemma SortAndWrite(read: State)
    requires read.phase.Reading? && read.phase.listed == read.phase.readAt.Keys
    ensures var batch := SortBySeq(read.phase.batch);
            var written := Run(Apply, SortBatch(read), seq(|batch|, _ => Write(true)));
            var end := WriteNext(written, true);
            && end.phase.Live? && end.sent == read.sent + batch && end.mark == Watermark(batch, read.mark)
            && end.ops == read.ops && end.cursor == read.cursor
  {
    WritesDeliver(SortBatch(read), |SortBySeq(read.phase.batch)|);
  }

  /** Listing the open sessions, reading each, sorting and writing does to the machine what
      `DrainHistory` does to the connection. */
  lemma DrainIsARun(st: State, sessions: seq<SessionId>)
    requires st.phase.Listing?
    requires forall i, j :: 0 <= i < j < |sessions| ==> sessions[i] != sessions[j]
    requires forall s :: s in sessions <==> s in st.open
    ensures var batch := SortBySeq(Collected(st.capacity, st.ops, sessions, st.mark));
            var sorted := SortBatch(Run(Apply, Apply(st, List), Reads(sessions)));
            var written := Run(Apply, sorted, seq(|batch|, _ => Write(true)));
            var end := WriteNext(written, true);
            && end.phase.Live? && end.sent == st.sent + batch && end.mark == Watermark(batch, st.mark)
            && end.ops == st.ops && end.cursor == st.cursor
  {
    var reading := Apply(st, List);
    ReadsCollect(reading, sessions);
    var read := Run(Apply, reading, Reads(sessions));
    assert read.phase.readAt.Keys == st.open;
    SortAndWrite(read);
  }
}
