/** The per-session ring buffer: bounded history for replay (crates/events/src/ring.rs). */
module Ring {
  import opened Numbers
  import opened Options
  import opened Search

  type SessionId = string
  type Payload = string

  datatype Envelope = Envelope(seqNo: nat, session: SessionId, event: Payload)

  /** The last `n` elements, or all of them when there are no more than `n`. */
  function Last<T>(s: seq<T>, n: nat): seq<T> {
    if |s| <= n then s else s[|s| - n..]
  }

  lemma LastExactly<T>(s: seq<T>, n: nat)
    ensures |Last(s, n)| == Min(|s|, n)
    ensures exists older :: s == older + Last(s, n)
  {
    assert s == s[..|s| - |Last(s, n)|] + Last(s, n);
  }

  /** The sequence number lies past the watermark. */
  predicate Above(seqNo: nat, mark: Option<nat>) {
    mark.Some? ==> seqNo > mark.value
  }

  predicate Increasing(s: seq<Envelope>) {
    forall i, j :: 0 <= i < j < |s| ==> s[i].seqNo < s[j].seqNo
  }

  function Past(mark: Option<nat>): Envelope -> bool { (e: Envelope) => Above(e.seqNo, mark) }

  /** The envelopes past the watermark, in their order. */
  function PastMark(s: seq<Envelope>, mark: Option<nat>): seq<Envelope> { Filter(s, Past(mark)) }

  lemma PastMarkExactly(s: seq<Envelope>, mark: Option<nat>)
    ensures forall e :: e in PastMark(s, mark) <==> e in s && Above(e.seqNo, mark)
  {
    FilterExactly(s, Past(mark));
  }

  /** Of an increasing history the part past a watermark is a suffix. */
  lemma PastMarkIsSuffix(s: seq<Envelope>, mark: Option<nat>) returns (k: nat)
    requires Increasing(s)
    ensures k <= |s| && PastMark(s, mark) == s[k..]
    ensures forall i :: 0 <= i < |s| ==> (Above(s[i].seqNo, mark) <==> k <= i)
  {
    k := FilterIsSuffix(s, Past(mark));
  }

  /** Pushing onto a bounded history keeps the last `n` of everything pushed. */
  lemma LastOfPush<T>(s: seq<T>, x: T, n: nat)
    requires n >= 1
    ensures Last(Last(s, n) + [x], n) == Last(s + [x], n)
  {
  }

  /** The newest envelopes of one session, in the order they were pushed. */
  class RingBuffer {
    const capacity: nat
    var entries: seq<Envelope>

    ghost predicate Valid()
      reads this
    {
      1 <= capacity && |entries| <= capacity
    }

    constructor (capacity: nat)
      ensures Valid() && this.capacity == Max(capacity, 1) && entries == []
    {
      this.capacity := Max(capacity, 1);
      entries := [];
    }

    /** A full ring loses its first entry to the new one. */
    method Push(envelope: Envelope)
      requires Valid()
      modifies this
      ensures Valid() && entries == Last(old(entries) + [envelope], capacity)
    {
      if |entries| == capacity {
        entries := entries[1..];
      }
      entries := entries + [envelope];
    }

    method History() returns (history: seq<Envelope>)
      ensures history == entries
    {
      history := entries;
    }

    /** History past `after`, or all of it when no watermark is given. */
    method HistoryAfter(after: Option<nat>) returns (history: seq<Envelope>)
      ensures history == PastMark(entries, after)
    {
      if after.None? {
        history := History();
        EverythingIsPastNoMark(entries);
        return;
      }
      history := [];
      for i := 0 to |entries|
        invariant history == PastMark(entries[..i], after)
      {
        assert entries[..i + 1][..i] == entries[..i];
        if entries[i].seqNo > after.value {
          history := history + [entries[i]];
        }
      }
      assert entries[..|entries|] == entries;
    }
  }

  lemma EverythingIsPastNoMark(s: seq<Envelope>)
    ensures PastMark(s, None) == s
  {
    FilterOfSplit(s, Past(None), 0);
  }
}
