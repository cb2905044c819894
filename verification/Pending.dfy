/**
 Requests sent and not yet answered (crates/engine-cdp/src/page.rs, `PendingRequests`): a bounded
 dictionary that drops its oldest entry; and the spacing of screenshot captures (`capture_due`).
 */
module Pending {
  import opened Options
  import opened Search

  type RequestId = string

  /** What was sent: method and URL. */
  datatype Request = Request(verb: string, url: string)

  const PENDING_CAP: nat := 256

  // ----- the specification: an insertion-ordered dictionary

  datatype Entry = Entry(id: RequestId, request: Request)

  /** Oldest first, no id twice. */
  type Dictionary = seq<Entry>

  function IndexOf(d: Dictionary, id: RequestId): (at: Option<nat>)
    ensures at.Some? ==> at.value < |d| && d[at.value].id == id
    ensures at.None? ==> forall i :: 0 <= i < |d| ==> d[i].id != id
  {
    FirstWhere(d, (entry: Entry) => entry.id == id)
  }

  function Lookup(d: Dictionary, id: RequestId): Option<Request> {
    match IndexOf(d, id) case None => None case Some(at) => Some(d[at].request)
  }

  function Without(d: Dictionary, id: RequestId): Dictionary {
    if d == [] then [] else if d[0].id == id then Without(d[1..], id) else [d[0]] + Without(d[1..], id)
  }

  /** A known id keeps its place; a new one goes last, and at `cap` pushes out the oldest. */
  function Noted(d: Dictionary, cap: nat, id: RequestId, request: Request): Dictionary {
    match IndexOf(d, id)
    case Some(at) => d[at := Entry(id, request)]
    case None => (if |d| >= cap && d != [] then d[1..] else d) + [Entry(id, request)]
  }

  ghost predicate DistinctIds(d: Dictionary) {
    forall i, j :: 0 <= i < j < |d| ==> d[i].id != d[j].id
  }

  lemma {:induction false} WithoutExactly(d: Dictionary, id: RequestId)
    requires DistinctIds(d)
    ensures DistinctIds(Without(d, id)) && |Without(d, id)| <= |d|
    ensures forall e :: e in Without(d, id) <==> e in d && e.id != id
    ensures IndexOf(d, id).Some? ==> |Without(d, id)| == |d| - 1
    ensures IndexOf(d, id).None? ==> Without(d, id) == d
  {
    if d != [] {
      assert d == [d[0]] + d[1..];
      WithoutExactly(d[1..], id);
      if d[0].id == id {
        assert IndexOf(d[1..], id).None?;
      } else {
        var rest := Without(d[1..], id);
        forall j | 0 <= j < |rest| ensures rest[j].id != d[0].id { assert rest[j] in rest; }
      }
    }
  }

  lemma LookupExactly(d: Dictionary, id: RequestId, request: Request)
    requires DistinctIds(d)
    ensures Lookup(d, id) == Some(request) <==> Entry(id, request) in d
    ensures Lookup(d, id).None? <==> forall e :: e in d ==> e.id != id
  {
    if IndexOf(d, id).Some? {
      assert d[IndexOf(d, id).value] in d;
    }
  }

  lemma NotedIsDistinct(d: Dictionary, cap: nat, id: RequestId, request: Request)
    requires DistinctIds(d) && |d| <= cap && cap >= 1
    ensures DistinctIds(Noted(d, cap, id, request)) && |Noted(d, cap, id, request)| <= cap
  {
  }

  /** What a note changes: the id has its latest value, and of the others only the oldest goes, and only
      when a new id finds the dictionary full. */
  lemma {:induction false} NotedExactly(d: Dictionary, cap: nat, id: RequestId, request: Request, other: RequestId)
    requires DistinctIds(d) && |d| <= cap && cap >= 1
    ensures Lookup(Noted(d, cap, id, request), id) == Some(request)
    ensures other != id ==>
              Lookup(Noted(d, cap, id, request), other) ==
              if IndexOf(d, id).None? && |d| == cap && d[0].id == other then None else Lookup(d, other)
  {
    var next := Noted(d, cap, id, request);
    NotedIsDistinct(d, cap, id, request);
    var at := IndexOf(d, id);
    assert next[if at.Some? then at.value else |next| - 1] == Entry(id, request);
    LookupExactly(next, id, request);
    if other != id {
      forall e: Entry | e.id == other
        ensures e in next <==> e in d && !(at.None? && |d| == cap && d[0].id == other)
      {
        if at.None? && |d| == cap {
          assert d == [d[0]] + d[1..];
        } else if at.Some? {
          assert forall i :: 0 <= i < |d| && i != at.value ==> next[i] == d[i];
        }
      }
      SameEntry(d, next, other, at.None? && |d| == cap && d[0].id == other);
    }
  }

  lemma SameEntry(d: Dictionary, next: Dictionary, id: RequestId, gone: bool)
    requires DistinctIds(d) && DistinctIds(next)
    requires forall e: Entry :: e.id == id ==> (e in next <==> e in d && !gone)
    ensures Lookup(next, id) == if gone then None else Lookup(d, id)
  {
    if Lookup(next, id).Some? {
      LookupExactly(next, id, Lookup(next, id).value);
      LookupExactly(d, id, Lookup(next, id).value);
    } else if Lookup(d, id).Some? {
      var e := d[IndexOf(d, id).value];
      LookupExactly(next, id, e.request);
      assert e in d;
    }
  }

  // ----- the structure

  function Retained(order: seq<RequestId>, id: RequestId): seq<RequestId> {
    if order == [] then []
    else if order[0] == id then Retained(order[1..], id)
    else [order[0]] + Retained(order[1..], id)
  }

  function Entries(order: seq<RequestId>, pending: map<RequestId, Request>): (d: Dictionary)
    requires forall id :: id in order ==> id in pending
    ensures |d| == |order| && forall i :: 0 <= i < |d| ==> d[i] == Entry(order[i], pending[order[i]])
  {
    if order == [] then [] else [Entry(order[0], pending[order[0]])] + Entries(order[1..], pending)
  }

  lemma {:induction false} RetainedExactly(order: seq<RequestId>, pending: map<RequestId, Request>, id: RequestId)
    requires forall x :: x in order ==> x in pending
    ensures forall x :: x in Retained(order, id) <==> x in order && x != id
    ensures Entries(Retained(order, id), pending - {id}) == Without(Entries(order, pending), id)
  {
    if order != [] {
      assert order == [order[0]] + order[1..];
      RetainedExactly(order[1..], pending, id);
      var rest := Retained(order[1..], id);
      if order[0] != id { assert ([order[0]] + rest)[1..] == rest; }
      assert Entries(order, pending)[1..] == Entries(order[1..], pending);
    }
  }

  /** The queue has exactly the map's ids, each once, and is within the cap. */
  ghost predicate Queues(order: seq<RequestId>, pending: map<RequestId, Request>) {
    && |order| <= PENDING_CAP
    && (forall id :: id in order <==> id in pending)
    && (forall i, j :: 0 <= i < j < |order| ==> order[i] != order[j])
  }

  lemma EntriesAgree(order: seq<RequestId>, a: map<RequestId, Request>, b: map<RequestId, Request>)
    requires forall id :: id in order ==> id in a && id in b && a[id] == b[id]
    ensures Entries(order, a) == Entries(order, b)
  {
  }

  /** An id's place in the queue is its entry's place. */
  lemma {:induction false} PlaceInQueue(order: seq<RequestId>, pending: map<RequestId, Request>, id: RequestId)
      returns (k: nat)
    requires Queues(order, pending) && id in pending
    ensures k < |order| && order[k] == id && IndexOf(Entries(order, pending), id) == Some(k)
  {
    var d := Entries(order, pending);
    assert id in order;
    var i :| 0 <= i < |order| && order[i] == id;
    assert d[i].id == id;
    k := IndexOf(d, id).value;
    assert d[k].id == order[k];
  }

  lemma {:induction false} NoteKnown(
      order: seq<RequestId>, pending: map<RequestId, Request>, id: RequestId, request: Request)
    requires Queues(order, pending) && id in pending
    ensures Queues(order, pending[id := request])
    ensures Entries(order, pending[id := request]) == Noted(Entries(order, pending), PENDING_CAP, id, request)
  {
    var k := PlaceInQueue(order, pending, id);
    EntriesUpdate(order, pending, k, request);
  }

  lemma EntriesUpdate(order: seq<RequestId>, pending: map<RequestId, Request>, k: nat, request: Request)
    requires Queues(order, pending) && k < |order|
    ensures forall x :: x in order ==> x in pending[order[k] := request]
    ensures Entries(order, pending[order[k] := request]) == Entries(order, pending)[k := Entry(order[k], request)]
  {
  }

  lemma EntriesAppend(order: seq<RequestId>, pending: map<RequestId, Request>, id: RequestId, request: Request)
    requires id !in order && forall x :: x in order ==> x in pending
    ensures Entries(order + [id], pending[id := request]) == Entries(order, pending) + [Entry(id, request)]
  {
    EntriesAgree(order, pending, pending[id := request]);
    assert forall i :: 0 <= i < |order| ==> (order + [id])[i] == order[i] && order[i] in order;
  }

  lemma QueueAppend(order: seq<RequestId>, pending: map<RequestId, Request>, id: RequestId, request: Request)
    requires Queues(order, pending) && id !in pending && |order| < PENDING_CAP
    ensures Queues(order + [id], pending[id := request])
  {
  }

  lemma QueueDrop(order: seq<RequestId>, pending: map<RequestId, Request>)
    requires Queues(order, pending) && order != []
    ensures Queues(order[1..], pending - {order[0]})
    ensures Entries(order[1..], pending - {order[0]}) == Entries(order, pending)[1..]
  {
    assert order == [order[0]] + order[1..];
    EntriesAgree(order[1..], pending, pending - {order[0]});
  }

  lemma NoteNew(order: seq<RequestId>, pending: map<RequestId, Request>, id: RequestId, request: Request)
    requires Queues(order, pending) && id !in pending
    ensures var full := |order| >= PENDING_CAP;
            var kept := if full then order[1..] else order;
            var known := if full then pending - {order[0]} else pending;
            && id !in known && Queues(kept + [id], known[id := request])
            && Entries(kept + [id], known[id := request]) == Noted(Entries(order, pending), PENDING_CAP, id, request)
  {
    var d := Entries(order, pending);
    assert forall i :: 0 <= i < |d| ==> d[i].id in order;
    if |order| >= PENDING_CAP {
      QueueDrop(order, pending);
      QueueAppend(order[1..], pending - {order[0]}, id, request);
      EntriesAppend(order[1..], pending - {order[0]}, id, request);
    } else {
      QueueAppend(order, pending, id, request);
      EntriesAppend(order, pending, id, request);
    }
  }

  class PendingRequests {
    var pending: map<RequestId, Request>
    var order: seq<RequestId>

    ghost predicate Valid()
      reads this
    {
      Queues(order, pending)
    }

    ghost function Contents(): (d: Dictionary)
      requires Valid()
      reads this
      ensures DistinctIds(d) && |d| == |order|
    {
      Entries(order, pending)
    }

    constructor ()
      ensures Valid() && Contents() == []
    {
      pending, order := map[], [];
    }

    method Note(id: RequestId, request: Request)
      requires Valid()
      modifies this
      ensures Valid() && Contents() == Noted(old(Contents()), PENDING_CAP, id, request)
    {
      if id in pending { NoteKnown(order, pending, id, request); } else { NoteNew(order, pending, id, request); }
      if id !in pending && |order| >= PENDING_CAP && order != [] {
        var oldest := order[0];
        order := order[1..];
        pending := pending - {oldest};
      }
      if id !in pending { order := order + [id]; }
      pending := pending[id := request];
    }

    method Take(id: RequestId) returns (request: Option<Request>)
      requires Valid()
      modifies this
      ensures Valid() && request == Lookup(old(Contents()), id)
      ensures Contents() == Without(old(Contents()), id)
    {
      ghost var before := Contents();
      WithoutExactly(before, id);
      if id in pending {
        request := Some(pending[id]);
        RetainedExactly(order, pending, id);
        pending := pending - {id};
        order := Retained(order, id);
      } else {
        request := None;
      }
    }
  }

  // ----- whole runs

  datatype Op = Note(id: RequestId, request: Request) | Take(id: RequestId)

  function Held(ops: seq<Op>, cap: nat): Dictionary {
    if ops == [] then []
    else
      var before := Held(ops[..|ops| - 1], cap);
      match ops[|ops| - 1]
      case Note(id, request) => Noted(before, cap, id, request)
      case Take(id) => Without(before, id)
  }

  /** The value last noted under the id, unless it was taken since. */
  function LastNoted(ops: seq<Op>, id: RequestId): Option<Request> {
    if ops == [] then None
    else match ops[|ops| - 1]
      case Note(other, request) => if other == id then Some(request) else LastNoted(ops[..|ops| - 1], id)
      case Take(other) => if other == id then None else LastNoted(ops[..|ops| - 1], id)
  }

  /** The id was the oldest of a full dictionary when a new one came, and was not noted again since. */
  ghost predicate PushedOut(ops: seq<Op>, cap: nat, id: RequestId) {
    ops != []
    && var init, last := ops[..|ops| - 1], ops[|ops| - 1];
       last.id != id
       && (PushedOut(init, cap, id)
           || (last.Note? && IndexOf(Held(init, cap), last.id).None?
               && |Held(init, cap)| == cap && cap > 0 && Held(init, cap)[0].id == id))
  }

  lemma {:induction false} HeldIsDistinct(ops: seq<Op>, cap: nat)
    requires cap >= 1
    ensures DistinctIds(Held(ops, cap)) && |Held(ops, cap)| <= cap
  {
    if ops != [] {
      var init := ops[..|ops| - 1];
      HeldIsDistinct(init, cap);
      match ops[|ops| - 1]
      case Note(id, request) => NotedIsDistinct(Held(init, cap), cap, id, request);
      case Take(id) => WithoutExactly(Held(init, cap), id);
    }
  }

  lemma WithoutLookup(d: Dictionary, id: RequestId, other: RequestId)
    requires DistinctIds(d)
    ensures Lookup(Without(d, id), other) == if other == id then None else Lookup(d, other)
  {
    WithoutExactly(d, id);
    if other == id {
      if Lookup(Without(d, id), id).Some? { LookupExactly(Without(d, id), id, Lookup(Without(d, id), id).value); }
    } else {
      SameEntry(d, Without(d, id), other, false);
    }
  }

  /** What a take finds after any run, exactly: the value last noted and not taken since, unless the id
      was pushed out as the oldest. */
  lemma {:induction false} HeldExactly(ops: seq<Op>, cap: nat, id: RequestId)
    requires cap >= 1
    ensures Lookup(Held(ops, cap), id) == if PushedOut(ops, cap, id) then None else LastNoted(ops, id)
  {
    if ops != [] {
      var init, last := ops[..|ops| - 1], ops[|ops| - 1];
      HeldIsDistinct(init, cap);
      HeldExactly(init, cap, id);
      match last
      case Note(other, request) => NotedExactly(Held(init, cap), cap, other, request, id);
      case Take(other) => WithoutLookup(Held(init, cap), other, id);
    }
  }

  /** The dictionary without a bound. */
  function Unbounded(ops: seq<Op>): Dictionary {
    if ops == [] then []
    else
      var before := Unbounded(ops[..|ops| - 1]);
      match ops[|ops| - 1]
      case Note(id, request) => Noted(before, |before| + 1, id, request)
      case Take(id) => Without(before, id)
  }

  /** The bound never shows exactly while no more than `cap` requests are unanswered at a time. */
  lemma BoundShowsExactly(ops: seq<Op>, cap: nat)
    requires cap >= 1
    ensures (forall k :: 0 <= k <= |ops| ==> Held(ops[..k], cap) == Unbounded(ops[..k]))
            <==> forall k :: 0 <= k <= |ops| ==> |Unbounded(ops[..k])| <= cap
  {
    if forall k :: 0 <= k <= |ops| ==> |Unbounded(ops[..k])| <= cap {
      forall k | 0 <= k <= |ops| ensures Held(ops[..k], cap) == Unbounded(ops[..k]) { BoundHides(ops, cap, k); }
    } else {
      var k :| 0 <= k <= |ops| && |Unbounded(ops[..k])| > cap;
      HeldIsDistinct(ops[..k], cap);
    }
  }

  lemma {:induction false} BoundHides(ops: seq<Op>, cap: nat, k: nat)
    requires cap >= 1 && k <= |ops| && forall j :: 0 <= j <= k ==> |Unbounded(ops[..j])| <= cap
    ensures Held(ops[..k], cap) == Unbounded(ops[..k])
  {
    if k > 0 {
      BoundHides(ops, cap, k - 1);
      assert ops[..k][..k - 1] == ops[..k - 1];
      assert |Unbounded(ops[..k])| <= cap && |Unbounded(ops[..k - 1])| <= cap;
    }
  }

  // ----- capture spacing

  function Saturating(a: nat, b: nat): nat { if a < b then 0 else a - b }

  /** When a capture asked for at `now` is due, `last` being the slot reserved before it. */
  function CaptureDue(last: Option<nat>, minInterval: nat, now: nat): nat {
    now + match last
          case None => 0
          case Some(at) => if at > now then (at - now) + minInterval else Saturating(minInterval, now - at)
  }

  /** The slots reserved by captures that read the clock at `nows`, in the order they took the lock. */
  function Reservations(nows: seq<nat>, minInterval: nat): (slots: seq<nat>)
    ensures |slots| == |nows|
  {
    if nows == [] then []
    else
      var before := Reservations(nows[..|nows| - 1], minInterval);
      before + [CaptureDue(if before == [] then None else Some(before[|before| - 1]), minInterval, nows[|nows| - 1])]
  }

  /** However the clock readings interleave, no capture runs before it asked, any two are the interval
      apart, and one that is not held back by its predecessor runs at once. */
  lemma {:induction false} CapturesAreSpaced(nows: seq<nat>, minInterval: nat, i: nat)
    requires i < |nows|
    ensures var slots := Reservations(nows, minInterval);
            && slots[i] >= nows[i]
            && (forall j :: i < j < |nows| ==> slots[j] >= slots[i] + minInterval)
            && (slots[i] > nows[i] ==> i > 0 && slots[i] == slots[i - 1] + minInterval)
  {
    var k := |nows| - 1;
    if i < k {
      CapturesAreSpaced(nows[..k], minInterval, i);
      CapturesAreSpaced(nows[..k], minInterval, k - 1);
    }
  }
}
