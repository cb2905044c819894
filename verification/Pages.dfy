/**
 The page registry of a session (crates/session/src/pages.rs): which pages are tracked, which one is
 active, and the gate a rebuild holds.
 */
module Pages {
  import opened Options
  import opened Search

  /** A page a context opened carries the context's number and its own within it; an adopted window carries
      its target. */
  datatype PageId = Opened(context: nat, serial: nat) | Window(target: nat)

  /** What reaches a tab, through the engine context that opened or adopted it. */
  datatype Handle = Handle(tab: nat, context: nat)

  datatype PageSlot = PageSlot(id: PageId, url: string, handle: Handle, active: bool)

  datatype RecoveryPoint = RecoveryPoint(url: string, active: bool)

  // ----- what the operations do to the list

  function FirstActive(slots: seq<PageSlot>): (at: Option<nat>)
    ensures at.Some? ==> at.value < |slots| && slots[at.value].active
                         && forall i :: 0 <= i < at.value ==> !slots[i].active
    ensures at.None? ==> forall i :: 0 <= i < |slots| ==> !slots[i].active
  {
    FirstWhere(slots, (slot: PageSlot) => slot.active)
  }

  function Position(slots: seq<PageSlot>, id: PageId): (at: Option<nat>)
    ensures at.Some? ==> at.value < |slots| && slots[at.value].id == id
                         && forall i :: 0 <= i < at.value ==> slots[i].id != id
    ensures at.None? ==> forall i :: 0 <= i < |slots| ==> slots[i].id != id
  {
    FirstWhere(slots, (slot: PageSlot) => slot.id == id)
  }

  predicate Tracks(slots: seq<PageSlot>, id: PageId) { Position(slots, id).Some? }

  function WithUrl(slots: seq<PageSlot>, id: PageId, url: string): (r: seq<PageSlot>)
    ensures |r| == |slots|
  {
    seq(|slots|, i requires 0 <= i < |slots| => if slots[i].id == id then slots[i].(url := url) else slots[i])
  }

  function Activated(slots: seq<PageSlot>, id: PageId): (r: seq<PageSlot>)
    ensures |r| == |slots|
  {
    seq(|slots|, i requires 0 <= i < |slots| => slots[i].(active := slots[i].id == id))
  }

  function WithFirstActive(slots: seq<PageSlot>): seq<PageSlot>
    requires slots != []
  {
    slots[0 := slots[0].(active := true)]
  }

  function Without(slots: seq<PageSlot>, id: PageId): seq<PageSlot> {
    match Position(slots, id)
    case None => slots
    case Some(at) =>
      var rest := slots[..at] + slots[at + 1..];
      if slots[at].active && rest != [] then WithFirstActive(rest) else rest
  }

  function Rebuilt(slots: seq<PageSlot>): seq<PageSlot> {
    if slots != [] && FirstActive(slots).None? then WithFirstActive(slots) else slots
  }

  function RecoveryPoints(slots: seq<PageSlot>): seq<RecoveryPoint> {
    seq(|slots|, i requires 0 <= i < |slots| => RecoveryPoint(slots[i].url, slots[i].active))
  }

  // ----- the two invariants

  predicate AtMostOneActive(slots: seq<PageSlot>) {
    forall i, j :: 0 <= i < j < |slots| ==> !(slots[i].active && slots[j].active)
  }

  predicate ExactlyOneActive(slots: seq<PageSlot>) {
    AtMostOneActive(slots) && FirstActive(slots).Some?
  }

  predicate DistinctIds(slots: seq<PageSlot>) {
    forall i, j :: 0 <= i < j < |slots| ==> slots[i].id != slots[j].id
  }

  /** Taking the active page away leaves exactly one active page, if any page remains. */
  lemma RemovingKeepsOneActive(slots: seq<PageSlot>, id: PageId)
    requires AtMostOneActive(slots)
    ensures AtMostOneActive(Without(slots, id))
    ensures var at := Position(slots, id);
            && (at.Some? ==> |Without(slots, id)| == |slots| - 1)
            && (at.Some? && slots[at.value].active && |slots| > 1 ==> ExactlyOneActive(Without(slots, id)))
  {
    var at := Position(slots, id);
    if at.Some? {
      var rest := slots[..at.value] + slots[at.value + 1..];
      assert forall i :: 0 <= i < |rest| ==> rest[i] == slots[if i < at.value then i else i + 1];
      if slots[at.value].active && rest != [] {
        assert forall i :: 0 <= i < |rest| ==> !rest[i].active;
        assert WithFirstActive(rest)[0].active;
      }
    }
  }

  /** The list without the slot at `at`, which promotion does not move or rename. */
  lemma WithoutAt(slots: seq<PageSlot>, id: PageId, i: nat)
    requires Tracks(slots, id) && i < |slots| - 1
    ensures |Without(slots, id)| == |slots| - 1
    ensures Without(slots, id)[i].id == slots[if i < Position(slots, id).value then i else i + 1].id
  {
  }

  lemma RemovingKeepsDistinct(slots: seq<PageSlot>, id: PageId)
    requires DistinctIds(slots)
    ensures DistinctIds(Without(slots, id))
  {
    var r := Without(slots, id);
    if Tracks(slots, id) {
      assert |r| == |slots| - 1;
      forall i, j | 0 <= i < j < |r| ensures r[i].id != r[j].id {
        WithoutAt(slots, id, i);
        WithoutAt(slots, id, j);
      }
    }
  }

  /** Only the page taken away leaves the list. */
  lemma RemovingKeepsTheRest(slots: seq<PageSlot>, id: PageId, other: PageId)
    requires DistinctIds(slots)
    ensures Tracks(Without(slots, id), other) <==> Tracks(slots, other) && other != id
  {
    var r := Without(slots, id);
    if Tracks(slots, id) {
      var at := Position(slots, id).value;
      if Tracks(slots, other) && other != id {
        var k := Position(slots, other).value;
        WithoutAt(slots, id, if k < at then k else k - 1);
      }
      if Tracks(r, other) {
        WithoutAt(slots, id, Position(r, other).value);
      }
    }
  }

  /** Activation makes one page active exactly when its id is tracked once: with two slots of one id
      both come back active. */
  lemma ActivationExactly(slots: seq<PageSlot>, id: PageId)
    ensures AtMostOneActive(Activated(slots, id)) <==>
            forall i, j :: 0 <= i < j < |slots| ==> !(slots[i].id == id && slots[j].id == id)
    ensures Tracks(slots, id) <==> FirstActive(Activated(slots, id)).Some?
  {
    var r := Activated(slots, id);
    assert forall i :: 0 <= i < |slots| ==> r[i].active == (slots[i].id == id) && r[i].id == slots[i].id;
    if Tracks(slots, id) { assert r[Position(slots, id).value].active; }
    if FirstActive(r).Some? { assert slots[FirstActive(r).value].id == id; }
  }

  /** A rebuilt list with at most one active page comes up with exactly one, unless it is empty. */
  lemma RebuiltHasOneActive(slots: seq<PageSlot>)
    requires AtMostOneActive(slots)
    ensures AtMostOneActive(Rebuilt(slots))
    ensures slots != [] ==> ExactlyOneActive(Rebuilt(slots))
  {
    var r := Rebuilt(slots);
    assert forall i :: 0 <= i < |slots| ==> r[i].id == slots[i].id && (i > 0 ==> r[i] == slots[i]);
    if slots != [] {
      if FirstActive(slots).None? { assert r[0].active; } else { assert r[FirstActive(slots).value].active; }
    }
  }

  // ----- the registry

  class PageRegistry {
    var slots: seq<PageSlot>
    var recovering: bool

    constructor ()
      ensures slots == [] && !recovering
    {
      slots, recovering := [], false;
    }

    /** The lookup: never opens anything, answers nothing during a rebuild. */
    method Active() returns (found: Option<(PageId, Handle)>)
      ensures found.Some? <==> !recovering && FirstActive(slots).Some?
      ensures found.Some? ==> var at := FirstActive(slots).value; found.value == (slots[at].id, slots[at].handle)
    {
      if recovering { return None; }
      match FirstActive(slots)
      case None => found := None;
      case Some(at) => found := Some((slots[at].id, slots[at].handle));
    }

    method AdmitActive(slot: PageSlot) returns (admitted: bool)
      modifies this`slots
      ensures admitted <==> !recovering && FirstActive(old(slots)).None?
      ensures slots == if admitted then old(slots) + [slot.(active := true)] else old(slots)
    {
      if recovering || FirstActive(slots).Some? { return false; }
      slots := slots + [slot.(active := true)];
      admitted := true;
    }

    method Admit(slot: PageSlot) returns (admitted: bool)
      modifies this`slots
      ensures admitted <==> !recovering && !Tracks(old(slots), slot.id)
      ensures slots == if admitted then old(slots) + [slot] else old(slots)
    {
      if recovering || Tracks(slots, slot.id) { return false; }
      slots := slots + [slot];
      admitted := true;
    }

    method SetUrl(id: PageId, url: string)
      modifies this`slots
      ensures slots == WithUrl(old(slots), id, url)
    {
      var i := 0;
      while i < |slots|
        invariant 0 <= i <= |slots| == |old(slots)|
        invariant forall k :: 0 <= k < i ==> slots[k] == WithUrl(old(slots), id, url)[k]
        invariant forall k :: i <= k < |slots| ==> slots[k] == old(slots)[k]
      {
        if slots[i].id == id { slots := slots[i := slots[i].(url := url)]; }
        i := i + 1;
      }
    }

    method Activate(id: PageId) returns (handle: Option<Handle>)
      modifies this`slots
      ensures handle.Some? <==> Tracks(old(slots), id)
      ensures handle.Some? ==> handle.value == old(slots)[Position(old(slots), id).value].handle
      ensures slots == if handle.Some? then Activated(old(slots), id) else old(slots)
    {
      if !Tracks(slots, id) { return None; }
      var i := 0;
      while i < |slots|
        invariant 0 <= i <= |slots| == |old(slots)|
        invariant forall k :: 0 <= k < i ==> slots[k] == Activated(old(slots), id)[k]
        invariant forall k :: i <= k < |slots| ==> slots[k] == old(slots)[k]
      {
        slots := slots[i := slots[i].(active := slots[i].id == id)];
        i := i + 1;
      }
      ghost var first := Position(old(slots), id).value;
      assert slots[first].id == id && forall k :: 0 <= k < first ==> slots[k].id != id;
      var at := Position(slots, id).value;
      assert at == first;
      handle := Some(slots[at].handle);
    }

    method Remove(id: PageId) returns (removed: Option<PageSlot>)
      modifies this`slots
      ensures removed.Some? <==> Tracks(old(slots), id)
      ensures removed.Some? ==> removed.value == old(slots)[Position(old(slots), id).value]
      ensures slots == Without(old(slots), id)
    {
      match Position(slots, id)
      case None => removed := None;
      case Some(at) =>
        removed := Some(slots[at]);
        slots := slots[..at] + slots[at + 1..];
        if removed.value.active && slots != [] {
          slots := slots[0 := slots[0].(active := true)];
        }
    }

    method BeginRecovery() returns (saved: seq<RecoveryPoint>)
      modifies this`recovering
      ensures recovering && saved == RecoveryPoints(slots)
    {
      recovering := true;
      saved := RecoveryPoints(slots);
    }

    method FinishRecovery(rebuilt: seq<PageSlot>)
      modifies this
      ensures slots == Rebuilt(rebuilt) && !recovering
    {
      slots := rebuilt;
      if slots != [] && FirstActive(slots).None? {
        slots := slots[0 := slots[0].(active := true)];
      }
      recovering := false;
    }

    /** Dropping the gate, on any path, reopens the registry and touches no slot. */
    method DropGate()
      modifies this`recovering
      ensures !recovering
    {
      recovering := false;
    }

    method Clear()
      modifies this
      ensures slots == [] && !recovering
    {
      slots, recovering := [], false;
    }
  }

  /** Why a rebuild must own the registry: a `clear` in its middle reopens it, and a page admitted then
      is dropped by the write-back. */
  method ClearMidRebuildLosesAPage(registry: PageRegistry, slot: PageSlot, rebuilt: seq<PageSlot>)
    returns (admitted: bool)
    requires !Tracks(rebuilt, slot.id)
    modifies registry
    ensures admitted && !Tracks(registry.slots, slot.id) && !registry.recovering
  {
    var saved := registry.BeginRecovery();
    registry.Clear();
    admitted := registry.AdmitActive(slot);
    registry.FinishRecovery(rebuilt);
    assert forall i :: 0 <= i < |rebuilt| ==> registry.slots[i].id == rebuilt[i].id;
  }
}
