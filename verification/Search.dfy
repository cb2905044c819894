/** What the source's iterators do with `find`, `position`, `filter` and `retain`. */
module Search {
  import opened Options

  /** The first position whose element satisfies the condition. */
  function FirstWhere<T>(s: seq<T>, holds: T -> bool): (at: Option<nat>)
    ensures at.Some? ==> at.value < |s| && holds(s[at.value]) && forall i :: 0 <= i < at.value ==> !holds(s[i])
    ensures at.None? ==> forall i :: 0 <= i < |s| ==> !holds(s[i])
  {
    if s == [] then None
    else if holds(s[0]) then Some(0)
    else match FirstWhere(s[1..], holds) case None => None case Some(at) => Some(at + 1)
  }

  lemma {:induction false} FirstWhereAppends<T>(s: seq<T>, x: T, holds: T -> bool)
    ensures FirstWhere(s + [x], holds) ==
            if FirstWhere(s, holds).Some? then FirstWhere(s, holds) else if holds(x) then Some(|s|) else None
    decreases |s|
  {
    if s != [] {
      assert (s + [x])[1..] == s[1..] + [x];
      FirstWhereAppends(s[1..], x, holds);
    }
  }

  function Filter<T>(s: seq<T>, keep: T -> bool): (kept: seq<T>)
    ensures |kept| <= |s|
  {
    if s == [] then []
    else
      var init, last := Filter(s[..|s| - 1], keep), s[|s| - 1];
      if keep(last) then init + [last] else init
  }

  lemma {:induction false} FilterExactly<T>(s: seq<T>, keep: T -> bool)
    ensures forall x :: x in Filter(s, keep) <==> x in s && keep(x)
  {
    if s != [] {
      FilterExactly(s[..|s| - 1], keep);
      assert s == s[..|s| - 1] + [s[|s| - 1]];
    }
  }

  /** From position `k` on, and not before, elements are kept. */
  ghost predicate Splits<T>(s: seq<T>, keep: T -> bool, k: nat) {
    k <= |s| && (forall i :: 0 <= i < k ==> !keep(s[i])) && forall i :: k <= i < |s| ==> keep(s[i])
  }

  lemma {:induction false} FilterOfSplit<T>(s: seq<T>, keep: T -> bool, k: nat)
    requires Splits(s, keep, k)
    ensures Filter(s, keep) == s[k..]
  {
    if s != [] {
      var init := s[..|s| - 1];
      FilterOfSplit(init, keep, if k == |s| then k - 1 else k);
      if k < |s| { assert s[k..] == init[k..] + [s[|s| - 1]]; }
    }
  }

  /** Where what is kept stays kept, filtering leaves a suffix. */
  lemma FilterIsSuffix<T>(s: seq<T>, keep: T -> bool) returns (k: nat)
    requires forall i, j :: 0 <= i <= j < |s| && keep(s[i]) ==> keep(s[j])
    ensures Splits(s, keep, k) && Filter(s, keep) == s[k..]
  {
    k := |s|;
    while k > 0 && keep(s[k - 1])
      invariant k <= |s| && forall i :: k <= i < |s| ==> keep(s[i])
    {
      k := k - 1;
    }
    assert Splits(s, keep, k);
    FilterOfSplit(s, keep, k);
  }
}
