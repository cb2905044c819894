/**
 The grouped localStorage capture (crates/session/src/storage.rs): an origin's pages are tried until one
 answers, and the origins keep the order of their first pages. `answer` is what a page's dump returns,
 if it answers.
 */
module Capture {
  import opened Options
  import opened Search

  type Origin = string
  type Page = nat
  type Entries = seq<(string, string)>

  datatype OriginStorage = OriginStorage(origin: Origin, entries: Entries)

  datatype Group = Group(origin: Origin, pages: seq<Page>)

  type Registry = seq<(Origin, Page)>

  // ----- grouping

  function IndexOf(groups: seq<Group>, origin: Origin): (at: Option<nat>)
    ensures at.Some? ==> at.value < |groups| && groups[at.value].origin == origin
    ensures at.None? ==> forall i :: 0 <= i < |groups| ==> groups[i].origin != origin
  {
    FirstWhere(groups, (group: Group) => group.origin == origin)
  }

  /** The pages of one origin, in registry order. */
  function PagesOf(pages: Registry, origin: Origin): seq<Page> {
    if pages == [] then []
    else
      var before, last := PagesOf(pages[..|pages| - 1], origin), pages[|pages| - 1];
      if last.0 == origin then before + [last.1] else before
  }

  /** The origins in the order of their first pages. */
  function FirstAppearances(pages: Registry): seq<Origin> {
    if pages == [] then []
    else
      var before, last := FirstAppearances(pages[..|pages| - 1]), pages[|pages| - 1];
      if last.0 in before then before else before + [last.0]
  }

  /** One group per origin, in order of first appearance, each with all of its pages. */
  ghost predicate GroupsBy(groups: seq<Group>, pages: Registry) {
    && |groups| == |FirstAppearances(pages)|
    && forall i :: 0 <= i < |groups| ==>
         groups[i] == Group(FirstAppearances(pages)[i], PagesOf(pages, FirstAppearances(pages)[i]))
  }

  lemma {:induction false} AppearancesExactly(pages: Registry, origin: Origin)
    ensures origin in FirstAppearances(pages) <==> PagesOf(pages, origin) != []
    ensures var seen := FirstAppearances(pages); forall i, j :: 0 <= i < j < |seen| ==> seen[i] != seen[j]
  {
    if pages != [] { AppearancesExactly(pages[..|pages| - 1], origin); }
  }

  lemma GroupsGrow(groups: seq<Group>, pages: Registry, k: nat)
    requires k < |pages| && GroupsBy(groups, pages[..k])
    ensures var (origin, page) := pages[k];
            && (IndexOf(groups, origin).None? ==> GroupsBy(groups + [Group(origin, [page])], pages[..k + 1]))
            && (IndexOf(groups, origin).Some? ==>
                  var at := IndexOf(groups, origin).value;
                  GroupsBy(groups[at := groups[at].(pages := groups[at].pages + [page])], pages[..k + 1]))
  {
    var (origin, page) := pages[k];
    var seen := FirstAppearances(pages[..k]);
    assert pages[..k + 1][..k] == pages[..k];
    AppearancesExactly(pages[..k], origin);
    if IndexOf(groups, origin).None? {
      assert forall i :: 0 <= i < |seen| ==> groups[i].origin == seen[i];
      assert origin !in seen;
    } else {
      var at := IndexOf(groups, origin).value;
      assert seen[at] == origin;
    }
  }

  /** The loop over the registry: a known origin's group grows, a new origin opens one. */
  method OriginsInOrder(pages: Registry) returns (groups: seq<Group>)
    ensures GroupsBy(groups, pages)
  {
    groups := [];
    var k := 0;
    assert pages[..0] == [];
    while k < |pages|
      invariant 0 <= k <= |pages| && GroupsBy(groups, pages[..k])
    {
      var (origin, page) := pages[k];
      GroupsGrow(groups, pages, k);
      match IndexOf(groups, origin) {
        case Some(at) => groups := groups[at := groups[at].(pages := groups[at].pages + [page])];
        case None => groups := groups + [Group(origin, [page])];
      }
      k := k + 1;
    }
    assert pages[..|pages|] == pages;
  }

  // ----- dumping

  /** The first answer among an origin's pages. */
  function FirstAnswer(pages: seq<Page>, answer: Page -> Option<Entries>): Option<Entries> {
    if pages == [] then None
    else if answer(pages[0]).Some? then answer(pages[0])
    else FirstAnswer(pages[1..], answer)
  }

  /** The capture's entry for one origin, if any of its pages answers. */
  function DumpOf(pages: Registry, origin: Origin, answer: Page -> Option<Entries>): Option<OriginStorage> {
    match FirstAnswer(PagesOf(pages, origin), answer)
    case None => None
    case Some(entries) => Some(OriginStorage(origin, entries))
  }

  /** The entries of the given origins, in their order, silent ones left out. */
  function Dumps(origins: seq<Origin>, pages: Registry, answer: Page -> Option<Entries>): seq<OriginStorage> {
    if origins == [] then []
    else
      var before := Dumps(origins[..|origins| - 1], pages, answer);
      match DumpOf(pages, origins[|origins| - 1], answer)
      case None => before
      case Some(dump) => before + [dump]
  }

  /** Tries a group's pages in order until one answers. */
  method DumpGroup(group: Group, answer: Page -> Option<Entries>) returns (dump: Option<OriginStorage>)
    ensures dump == match FirstAnswer(group.pages, answer)
                    case None => None
                    case Some(entries) => Some(OriginStorage(group.origin, entries))
  {
    var i := 0;
    while i < |group.pages|
      invariant 0 <= i <= |group.pages|
      invariant FirstAnswer(group.pages, answer) == FirstAnswer(group.pages[i..], answer)
    {
      var entries := answer(group.pages[i]);
      if entries.Some? { return Some(OriginStorage(group.origin, entries.value)); }
      assert group.pages[i..][1..] == group.pages[i + 1..];
      i := i + 1;
    }
    dump := None;
  }

  method DumpOrigins(pages: Registry, answer: Page -> Option<Entries>) returns (dumps: seq<OriginStorage>)
    ensures dumps == Dumps(FirstAppearances(pages), pages, answer)
  {
    dumps := [];
    if pages == [] { return; }
    var groups := OriginsInOrder(pages);
    ghost var seen := FirstAppearances(pages);
    var i := 0;
    while i < |groups|
      invariant 0 <= i <= |groups| == |seen|
      invariant dumps == Dumps(seen[..i], pages, answer)
    {
      var dump := DumpGroup(groups[i], answer);
      assert dump == DumpOf(pages, seen[i], answer);
      assert seen[..i + 1][..i] == seen[..i];
      if dump.Some? { dumps := dumps + [dump.value]; }
      i := i + 1;
    }
    assert seen[..|seen|] == seen;
  }

  // ----- the walk it replaces

  /** One page after the other, skipping origins already answered. */
  function Walk(pages: Registry, answer: Page -> Option<Entries>): seq<OriginStorage> {
    if pages == [] then []
    else
      var before, last := Walk(pages[..|pages| - 1], answer), pages[|pages| - 1];
      if Answered(before, last.0) || answer(last.1).None? then before
      else before + [OriginStorage(last.0, answer(last.1).value)]
  }

  predicate Answered(dumps: seq<OriginStorage>, origin: Origin) {
    exists i :: 0 <= i < |dumps| && dumps[i].origin == origin
  }

  ghost predicate OncePerOrigin(dumps: seq<OriginStorage>) {
    forall i, j :: 0 <= i < j < |dumps| ==> dumps[i].origin != dumps[j].origin
  }

  lemma {:induction false} FirstAnswerAppends(pages: seq<Page>, page: Page, answer: Page -> Option<Entries>)
    ensures FirstAnswer(pages + [page], answer)
            == if FirstAnswer(pages, answer).Some? then FirstAnswer(pages, answer) else answer(page)
    decreases |pages|
  {
    if pages != [] {
      assert (pages + [page])[1..] == pages[1..] + [page];
      FirstAnswerAppends(pages[1..], page, answer);
    }
  }

  lemma AnsweredAppends(dumps: seq<OriginStorage>, dump: OriginStorage, origin: Origin)
    ensures Answered(dumps + [dump], origin) <==> Answered(dumps, origin) || dump.origin == origin
  {
    var longer := dumps + [dump];
    assert longer[|dumps|] == dump;
    if Answered(dumps, origin) {
      var i :| 0 <= i < |dumps| && dumps[i].origin == origin;
      assert longer[i].origin == origin;
    }
  }

  /** The walk has an entry for an origin exactly when one of its pages answers: the first answer. */
  lemma {:induction false} WalkExactly(pages: Registry, answer: Page -> Option<Entries>, dump: OriginStorage)
    ensures OncePerOrigin(Walk(pages, answer))
    ensures dump in Walk(pages, answer) <==> DumpOf(pages, dump.origin, answer) == Some(dump)
    ensures Answered(Walk(pages, answer), dump.origin) <==> DumpOf(pages, dump.origin, answer).Some?
  {
    if pages != [] {
      var init, last := pages[..|pages| - 1], pages[|pages| - 1];
      WalkExactly(init, answer, dump);
      FirstAnswerAppends(PagesOf(init, dump.origin), last.1, answer);
      if answer(last.1).Some? {
        AnsweredAppends(Walk(init, answer), OriginStorage(last.0, answer(last.1).value), dump.origin);
      }
    }
  }

  /** The entries for a list of distinct origins: one for each that answers, and no other. */
  lemma {:induction false} DumpsExactly(
      origins: seq<Origin>, pages: Registry, answer: Page -> Option<Entries>, dump: OriginStorage)
    requires forall i, j :: 0 <= i < j < |origins| ==> origins[i] != origins[j]
    ensures var dumps := Dumps(origins, pages, answer);
            && OncePerOrigin(dumps)
            && (dump in dumps <==> dump.origin in origins && DumpOf(pages, dump.origin, answer) == Some(dump))
            && (forall i :: 0 <= i < |dumps| ==> dumps[i].origin in origins)
  {
    if origins != [] {
      var init := origins[..|origins| - 1];
      assert origins == init + [origins[|origins| - 1]];
      DumpsExactly(init, pages, answer, dump);
    }
  }

  /** Each origin at most once, and as a map the capture is the one-by-one walk. */
  lemma CaptureIsTheWalk(pages: Registry, answer: Page -> Option<Entries>, dump: OriginStorage)
    ensures var capture := Dumps(FirstAppearances(pages), pages, answer);
            && OncePerOrigin(capture) && OncePerOrigin(Walk(pages, answer))
            && (dump in capture <==> dump in Walk(pages, answer))
  {
    AppearancesExactly(pages, dump.origin);
    WalkExactly(pages, answer, dump);
    DumpsExactly(FirstAppearances(pages), pages, answer, dump);
  }

  // ----- when the orders agree

  function HasOrigin(origin: Origin): ((Origin, Page)) -> bool {
    (page: (Origin, Page)) => page.0 == origin
  }

  function AnswersFor(origin: Origin, answer: Page -> Option<Entries>): ((Origin, Page)) -> bool {
    (page: (Origin, Page)) => page.0 == origin && answer(page.1).Some?
  }

  /** The origin's first page in the registry. */
  function FirstAt(pages: Registry, origin: Origin): Option<nat> { FirstWhere(pages, HasOrigin(origin)) }

  /** The origin's first page that answers. */
  function AnswerAt(pages: Registry, origin: Origin, answer: Page -> Option<Entries>): Option<nat> {
    FirstWhere(pages, AnswersFor(origin, answer))
  }

  function Rank(at: Option<nat>): nat { if at.Some? then at.value else 0 }

  ghost predicate IncreasingBy(rank: Origin -> nat, dumps: seq<OriginStorage>) {
    forall i, j :: 0 <= i < j < |dumps| ==> rank(dumps[i].origin) < rank(dumps[j].origin)
  }

  ghost function ByFirst(pages: Registry): Origin -> nat { origin => Rank(FirstAt(pages, origin)) }

  ghost function ByAnswer(pages: Registry, answer: Page -> Option<Entries>): Origin -> nat {
    origin => Rank(AnswerAt(pages, origin, answer))
  }

  /** A further page decides only for an origin that has not answered. */
  lemma AnswerAtGrows(pages: Registry, answer: Page -> Option<Entries>, origin: Origin)
    requires pages != []
    ensures var init, last := pages[..|pages| - 1], pages[|pages| - 1];
            AnswerAt(pages, origin, answer) ==
            if AnswerAt(init, origin, answer).Some? then AnswerAt(init, origin, answer)
            else if last.0 == origin && answer(last.1).Some? then Some(|init|) else None
  {
    var init, last := pages[..|pages| - 1], pages[|pages| - 1];
    assert pages == init + [last];
    FirstWhereAppends(init, last, AnswersFor(origin, answer));
  }

  /** The walk lists the answering origins by their first answering page. */
  lemma {:induction false} WalkIsByAnswer(pages: Registry, answer: Page -> Option<Entries>)
    ensures IncreasingBy(ByAnswer(pages, answer), Walk(pages, answer))
    ensures forall origin :: Answered(Walk(pages, answer), origin) <==> AnswerAt(pages, origin, answer).Some?
  {
    if pages != [] {
      var init, last := pages[..|pages| - 1], pages[|pages| - 1];
      WalkIsByAnswer(init, answer);
      var before := Walk(init, answer);
      forall origin ensures Answered(Walk(pages, answer), origin) <==> AnswerAt(pages, origin, answer).Some? {
        AnswerAtGrows(pages, answer, origin);
        if answer(last.1).Some? {
          AnsweredAppends(before, OriginStorage(last.0, answer(last.1).value), origin);
        }
      }
      forall i | 0 <= i < |before|
        ensures AnswerAt(pages, before[i].origin, answer) == AnswerAt(init, before[i].origin, answer)
        ensures AnswerAt(init, before[i].origin, answer).Some?
      {
        EntryAnswers(before, before[i]);
        AnswerAtGrows(pages, answer, before[i].origin);
      }
      AnswerAtGrows(pages, answer, last.0);
    }
  }

  /** First appearances are by first page. */
  lemma {:induction false} AppearancesAreByFirst(pages: Registry)
    ensures var seen := FirstAppearances(pages);
            && (forall origin :: origin in seen <==> FirstAt(pages, origin).Some?)
            && forall i, j :: 0 <= i < j < |seen| ==> ByFirst(pages)(seen[i]) < ByFirst(pages)(seen[j])
  {
    if pages != [] {
      var init, last := pages[..|pages| - 1], pages[|pages| - 1];
      AppearancesAreByFirst(init);
      assert pages == init + [last];
      forall origin
        ensures FirstAt(pages, origin) ==
                if FirstAt(init, origin).Some? then FirstAt(init, origin)
                else if origin == last.0 then Some(|init|) else None
      {
        FirstWhereAppends(init, last, HasOrigin(origin));
      }
    }
  }

  lemma {:induction false} DumpsAreOfOrigins(
      origins: seq<Origin>, pages: Registry, answer: Page -> Option<Entries>, i: nat)
    requires i < |Dumps(origins, pages, answer)|
    ensures Dumps(origins, pages, answer)[i].origin in origins
  {
    var init := origins[..|origins| - 1];
    if i < |Dumps(init, pages, answer)| { DumpsAreOfOrigins(init, pages, answer, i); }
  }

  lemma RankBelow(origins: seq<Origin>, rank: Origin -> nat, origin: Origin)
    requires forall i, j :: 0 <= i < j < |origins| ==> rank(origins[i]) < rank(origins[j])
    requires origins != [] && origin in origins[..|origins| - 1]
    ensures rank(origin) < rank(origins[|origins| - 1])
  {
    var k :| 0 <= k < |origins| - 1 && origins[k] == origin;
  }

  lemma {:induction false} DumpsKeepOrder(
      origins: seq<Origin>, pages: Registry, answer: Page -> Option<Entries>, rank: Origin -> nat)
    requires forall i, j :: 0 <= i < j < |origins| ==> rank(origins[i]) < rank(origins[j])
    ensures IncreasingBy(rank, Dumps(origins, pages, answer))
  {
    if origins != [] {
      var init := origins[..|origins| - 1];
      DumpsKeepOrder(init, pages, answer, rank);
      var before := Dumps(init, pages, answer);
      forall i | 0 <= i < |before| ensures rank(before[i].origin) < rank(origins[|origins| - 1]) {
        DumpsAreOfOrigins(init, pages, answer, i);
        RankBelow(origins, rank, before[i].origin);
      }
    }
  }

  /** The last entry outranks every other. */
  lemma LastOutranks(rank: Origin -> nat, dumps: seq<OriginStorage>, dump: OriginStorage)
    requires IncreasingBy(rank, dumps) && dump in dumps
    ensures var last := dumps[|dumps| - 1]; dump == last || rank(dump.origin) < rank(last.origin)
    ensures dump in dumps[..|dumps| - 1] <==> dump != dumps[|dumps| - 1]
  {
    var i :| 0 <= i < |dumps| && dumps[i] == dump;
    if i < |dumps| - 1 { assert dumps[..|dumps| - 1][i] == dump; }
  }

  ghost predicate SameEntries(a: seq<OriginStorage>, b: seq<OriginStorage>) {
    forall dump :: dump in a <==> dump in b
  }

  lemma SomeOrNone(a: seq<OriginStorage>, b: seq<OriginStorage>)
    requires SameEntries(a, b) && a != []
    ensures b != [] && a[|a| - 1] in b && b[|b| - 1] in a
  {
    assert a[|a| - 1] in a;
    assert b[|b| - 1] in b;
  }

  /** One set of entries has one increasing order. */
  lemma {:induction false} OneOrder(rank: Origin -> nat, a: seq<OriginStorage>, b: seq<OriginStorage>)
    requires IncreasingBy(rank, a) && IncreasingBy(rank, b) && SameEntries(a, b)
    ensures a == b
  {
    if a == [] {
      if b != [] { SomeOrNone(b, a); }
    } else {
      SomeOrNone(a, b);
      LastOutranks(rank, a, b[|b| - 1]);
      LastOutranks(rank, b, a[|a| - 1]);
      var p, q := a[..|a| - 1], b[..|b| - 1];
      forall dump ensures dump in p <==> dump in q { SameBeforeTheLast(rank, a, b, dump); }
      OneOrder(rank, p, q);
      assert a == p + [a[|a| - 1]] && b == q + [b[|b| - 1]];
    }
  }

  lemma SameBeforeTheLast(rank: Origin -> nat, a: seq<OriginStorage>, b: seq<OriginStorage>, dump: OriginStorage)
    requires IncreasingBy(rank, a) && IncreasingBy(rank, b) && (dump in a <==> dump in b)
    requires a != [] && b != [] && a[|a| - 1] == b[|b| - 1]
    ensures dump in a[..|a| - 1] <==> dump in b[..|b| - 1]
  {
    if dump in a {
      LastOutranks(rank, a, dump);
      LastOutranks(rank, b, dump);
    }
  }

  /** Origins that appear earlier answer earlier. */
  ghost predicate AnswersInOrder(pages: Registry, answer: Page -> Option<Entries>) {
    forall a, b :: AnswerAt(pages, a, answer).Some? && AnswerAt(pages, b, answer).Some?
                   && ByFirst(pages)(a) < ByFirst(pages)(b) ==>
                     ByAnswer(pages, answer)(a) < ByAnswer(pages, answer)(b)
  }

  lemma {:induction false} InOrderIsTheWalk(pages: Registry, answer: Page -> Option<Entries>)
    requires AnswersInOrder(pages, answer)
    ensures Dumps(FirstAppearances(pages), pages, answer) == Walk(pages, answer)
  {
    var capture, walk := Dumps(FirstAppearances(pages), pages, answer), Walk(pages, answer);
    WalkIsByAnswer(pages, answer);
    CaptureIsByFirst(pages, answer);
    forall dump ensures dump in capture <==> dump in walk { CaptureIsTheWalk(pages, answer, dump); }
    forall i | 0 <= i < |capture| ensures AnswerAt(pages, capture[i].origin, answer).Some? {
      EntryAnswers(walk, capture[i]);
    }
    OneOrder(ByAnswer(pages, answer), capture, walk);
  }

  lemma {:induction false} CaptureIsByFirst(pages: Registry, answer: Page -> Option<Entries>)
    ensures IncreasingBy(ByFirst(pages), Dumps(FirstAppearances(pages), pages, answer))
  {
    AppearancesAreByFirst(pages);
    DumpsKeepOrder(FirstAppearances(pages), pages, answer, ByFirst(pages));
  }

  lemma RankOrders(rank: Origin -> nat, dumps: seq<OriginStorage>, i: nat, j: nat)
    requires IncreasingBy(rank, dumps) && i < |dumps| && j < |dumps|
    ensures rank(dumps[i].origin) < rank(dumps[j].origin) <==> i < j
  {
  }

  lemma {:induction false} SameOrderAnswersInOrder(
      pages: Registry, answer: Page -> Option<Entries>, a: Origin, b: Origin)
    requires Dumps(FirstAppearances(pages), pages, answer) == Walk(pages, answer)
    requires AnswerAt(pages, a, answer).Some? && AnswerAt(pages, b, answer).Some?
    requires ByFirst(pages)(a) < ByFirst(pages)(b)
    ensures ByAnswer(pages, answer)(a) < ByAnswer(pages, answer)(b)
  {
    var walk := Walk(pages, answer);
    WalkIsByAnswer(pages, answer);
    CaptureIsByFirst(pages, answer);
    assert Answered(walk, a) && Answered(walk, b);
    var i :| 0 <= i < |walk| && walk[i].origin == a;
    var j :| 0 <= j < |walk| && walk[j].origin == b;
    RankOrders(ByFirst(pages), walk, i, j);
    RankOrders(ByAnswer(pages, answer), walk, i, j);
  }

  /** As a sequence the capture is the walk exactly when, of any two origins that answer, the one that
      appears first also has the first answering page. */
  lemma {:induction false} CaptureIsInWalkOrderExactly(pages: Registry, answer: Page -> Option<Entries>)
    ensures Dumps(FirstAppearances(pages), pages, answer) == Walk(pages, answer) <==> AnswersInOrder(pages, answer)
  {
    if AnswersInOrder(pages, answer) { InOrderIsTheWalk(pages, answer); }
    if Dumps(FirstAppearances(pages), pages, answer) == Walk(pages, answer) {
      forall a, b | AnswerAt(pages, a, answer).Some? && AnswerAt(pages, b, answer).Some?
                    && ByFirst(pages)(a) < ByFirst(pages)(b)
        ensures ByAnswer(pages, answer)(a) < ByAnswer(pages, answer)(b)
      {
        SameOrderAnswersInOrder(pages, answer, a, b);
      }
    }
  }

  lemma EntryAnswers(dumps: seq<OriginStorage>, dump: OriginStorage)
    requires dump in dumps
    ensures Answered(dumps, dump.origin)
  {
    var i :| 0 <= i < |dumps| && dumps[i] == dump;
    assert dumps[i].origin == dump.origin;
  }

  /** It can differ: an origin whose first page is silent keeps its place in the capture and comes later in
      the walk. */
  lemma OrderIsTheCapturesOwn(answer: Page -> Option<Entries>, a: Origin, b: Origin)
    requires a != b && answer(0).None? && answer(1).Some? && answer(2).Some?
    ensures var pages: Registry := [(a, 0), (b, 1), (a, 2)];
            && Dumps(FirstAppearances(pages), pages, answer)
               == [OriginStorage(a, answer(2).value), OriginStorage(b, answer(1).value)]
            && Walk(pages, answer) == [OriginStorage(b, answer(1).value), OriginStorage(a, answer(2).value)]
  {
    var pages: Registry := [(a, 0), (b, 1), (a, 2)];
    var one, two := pages[..1], pages[..2];
    assert one == [(a, 0)] && one[..0] == [] && two == [(a, 0), (b, 1)] && two[..1] == one && pages[..2] == two;
    assert Walk(pages, answer) == [OriginStorage(b, answer(1).value), OriginStorage(a, answer(2).value)] by {
      assert Walk(one, answer) == [];
      AnsweredAppends([], OriginStorage(b, answer(1).value), a);
      assert [] + [OriginStorage(b, answer(1).value)] == Walk(two, answer);
    }
    assert FirstAppearances(pages) == [a, b] by { assert FirstAppearances(one) == [a]; }
    assert PagesOf(pages, a) == [0, 2] && PagesOf(pages, b) == [1] by {
      assert PagesOf(one[..0], a) == [] == PagesOf(one[..0], b);
      assert PagesOf(two[..1], a) == [0] && PagesOf(two[..1], b) == [];
      assert PagesOf(pages[..2], a) == [0] && PagesOf(pages[..2], b) == [1];
    }
    assert [0, 2][1..] == [2];
    assert FirstAnswer([0, 2], answer) == FirstAnswer([2], answer) == answer(2);
    TwoDumps(a, b, pages, answer);
  }

  lemma TwoDumps(a: Origin, b: Origin, pages: Registry, answer: Page -> Option<Entries>)
    requires DumpOf(pages, a, answer).Some? && DumpOf(pages, b, answer).Some?
    ensures Dumps([a, b], pages, answer) == [DumpOf(pages, a, answer).value, DumpOf(pages, b, answer).value]
  {
    assert [a, b][..1] == [a] && [a][..0] == [];
    assert Dumps([a], pages, answer) == [DumpOf(pages, a, answer).value];
  }
}
