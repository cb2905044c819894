/**
 The atomic write of a session's storage state (crates/session/src/storage.rs): stage under a name of
 its own, flush, rename over the real file. Any number of writers, a failure or a crash at every step.
 */
module Storage {
  import opened Numbers
  import opened Options
  import opened Runs

  type Json = seq<char>
  type WriterId = nat      // stands for the (process id, attempt) pair in a staging file's name

  // ----- the rename loop

  const PUBLISH_ATTEMPTS: nat := 5
  const ERROR_ACCESS_DENIED: int := 5
  const ERROR_SHARING_VIOLATION: int := 32

  /** How one rename ended; an error carries the raw OS code when it has one. */
  datatype RenameResult = Renamed | RenameFailed(code: Option<int>)
  {
    predicate Transient() {
      RenameFailed? && code.Some? && code.value in {ERROR_ACCESS_DENIED, ERROR_SHARING_VIOLATION}
    }
  }

  /** How many attempts have been made when the loop, having failed `k` times, gives its answer. */
  function AttemptsMade(rename: nat -> RenameResult, k: nat): (n: nat)
    requires k < PUBLISH_ATTEMPTS
    ensures k < n <= PUBLISH_ATTEMPTS
    decreases PUBLISH_ATTEMPTS - k
  {
    if rename(k).Transient() && k + 1 < PUBLISH_ATTEMPTS then AttemptsMade(rename, k + 1) else k + 1
  }

  /** `rename(k)` is the outcome of attempt `k`. Retries exactly the transient refusals, at most five
      attempts in all, sleeping 1, 2, 4, 8 milliseconds between them. */
  method Publish(rename: nat -> RenameResult) returns (result: RenameResult, attempts: nat, slept: nat)
    ensures 1 <= attempts <= PUBLISH_ATTEMPTS && attempts == AttemptsMade(rename, 0)
    ensures forall k :: 0 <= k < attempts - 1 ==> rename(k) in {RenameFailed(Some(5)), RenameFailed(Some(32))}
    ensures result == rename(attempts - 1)
    ensures attempts < 5 ==> result !in {RenameFailed(Some(5)), RenameFailed(Some(32))}
    ensures slept == Pow2(attempts - 1) - 1 <= 15
  {
    attempts, slept := 0, 0;
    while true
      invariant attempts < PUBLISH_ATTEMPTS && AttemptsMade(rename, 0) == AttemptsMade(rename, attempts)
      invariant forall k :: 0 <= k < attempts ==> rename(k).Transient()
      invariant slept == Pow2(attempts) - 1
      decreases PUBLISH_ATTEMPTS - attempts
    {
      result := rename(attempts);
      attempts := attempts + 1;
      if result.Renamed? || attempts >= PUBLISH_ATTEMPTS || !result.Transient() {
        assert Pow2(4) == 16 && Pow2(3) == 8 && Pow2(2) == 4;
        return;
      }
      slept := slept + Pow2(attempts - 1);
    }
  }

  // ----- writers, files and crashes

  /** `owner` is the writer that created the file, if any did here. */
  datatype File = File(bytes: Json, flushed: bool, owner: Option<WriterId>)

  datatype Phase =
    | Opening
    | Writing                   // appending to its staging file
    | Renaming(attempts: nat)
    | CleaningUp
    | Returned(ok: bool)

  datatype Writer = Writer(json: Json, phase: Phase)

  /** `past` is every value the real file had, the present one last. A crash can roll back renames, since
      the directory is never flushed, and ruins what was not flushed. */
  datatype State = State(
    past: seq<Option<File>>,
    staging: map<WriterId, File>,
    writers: map<WriterId, Writer>,
    running: set<WriterId>,
    next: WriterId)

  datatype Move =
    | Open(ok: bool)
    | Append(count: nat, ok: bool)
    | Flush(ok: bool)
    | Rename(result: RenameResult)
    | Remove(ok: bool)

  datatype Event =
    | Begin(json: Json)
    | Act(w: WriterId, move: Move)
    | Crash(keep: nat, ruins: map<WriterId, Json>)

  function Init(original: Option<Json>): State {
    State([if original.Some? then Some(File(original.value, true, None)) else None], map[], map[], {}, 0)
  }

  function Target(st: State): Option<File>
    requires st.past != []
  {
    st.past[|st.past| - 1]
  }

  function Phased(st: State, w: WriterId, phase: Phase): State
    requires w in st.writers
  {
    st.(writers := st.writers[w := st.writers[w].(phase := phase)])
  }

  function OpenStaging(st: State, w: WriterId, ok: bool): State
    requires w in st.writers
  {
    if !st.writers[w].phase.Opening? then st
    else if !ok then Phased(st, w, CleaningUp)
    else Phased(st.(staging := st.staging[w := File([], false, Some(w))]), w, Writing)
  }

  function AppendTo(st: State, w: WriterId, count: nat, ok: bool): State
    requires w in st.writers
  {
    if !st.writers[w].phase.Writing? || w !in st.staging then st
    else if !ok then Phased(st, w, CleaningUp)
    else
      var json, file := st.writers[w].json, st.staging[w];
      if |file.bytes| + count <= |json| then
        st.(staging := st.staging[w := file.(bytes := json[..|file.bytes| + count])])
      else st
  }

  /** Only a file that took every byte is flushed and goes on to the rename. */
  function FlushStaging(st: State, w: WriterId, ok: bool): State
    requires w in st.writers
  {
    if !st.writers[w].phase.Writing? || w !in st.staging || |st.staging[w].bytes| != |st.writers[w].json| then st
    else if !ok then Phased(st, w, CleaningUp)
    else Phased(st.(staging := st.staging[w := st.staging[w].(flushed := true)]), w, Renaming(0))
  }

  function RenameStaging(st: State, w: WriterId, result: RenameResult): State
    requires w in st.writers
  {
    if !st.writers[w].phase.Renaming? || w !in st.staging then st
    else if result.Renamed? then
      Phased(st.(past := st.past + [Some(st.staging[w])], staging := st.staging - {w}), w, Returned(true))
    else
      var attempts := st.writers[w].phase.attempts + 1;
      Phased(st, w, if attempts >= PUBLISH_ATTEMPTS || !result.Transient() then CleaningUp else Renaming(attempts))
  }

  function RemoveStaging(st: State, w: WriterId, ok: bool): State
    requires w in st.writers
  {
    if !st.writers[w].phase.CleaningUp? then st
    else Phased(if ok then st.(staging := st.staging - {w}) else st, w, Returned(false))
  }

  function ActOn(st: State, w: WriterId, move: Move): State
    requires w in st.writers
  {
    match move
    case Open(ok) => OpenStaging(st, w, ok)
    case Append(count, ok) => AppendTo(st, w, count, ok)
    case Flush(ok) => FlushStaging(st, w, ok)
    case Rename(result) => RenameStaging(st, w, result)
    case Remove(ok) => RemoveStaging(st, w, ok)
  }

  function CrashAll(st: State, keep: nat, ruins: map<WriterId, Json>): State {
    if keep >= |st.past| then st
    else
      st.(past := st.past + [st.past[keep]], running := {},
          staging := map w | w in st.staging ::
            if w in ruins && !st.staging[w].flushed then st.staging[w].(bytes := ruins[w]) else st.staging[w])
  }

  function Apply(st: State, ev: Event): State {
    match ev
    case Begin(json) =>
      st.(writers := st.writers[st.next := Writer(json, Opening)], running := st.running + {st.next},
          next := st.next + 1)
    case Act(w, move) => if w in st.running && w in st.writers then ActOn(st, w, move) else st
    case Crash(keep, ruins) => CrashAll(st, keep, ruins)
  }

  /** The environment is free to do anything at any time. */
  predicate Anything(st: State, ev: Event) { true }

  // ----- what every step keeps

  /** A value the real file may have: what was there first, or all of one writer's state, on the disk. */
  predicate Whole(file: Option<File>, original: Option<Json>, writers: map<WriterId, Writer>) {
    match file
    case None => original.None?
    case Some(File(bytes, flushed, None)) => flushed && original == Some(bytes)
    case Some(File(bytes, flushed, Some(w))) => flushed && w in writers && bytes == writers[w].json
  }

  ghost predicate WriterInv(st: State, w: WriterId)
    requires w in st.writers
  {
    var writer := st.writers[w];
    && w < st.next
    && (w in st.staging ==> st.staging[w].owner == Some(w))
    && (writer.phase.Opening? ==> w !in st.staging)
    && (w in st.running && writer.phase.Writing? ==>
          w in st.staging && st.staging[w].bytes <= writer.json && !st.staging[w].flushed)
    && (writer.phase.Renaming? ==>
          w in st.staging && st.staging[w] == File(writer.json, true, Some(w)))
    && (writer.phase == Returned(true) <==> PublishedBy(st, w))
  }

  /** The writer's file was the real one at some time. */
  ghost predicate PublishedBy(st: State, w: WriterId) {
    exists i :: 0 <= i < |st.past| && st.past[i].Some? && st.past[i].value.owner == Some(w)
  }

  ghost predicate Inv(st: State, original: Option<Json>) {
    && st.past != []
    && (forall i :: 0 <= i < |st.past| ==> Whole(st.past[i], original, st.writers))
    && (forall w :: w in st.staging ==> w in st.writers)
    && (forall w :: w in st.writers ==> WriterInv(st, w))
  }

  lemma BeginKeepsInv(st: State, original: Option<Json>, json: Json)
    requires Inv(st, original) && st.next !in st.writers
    ensures Inv(Apply(st, Begin(json)), original)
  {
    var next := Apply(st, Begin(json));
    forall i | 0 <= i < |next.past| ensures Whole(next.past[i], original, next.writers) {
      assert Whole(st.past[i], original, st.writers);
    }
    assert !PublishedBy(next, st.next);
    forall w | w in next.writers ensures WriterInv(next, w) {
      if w != st.next {
        assert WriterInv(st, w);
        assert PublishedBy(next, w) <==> PublishedBy(st, w);
      }
    }
  }

  /** A step that leaves the real file alone is its writer's own affair. */
  lemma OwnStepKeepsInv(st: State, next: State, original: Option<Json>, w: WriterId)
    requires Inv(st, original) && w in st.writers
    requires next.past == st.past && next.next == st.next && next.running == st.running
    requires next.writers.Keys == st.writers.Keys && next.writers[w].json == st.writers[w].json
    requires forall v :: v in st.writers && v != w ==> next.writers[v] == st.writers[v]
    requires forall v :: v != w ==> (v in next.staging <==> v in st.staging)
    requires forall v :: v != w && v in st.staging ==> next.staging[v] == st.staging[v]
    requires WriterInv(next, w)
    ensures Inv(next, original)
  {
    forall i | 0 <= i < |next.past| ensures Whole(next.past[i], original, next.writers) {
      assert Whole(st.past[i], original, st.writers);
    }
    forall v | v in next.writers ensures WriterInv(next, v) {
      if v != w {
        assert WriterInv(st, v);
        assert PublishedBy(next, v) <==> PublishedBy(st, v);
      }
    }
  }

  lemma RenameKeepsInv(st: State, original: Option<Json>, w: WriterId)
    requires Inv(st, original) && w in st.writers && w in st.staging && st.writers[w].phase.Renaming?
    ensures Inv(RenameStaging(st, w, Renamed), original)
    ensures Target(RenameStaging(st, w, Renamed)) == Some(File(st.writers[w].json, true, Some(w)))
  {
    assert WriterInv(st, w);
    var next := RenameStaging(st, w, Renamed);
    forall i | 0 <= i < |next.past| ensures Whole(next.past[i], original, next.writers) {
      if i < |st.past| { assert Whole(st.past[i], original, st.writers); }
    }
    assert next.past[|st.past|].value.owner == Some(w);
    forall v | v in next.writers ensures WriterInv(next, v) {
      if v != w {
        assert WriterInv(st, v);
        if PublishedBy(st, v) {
          var i :| 0 <= i < |st.past| && st.past[i].Some? && st.past[i].value.owner == Some(v);
          assert next.past[i] == st.past[i];
        }
        assert PublishedBy(next, v) <==> PublishedBy(st, v);
      }
    }
  }

  lemma StagingKeepsInv(st: State, original: Option<Json>, w: WriterId, move: Move)
    requires Inv(st, original) && w in st.writers && w in st.running && (move.Open? || move.Append? || move.Flush?)
    ensures Inv(ActOn(st, w, move), original)
  {
    assert WriterInv(st, w);
    var next := ActOn(st, w, move);
    assert PublishedBy(next, w) <==> PublishedBy(st, w);
    match move
    case Open(ok) => assert WriterInv(next, w);
    case Append(count, ok) => assert WriterInv(next, w);
    case Flush(ok) => assert WriterInv(next, w);
    OwnStepKeepsInv(st, next, original, w);
  }

  lemma ActKeepsInv(st: State, original: Option<Json>, w: WriterId, move: Move)
    requires Inv(st, original) && w in st.writers && w in st.running
    ensures Inv(ActOn(st, w, move), original)
  {
    match move
    case Rename(Renamed) =>
      if st.writers[w].phase.Renaming? && w in st.staging { RenameKeepsInv(st, original, w); }
    case Rename(_) | Remove(_) =>
      assert WriterInv(st, w);
      var next := ActOn(st, w, move);
      assert PublishedBy(next, w) <==> PublishedBy(st, w);
      OwnStepKeepsInv(st, next, original, w);
    case _ => StagingKeepsInv(st, original, w, move);
  }

  lemma CrashKeepsInv(st: State, original: Option<Json>, keep: nat, ruins: map<WriterId, Json>)
    requires Inv(st, original)
    ensures Inv(CrashAll(st, keep, ruins), original)
  {
    var next := CrashAll(st, keep, ruins);
    if keep < |st.past| {
      forall w | w in next.writers ensures WriterInv(next, w) {
        assert WriterInv(st, w);
        if PublishedBy(st, w) {
          var i :| 0 <= i < |st.past| && st.past[i].Some? && st.past[i].value.owner == Some(w);
          assert next.past[i] == st.past[i];
        }
        assert PublishedBy(next, w) <==> PublishedBy(st, w);
      }
    }
  }

  /** With any number of writers and a failure or a crash at any step: the real file is what was there
      first or one writer's complete state, flushed; a file that was there never goes missing; and a
      write answers success exactly when its own complete state was put in place. */
  lemma FileIsNeverTorn(original: Option<Json>, evs: seq<Event>)
    ensures var st := Run(Apply, Init(original), evs);
            && st.past != [] && Whole(Target(st), original, st.writers)
            && (original.Some? ==> Target(st).Some?)
            && forall w :: w in st.writers ==> (st.writers[w].phase == Returned(true) <==> PublishedBy(st, w))
  {
    var inv := st => Inv(st, original) && st.next !in st.writers;
    forall st, ev | inv(st) ensures inv(Apply(st, ev)) {
      match ev
      case Begin(json) => BeginKeepsInv(st, original, json);
      case Act(w, move) => if w in st.running && w in st.writers { ActKeepsInv(st, original, w, move); }
      case Crash(keep, ruins) => CrashKeepsInv(st, original, keep, ruins);
      var next := Apply(st, ev);
      forall w | w in next.writers ensures w < next.next { assert WriterInv(next, w); }
    }
    Invariant(Apply, Anything, inv, Init(original), evs);
    var st := Run(Apply, Init(original), evs);
    assert inv(st);
    forall w | w in st.writers ensures st.writers[w].phase == Returned(true) <==> PublishedBy(st, w) {
      assert WriterInv(st, w);
    }
  }

  /** The writer's loop has given its answer. */
  ghost predicate Answered(end: State, w: WriterId, last: RenameResult) {
    w in end.writers && end.writers[w].phase == if last.Renamed? then Returned(true) else CleaningUp
  }

  /** The writer stands before attempt `k`. */
  ghost predicate AtAttempt(st: State, w: WriterId, k: nat) {
    && k < PUBLISH_ATTEMPTS && w in st.running && w in st.writers && w in st.staging
    && st.writers[w].phase == Renaming(k)
  }

  lemma RenameOnce(reached: State -> bool, start: State, st: State, w: WriterId, k: nat, result: RenameResult)
      returns (end: State)
    requires Closed(Apply, Anything, start, reached) && reached(st) && AtAttempt(st, w, k)
    ensures reached(end)
    ensures if result.Transient() && k + 1 < PUBLISH_ATTEMPTS then AtAttempt(end, w, k + 1)
            else Answered(end, w, result)
  {
    assert Anything(st, Act(w, Rename(result)));
    end := Apply(st, Act(w, Rename(result)));
  }

  lemma {:induction false} AttemptsLead(
      reached: State -> bool, start: State, st: State, w: WriterId, rename: nat -> RenameResult, k: nat)
      returns (end: State)
    requires Closed(Apply, Anything, start, reached) && reached(st) && AtAttempt(st, w, k)
    ensures reached(end) && Answered(end, w, rename(AttemptsMade(rename, k) - 1))
    decreases PUBLISH_ATTEMPTS - k
  {
    end := RenameOnce(reached, start, st, w, k, rename(k));
    if rename(k).Transient() && k + 1 < PUBLISH_ATTEMPTS {
      end := AttemptsLead(reached, start, end, w, rename, k + 1);
    }
  }

  /** The rename loop is a run of its writer's steps: it ends with the file in place or cleaning up, as its
      last attempt went. */
  lemma PublishIsARun(st: State, w: WriterId, rename: nat -> RenameResult)
    requires AtAttempt(st, w, 0)
    ensures exists end :: Reachable(Apply, Anything, st, end) && Answered(end, w, rename(AttemptsMade(rename, 0) - 1))
  {
    ReachableIsClosed(Apply, Anything, st);
    var reached := end => Reachable(Apply, Anything, st, end);
    var end := AttemptsLead(reached, st, st, w, rename, 0);
    assert reached(end);
  }

  // ----- a write nobody interferes with

  /** One writer from its beginning to the flush, everything working. */
  function Staged(st: State, json: Json): State {
    var w := st.next;
    var fresh_file := Apply(Apply(st, Begin(json)), Act(w, Open(true)));
    Apply(Apply(fresh_file, Act(w, Append(|json|, true))), Act(w, Flush(true)))
  }

  lemma StagedWhole(st: State, json: Json)
    requires st.past != []
    ensures var staged := Staged(st, json);
            && AtAttempt(staged, st.next, 0) && staged.past == st.past
            && staged.writers[st.next].json == json
            && staged.staging == st.staging[st.next := File(json, true, Some(st.next))]
  {
    assert json[..|json|] == json;
  }

  /** A write that is left alone and whose rename works puts the whole state in place, flushed, and leaves
      nothing staged. */
  lemma UndisturbedWrite(st: State, json: Json)
    requires st.past != [] && st.next !in st.staging
    ensures var end := Apply(Staged(st, json), Act(st.next, Rename(Renamed)));
            && Target(end) == Some(File(json, true, Some(st.next)))
            && end.writers[st.next].phase == Returned(true) && end.staging == st.staging
  {
    StagedWhole(st, json);
  }

  /** A write that fails at any step before its rename worked answers failure, leaves the real file alone and,
      if the removal works, nothing staged. */
  lemma FailedWriteCleansUp(st: State, w: WriterId, move: Move)
    requires st.past != [] && w in st.running && w in st.writers
    requires match move
             case Open(ok) => !ok && st.writers[w].phase.Opening?
             case Append(_, ok) => !ok && st.writers[w].phase.Writing? && w in st.staging
             case Flush(ok) => !ok && st.writers[w].phase.Writing? && w in st.staging
                               && |st.staging[w].bytes| == |st.writers[w].json|
             case Rename(result) => st.writers[w].phase.Renaming? && w in st.staging && result.RenameFailed?
                                    && (!result.Transient() || st.writers[w].phase.attempts + 1 >= 5)
             case Remove(_) => false
    ensures var end := Apply(Apply(st, Act(w, move)), Act(w, Remove(true)));
            && end.writers[w].phase == Returned(false) && Target(end) == Target(st)
            && end.staging == st.staging - {w}
  {
  }
}
