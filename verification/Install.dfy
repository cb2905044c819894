/**
 Installing one engine version into the shared cache (crates/engine/src/download/store.rs): extract into a
 staging directory of its own, rename it into place. Any number of installers in any number of
 processes, a failure or a killed process at every step.
 */
module Install {
  import opened Options
  import opened Runs
  import opened Extract

  type InstallerId = nat      // stands for the (process id, attempt) pair in a staging directory's name

  datatype Phase =
    | Checking
    | Staging
    | Extracting(index: nat, bytes: nat)
    | Moving
    | Discarding(moved: bool)       // `moved`: it failed at the rename, and looks once more
    | Rechecking
    | Succeeded                     // answered with the version's executable
    | GaveUp

  datatype Installer = Installer(archive: seq<Entry>, phase: Phase)

  /** `place` is the version's directory, `origin` the installer that made it, if one did. */
  datatype State = State(
    place: Option<Tree>,
    origin: Option<InstallerId>,
    staging: map<InstallerId, Tree>,
    installers: map<InstallerId, Installer>,
    running: set<InstallerId>,
    next: InstallerId)

  datatype Event =
    | Begin(archive: seq<Entry>)
    | Step(id: InstallerId, ok: bool)      // `ok`: the file system call worked
    | Kill(ids: set<InstallerId>)

  function Init(original: Option<Tree>): State { State(original, None, map[], map[], {}, 0) }

  function Staged(st: State, id: InstallerId): Option<Tree> {
    if id in st.staging then Some(st.staging[id]) else None
  }

  /** The installer goes on to `phase`, with `staged` in its staging directory. */
  function Advance(st: State, id: InstallerId, phase: Phase, staged: Option<Tree>): State
    requires id in st.installers
  {
    st.(installers := st.installers[id := st.installers[id].(phase := phase)],
        staging := if staged.Some? then st.staging[id := staged.value] else st.staging - {id})
  }

  predicate InPlace(st: State, wanted: string) { st.place.Some? && HasFile(st.place.value, wanted) }

  /** One entry, or the end of the archive: only an archive with the binary goes on to the rename. */
  function AfterEntry(installer: Installer, tree: Tree, wanted: string, caps: Caps, ok: bool): (Phase, Tree)
    requires installer.phase.Extracting?
  {
    var index, bytes := installer.phase.index, installer.phase.bytes;
    if index >= |installer.archive| then (if ok && HasFile(tree, wanted) then Moving else Discarding(false), tree)
    else if !ok then (Discarding(false), tree)
    else match ExtractEntry(tree, bytes, installer.archive[index], caps)
      case Failed(_) => (Discarding(false), tree)
      case Going(more, total) => (Extracting(index + 1, total), more)
  }

  function StepOne(st: State, id: InstallerId, wanted: string, caps: Caps, ok: bool): State
    requires id in st.installers
  {
    var staged := Staged(st, id);
    match st.installers[id].phase
    case Checking => Advance(st, id, if InPlace(st, wanted) then Succeeded else Staging, staged)
    case Staging => if ok then Advance(st, id, Extracting(0, 0), Some([])) else Advance(st, id, GaveUp, staged)
    case Extracting(_, _) =>
      if staged.None? then st
      else
        var (phase, tree) := AfterEntry(st.installers[id], staged.value, wanted, caps, ok);
        Advance(st, id, phase, Some(tree))
    case Moving =>
      // A directory moves onto a name that is free or held by an empty directory; else the rename fails.
      if staged.Some? && ok && (st.place.None? || st.place.value == []) then
        Advance(st, id, Succeeded, None).(place := staged, origin := Some(id))
      else Advance(st, id, Discarding(true), staged)
    case Discarding(moved) =>
      Advance(st, id, if moved then Rechecking else GaveUp, if ok then None else staged)
    case Rechecking => Advance(st, id, if InPlace(st, wanted) then Succeeded else GaveUp, staged)
    case _ => st
  }

  function Apply(st: State, ev: Event, wanted: string, caps: Caps): State {
    match ev
    case Begin(archive) =>
      st.(installers := st.installers[st.next := Installer(archive, Checking)],
          running := st.running + {st.next}, next := st.next + 1)
    case Step(id, ok) => if id in st.running && id in st.installers then StepOne(st, id, wanted, caps, ok) else st
    case Kill(ids) => st.(running := st.running - ids)
  }

  predicate Anything(st: State, ev: Event) { true }

  // ----- what every step keeps

  /** The directory is what was there before, or one installer's whole archive with the binary in it. */
  ghost predicate Complete(st: State, original: Option<Tree>, wanted: string, caps: Caps) {
    match st.origin
    case None => st.place == original
    case Some(id) =>
      && id in st.installers && (original.None? || original.value == [])
      && var archive := st.installers[id].archive;
         && st.place == Some(Unpacked(archive)) && HasFile(Unpacked(archive), wanted)
         && AllSound(archive, caps) && Size(Unpacked(archive)) <= caps.total
  }

  /** What an installer staged is what its phase says: the entries so far, or all of them with the binary. */
  ghost predicate Faithful(installer: Installer, staged: Option<Tree>, wanted: string, caps: Caps) {
    match installer.phase
    case Extracting(index, bytes) =>
      && staged.Some? && index <= |installer.archive|
      && Extracted(installer.archive[..index], caps) == Going(staged.value, bytes)
    case Moving =>
      && staged.Some? && HasFile(staged.value, wanted)
      && Extracted(installer.archive, caps) == Going(staged.value, Size(staged.value))
    case _ => true
  }

  ghost predicate InstallerInv(st: State, id: InstallerId, wanted: string, caps: Caps)
    requires id in st.installers
  {
    && id < st.next
    && Faithful(st.installers[id], Staged(st, id), wanted, caps)
    && (st.installers[id].phase.Succeeded? ==> InPlace(st, wanted))
  }

  ghost predicate Inv(st: State, original: Option<Tree>, wanted: string, caps: Caps) {
    && Complete(st, original, wanted, caps)
    && forall id :: id in st.installers ==> InstallerInv(st, id, wanted, caps)
  }

  /** A step that leaves the version's directory alone concerns its installer only. */
  lemma AdvanceKeepsInv(st: State, id: InstallerId, phase: Phase, staged: Option<Tree>,
                        original: Option<Tree>, wanted: string, caps: Caps)
    requires Inv(st, original, wanted, caps) && id in st.installers
    requires Faithful(st.installers[id].(phase := phase), staged, wanted, caps)
    requires phase.Succeeded? ==> InPlace(st, wanted)
    ensures Inv(Advance(st, id, phase, staged), original, wanted, caps)
  {
    var next := Advance(st, id, phase, staged);
    assert InstallerInv(st, id, wanted, caps);
    forall v | v in next.installers ensures InstallerInv(next, v, wanted, caps) {
      if v != id {
        assert InstallerInv(st, v, wanted, caps);
        assert Staged(next, v) == Staged(st, v);
      } else {
        assert Staged(next, id) == staged;
      }
    }
  }

  lemma AfterEntryIsFaithful(installer: Installer, tree: Tree, wanted: string, caps: Caps, ok: bool)
    requires installer.phase.Extracting? && Faithful(installer, Some(tree), wanted, caps)
    ensures var (phase, after) := AfterEntry(installer, tree, wanted, caps, ok);
            Faithful(installer.(phase := phase), Some(after), wanted, caps) && !phase.Succeeded?
  {
    var archive, index := installer.archive, installer.phase.index;
    if index >= |archive| {
      assert archive[..index] == archive;
      ExtractedExactly(archive, caps);
    } else {
      assert archive[..index + 1][..index] == archive[..index];
    }
  }

  /** The winner of the race puts its whole archive in place. */
  lemma WinKeepsInv(st: State, id: InstallerId, original: Option<Tree>, wanted: string, caps: Caps)
    requires Inv(st, original, wanted, caps) && id in st.installers && st.installers[id].phase.Moving?
    requires id in st.staging && (st.place.None? || st.place.value == [])
    ensures Inv(StepOne(st, id, wanted, caps, true), original, wanted, caps)
  {
    var next := StepOne(st, id, wanted, caps, true);
    assert InstallerInv(st, id, wanted, caps);
    assert Complete(next, original, wanted, caps) by {
      ExtractedExactly(st.installers[id].archive, caps);
      assert st.origin.None?;
    }
    forall v | v in next.installers ensures InstallerInv(next, v, wanted, caps) {
      if v != id {
        assert InstallerInv(st, v, wanted, caps);
        assert Staged(next, v) == Staged(st, v);
      }
    }
  }

  lemma {:induction false} StepKeepsInv(
      st: State, id: InstallerId, original: Option<Tree>, wanted: string, caps: Caps, ok: bool)
    requires Inv(st, original, wanted, caps) && id in st.installers
    ensures Inv(StepOne(st, id, wanted, caps, ok), original, wanted, caps)
  {
    assert InstallerInv(st, id, wanted, caps);
    var staged := Staged(st, id);
    match st.installers[id].phase
    case Checking =>
      AdvanceKeepsInv(st, id, if InPlace(st, wanted) then Succeeded else Staging, staged, original, wanted, caps);
    case Staging =>
      assert st.installers[id].archive[..0] == [];
      AdvanceKeepsInv(st, id, if ok then Extracting(0, 0) else GaveUp, if ok then Some([]) else staged,
                      original, wanted, caps);
    case Extracting(_, _) =>
      var (phase, tree) := AfterEntry(st.installers[id], staged.value, wanted, caps, ok);
      AfterEntryIsFaithful(st.installers[id], staged.value, wanted, caps, ok);
      AdvanceKeepsInv(st, id, phase, Some(tree), original, wanted, caps);
    case Moving =>
      if ok && (st.place.None? || st.place.value == []) {
        WinKeepsInv(st, id, original, wanted, caps);
      } else {
        AdvanceKeepsInv(st, id, Discarding(true), staged, original, wanted, caps);
      }
    case Discarding(moved) =>
      AdvanceKeepsInv(st, id, if moved then Rechecking else GaveUp, if ok then None else staged,
                      original, wanted, caps);
    case Rechecking =>
      AdvanceKeepsInv(st, id, if InPlace(st, wanted) then Succeeded else GaveUp, staged, original, wanted, caps);
    case _ =>
  }

  lemma BeginKeepsInv(st: State, archive: seq<Entry>, original: Option<Tree>, wanted: string, caps: Caps)
    requires Inv(st, original, wanted, caps)
    ensures Inv(Apply(st, Begin(archive), wanted, caps), original, wanted, caps)
  {
    var next := Apply(st, Begin(archive), wanted, caps);
    forall v | v in st.installers
      ensures v != st.next && next.installers[v] == st.installers[v] && InstallerInv(next, v, wanted, caps)
    {
      assert InstallerInv(st, v, wanted, caps);
      assert Staged(next, v) == Staged(st, v);
    }
    assert InstallerInv(next, st.next, wanted, caps);
  }

  lemma KillKeepsInv(st: State, ids: set<InstallerId>, original: Option<Tree>, wanted: string, caps: Caps)
    requires Inv(st, original, wanted, caps)
    ensures Inv(Apply(st, Kill(ids), wanted, caps), original, wanted, caps)
  {
    var next := Apply(st, Kill(ids), wanted, caps);
    forall v | v in next.installers ensures InstallerInv(next, v, wanted, caps) {
      assert InstallerInv(st, v, wanted, caps);
      assert Staged(next, v) == Staged(st, v);
    }
  }

  lemma {:induction false} ApplyKeepsInv(st: State, ev: Event, original: Option<Tree>, wanted: string, caps: Caps)
    requires Inv(st, original, wanted, caps)
    ensures Inv(Apply(st, ev, wanted, caps), original, wanted, caps)
  {
    match ev
    case Begin(archive) => BeginKeepsInv(st, archive, original, wanted, caps);
    case Kill(ids) => KillKeepsInv(st, ids, original, wanted, caps);
    case Step(id, ok) =>
      if id in st.running && id in st.installers { StepKeepsInv(st, id, original, wanted, caps, ok); }
  }

  function Stepper(wanted: string, caps: Caps): (State, Event) -> State {
    (st, ev) => Apply(st, ev, wanted, caps)
  }

  /** With any number of installers, failures and kills: the version's directory is what was there before
      or one installer's complete archive, every entry sound and all within the caps; and every install
      that answered success names a binary that is there. */
  lemma {:induction false} InstallIsAtomic(original: Option<Tree>, wanted: string, caps: Caps, evs: seq<Event>)
    ensures var st := Run(Stepper(wanted, caps), Init(original), evs);
            && Complete(st, original, wanted, caps)
            && forall id :: id in st.installers && st.installers[id].phase.Succeeded? ==> InPlace(st, wanted)
  {
    var inv := st => Inv(st, original, wanted, caps);
    forall st, ev | inv(st) ensures inv(Stepper(wanted, caps)(st, ev)) {
      ApplyKeepsInv(st, ev, original, wanted, caps);
    }
    Invariant(Stepper(wanted, caps), Anything, inv, Init(original), evs);
    var st := Run(Stepper(wanted, caps), Init(original), evs);
    assert inv(st);
    forall id | id in st.installers && st.installers[id].phase.Succeeded? ensures InPlace(st, wanted) {
      assert InstallerInv(st, id, wanted, caps);
    }
  }

  /** A version in place stays as it is: no later install replaces or removes anything of it. */
  lemma {:induction false} InstalledVersionNeverChanges(st: State, wanted: string, caps: Caps, evs: seq<Event>)
    requires InPlace(st, wanted)
    ensures Run(Stepper(wanted, caps), st, evs).place == st.place
  {
    var inv := (s: State) => s.place == st.place;
    Invariant(Stepper(wanted, caps), Anything, inv, st, evs);
  }

  // ----- an install nobody interferes with

  /** What the archive unpacks to, if it may be installed. */
  function Acceptable(archive: seq<Entry>, wanted: string, caps: Caps): Option<Tree> {
    if AllSound(archive, caps) && Size(Unpacked(archive)) <= caps.total && HasFile(Unpacked(archive), wanted)
    then Some(Unpacked(archive)) else None
  }

  /** `n` steps of one installer, every file system call working. */
  function Undisturbed(st: State, id: InstallerId, wanted: string, caps: Caps, n: nat): State
    decreases n
  {
    if n == 0 then st else Undisturbed(Apply(st, Step(id, true), wanted, caps), id, wanted, caps, n - 1)
  }

  ghost predicate At(st: State, id: InstallerId, archive: seq<Entry>, phase: Phase, place: Option<Tree>) {
    id in st.running && id in st.installers && st.installers[id] == Installer(archive, phase) && st.place == place
  }

  ghost predicate AtEntry(st: State, id: InstallerId, archive: seq<Entry>, index: nat, place: Option<Tree>,
                          caps: Caps) {
    && index <= |archive| && id in st.staging && Extracted(archive[..index], caps).Going?
    && st.staging[id] == Extracted(archive[..index], caps).tree
    && At(st, id, archive, Extracting(index, Extracted(archive[..index], caps).bytes), place)
  }

  lemma OneEntry(st: State, id: InstallerId, archive: seq<Entry>, index: nat, place: Option<Tree>,
                 wanted: string, caps: Caps)
    requires AtEntry(st, id, archive, index, place, caps) && index < |archive|
    ensures var next := Apply(st, Step(id, true), wanted, caps);
            if Extracted(archive[..index + 1], caps).Going? then AtEntry(next, id, archive, index + 1, place, caps)
            else At(next, id, archive, Discarding(false), place)
  {
    assert archive[..index + 1][..index] == archive[..index];
  }

  /** The entries, up to the first that fails. */
  lemma {:induction false} EntriesAreExtracted(st: State, id: InstallerId, archive: seq<Entry>, index: nat,
                                               place: Option<Tree>, wanted: string, caps: Caps) returns (n: nat)
    requires AtEntry(st, id, archive, index, place, caps)
    ensures var end := Undisturbed(st, id, wanted, caps, n);
            if Extracted(archive, caps).Going? then AtEntry(end, id, archive, |archive|, place, caps)
            else At(end, id, archive, Discarding(false), place)
    decreases |archive| - index
  {
    if index == |archive| {
      assert archive[..index] == archive;
      n := 0;
    } else {
      var next := Apply(st, Step(id, true), wanted, caps);
      OneEntry(st, id, archive, index, place, wanted, caps);
      var m := 0;
      if Extracted(archive[..index + 1], caps).Going? {
        m := EntriesAreExtracted(next, id, archive, index + 1, place, wanted, caps);
      } else {
        FailureSticks(archive, caps, index + 1);
      }
      n := m + 1;
    }
  }

  lemma {:induction false} UndisturbedAdds(st: State, id: InstallerId, wanted: string, caps: Caps, m: nat, n: nat)
    ensures Undisturbed(st, id, wanted, caps, m + n)
         == Undisturbed(Undisturbed(st, id, wanted, caps, m), id, wanted, caps, n)
    decreases m
  {
    if m > 0 { UndisturbedAdds(Apply(st, Step(id, true), wanted, caps), id, wanted, caps, m - 1, n); }
  }

  /** Cleaning up after a failure leaves nothing staged. */
  lemma GivesUp(st: State, id: InstallerId, archive: seq<Entry>, moved: bool, place: Option<Tree>,
                wanted: string, caps: Caps)
    requires At(st, id, archive, Discarding(moved), place) && !InPlace(st, wanted)
    ensures var end := Undisturbed(st, id, wanted, caps, 2);
            At(end, id, archive, GaveUp, place) && id !in end.staging
  {
    var next := Apply(st, Step(id, true), wanted, caps);
    assert At(next, id, archive, if moved then Rechecking else GaveUp, place);
    assert Undisturbed(st, id, wanted, caps, 2) == Apply(next, Step(id, true), wanted, caps) by {
      assert Undisturbed(next, id, wanted, caps, 1)
          == Undisturbed(Apply(next, Step(id, true), wanted, caps), id, wanted, caps, 0);
    }
  }

  /** What is there stays, what is not there is made of an acceptable archive. */
  function Comes(place: Option<Tree>, archive: seq<Entry>, wanted: string, caps: Caps): (Phase, Option<Tree>) {
    if place.Some? && HasFile(place.value, wanted) then (Succeeded, place)
    else if place.Some? && place.value != [] then (GaveUp, place)
    else match Acceptable(archive, wanted, caps)
      case Some(tree) => (Succeeded, Some(tree))
      case None => (GaveUp, place)
  }

  ghost predicate Ended(end: State, id: InstallerId, archive: seq<Entry>, came: (Phase, Option<Tree>)) {
    At(end, id, archive, came.0, came.1) && id !in end.staging
  }

  /** From the last entry on. */
  lemma LastSteps(st: State, id: InstallerId, archive: seq<Entry>, place: Option<Tree>, wanted: string, caps: Caps)
      returns (n: nat)
    requires AtEntry(st, id, archive, |archive|, place, caps) && !InPlace(st, wanted)
    ensures Ended(Undisturbed(st, id, wanted, caps, n), id, archive, Comes(place, archive, wanted, caps))
  {
    assert archive[..|archive|] == archive;
    ExtractedExactly(archive, caps);
    var next := Apply(st, Step(id, true), wanted, caps);
    if Acceptable(archive, wanted, caps).None? {
      GivesUp(next, id, archive, false, place, wanted, caps);
      n := 3;
    } else {
      var moved := Apply(next, Step(id, true), wanted, caps);
      assert next.staging[id] == Unpacked(archive) && At(next, id, archive, Moving, place);
      n := 2;
      assert Undisturbed(moved, id, wanted, caps, 0) == moved;
      assert Undisturbed(next, id, wanted, caps, 1) == moved;
      if place.Some? && place.value != [] {
        GivesUp(moved, id, archive, true, place, wanted, caps);
        UndisturbedAdds(st, id, wanted, caps, 2, 2);
        n := 4;
      }
    }
  }

  lemma BeginsExtracting(st: State, archive: seq<Entry>, wanted: string, caps: Caps)
    requires !InPlace(st, wanted)
    ensures var begun := Apply(st, Begin(archive), wanted, caps);
            var end := Undisturbed(begun, st.next, wanted, caps, 2);
            AtEntry(end, st.next, archive, 0, st.place, caps)
  {
    var id := st.next;
    var begun := Apply(st, Begin(archive), wanted, caps);
    var staging := Apply(begun, Step(id, true), wanted, caps);
    assert At(staging, id, archive, Staging, st.place);
    assert archive[..0] == [];
    assert Undisturbed(begun, id, wanted, caps, 2) == Apply(staging, Step(id, true), wanted, caps) by {
      assert Undisturbed(staging, id, wanted, caps, 1)
          == Undisturbed(Apply(staging, Step(id, true), wanted, caps), id, wanted, caps, 0);
    }
  }

  /** Left alone, an install of an acceptable archive ends in success with every file of it in place, and any
      other gives up; what was in place stays, and nothing stays staged. */
  lemma UndisturbedInstall(st: State, archive: seq<Entry>, wanted: string, caps: Caps) returns (n: nat)
    requires st.next !in st.staging
    ensures var begun := Apply(st, Begin(archive), wanted, caps);
            Ended(Undisturbed(begun, st.next, wanted, caps, n), st.next, archive,
                  Comes(st.place, archive, wanted, caps))
  {
    var id := st.next;
    var begun := Apply(st, Begin(archive), wanted, caps);
    if InPlace(st, wanted) {
      n := 1;
      assert Undisturbed(begun, id, wanted, caps, 1) == Apply(begun, Step(id, true), wanted, caps) by {
        assert Undisturbed(Apply(begun, Step(id, true), wanted, caps), id, wanted, caps, 0)
            == Apply(begun, Step(id, true), wanted, caps);
      }
    } else {
      BeginsExtracting(st, archive, wanted, caps);
      n := RunsOut(begun, Undisturbed(begun, id, wanted, caps, 2), id, archive, st.place, wanted, caps);
    }
  }

  lemma RunsOut(begun: State, st: State, id: InstallerId, archive: seq<Entry>, place: Option<Tree>,
                wanted: string, caps: Caps) returns (n: nat)
    requires st == Undisturbed(begun, id, wanted, caps, 2) && AtEntry(st, id, archive, 0, place, caps)
    requires !InPlace(st, wanted)
    ensures Ended(Undisturbed(begun, id, wanted, caps, n), id, archive, Comes(place, archive, wanted, caps))
  {
    var k := EntriesAreExtracted(st, id, archive, 0, place, wanted, caps);
    var read := Undisturbed(st, id, wanted, caps, k);
    ExtractedExactly(archive, caps);
    var m := 2;
    if Extracted(archive, caps).Going? {
      m := LastSteps(read, id, archive, place, wanted, caps);
    } else {
      GivesUp(read, id, archive, false, place, wanted, caps);
    }
    UndisturbedAdds(st, id, wanted, caps, k, m);
    UndisturbedAdds(begun, id, wanted, caps, 2, k + m);
    n := 2 + k + m;
  }

  /** A killed installer takes no further step. */
  lemma KilledInstallerStops(st: State, ids: set<InstallerId>, id: InstallerId, ok: bool, wanted: string, caps: Caps)
    requires id in ids
    ensures var killed := Apply(st, Kill(ids), wanted, caps);
            killed.place == st.place && killed.staging == st.staging
            && Apply(killed, Step(id, ok), wanted, caps) == killed
  {
  }

  /** An extraction that fails is a failed install, whatever another installer has put in place meanwhile; only
      one that fails at the rename looks whether another has won. */
  lemma FailedExtractionIsFinal(st: State, id: InstallerId, wanted: string, caps: Caps, ok: bool)
    requires id in st.running && id in st.installers && id in st.staging && st.installers[id].phase.Extracting?
    ensures var failed := Apply(st, Step(id, ok), wanted, caps);
            var end := Apply(failed, Step(id, true), wanted, caps);
            var phase := failed.installers[id].phase;
            if phase.Extracting? || phase.Moving? then ok
            else end.installers[id].phase.GaveUp? && end.place == st.place && id !in end.staging
  {
  }

  lemma FailedRenameLooksAgain(st: State, id: InstallerId, wanted: string, caps: Caps, ok: bool)
    requires id in st.running && id in st.installers && id in st.staging && st.installers[id].phase.Moving?
    requires !ok || (st.place.Some? && st.place.value != [])
    ensures var failed := Apply(st, Step(id, ok), wanted, caps);
            var end := Apply(Apply(failed, Step(id, true), wanted, caps), Step(id, true), wanted, caps);
            && end.place == st.place && id !in end.staging
            && end.installers[id].phase == if InPlace(st, wanted) then Succeeded else GaveUp
  {
  }
}
