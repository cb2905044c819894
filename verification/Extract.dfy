/**
 Extraction of an engine archive under hard caps (crates/engine/src/download/store.rs). An archive is the
 list of its entries as the zip reader presents them; a directory's contents are the writes made to it.
 */
module Extract {
  import opened Options
  import opened Cache

  type Bytes = seq<char>

  datatype Entry =
    | Unreadable
    | Directory
    | Packed(name: Option<string>, contents: Option<Bytes>)   // None: the name or the data cannot be decoded

  datatype Caps = Caps(entry: nat, total: nat)

  const HARD_CAPS: Caps := Caps(512 * 1024 * 1024, 2 * 1024 * 1024 * 1024)

  datatype ExtractError =
    | UnreadableEntry
    | UnreadableName
    | HostilePath
    | UnreadableData
    | EntryOverCap
    | ArchiveOverCap
    | MissingBinary

  datatype Write = Write(path: string, contents: Bytes)

  type Tree = seq<Write>

  predicate HasFile(tree: Tree, path: string) { exists i :: 0 <= i < |tree| && tree[i].path == path }

  function Size(tree: Tree): nat {
    if tree == [] then 0 else Size(tree[..|tree| - 1]) + |tree[|tree| - 1].contents|
  }

  /** The entry's path below its top folder: what follows the first separator, of either kind. */
  function Flattened(name: string): string {
    if name == "" then ""
    else if name[0] in EITHER then name[1..]
    else if !HasSeparator(name) then name
    else Flattened(name[1..])
  }

  predicate HasSeparator(name: string) { exists i :: 0 <= i < |name| && name[i] in EITHER }

  /** Without a separator a path stays; otherwise its first folder goes, with the separator behind it. */
  lemma {:induction false} FlattenedExactly(name: string)
    ensures Free(name, EITHER) ==> Flattened(name) == name
    ensures forall folder, mark, rest :: Free(folder, EITHER) && mark in EITHER && name == folder + [mark] + rest ==>
              Flattened(name) == rest
  {
    forall folder: string, mark: char, rest: string
      | Free(folder, EITHER) && mark in EITHER && name == folder + [mark] + rest
      ensures Flattened(name) == rest
    {
      StripsFolder(folder, mark, rest);
    }
  }

  lemma {:induction false} StripsFolder(folder: string, mark: char, rest: string)
    requires Free(folder, EITHER) && mark in EITHER
    ensures Flattened(folder + [mark] + rest) == rest
  {
    var name := folder + [mark] + rest;
    assert name[|folder|] == mark;
    if folder != "" {
      StripsFolder(folder[1..], mark, rest);
      assert name[1..] == folder[1..] + [mark] + rest;
      assert name[0] == folder[0];
    }
  }

  /** Directories and top folders themselves are passed over. */
  predicate Skipped(entry: Entry) {
    entry.Directory? || (entry.Packed? && entry.name.Some? && Flattened(entry.name.value) == "")
  }

  // ----- what the whole archive should come out as

  predicate Sound(entry: Entry, caps: Caps) {
    || Skipped(entry)
    || (entry.Packed? && entry.name.Some? && !Hostile(Flattened(entry.name.value))
        && entry.contents.Some? && |entry.contents.value| <= caps.entry)
  }

  predicate AllSound(archive: seq<Entry>, caps: Caps) {
    archive == [] || (AllSound(archive[..|archive| - 1], caps) && Sound(archive[|archive| - 1], caps))
  }

  /** What one entry adds to the directory. */
  function Contribution(entry: Entry): Tree {
    if !entry.Packed? || Skipped(entry) || entry.name.None? || entry.contents.None? then []
    else [Write(Flattened(entry.name.value), entry.contents.value)]
  }

  /** Every packed file at its flattened path, in archive order. */
  function Unpacked(archive: seq<Entry>): Tree {
    if archive == [] then [] else Unpacked(archive[..|archive| - 1]) + Contribution(archive[|archive| - 1])
  }

  // ----- entry by entry

  datatype Progress = Going(tree: Tree, bytes: nat) | Failed(error: ExtractError)

  function ExtractEntry(tree: Tree, bytes: nat, entry: Entry, caps: Caps): Progress {
    match entry
    case Unreadable => Failed(UnreadableEntry)
    case Directory => Going(tree, bytes)
    case Packed(None, _) => Failed(UnreadableName)
    case Packed(Some(name), contents) =>
      var relative := Flattened(name);
      if relative == "" then Going(tree, bytes)
      else if Hostile(relative) then Failed(HostilePath)
      else if contents.None? then Failed(UnreadableData)
      else if |contents.value| > caps.entry then Failed(EntryOverCap)
      else if bytes + |contents.value| > caps.total then Failed(ArchiveOverCap)
      else Going(tree + [Write(relative, contents.value)], bytes + |contents.value|)
  }

  /** Why a packed entry with a path fails, in the order in which it is looked at. */
  lemma EntryFailsExactly(tree: Tree, bytes: nat, name: string, contents: Option<Bytes>, caps: Caps)
    requires Flattened(name) != ""
    ensures var step := ExtractEntry(tree, bytes, Packed(Some(name), contents), caps);
            && (step == Failed(HostilePath) <==> Hostile(Flattened(name)))
            && (step == Failed(UnreadableData) <==> !Hostile(Flattened(name)) && contents.None?)
            && (step == Failed(EntryOverCap) <==>
                  !Hostile(Flattened(name)) && contents.Some? && |contents.value| > caps.entry)
            && (step == Failed(ArchiveOverCap) <==>
                  && !Hostile(Flattened(name)) && contents.Some? && |contents.value| <= caps.entry
                  && bytes + |contents.value| > caps.total)
  {
  }

  function Extracted(archive: seq<Entry>, caps: Caps): Progress {
    if archive == [] then Going([], 0)
    else match Extracted(archive[..|archive| - 1], caps)
      case Failed(error) => Failed(error)
      case Going(tree, bytes) => ExtractEntry(tree, bytes, archive[|archive| - 1], caps)
  }

  /** The first failure ends the extraction. */
  lemma {:induction false} FailureSticks(archive: seq<Entry>, caps: Caps, k: nat)
    requires k <= |archive| && Extracted(archive[..k], caps).Failed?
    ensures Extracted(archive, caps) == Extracted(archive[..k], caps)
  {
    if k < |archive| {
      var init := archive[..|archive| - 1];
      assert init[..k] == archive[..k];
      FailureSticks(init, caps, k);
    } else {
      assert archive[..k] == archive;
    }
  }

  /** No file is over the entry cap and none leaves the directory. */
  predicate Tame(tree: Tree, caps: Caps) {
    forall i :: 0 <= i < |tree| ==> |tree[i].contents| <= caps.entry && !Hostile(tree[i].path)
  }

  lemma HasFileAppends(tree: Tree, write: Write, path: string)
    ensures HasFile(tree + [write], path) <==> HasFile(tree, path) || write.path == path
  {
    var longer := tree + [write];
    assert longer[|tree|] == write;
    if HasFile(tree, path) {
      var i :| 0 <= i < |tree| && tree[i].path == path;
      assert longer[i].path == path;
    }
  }

  lemma SizeGrows(tree: Tree, more: Tree)
    requires |more| <= 1
    ensures Size(tree + more) == Size(tree) + if more == [] then 0 else |more[0].contents|
  {
    if more == [] { assert tree + more == tree; } else { assert (tree + more)[..|tree|] == tree; }
  }

  lemma EntryExactly(tree: Tree, bytes: nat, entry: Entry, caps: Caps)
    requires bytes == Size(tree) <= caps.total
    ensures var step, grown := ExtractEntry(tree, bytes, entry, caps), tree + Contribution(entry);
            && (step.Going? <==> Sound(entry, caps) && Size(grown) <= caps.total)
            && (step.Going? ==> step == Going(grown, Size(grown)))
  {
    SizeGrows(tree, Contribution(entry));
    match entry
    case Unreadable =>
    case Directory => assert tree + [] == tree;
    case Packed(None, _) =>
    case Packed(Some(name), None) => assert tree + [] == tree;
    case Packed(Some(name), Some(contents)) => assert tree + [] == tree;
  }

  lemma {:induction false} UnpackedGrows(archive: seq<Entry>)
    requires archive != []
    ensures Size(Unpacked(archive[..|archive| - 1])) <= Size(Unpacked(archive))
  {
    SizeGrows(Unpacked(archive[..|archive| - 1]), Contribution(archive[|archive| - 1]));
  }

  /** An archive is extracted exactly when each of its entries is sound and all its files together fit the
      total cap; what comes out is then every packed file, complete and in order. */
  lemma {:induction false} ExtractedExactly(archive: seq<Entry>, caps: Caps)
    ensures Extracted(archive, caps).Going? <==> AllSound(archive, caps) && Size(Unpacked(archive)) <= caps.total
    ensures Extracted(archive, caps).Going? ==>
              Extracted(archive, caps) == Going(Unpacked(archive), Size(Unpacked(archive)))
  {
    if archive != [] {
      var init, last := archive[..|archive| - 1], archive[|archive| - 1];
      ExtractedExactly(init, caps);
      UnpackedGrows(archive);
      if Extracted(init, caps).Going? {
        EntryExactly(Unpacked(init), Size(Unpacked(init)), last, caps);
      }
    }
  }

  lemma EntryStaysTame(tree: Tree, bytes: nat, entry: Entry, caps: Caps, wanted: string)
    requires Tame(tree, caps) && ExtractEntry(tree, bytes, entry, caps).Going?
    ensures var grown := ExtractEntry(tree, bytes, entry, caps).tree;
            && Tame(grown, caps)
            && (grown != tree ==> entry.Packed? && entry.name.Some?)
            && (HasFile(grown, wanted) <==>
                  HasFile(tree, wanted) || (grown != tree && Flattened(entry.name.value) == wanted))
  {
    var grown := ExtractEntry(tree, bytes, entry, caps).tree;
    if |grown| > |tree| {
      HasFileAppends(tree, Write(Flattened(entry.name.value), entry.contents.value), wanted);
    }
  }

  /** The loop over the entries. `written` is what reached the disk, also when the extraction fails. */
  method ExtractArchive(archive: seq<Entry>, wanted: string, caps: Caps)
    returns (error: Option<ExtractError>, written: Tree)
    ensures Size(written) <= caps.total && Tame(written, caps)
    ensures match Extracted(archive, caps)
            case Failed(e) => error == Some(e)
            case Going(tree, bytes) =>
              written == tree && error == if HasFile(tree, wanted) then None else Some(MissingBinary)
  {
    var bytes: nat, index: nat, found := 0, 0, false;
    written := [];
    while index < |archive|
      invariant 0 <= index <= |archive|
      invariant Extracted(archive[..index], caps) == Going(written, bytes)
      invariant Size(written) == bytes <= caps.total && Tame(written, caps)
      invariant found <==> HasFile(written, wanted)
    {
      var step := ExtractEntry(written, bytes, archive[index], caps);
      assert archive[..index + 1][..index] == archive[..index];
      assert Extracted(archive[..index + 1], caps) == step;
      if step.Failed? {
        FailureSticks(archive, caps, index + 1);
        return Some(step.error), written;
      }
      EntryExactly(written, bytes, archive[index], caps);
      EntryStaysTame(written, bytes, archive[index], caps, wanted);
      found := found || (step.tree != written && Flattened(archive[index].name.value) == wanted);
      written, bytes, index := step.tree, step.bytes, index + 1;
    }
    assert archive[..|archive|] == archive;
    error := if found then None else Some(MissingBinary);
  }

  const MAX_U64: nat := 0xFFFF_FFFF_FFFF_FFFF

  /** Under the shipped caps the byte count is exact: adding an entry that passed its own cap never wraps a
      64-bit counter, so the total cap cannot be slipped past that way. */
  lemma ByteCountNeverWraps(archive: seq<Entry>, contents: Bytes)
    requires Extracted(archive, HARD_CAPS).Going? && |contents| <= HARD_CAPS.entry
    ensures Extracted(archive, HARD_CAPS).bytes <= 0x8000_0000 && |contents| <= 0x2000_0000
    ensures Extracted(archive, HARD_CAPS).bytes + |contents| <= MAX_U64
  {
    ExtractedExactly(archive, HARD_CAPS);
  }
}
