/**
 Restoring a snapshot's files: where each goes, what is written there, and what
 undoes it.
 */
module Restore {
  import opened Files
  import opened Snapshots
  import opened BlobStore
  import opened SnapshotContents
  import opened Capture
  import opened RestoreTransaction
  import Text

  // ----- Destinations -----

  /** filepath.Clean of a relative path, by components: `stack` is what is already clean. */
  function CleanInto(stack: seq<string>, parts: seq<string>): seq<string>
    decreases |parts|
  {
    if parts == [] then stack
    else if parts[0] == "" || parts[0] == "." then CleanInto(stack, parts[1..])
    else if parts[0] == ".." && stack != [] && stack[|stack| - 1] != ".." then CleanInto(stack[..|stack| - 1], parts[1..])
    else CleanInto(stack + [parts[0]], parts[1..])
  }

  function RestoreDestination(resolved: FilePath, file: SnapshotFile): Option<FilePath> {
    if file.rootFile then Some(resolved)
    else if file.path != [] && file.path[0] == '/' then None
    else
      var relative := CleanInto([], Text.Split(file.path, '/'));
      if relative == [] || relative[0] == ".." then None else Some(resolved + relative)
  }

  /** Dots that go up come first, and nothing is empty or a single dot. */
  ghost predicate CleanShape(parts: seq<string>) {
    && (forall i :: 0 <= i < |parts| ==> parts[i] != "" && parts[i] != ".")
    && (forall i, j :: 0 <= i < j < |parts| && parts[j] == ".." ==> parts[i] == "..")
  }

  lemma {:induction false} CleanKeepsShape(stack: seq<string>, parts: seq<string>)
    requires CleanShape(stack)
    ensures CleanShape(CleanInto(stack, parts))
    decreases |parts|
  {
    if parts != [] {
      if parts[0] == "" || parts[0] == "." {
        CleanKeepsShape(stack, parts[1..]);
      } else if parts[0] == ".." && stack != [] && stack[|stack| - 1] != ".." {
        CleanKeepsShape(stack[..|stack| - 1], parts[1..]);
      } else {
        CleanKeepsShape(stack + [parts[0]], parts[1..]);
      }
    }
  }

  /** Whatever a manifest says, a file of a directory goes strictly below that directory. */
  lemma DestinationIsContained(resolved: FilePath, file: SnapshotFile)
    requires !file.rootFile && RestoreDestination(resolved, file).Some?
    ensures var d := RestoreDestination(resolved, file).value;
            resolved < d && forall i :: |resolved| <= i < |d| ==> d[i] != ".." && d[i] != "." && d[i] != ""
  {
    CleanKeepsShape([], Text.Split(file.path, '/'));
  }

  lemma {:induction false} CleanOfPlain(stack: seq<string>, parts: seq<string>)
    requires PlainComponents(parts)
    ensures CleanInto(stack, parts) == stack + parts
    decreases |parts|
  {
    if parts != [] {
      var first := parts[0];
      assert first in parts;
      PlainPart(parts, 1);
      CleanOfPlain(stack + [first], parts[1..]);
      assert stack + [first] + parts[1..] == stack + parts;
    } else {
      assert stack + parts == stack;
    }
  }

  /** A captured file goes back to where it was found, relative to the location's root. */
  lemma CapturedDestination(codec: Codec, p: GamePath, file: FilePath, content: Bytes, resolved: FilePath)
    requires p.resolved <= file && file != [] && PlainComponents(file)
    ensures RestoreDestination(resolved, ManifestEntry(codec, p, file, content)) ==
            Some(if file == p.resolved then resolved else resolved + file[|p.resolved|..])
  {
    if file != p.resolved {
      var parts := file[|p.resolved|..];
      assert parts != [];
      PlainPart(file, |p.resolved|);
      Text.SplitOfJoin(parts, '/');
      CleanOfPlain([], parts);
      JoinStartsPlain(parts);
      assert [] + parts == parts && parts[0] in parts;
    }
  }

  lemma PlainPart(file: FilePath, n: nat)
    requires n <= |file| && PlainComponents(file)
    ensures PlainComponents(file[n..])
  {
    forall i | 0 <= i < |file[n..]|
      ensures file[n..][i] in file
    {
      assert file[n..][i] == file[n + i];
    }
  }

  lemma JoinStartsPlain(parts: seq<string>)
    requires parts != [] && PlainComponents(parts)
    ensures Text.Join(parts, '/') != [] && Text.Join(parts, '/')[0] != '/'
  {
    var first := parts[0];
    assert first in parts && first != "" && first[0] in first;
    assert Text.Join(parts, '/')[0] == first[0];
  }

  /** The last enabled location among the first `n` with the key, or -1. */
  function SourceIndex(codec: Codec, paths: seq<GamePath>, n: nat, key: string): (i: int)
    requires n <= |paths|
    ensures -1 <= i < n && (i >= 0 ==> paths[i].enabled && SourceKey(codec, paths[i]) == key)
    ensures forall j :: i < j < n && paths[j].enabled ==> SourceKey(codec, paths[j]) != key
  {
    if n == 0 then -1
    else if paths[n - 1].enabled && SourceKey(codec, paths[n - 1]) == key then n - 1
    else SourceIndex(codec, paths, n - 1, key)
  }

  function DestinationOf(codec: Codec, paths: seq<GamePath>, file: SnapshotFile): Option<FilePath> {
    var i := SourceIndex(codec, paths, |paths|, file.sourceKey);
    if i < 0 then None else RestoreDestination(paths[i].resolved, file)
  }

  method SourcesByKey(codec: Codec, paths: seq<GamePath>) returns (sources: map<string, GamePath>)
    ensures IsSources(codec, paths, sources)
  {
    sources := map[];
    for i := 0 to |paths|
      invariant forall key :: key in sources <==> SourceIndex(codec, paths, i, key) >= 0
      invariant forall key :: key in sources ==> sources[key] == paths[SourceIndex(codec, paths, i, key)]
    {
      if paths[i].enabled {
        sources := sources[SourceKey(codec, paths[i]) := paths[i]];
      }
    }
  }

  // ----- Staging -----

  /** The bytes are the ones that the manifest entry promises. */
  predicate IsContentOf(codec: Codec, content: Bytes, file: SnapshotFile) {
    codec.sha(content) == file.hash && |content| == file.size
  }

  /** The entry's blob is indexed at a file that holds the promised content. */
  predicate Stageable(codec: Codec, d: Disk, blobs: map<Hash, BlobRow>, file: SnapshotFile)
    requires d.Valid()
  {
    file.hash in blobs && d.Has(blobs[file.hash].path)
    && var content := codec.unpack(d.Read(blobs[file.hash].path)); content.Some? && IsContentOf(codec, content.value, file)
  }

  /** Unpacks one blob next to its destination and verifies what was written. */
  method StageRestoreFile(fs: SaveFileSystem, s: Store, destination: FilePath, file: SnapshotFile, temporary: FilePath)
    returns (o: Outcome, clean: bool)
    requires s.Valid()
    modifies fs
    ensures o.Done? || o.Failed?
    ensures o.Done? ==> temporary !in old(fs.files) && temporary in fs.files
                        && fs.files == old(fs.files)[temporary := fs.files[temporary]]
                        && IsContentOf(s.codec, fs.files[temporary], file)
    ensures o.Failed? && clean ==> fs.files == old(fs.files)
    // unless an operation fails it succeeds exactly for a stageable entry
    ensures o.Done? ==> Stageable(s.codec, s.disk, s.blobs, file)
    ensures fs.faults >= old(fs.faults)
    ensures o.Failed? && Stageable(s.codec, s.disk, s.blobs, file) ==> fs.faults > old(fs.faults) + if clean then 0 else 1
    ensures !clean ==> o.Failed? && fs.faults > old(fs.faults)
  {
    if file.hash !in s.blobs || !s.disk.Has(s.blobs[file.hash].path) {
      return Failed, true;
    }
    if temporary in fs.files {
      // no new name was found
      fs.faults := fs.faults + 1;
      return Failed, true;
    }
    if * {
      fs.faults := fs.faults + 1;
      return Failed, true;
    }
    var torn: Bytes := *;
    fs.files := fs.files[temporary := torn];
    var content := s.codec.unpack(s.disk.Read(s.blobs[file.hash].path));
    var written := true;
    if * {
      fs.faults := fs.faults + 1;
      written := false;
    }
    if written && content.Some? && IsContentOf(s.codec, content.value, file) {
      fs.files := fs.files[temporary := content.value];
      return Done, true;
    }
    if * {
      fs.faults := fs.faults + 1;
      return Failed, false;
    }
    fs.files := fs.files - {temporary};
    return Failed, true;
  }

  /** Every file has its destination, its temporary and its verified content. */
  ghost predicate StagedFor(codec: Codec, paths: seq<GamePath>, files: seq<SnapshotFile>, now: Saves,
                            staged: seq<StagedFile>) {
    && |staged| <= |files|
    && (forall i :: 0 <= i < |staged| ==>
          && DestinationOf(codec, paths, files[i]) == Some(staged[i].destination)
          && staged[i].temporary in now && IsContentOf(codec, now[staged[i].temporary], files[i]))
    && (forall i, j :: 0 <= i < j < |staged| ==> staged[i].temporary != staged[j].temporary)
  }

  /** The staged temporaries are new, and nothing else changed. */
  ghost predicate OnlyStaged(files0: Saves, now: Saves, staged: seq<StagedFile>) {
    && (forall i :: 0 <= i < |staged| ==> staged[i].temporary !in files0)
    && files0 == now - TemporariesFrom(staged, 0)
  }

  /** The entry has a destination here and content in the store. */
  ghost predicate Placed(codec: Codec, d: Disk, blobs: map<Hash, BlobRow>, paths: seq<GamePath>, file: SnapshotFile)
    requires d.Valid()
  {
    DestinationOf(codec, paths, file).Some? && Stageable(codec, d, blobs, file)
  }

  ghost predicate Restorable(codec: Codec, d: Disk, blobs: map<Hash, BlobRow>, paths: seq<GamePath>, files: seq<SnapshotFile>)
    requires d.Valid()
  {
    forall i :: 0 <= i < |files| ==> Placed(codec, d, blobs, paths, files[i])
  }

  /** Stages the next entry. */
  method StageNext(fs: SaveFileSystem, s: Store, paths: seq<GamePath>, sources: map<string, GamePath>, files: seq<SnapshotFile>,
                   staged: seq<StagedFile>, temporary: FilePath, ghost files0: Saves)
    returns (o: Outcome, more: seq<StagedFile>, clean: bool)
    requires s.Valid() && |staged| < |files| && IsSources(s.codec, paths, sources)
    requires StagedFor(s.codec, paths, files, fs.files, staged) && OnlyStaged(files0, fs.files, staged)
    modifies fs
    ensures o.Done? || o.Failed?
    ensures o.Done? ==> |more| == |staged| + 1 && StagedFor(s.codec, paths, files, fs.files, more) && OnlyStaged(files0, fs.files, more)
    ensures o.Done? ==> Placed(s.codec, s.disk, s.blobs, paths, files[|staged|])
    ensures o.Failed? ==> more == staged && (clean ==> OnlyStaged(files0, fs.files, staged))
    ensures fs.faults >= old(fs.faults)
    ensures o.Failed? && Placed(s.codec, s.disk, s.blobs, paths, files[|staged|]) ==> fs.faults > old(fs.faults) + if clean then 0 else 1
    ensures !clean ==> o.Failed? && fs.faults > old(fs.faults)
  {
    hide RestoreDestination, SourceIndex, IsContentOf, Stageable, StagedFor, OnlyStaged;
    var f := files[|staged|];
    var destination := if f.sourceKey in sources then RestoreDestination(sources[f.sourceKey].resolved, f) else None;
    if destination.None? {
      return Failed, staged, true;
    }
    ghost var before := fs.files;
    o, clean := StageRestoreFile(fs, s, destination.value, f, temporary);
    more := staged;
    if o.Done? {
      StagedMore(s.codec, paths, files, files0, before, fs.files, staged, StagedFile(destination.value, temporary));
      more := staged + [StagedFile(destination.value, temporary)];
    }
  }

  /** The map of sources by key says what `SourceIndex` says. */
  ghost predicate IsSources(codec: Codec, paths: seq<GamePath>, sources: map<string, GamePath>) {
    && (forall key :: key in sources <==> SourceIndex(codec, paths, |paths|, key) >= 0)
    && forall key :: key in sources ==> sources[key] == paths[SourceIndex(codec, paths, |paths|, key)]
  }

  /** Stages all files, or none: a failure removes the temporaries made so far. */
  method StageRestoreFiles(fs: SaveFileSystem, s: Store, paths: seq<GamePath>, files: seq<SnapshotFile>,
                           temporaries: seq<FilePath>)
    returns (o: Outcome, staged: seq<StagedFile>, clean: bool)
    requires s.Valid() && |temporaries| == |files|
    modifies fs
    ensures o.Done? || o.Failed?
    ensures o.Done? ==> |staged| == |files| && StagedFor(s.codec, paths, files, fs.files, staged)
                        && OnlyStaged(old(fs.files), fs.files, staged)
    ensures o.Failed? && clean ==> fs.files == old(fs.files)
    // unless an operation fails it succeeds exactly for restorable entries
    ensures o.Done? ==> Restorable(s.codec, s.disk, s.blobs, paths, files)
    ensures fs.faults >= old(fs.faults)
    ensures o.Failed? && Restorable(s.codec, s.disk, s.blobs, paths, files) ==> fs.faults > old(fs.faults) + if clean then 0 else 1
    ensures !clean ==> o.Failed? && fs.faults > old(fs.faults)
  {
    var sources := SourcesByKey(s.codec, paths);
    assert IsSources(s.codec, paths, sources);
    staged, clean := [], true;
    NothingStaged(fs.files);
    assert StagedFor(s.codec, paths, files, fs.files, staged);
    hide Placed, StagedFor, OnlyStaged, IsSources, TemporariesFrom, Trusted, BlobsNamed, JournalNamed, RefsExact, Canonical, SizesTrue;
    for i := 0 to |files|
      invariant |staged| == i && fs.faults >= old(fs.faults) && clean
      invariant StagedFor(s.codec, paths, files, fs.files, staged) && OnlyStaged(old(fs.files), fs.files, staged)
      invariant forall j :: 0 <= j < i ==> Placed(s.codec, s.disk, s.blobs, paths, files[j])
    {
      o, staged, clean := StageNext(fs, s, paths, sources, files, staged, temporaries[i], old(fs.files));
      if o.Failed? {
        if clean {
          StagedGoes(old(fs.files), fs.files, staged);
        }
        var failed := CleanupStagedRestoreFiles(fs, staged);
        return Failed, staged, !failed && clean;
      }
    }
    o := Done;
  }

  lemma NothingStaged(files: Saves)
    ensures OnlyStaged(files, files, [])
  {
    assert TemporariesFrom([], 0) == {};
  }

  /** Without the staged temporaries the files are the ones from before. */
  lemma StagedGoes(files0: Saves, now: Saves, staged: seq<StagedFile>)
    requires OnlyStaged(files0, now, staged)
    ensures now - TemporariesFrom(staged, 0) == files0
  {
  }

  lemma StagedMore(codec: Codec, paths: seq<GamePath>, files: seq<SnapshotFile>, files0: Saves, now: Saves, now': Saves,
                   staged: seq<StagedFile>, item: StagedFile)
    requires |staged| < |files|
    requires StagedFor(codec, paths, files, now, staged) && OnlyStaged(files0, now, staged)
    requires item.temporary !in now && item.temporary in now' && now' == now[item.temporary := now'[item.temporary]]
    requires DestinationOf(codec, paths, files[|staged|]) == Some(item.destination)
    requires IsContentOf(codec, now'[item.temporary], files[|staged|])
    ensures StagedFor(codec, paths, files, now', staged + [item]) && OnlyStaged(files0, now', staged + [item])
  {
    hide DestinationOf, IsContentOf;
    assert StagedFor(codec, paths, files, now', staged + [item]) by {
      var more := staged + [item];
      assert forall i :: 0 <= i < |staged| ==> more[i] == staged[i];
      assert more[|staged|] == item;
    }
    OnlyStagedMore(files0, now, now', staged, item);
  }

  lemma OnlyStagedMore(files0: Saves, now: Saves, now': Saves, staged: seq<StagedFile>, item: StagedFile)
    requires OnlyStaged(files0, now, staged)
    requires item.temporary !in now && item.temporary in now' && now' == now[item.temporary := now'[item.temporary]]
    ensures OnlyStaged(files0, now', staged + [item])
  {
    var more := staged + [item];
    assert forall i :: 0 <= i < |staged| ==> more[i] == staged[i];
    assert more[|staged|] == item;
    assert TemporariesFrom(more, 0) == TemporariesFrom(staged, 0) + {item.temporary};
    assert item.temporary !in files0;
    assert now' - TemporariesFrom(more, 0) == now - TemporariesFrom(staged, 0);
  }
}
