/**
 The root-file flag that the comparison of snapshots ignores: exactly when an
 unchanged older snapshot serves as the way back of a restore.
 */
module RollbackFlags {
  import opened Files
  import opened Snapshots
  import opened SnapshotContents
  import opened Capture
  import opened RestoreTransaction
  import opened Restore
  import opened RestoreFiles
  import opened RestoreUndo
  import Text

  /** No enabled location is inside another. */
  ghost predicate NonOverlapping(paths: seq<GamePath>) {
    forall i, j :: 0 <= i < |paths| && 0 <= j < |paths| && i != j && paths[i].enabled && paths[j].enabled ==>
      !(paths[i].resolved <= paths[j].resolved)
  }

  /** A digest has one size, as in manifests that captures made. */
  ghost predicate TrueSizes(left: seq<SnapshotFile>, right: seq<SnapshotFile>) {
    forall f, g :: f in left && g in right && f.hash == g.hash ==> f.size == g.size
  }

  ghost predicate Recovered(saves: Saves, origins: seq<Origin>, now: Saves) {
    forall q :: q in origins ==> q.file in saves && q.file in now && now[q.file] == saves[q.file]
  }

  /** Whatever was restored since, restoring the rollback snapshot gives every captured file its bytes. */
  ghost predicate AlwaysRecovers(codec: Codec, paths: seq<GamePath>, saves: Saves, rollback: Snapshot, origins: seq<Origin>) {
    forall between, now :: Restored(codec, paths, rollback.files, between, now) ==> Recovered(saves, origins, now)
  }

  /** The two places that an entry can go to, by its flag. */
  lemma PlacesOf(codec: Codec, p: GamePath, file: FilePath, content: Bytes, resolved: FilePath, flag: bool)
    requires p.resolved <= file && file != [] && PlainComponents(file)
    ensures RestoreDestination(resolved, ManifestEntry(codec, p, file, content).(rootFile := flag)) ==
            Some(if flag then resolved else resolved + Relative(p.resolved, file))
  {
    var parts := Relative(p.resolved, file);
    if file == p.resolved {
      PlainPart(file, |file| - 1);
    } else {
      PlainPart(file, |p.resolved|);
    }
    Text.SplitOfJoin(parts, '/');
    CleanOfPlain([], parts);
    JoinStartsPlain(parts);
    assert [] + parts == parts && parts[0] in parts;
  }

  /** An entry with the key of a captured one goes to the location's root or to the captured place below it. */
  lemma PartnerGoes(codec: Codec, paths: seq<GamePath>, saves: Saves, files: seq<SnapshotFile>, origins: seq<Origin>, j: nat, f: SnapshotFile)
    requires codec.TellsApart() && DistinctSources(paths) && Lists(codec, paths, saves, files, origins) && Usable(paths, origins) && j < |files|
    requires KeyPair(f) == KeyPair(files[j])
    ensures |origins| == |files|
    ensures var q := origins[j];
            var r := paths[q.location].resolved;
            r <= q.file && q.file != []
            && DestinationOf(codec, paths, f) == Some(if f.rootFile then r else r + Relative(r, q.file))
            && (files[j].rootFile <==> q.file == r)
  {
    var q := origins[j];
    assert q in origins;
    SourceFound(codec, paths, q.location);
    PlacesOf(codec, paths[q.location], q.file, saves[q.file], paths[q.location].resolved, f.rootFile);
    var entry := ManifestEntry(codec, paths[q.location], q.file, saves[q.file]).(rootFile := f.rootFile);
    assert f.sourceKey == entry.sourceKey && f.path == entry.path;
    assert RestoreDestination(paths[q.location].resolved, f) == RestoreDestination(paths[q.location].resolved, entry);
  }

  /** Two prefixes of one file are comparable, so non-overlapping locations never share a file. */
  lemma OneLocation(paths: seq<GamePath>, i: nat, j: nat, file: FilePath)
    requires NonOverlapping(paths) && i < |paths| && j < |paths| && paths[i].enabled && paths[j].enabled
    requires paths[i].resolved <= file && paths[j].resolved <= file
    ensures i == j
  {
    var a, b := paths[i].resolved, paths[j].resolved;
    assert |a| <= |b| ==> a == b[..|a|];
    assert |b| <= |a| ==> b == a[..|b|];
    assert a <= b || b <= a;
  }

  /** When the flags of a captured file and its partner differ, nothing in the rollback snapshot goes to that file. */
  lemma NothingGoesThere(codec: Codec, paths: seq<GamePath>, saves: Saves, rollback: Snapshot, made: Snapshot, origins: seq<Origin>,
                         j: nat, f: SnapshotFile, k: nat)
    requires codec.TellsApart() && DistinctSources(paths) && NonOverlapping(paths)
    requires Lists(codec, paths, saves, made.files, origins) && Usable(paths, origins)
    requires Paired(rollback, made) && DistinctKeys(rollback.files)
    requires j < |made.files| && f in rollback.files && KeyPair(f) == KeyPair(made.files[j]) && f.rootFile != made.files[j].rootFile
    requires k < |rollback.files|
    ensures |origins| == |made.files| && DestinationOf(codec, paths, rollback.files[k]) != Some(origins[j].file)
    ensures DestinationOf(codec, paths, rollback.files[k]).Some?
  {
    hide DestinationOf, DistinctSources, Codec.TellsApart, HasPartner, SourceKey, PlainComponents;
    var f2 := rollback.files[k];
    assert f2 in rollback.files;
    var j2 := PartnerOf(made.files, f2);
    PartnerGoes(codec, paths, saves, made.files, origins, j2, f2);
    PartnerGoes(codec, paths, saves, made.files, origins, j, f);
    var q, q2 := origins[j], origins[j2];
    assert q in origins && q2 in origins;
    var r, r2 := paths[q.location].resolved, paths[q2.location].resolved;
    assert IsAt(saves, r, q.file) && IsAt(saves, r2, q2.file);
    if r2 <= q.file {
      OneLocation(paths, q.location, q2.location, q.file);
    }
    SameFlagSameFile(codec, paths, saves, rollback, made, origins, j, f, k, j2);
  }

  lemma SameFlagSameFile(codec: Codec, paths: seq<GamePath>, saves: Saves, rollback: Snapshot, made: Snapshot, origins: seq<Origin>,
                         j: nat, f: SnapshotFile, k: nat, j2: nat)
    requires |origins| == |made.files|
    requires j < |made.files| && f in rollback.files && KeyPair(f) == KeyPair(made.files[j]) && f.rootFile != made.files[j].rootFile
    requires k < |rollback.files| && j2 < |made.files| && KeyPair(made.files[j2]) == KeyPair(rollback.files[k])
    requires DistinctKeys(rollback.files)
    ensures j == j2 ==> rollback.files[k] == f
  {
    if j == j2 {
      var i :| 0 <= i < |rollback.files| && rollback.files[i] == f;
      assert KeyPair(rollback.files[i]) == KeyPair(rollback.files[k]);
    }
  }

  // ----- Files that the rollback snapshot restores from nothing -----

  ghost predicate HasContent(codec: Codec, f: SnapshotFile) {
    exists content :: IsContentOf(codec, content, f)
  }

  ghost function ContentFor(codec: Codec, f: SnapshotFile): (content: Bytes)
    requires HasContent(codec, f)
    ensures IsContentOf(codec, content, f)
  {
    var content :| IsContentOf(codec, content, f);
    content
  }

  function Destinations(codec: Codec, paths: seq<GamePath>, files: seq<SnapshotFile>): set<FilePath> {
    set i | 0 <= i < |files| && DestinationOf(codec, paths, files[i]).Some? :: DestinationOf(codec, paths, files[i]).value
  }

  /** The files after a restore into an empty file system. */
  ghost function FromNothing(codec: Codec, paths: seq<GamePath>, files: seq<SnapshotFile>): Saves
    requires forall f :: f in files ==> HasContent(codec, f)
  {
    map p | p in Destinations(codec, paths, files) && LastAt(codec, paths, files, |files|, p) >= 0 ::
      ContentFor(codec, files[LastAt(codec, paths, files, |files|, p)])
  }

  lemma FromNothingIsRestored(codec: Codec, paths: seq<GamePath>, files: seq<SnapshotFile>)
    requires forall f :: f in files ==> HasContent(codec, f)
    requires forall i :: 0 <= i < |files| ==> DestinationOf(codec, paths, files[i]).Some?
    ensures Restored(codec, paths, files, map[], FromNothing(codec, paths, files))
  {
    hide DestinationOf, IsContentOf, HasContent;
    var now := FromNothing(codec, paths, files);
    forall p
      ensures RestoredAt(codec, paths, files, map[], now, p)
    {
      var i := LastAt(codec, paths, files, |files|, p);
      if i >= 0 {
        assert DestinationOf(codec, paths, files[i]) == Some(p);
        assert p in Destinations(codec, paths, files);
      }
    }
  }

  lemma RollbackHasContent(codec: Codec, paths: seq<GamePath>, saves: Saves, rollback: Snapshot, made: Snapshot, origins: seq<Origin>)
    requires Lists(codec, paths, saves, made.files, origins)
    requires Paired(rollback, made) && TrueSizes(rollback.files, made.files)
    ensures forall f :: f in rollback.files ==> HasContent(codec, f)
  {
    hide HasPartner;
    forall f | f in rollback.files
      ensures HasContent(codec, f)
    {
      var j := PartnerOf(made.files, f);
      assert made.files[j] in made.files;
      assert IsContentOf(codec, saves[origins[j].file], f);
    }
  }

  lemma RollbackFacts(codec: Codec, paths: seq<GamePath>, saves: Saves, excluded: FilePath -> bool,
                      rollback: Snapshot, made: Snapshot, origins: seq<Origin>)
    requires codec.TellsApart() && DistinctSources(paths)
    requires RollbackOf(codec, paths, saves, excluded, rollback, made, origins) && Usable(paths, origins)
    requires Proper(made.files) && Proper(rollback.files)
    ensures Lists(codec, paths, saves, made.files, origins) && Paired(rollback, made) && DistinctKeys(rollback.files)
  {
    CapturedKeysDistinct(codec, paths, saves, made.files, origins);
    PartnersOf(rollback, made);
    if rollback != made {
      FileRuleIsEquality(rollback.files, made.files);
    }
  }

  lemma DifferingPair(left: seq<SnapshotFile>, right: seq<SnapshotFile>) returns (f: SnapshotFile, j: nat)
    requires !SameRootFlags(left, right)
    ensures j < |right| && f in left && KeyPair(f) == KeyPair(right[j]) && f.rootFile != right[j].rootFile
  {
    var g;
    f, g :| f in left && g in right && KeyPair(f) == KeyPair(g) && f.rootFile != g.rootFile;
    j :| 0 <= j < |right| && right[j] == g;
  }

  /** A rollback snapshot with a differing flag misses a captured file. */
  lemma DifferentFlagMisses(codec: Codec, paths: seq<GamePath>, saves: Saves, rollback: Snapshot, made: Snapshot, origins: seq<Origin>)
    requires codec.TellsApart() && DistinctSources(paths) && NonOverlapping(paths)
    requires Lists(codec, paths, saves, made.files, origins) && Usable(paths, origins)
    requires Paired(rollback, made) && DistinctKeys(rollback.files) && TrueSizes(rollback.files, made.files)
    requires !SameRootFlags(rollback.files, made.files)
    ensures !AlwaysRecovers(codec, paths, saves, rollback, origins)
  {
    RollbackHasContent(codec, paths, saves, rollback, made, origins);
    var f, j := DifferingPair(rollback.files, made.files);
    assert |origins| == |made.files|;
    hide DistinctSources, Codec.TellsApart, NonOverlapping, Usable, TrueSizes, SameRootFlags, Paired, DestinationOf, SourceKey,
      FromNothing, Restored, DistinctKeys, HasContent, Lists;
    forall k | 0 <= k < |rollback.files|
      ensures DestinationOf(codec, paths, rollback.files[k]).Some?
      ensures DestinationOf(codec, paths, rollback.files[k]) != Some(origins[j].file)
    {
      NothingGoesThere(codec, paths, saves, rollback, made, origins, j, f, k);
    }
    FromNothingIsRestored(codec, paths, rollback.files);
    NotRestored(codec, paths, rollback.files, origins[j].file);
    assert origins[j] in origins && !Recovered(saves, origins, FromNothing(codec, paths, rollback.files));
  }

  lemma NotRestored(codec: Codec, paths: seq<GamePath>, files: seq<SnapshotFile>, p: FilePath)
    requires forall f :: f in files ==> HasContent(codec, f)
    requires forall k :: 0 <= k < |files| ==> DestinationOf(codec, paths, files[k]) != Some(p)
    ensures p !in FromNothing(codec, paths, files)
  {
    hide DestinationOf, HasContent;
  }

  /**
   Restore can be undone, exactly: over locations that do not overlap, restoring
   the rollback snapshot always gives every captured file its earlier bytes if
   and only if its root-file flags are those of the capture that it stands for.
   */
  lemma RecoversExactlyWithSameFlags(codec: Codec, paths: seq<GamePath>, saves: Saves, excluded: FilePath -> bool,
                                     rollback: Snapshot, made: Snapshot, origins: seq<Origin>)
    requires codec.CollisionFree() && codec.TellsApart() && DistinctSources(paths) && NonOverlapping(paths)
    requires RollbackOf(codec, paths, saves, excluded, rollback, made, origins) && Usable(paths, origins)
    requires Proper(made.files) && Proper(rollback.files) && TrueSizes(rollback.files, made.files)
    ensures AlwaysRecovers(codec, paths, saves, rollback, origins) <==> SameRootFlags(rollback.files, made.files)
  {
    if SameRootFlags(rollback.files, made.files) {
      hide Restored, RollbackOf, DistinctSources, Codec.TellsApart, NonOverlapping, Usable, Proper, TrueSizes, SameRootFlags, Codec.CollisionFree;
      forall between, now | Restored(codec, paths, rollback.files, between, now)
        ensures Recovered(saves, origins, now)
      {
        RollbackRecovers(codec, paths, saves, excluded, rollback, made, origins, between, now);
      }
    } else {
      RollbackFacts(codec, paths, saves, excluded, rollback, made, origins);
      DifferentFlagMisses(codec, paths, saves, rollback, made, origins);
    }
  }

  /**
   The input: the location was a file when the older snapshot was taken and is a
   directory now, holding one file of that name with the same bytes.  The create
   says that nothing changed, and once the directory is gone the older snapshot
   brings back the file instead of what was in the directory.
   */
  lemma FileBecameDirectory(codec: Codec, bytes: Bytes, gameID: string, metadata: Metadata)
    ensures
      var p := GamePath("source", "template", ["saves", "slot"], true);
      var entry := (flag: bool) => SnapshotFile(SourceKey(codec, p), "slot", flag, codec.sha(bytes), |bytes|);
      var rollback := Snapshot("1", gameID, 0, [entry(true)], None, metadata, true);
      var made := Snapshot("2", gameID, 1, [entry(false)], None, metadata, false);
      var saves := map[["saves", "slot", "slot"] := bytes];
      && Captures(codec, [p], saves, _ => false, made.files, [Origin(0, ["saves", "slot", "slot"])])
      && SameRule(rollback, made)
      && Restored(codec, [p], rollback.files, map[], map[["saves", "slot"] := bytes])
  {
    var p := GamePath("source", "template", ["saves", "slot"], true);
    var file := ["saves", "slot", "slot"];
    var saves: Saves := map[file := bytes];
    var wanted := SnapshotFile(SourceKey(codec, p), "slot", true, codec.sha(bytes), |bytes|);
    assert file[|p.resolved|..] == ["slot"] && p.resolved == file[..2];
    assert ManifestEntry(codec, p, file, bytes) == wanted.(rootFile := false);
    assert forall q :: q in [Origin(0, file)] <==> Selected([p], saves, _ => false, q);
    assert [wanted][..0] == [] && HashAt([wanted], FileKey(wanted)) == wanted.hash;
    assert DestinationOf(codec, [p], wanted) == Some(p.resolved) by {
      assert SourceIndex(codec, [p], 1, wanted.sourceKey) == 0;
    }
    forall x
      ensures RestoredAt(codec, [p], [wanted], map[], map[p.resolved := bytes], x)
    {
      assert LastAt(codec, [p], [wanted], 1, x) == if x == p.resolved then 0 else -1;
    }
  }
}
