/**
 Taking a snapshot: every selected save file is compressed into the blob store,
 indexed, and listed in a manifest.
 */
module Capture {
  import opened Files
  import opened Snapshots
  import opened BlobStore
  import opened Artifacts
  import opened SnapshotContents
  import Text

  /** A path in the game's own file system, by components, and that file system. */
  type FilePath = seq<string>
  type Saves = map<FilePath, Bytes>

  datatype GamePath = GamePath(source: string, template: string, resolved: FilePath, enabled: bool)

  /** A selected file: which save location it was found under, and where. */
  datatype Origin = Origin(location: nat, file: FilePath)

  /** The digest of source and template, joined by a NUL. */
  function SourceKey(codec: Codec, p: GamePath): string {
    codec.locationKey(p.source + "\0" + p.template)
  }

  /** The files at a save location: the file itself, or everything below the directory. */
  predicate IsAt(saves: Saves, resolved: FilePath, file: FilePath) {
    file in saves && if resolved in saves then file == resolved else resolved < file
  }

  function Relative(resolved: FilePath, file: FilePath): seq<string>
    requires resolved <= file
  {
    if file == resolved then (if file == [] then [] else file[|file| - 1..]) else file[|resolved|..]
  }

  /** Components that a file system allows. */
  predicate PlainComponents(parts: seq<string>) {
    forall p :: p in parts ==> p != "" && p != "." && p != ".." && '/' !in p
  }

  function ManifestEntry(codec: Codec, p: GamePath, file: FilePath, content: Bytes): SnapshotFile
    requires p.resolved <= file && file != []
  {
    SnapshotFile(SourceKey(codec, p), Text.Join(Relative(p.resolved, file), '/'), file == p.resolved, codec.sha(content), |content|)
  }

  predicate Selected(paths: seq<GamePath>, saves: Saves, excluded: FilePath -> bool, o: Origin) {
    && o.location < |paths| && paths[o.location].enabled
    && o.file != [] && IsAt(saves, paths[o.location].resolved, o.file)
    && !excluded(o.file)
  }

  /** Each manifest entry is that of the origin at its position, and no origin occurs twice. */
  ghost predicate Lists(codec: Codec, paths: seq<GamePath>, saves: Saves, files: seq<SnapshotFile>, origins: seq<Origin>) {
    && |files| == |origins|
    && (forall j :: 0 <= j < |files| ==>
          && origins[j].location < |paths| && IsAt(saves, paths[origins[j].location].resolved, origins[j].file)
          && origins[j].file != []
          && files[j] == ManifestEntry(codec, paths[origins[j].location], origins[j].file, saves[origins[j].file]))
    && (forall i, j :: 0 <= i < j < |origins| ==> origins[i] != origins[j])
  }

  datatype StoredBlob = StoredBlob(hash: Hash, path: Path, size: nat)

  /**
   Compresses one file into the store.  The blob appears under its final name in
   one rename; a file that is there already is trusted for its name.
   */
  method StoreFile(s: Store, root: Dir, content: Bytes) returns (o: Outcome, stored: StoredBlob)
    requires s.Valid() && s.codec.Lossless()
    modifies s`disk, s`faults
    ensures s.Valid() && KeepsBlobFiles(old(s.disk), s.disk)
    ensures stored == StoredBlob(s.codec.sha(content), BlobPath(root, s.codec.sha(content)), |content|)
    ensures o.Done? ==> s.disk.Has(stored.path)
    ensures s.faults >= old(s.faults) && (o.Failed? ==> s.faults > old(s.faults))
  {
    hide RefsExact, BlobsNamed, JournalNamed, Canonical, SizesTrue;
    var h := s.codec.sha(content);
    var destination := BlobPath(root, h);
    stored := StoredBlob(h, destination, |content|);
    var id: Id := *;
    var temporary := TempPath(root, id);
    if s.disk.Has(temporary) {
      // no new name was found
      s.faults := s.faults + 1;
      return Failed, stored;
    }
    var torn: Bytes := *;
    s.disk := s.disk.Put(temporary, torn);
    if * {
      return Crashed, stored;
    }
    s.disk := s.disk.Put(temporary, s.codec.pack(content));
    if * {
      return Crashed, stored;
    }
    if * {
      s.faults := s.faults + 1;
      // the save file changed while it was read, or could not be read
      var _ := RemoveTemporary(s, temporary);
      return Failed, stored;
    }
    if s.disk.Has(destination) {
      var removed := RemoveTemporary(s, temporary);
      return if removed then Done else Failed, stored;
    }
    if * {
      s.faults := s.faults + 1;
      var _ := RemoveTemporary(s, temporary);
      return Failed, stored;
    }
    assert s.codec.unpack(s.codec.pack(content)) == Some(content);
    s.disk := s.disk.Move(temporary, destination);
    if * {
      s.faults := s.faults + 1;
      return Failed, stored;
    }
    return Done, stored;
  }

  method RemoveTemporary(s: Store, temporary: Path) returns (removed: bool)
    requires s.Valid() && temporary.name.TempName?
    modifies s`disk, s`faults
    ensures s.Valid() && KeepsBlobFiles(old(s.disk), s.disk)
    ensures s.disk == if removed then old(s.disk).Unlink(temporary) else old(s.disk)
    ensures s.faults == old(s.faults) + if removed then 0 else 1
  {
    if * {
      s.faults := s.faults + 1;
      return false;
    }
    s.disk := s.disk.Unlink(temporary);
    return true;
  }

  /** Stores and indexes one content; what was present stays present. */
  method StoreAndIndex(s: Store, root: Dir, content: Bytes, ghost needed: set<Hash>) returns (o: Outcome, stored: StoredBlob)
    requires s.Valid() && s.codec.Lossless() && AllPresent(s.disk, s.blobs, needed)
    modifies s`disk, s`blobs, s`history, s`faults
    ensures s.Valid() && AllPresent(s.disk, s.blobs, needed)
    ensures stored == StoredBlob(s.codec.sha(content), BlobPath(root, s.codec.sha(content)), |content|)
    ensures o.Done? ==> AllPresent(s.disk, s.blobs, needed + {stored.hash})
    ensures o.Done? ==> Indexed(old(s.blobs), s.blobs, stored)
    ensures s.faults >= old(s.faults) && (o.Failed? ==> s.faults > old(s.faults))
  {
    hide RefsExact, JournalNamed, Trusted, Canonical, SizesTrue;
    ghost var d := s.disk;
    o, stored := StoreFile(s, root, content);
    BlobFilesKeepPresent(d, s.disk, s.blobs, needed);
    if o.Done? {
      ContentShowsSize(s.codec, content);
      o := SaveStored(s, stored);
    }
  }

  lemma BlobFilesKeepPresent(d: Disk, d': Disk, blobs: map<Hash, BlobRow>, needed: set<Hash>)
    requires KeepsBlobFiles(d, d') && BlobsNamed(blobs) && AllPresent(d, blobs, needed)
    ensures AllPresent(d', blobs, needed)
  {
    forall h | h in needed
      ensures d'.Has(blobs[h].path)
    {
      assert d.At(blobs[h].path).name == BlobName(h);
    }
  }

  /** The row of the stored blob says where it is and how long its content is, and keeps an upload mark; no other row changed. */
  ghost predicate Indexed(blobs: map<Hash, BlobRow>, blobs': map<Hash, BlobRow>, stored: StoredBlob) {
    blobs' == blobs[stored.hash := RowFor(blobs, stored.hash, stored.path, stored.size)]
  }

  method SaveStored(s: Store, stored: StoredBlob) returns (o: Outcome)
    requires s.Valid() && stored.path.name == BlobName(stored.hash) && TrueSize(s.codec, stored.hash, stored.size)
    modifies s`blobs, s`history, s`faults
    ensures s.Valid()
    ensures s.blobs == old(s.blobs) || Indexed(old(s.blobs), s.blobs, stored)
    ensures o.Done? ==> Indexed(old(s.blobs), s.blobs, stored)
    ensures s.faults >= old(s.faults) && (o.Failed? ==> s.faults > old(s.faults))
  {
    if * {
      return Crashed;
    }
    o := s.SaveBlob(stored.hash, stored.path, stored.size);
    if * {
      return Crashed;
    }
  }

  /** The hashes of the entries listed so far. */
  function HashesIn(files: seq<SnapshotFile>): set<Hash> {
    set f | f in files :: f.hash
  }

  /** Adds every selected file of one save location to the manifest. */
  method AddPath(s: Store, root: Dir, paths: seq<GamePath>, location: nat, saves: Saves, excluded: FilePath -> bool,
                 before: seq<SnapshotFile>, ghost origins0: seq<Origin>, ghost needed: set<Hash>)
    returns (o: Outcome, files: seq<SnapshotFile>, ghost origins: seq<Origin>)
    requires s.Valid() && s.codec.Lossless() && AllPresent(s.disk, s.blobs, needed + HashesIn(before))
    requires location < |paths| && paths[location].enabled
    requires Lists(s.codec, paths, saves, before, origins0)
    requires forall q :: q in origins0 ==> q.location < location && Selected(paths, saves, excluded, q)
    modifies s`disk, s`blobs, s`history, s`faults
    ensures s.Valid() && AllPresent(s.disk, s.blobs, needed + HashesIn(files))
    ensures Lists(s.codec, paths, saves, files, origins)
    ensures forall q :: q in origins ==> q in origins0 || (q.location == location && Selected(paths, saves, excluded, q))
    ensures forall q :: q in origins0 ==> q in origins
    ensures o.Done? ==> forall f :: Selected(paths, saves, excluded, Origin(location, f)) ==> Origin(location, f) in origins
    ensures s.faults >= old(s.faults) && (o.Failed? ==> s.faults > old(s.faults))
  {
    hide RefsExact, JournalNamed, Trusted, BlobsNamed, AllPresent, Lists, HashesIn, Disk.Valid, Canonical, SizesTrue, Indexed;
    files, origins := before, origins0;
    var p := paths[location];
    if * {
      s.faults := s.faults + 1;
      return Failed, files, origins;
    }
    var todo := set f | f in saves && IsAt(saves, p.resolved, f) && f != [];
    while todo != {}
      invariant s.Valid() && AllPresent(s.disk, s.blobs, needed + HashesIn(files)) && s.faults >= old(s.faults)
      invariant forall f :: f in todo ==> IsAt(saves, p.resolved, f) && f != [] && Origin(location, f) !in origins
      invariant Lists(s.codec, paths, saves, files, origins)
      invariant forall q :: q in origins ==> q in origins0 || (q.location == location && Selected(paths, saves, excluded, q))
      invariant forall q :: q in origins0 ==> q in origins
      invariant forall f :: Selected(paths, saves, excluded, Origin(location, f)) ==> f in todo || Origin(location, f) in origins
      decreases todo
    {
      var f :| f in todo;
      todo := todo - {f};
      if !excluded(f) {
        var stored;
        o, stored := StoreAndIndex(s, root, saves[f], needed + HashesIn(files));
        if !o.Done? {
          return o, files, origins;
        }
        var entry := ManifestEntry(s.codec, p, f, saves[f]);
        ListsMore(s.codec, paths, saves, files, origins, entry, Origin(location, f));
        assert (needed + HashesIn(files)) + {stored.hash} == needed + (HashesIn(files) + {entry.hash});
        files, origins := files + [entry], origins + [Origin(location, f)];
      }
    }
    o := Done;
  }

  lemma ListsMore(codec: Codec, paths: seq<GamePath>, saves: Saves, files: seq<SnapshotFile>, origins: seq<Origin>,
                  entry: SnapshotFile, q: Origin)
    requires Lists(codec, paths, saves, files, origins) && q !in origins
    requires q.location < |paths| && IsAt(saves, paths[q.location].resolved, q.file) && q.file != []
    requires entry == ManifestEntry(codec, paths[q.location], q.file, saves[q.file])
    ensures Lists(codec, paths, saves, files + [entry], origins + [q])
    ensures HashesIn(files + [entry]) == HashesIn(files) + {entry.hash}
  {
    assert forall f :: f in files + [entry] <==> f in files || f == entry;
  }

  /** ORDER BY created_at DESC LIMIT 1 */
  ghost predicate IsLatest(snapshots: map<string, Snapshot>, gameID: string, latest: Option<Snapshot>) {
    match latest
    case None => forall id :: id in snapshots ==> snapshots[id].gameID != gameID
    case Some(s) =>
      && (exists id :: id in snapshots && snapshots[id] == s && s.gameID == gameID)
      && forall id :: id in snapshots && snapshots[id].gameID == gameID ==> snapshots[id].createdAt <= s.createdAt
  }

  method LatestSnapshot(snapshots: map<string, Snapshot>, gameID: string) returns (latest: Option<Snapshot>)
    ensures IsLatest(snapshots, gameID, latest)
  {
    latest := None;
    var todo := snapshots.Keys;
    while todo != {}
      invariant todo <= snapshots.Keys
      invariant latest.Some? ==> exists id :: id in snapshots && snapshots[id] == latest.value && latest.value.gameID == gameID
      invariant forall id :: id in snapshots && id !in todo && snapshots[id].gameID == gameID ==>
        latest.Some? && snapshots[id].createdAt <= latest.value.createdAt
      decreases todo
    {
      var id :| id in todo;
      todo := todo - {id};
      if snapshots[id].gameID == gameID && (latest.None? || latest.value.createdAt < snapshots[id].createdAt) {
        latest := Some(snapshots[id]);
      }
    }
  }

  datatype CreateResult = Created | NoFiles | Unchanged(latest: Snapshot) | CreateFailed | CreateCrashed

  /** The manifest shows exactly the selected files, each once, with the content it had. */
  ghost predicate Captures(codec: Codec, paths: seq<GamePath>, saves: Saves, excluded: FilePath -> bool,
                           files: seq<SnapshotFile>, origins: seq<Origin>) {
    && Lists(codec, paths, saves, files, origins)
    && forall q :: q in origins <==> Selected(paths, saves, excluded, q)
  }

  ghost predicate CapturesRegistry(codec: Codec, registry: Option<(seq<string>, Bytes)>, part: Option<RegistryPart>) {
    match registry
    case None => part == None
    case Some((keys, data)) => part == Some(RegistryPart(keys, codec.sha(data), |data|))
  }

  /** Stores every selected file of every enabled location. */
  method AddPaths(s: Store, root: Dir, paths: seq<GamePath>, saves: Saves, excluded: FilePath -> bool,
                  ghost needed: set<Hash>)
    returns (o: Outcome, files: seq<SnapshotFile>, ghost origins: seq<Origin>)
    requires s.Valid() && s.codec.Lossless() && AllPresent(s.disk, s.blobs, needed)
    modifies s`disk, s`blobs, s`history, s`faults
    ensures s.Valid() && AllPresent(s.disk, s.blobs, needed + HashesIn(files))
    ensures o.Done? ==> Captures(s.codec, paths, saves, excluded, files, origins)
    ensures s.faults >= old(s.faults) && (o.Failed? ==> s.faults > old(s.faults))
  {
    hide RefsExact, JournalNamed, Trusted, BlobsNamed, AllPresent, Disk.Valid, Canonical, SizesTrue;
    files, origins := [], [];
    assert needed + HashesIn(files) == needed;
    for location := 0 to |paths|
      invariant s.Valid() && AllPresent(s.disk, s.blobs, needed + HashesIn(files)) && s.faults >= old(s.faults)
      invariant Lists(s.codec, paths, saves, files, origins)
      invariant forall q :: q in origins <==> q.location < location && Selected(paths, saves, excluded, q)
    {
      if paths[location].enabled {
        ghost var before := origins;
        o, files, origins := AddPath(s, root, paths, location, saves, excluded, files, origins, needed);
        if !o.Done? {
          return;
        }
        forall q: Origin | q.location == location && Selected(paths, saves, excluded, q)
          ensures q in origins
        {
          assert q == Origin(location, q.file);
        }
      }
    }
    o := Done;
  }

  /** The hashes that are indexed at files. */
  ghost function PresentBlobs(d: Disk, blobs: map<Hash, BlobRow>): set<Hash> {
    set h | h in blobs && d.Has(blobs[h].path)
  }

  lemma NeededArePresent(d: Disk, blobs: map<Hash, BlobRow>, needed: set<Hash>)
    requires AllPresent(d, blobs, needed)
    ensures needed <= PresentBlobs(d, blobs) && AllPresent(d, blobs, PresentBlobs(d, blobs))
  {
  }

  /** The latest snapshot of the game, if there is one, has other contents. */
  ghost predicate IsNew(snapshots: map<string, Snapshot>, made: Snapshot) {
    exists latest :: IsLatest(snapshots, made.gameID, latest) && (latest.Some? ==> !SameRule(latest.value, made))
  }

  /**
   Takes a snapshot of a game.  Nothing is saved when nothing was found or when
   the latest snapshot has the same contents.
   */
  method Create(s: Store, root: Dir, id: string, gameID: string, metadata: Metadata, now: int, paths: seq<GamePath>,
                saves: Saves, excluded: FilePath -> bool, registry: Option<(seq<string>, Bytes)>)
    returns (r: CreateResult, made: Snapshot, ghost origins: seq<Origin>)
    requires s.Safe() && s.codec.Lossless()
    modifies s`disk, s`blobs, s`snapshots, s`refs, s`created, s`history, s`faults
    ensures s.Safe()
    ensures r.Created? || r.Unchanged? || r.NoFiles? ==>
      && Captures(s.codec, paths, saves, excluded, made.files, origins)
      && CapturesRegistry(s.codec, registry, made.registry)
      && AllPresent(s.disk, s.blobs, HashesOf(made))
      && made.id == id && made.gameID == gameID && made.createdAt == now && made.metadata == metadata && !made.synced
    ensures r.Created? ==> s.snapshots == old(s.snapshots)[id := made] && s.created == old(s.created) + {id}
    ensures !r.Created? && !r.CreateCrashed? ==> s.snapshots == old(s.snapshots) && s.created == old(s.created)
    ensures s.snapshots == old(s.snapshots) || s.snapshots == old(s.snapshots)[id := made]
    ensures AllPresent(s.disk, s.blobs, PresentBlobs(old(s.disk), old(s.blobs)))
    ensures r.NoFiles? ==> made.files == [] && made.registry == None
    // what is saved is neither empty nor like the latest snapshot, and only a failed operation or a stored id prevents an answer
    ensures r.Created? ==> (made.files != [] || made.registry.Some?) && IsNew(old(s.snapshots), made)
    ensures s.faults >= old(s.faults) && (r.CreateFailed? && id !in old(s.snapshots) ==> s.faults > old(s.faults))
    ensures r.Unchanged? ==> IsLatest(old(s.snapshots), gameID, Some(r.latest)) && SameRule(r.latest, made)
  {
    hide RefsExact, JournalNamed, Trusted, BlobsNamed, AllPresent, Disk.Valid, Needed, Captures, SameRule, IsLatest, Canonical, SizesTrue, PresentBlobs;
    made := Snapshot(id, gameID, now, [], None, metadata, false);
    ghost var needed := PresentBlobs(s.disk, s.blobs);
    NeededArePresent(s.disk, s.blobs, Needed(s.snapshots, s.created));
    var o, files;
    o, files, origins := AddPaths(s, root, paths, saves, excluded, needed);
    made := made.(files := files);
    assert needed + HashesIn(files) == needed + HashesOf(made);
    if o.Done? && registry.Some? {
      o, made := AddRegistry(s, root, registry.value, made, needed);
    }
    PresentParts(s.disk, s.blobs, needed, HashesOf(made));
    PresentSome(s.disk, s.blobs, needed, Needed(s.snapshots, s.created));
    if !o.Done? {
      return if o.Crashed? then CreateCrashed else CreateFailed, made, origins;
    }
    if made.files == [] && made.registry == None {
      return NoFiles, made, origins;
    }
    if * {
      s.faults := s.faults + 1;
      return CreateFailed, made, origins;
    }
    var latest := LatestSnapshot(s.snapshots, gameID);
    if latest.Some? {
      var same := SameContents(latest.value, made);
      if same {
        return Unchanged(latest.value), made, origins;
      }
    }
    if id !in s.snapshots {
      NeededWith(s.snapshots, s.created, made);
    }
    o := s.SaveSnapshot(made);
    PresentTogether(s.disk, s.blobs, needed, HashesOf(made));
    if * {
      return CreateCrashed, made, origins;
    }
    r := if o.Done? then Created else CreateFailed;
  }

  /** Stores the registry document, when the game has registry rules. */
  method AddRegistry(s: Store, root: Dir, registry: (seq<string>, Bytes), before: Snapshot, ghost needed: set<Hash>)
    returns (o: Outcome, made: Snapshot)
    requires s.Valid() && s.codec.Lossless() && before.registry == None
    requires AllPresent(s.disk, s.blobs, needed + HashesIn(before.files))
    modifies s`disk, s`blobs, s`history, s`faults
    ensures s.Valid() && AllPresent(s.disk, s.blobs, needed + HashesOf(made))
    ensures o.Done? ==> made == before.(registry := Some(RegistryPart(registry.0, s.codec.sha(registry.1), |registry.1|)))
    ensures !o.Done? ==> made == before
    ensures s.faults >= old(s.faults) && (o.Failed? ==> s.faults > old(s.faults))
  {
    hide RefsExact, JournalNamed, Trusted, BlobsNamed, AllPresent, Disk.Valid, Canonical, SizesTrue, Indexed;
    made := before;
    var stored;
    o, stored := StoreAndIndex(s, root, registry.1, needed + HashesIn(before.files));
    assert needed + HashesIn(before.files) == needed + HashesOf(before);
    if o.Done? {
      made := before.(registry := Some(RegistryPart(registry.0, stored.hash, stored.size)));
      assert needed + HashesIn(before.files) + {stored.hash} == needed + HashesOf(made);
    }
  }

  lemma PresentParts(d: Disk, blobs: map<Hash, BlobRow>, a: set<Hash>, b: set<Hash>)
    ensures AllPresent(d, blobs, a + b) ==> AllPresent(d, blobs, a) && AllPresent(d, blobs, b)
  {
  }

  lemma PresentSome(d: Disk, blobs: map<Hash, BlobRow>, all: set<Hash>, some: set<Hash>)
    requires some <= all && AllPresent(d, blobs, all)
    ensures AllPresent(d, blobs, some)
  {
  }

  lemma PresentTogether(d: Disk, blobs: map<Hash, BlobRow>, a: set<Hash>, b: set<Hash>)
    requires AllPresent(d, blobs, a) && AllPresent(d, blobs, b)
    ensures AllPresent(d, blobs, a + b)
    ensures forall c :: c <= a + b ==> AllPresent(d, blobs, c)
  {
  }

  /** Saving one more snapshot adds at most its own hashes to what is needed. */
  lemma NeededWith(snapshots: map<string, Snapshot>, created: set<string>, made: Snapshot)
    requires made.id !in snapshots
    ensures Needed(snapshots[made.id := made], created + {made.id}) <= Needed(snapshots, created) + HashesOf(made)
  {
  }
}
