/**
 From the save files of one device to those of another: capture, upload, import,
 download and restore, with other devices at work on the bucket in between.
 */
module EndToEnd {
  import opened Files
  import opened Snapshots
  import opened BlobStore
  import opened SnapshotContents
  import opened Capture
  import opened Download
  import opened Reconciliation
  import opened RestoreTransaction
  import opened Restore
  import opened RestoreFiles
  import opened RestoreUndo
  import opened RollbackFlags
  import P = Publication
  import R = Registry
  import Text

  /** A device's blob root and its save locations of the game. */
  datatype Site = Site(root: Dir, paths: seq<GamePath>, excluded: FilePath -> bool)

  // ----- Destinations -----

  /** Distinct source keys on both devices and locations apart on the second send different captured files to different places. */
  lemma ApartLocationsAgree(codec: Codec, there: seq<GamePath>, captured: Saves, files: seq<SnapshotFile>, origins: seq<Origin>,
                            here: seq<GamePath>)
    requires Lists(codec, there, captured, files, origins) && Usable(there, origins)
    requires codec.TellsApart() && DistinctSources(there) && DistinctSources(here) && NonOverlapping(here)
    requires forall j :: 0 <= j < |files| ==> DestinationOf(codec, here, files[j]).Some?
    ensures AgreeOnDestinations(codec, here, files)
  {
    hide DistinctSources, NonOverlapping, SourceKey, PlainComponents, RestoreDestination, Codec.TellsApart;
    forall i, j | 0 <= i < |files| && 0 <= j < |files| && DestinationOf(codec, here, files[i]) == DestinationOf(codec, here, files[j])
      ensures files[i].hash == files[j].hash
    {
      assert origins[i] in origins && origins[j] in origins;
      OnePlaceOneFile(codec, there, captured, files, origins, here, i, j);
    }
  }

  lemma OnePlaceOneFile(codec: Codec, there: seq<GamePath>, captured: Saves, files: seq<SnapshotFile>, origins: seq<Origin>,
                        here: seq<GamePath>, i: nat, j: nat)
    requires Lists(codec, there, captured, files, origins) && Usable(there, origins)
    requires codec.TellsApart() && DistinctSources(there) && NonOverlapping(here)
    requires i < |files| && j < |files| && DestinationOf(codec, here, files[i]).Some?
    requires DestinationOf(codec, here, files[i]) == DestinationOf(codec, here, files[j])
    ensures origins[i].file == origins[j].file
  {
    assert origins[i] in origins && origins[j] in origins;
    DestinationElsewhere(codec, there, captured, files, origins, here, i);
    DestinationElsewhere(codec, there, captured, files, origins, here, j);
    var x, y := SourceIndex(codec, here, |here|, files[i].sourceKey), SourceIndex(codec, here, |here|, files[j].sourceKey);
    var d := DestinationOf(codec, here, files[i]).value;
    assert here[x].resolved <= d && here[y].resolved <= d;
    OneLocation(here, x, y, d);
    SourceFound(codec, there, origins[i].location);
    SourceFound(codec, there, origins[j].location);
    assert origins[i].location == origins[j].location;
    var r := there[origins[i].location].resolved;
    assert d[|here[x].resolved|..] == origins[i].file[|r|..] == origins[j].file[|r|..];
    assert origins[i].file == r + origins[i].file[|r|..] && origins[j].file == r + origins[j].file[|r|..];
  }

  /** What a file system and a selection give: usable names under enabled locations. */
  lemma CapturedIsUsable(codec: Codec, paths: seq<GamePath>, saves: Saves, excluded: FilePath -> bool, files: seq<SnapshotFile>,
                         origins: seq<Origin>)
    requires Captures(codec, paths, saves, excluded, files, origins)
    requires forall f :: f in saves ==> PlainComponents(f)
    ensures Usable(paths, origins)
  {
    forall q | q in origins
      ensures q.location < |paths| && paths[q.location].enabled && PlainComponents(q.file)
    {
      assert Selected(paths, saves, excluded, q);
    }
  }

  // ----- The bucket -----

  /** A blob in the bucket that decodes to its digest verifies under every size that the captured manifest lists. */
  lemma CompleteBucketVerifies(codec: Codec, paths: seq<GamePath>, saves: Saves, made: Snapshot, origins: seq<Origin>,
                               registry: Option<(seq<string>, Bytes)>, h: Hash, size: nat, stored: Bytes)
    requires codec.CollisionFree() && Lists(codec, paths, saves, made.files, origins)
    requires CapturesRegistry(codec, registry, made.registry)
    requires Listed(made, h, size) && codec.Decodes(stored, h)
    ensures codec.Verifies(stored, h, size)
  {
    var content := codec.unpack(stored).value;
    if f :| f in made.files && f.hash == h && f.size == size {
      var j :| 0 <= j < |made.files| && made.files[j] == f;
      assert codec.sha(content) == codec.sha(saves[origins[j].file]);
    } else {
      assert codec.sha(content) == codec.sha(registry.value.1);
    }
  }

  /** The manifests that a listing of the bucket shows. */
  ghost predicate ListingOf(manifests: map<P.ManifestKey, Snapshot>, objects: seq<RemoteObject>) {
    && (forall o :: o in objects && o.body.Some? ==> HasKey(manifests, o))
    && (forall k :: k in manifests ==> HasObject(manifests, objects, k))
  }

  ghost predicate HasKey(manifests: map<P.ManifestKey, Snapshot>, o: RemoteObject) {
    exists k :: k in manifests && IsObjectOf(manifests, o, k)
  }

  ghost predicate HasObject(manifests: map<P.ManifestKey, Snapshot>, objects: seq<RemoteObject>, k: P.ManifestKey)
    requires k in manifests
  {
    exists o :: o in objects && IsObjectOf(manifests, o, k)
  }

  ghost predicate IsObjectOf(manifests: map<P.ManifestKey, Snapshot>, o: RemoteObject, k: P.ManifestKey)
    requires k in manifests
  {
    o.key == ObjectKey(k.0, k.1) && o.body.Some? && o.body.value.snapshot == manifests[k]
  }

  function ObjectFor(manifests: map<P.ManifestKey, Snapshot>, gameName: P.ManifestKey -> string, k: P.ManifestKey): RemoteObject
    requires k in manifests
  {
    RemoteObject(ObjectKey(k.0, k.1), Some(Manifest(1, gameName(k), manifests[k])))
  }

  /** An object of the bucket: a manifest, or the metadata of a game, which no manifest can be read from. */
  ghost predicate ListedAs(bucket: P.Bucket, gameName: P.ManifestKey -> string, x: RemoteObject) {
    || (exists k :: k in bucket.manifests && x == ObjectFor(bucket.manifests, gameName, k))
    || (exists g :: g in bucket.metadata && x == RemoteObject(MetadataKey(g), None))
  }

  /** Everything below `games/`. */
  method ListBucket(bucket: P.Bucket, gameName: P.ManifestKey -> string) returns (objects: seq<RemoteObject>)
    ensures ListingOf(bucket.manifests, objects)
    ensures forall x :: x in objects ==> ListedAs(bucket, gameName, x)
    ensures forall g :: g in bucket.metadata ==> RemoteObject(MetadataKey(g), None) in objects
  {
    hide ObjectKey, ObjectFor, MetadataKey;
    objects := [];
    var todo := bucket.manifests.Keys;
    while todo != {}
      invariant todo <= bucket.manifests.Keys
      invariant forall x :: x in objects ==> ListedAs(bucket, gameName, x)
      invariant forall k :: k in bucket.manifests && k !in todo ==> ObjectFor(bucket.manifests, gameName, k) in objects
      decreases todo
    {
      var k :| k in todo;
      todo := todo - {k};
      objects := objects + [ObjectFor(bucket.manifests, gameName, k)];
    }
    var games := bucket.metadata.Keys;
    while games != {}
      invariant games <= bucket.metadata.Keys
      invariant forall x :: x in objects ==> ListedAs(bucket, gameName, x)
      invariant forall k :: k in bucket.manifests ==> ObjectFor(bucket.manifests, gameName, k) in objects
      invariant forall g :: g in bucket.metadata && g !in games ==> RemoteObject(MetadataKey(g), None) in objects
      decreases games
    {
      var g :| g in games;
      games := games - {g};
      objects := objects + [RemoteObject(MetadataKey(g), None)];
    }
    ListedIsListing(bucket, gameName, objects);
  }

  lemma ObjectIsOf(manifests: map<P.ManifestKey, Snapshot>, gameName: P.ManifestKey -> string, objects: seq<RemoteObject>, k: P.ManifestKey)
    requires k in manifests
    ensures HasKey(manifests, ObjectFor(manifests, gameName, k))
    ensures ObjectFor(manifests, gameName, k) in objects ==> HasObject(manifests, objects, k)
  {
    hide ObjectKey;
    assert IsObjectOf(manifests, ObjectFor(manifests, gameName, k), k);
  }

  lemma ListedIsListing(bucket: P.Bucket, gameName: P.ManifestKey -> string, objects: seq<RemoteObject>)
    requires forall x :: x in objects ==> ListedAs(bucket, gameName, x)
    requires forall k :: k in bucket.manifests ==> ObjectFor(bucket.manifests, gameName, k) in objects
    ensures ListingOf(bucket.manifests, objects)
  {
    hide ObjectFor, HasKey, HasObject, MetadataKey;
    var manifests := bucket.manifests;
    forall x | x in objects && x.body.Some?
      ensures HasKey(manifests, x)
    {
      var k :| k in manifests && x == ObjectFor(manifests, gameName, k);
      ObjectIsOf(manifests, gameName, objects, k);
    }
    forall k | k in manifests
      ensures HasObject(manifests, objects, k)
    {
      ObjectIsOf(manifests, gameName, objects, k);
    }
  }

  /** The published manifest is there, and no other object carries its id. */
  predicate Visible(manifests: map<P.ManifestKey, Snapshot>, made: Snapshot) {
    && P.KeyOf(made) in manifests && manifests[P.KeyOf(made)] == made.(synced := true)
    && forall k :: k in manifests && k.1 == made.id ==> k == P.KeyOf(made)
  }

  /** An object key with an identity is the key of that identity only: names with slashes have none. */
  lemma IdentityTellsKey(gameID: string, id: string, identity: (string, string))
    requires SnapshotObjectIdentity(ObjectKey(gameID, id)) == Some(identity)
    ensures identity == (gameID, id)
  {
    KeyIsIdentity(ObjectKey(gameID, id), identity.0, identity.1);
    var parts := ["games", gameID, "snapshots", id + SUFFIX];
    Text.SplitGains(parts, '/');
    var split := Text.Split(ObjectKey(gameID, id), '/');
    assert split == parts && split[1] == identity.0;
    assert parts[3][..|parts[3]| - |SUFFIX|] == id;
  }

  lemma KeyOfObject(manifests: map<P.ManifestKey, Snapshot>, o: RemoteObject) returns (k: P.ManifestKey)
    requires HasKey(manifests, o)
    ensures k in manifests && IsObjectOf(manifests, o, k)
  {
    k :| k in manifests && IsObjectOf(manifests, o, k);
  }

  lemma ObjectOfKey(manifests: map<P.ManifestKey, Snapshot>, objects: seq<RemoteObject>, k: P.ManifestKey) returns (o: RemoteObject)
    requires k in manifests && HasObject(manifests, objects, k)
    ensures o in objects && IsObjectOf(manifests, o, k)
  {
    o :| o in objects && IsObjectOf(manifests, o, k);
  }

  /** What an import takes from a bucket where the manifest is visible is that manifest. */
  lemma ImportedIsPublished(manifests: map<P.ManifestKey, Snapshot>, objects: seq<RemoteObject>, made: Snapshot,
                            before: map<string, Snapshot>, now: map<string, Snapshot>)
    requires Visible(manifests, made) && ListingOf(manifests, objects)
    requires ImportedFrom(before, now, objects) && made.id !in before && made.id in now
    ensures now[made.id] == made.(synced := true)
  {
    hide SnapshotObjectIdentity, ObjectKey, Readable, HasKey, HasObject, Comes;
    assert Comes(objects, made.id, now[made.id]);
    var o := ObjectThatCame(objects, made.id, now[made.id]);
    var k := KeyOfObject(manifests, o);
    IdentityTellsKey(k.0, k.1, (now[made.id].gameID, made.id));
  }

  /** With ids that object keys allow, an import that succeeds has the visible manifest. */
  lemma VisibleIsImported(manifests: map<P.ManifestKey, Snapshot>, objects: seq<RemoteObject>, made: Snapshot, now: map<string, Snapshot>)
    requires Visible(manifests, made) && ListingOf(manifests, objects) && ObjectID(made.gameID) && ObjectID(made.id)
    requires forall x :: x in objects && IsManifestKey(x.key) ==>
               SnapshotObjectIdentity(x.key).Some? && SnapshotObjectIdentity(x.key).value.1 in now
    ensures made.id in now
  {
    hide SnapshotObjectIdentity, HasKey, HasObject, IsManifestKey, ObjectKey;
    var o := ObjectOfKey(manifests, objects, P.KeyOf(made));
    KeyIsIdentity(o.key, made.gameID, made.id);
    KeyIsManifestKey(made.gameID, made.id);
  }

  lemma KeyIsManifestKey(gameID: string, id: string)
    ensures IsManifestKey(ObjectKey(gameID, id))
  {
    var tail := Text.Join([id + SUFFIX], '/');
    var middle := Text.Join(["snapshots", id + SUFFIX], '/');
    assert ["snapshots", id + SUFFIX][1..] == [id + SUFFIX] && middle == "snapshots" + "/" + tail;
    var most := Text.Join([gameID, "snapshots", id + SUFFIX], '/');
    assert [gameID, "snapshots", id + SUFFIX][1..] == ["snapshots", id + SUFFIX] && most == gameID + "/" + middle;
    var key := ObjectKey(gameID, id);
    assert ["games", gameID, "snapshots", id + SUFFIX][1..] == [gameID, "snapshots", id + SUFFIX];
    assert key == "games/" + gameID + "/snapshots/" + id + SUFFIX;
    assert key[6 + |gameID|..6 + |gameID| + 11] == "/snapshots/";
    assert HoldsAt(key, 6 + |gameID|, "/snapshots/");
    assert key[|key| - |SUFFIX|..] == SUFFIX;
  }

  // ----- The chain -----

  /** The device in the network has the store's blobs of these hashes. */
  ghost predicate Mirrors(d: P.Device, s: Store, hashes: set<Hash>)
    reads s
  {
    s.disk.Valid() && forall h :: h in hashes ==>
      h in s.blobs && s.disk.Has(s.blobs[h].path) && h in d.rows && d.rows[h].stored == s.disk.Read(s.blobs[h].path)
  }

  /** Shows the network what the device's store holds of a snapshot. */
  method ShowBlobs(net: P.Network, name: string, s: Store, hashes: set<Hash>)
    requires net.Valid() && name in net.world.devices && net.world.devices[name].upload.None?
    requires s.Valid() && net.codec == s.codec && AllPresent(s.disk, s.blobs, hashes)
    modifies net
    ensures old(net.trace) <= net.trace && net.faults == old(net.faults)
    ensures net.Valid() && name in net.world.devices && net.world.devices[name].upload.None?
    ensures Mirrors(net.world.devices[name], s, hashes)
  {
    hide P.Fresh, P.Run, JournalNamed, RefsExact;
    var todo := hashes;
    while todo != {}
      invariant net.Valid() && name in net.world.devices && net.world.devices[name].upload.None? && todo <= hashes
      invariant old(net.trace) <= net.trace && net.faults == old(net.faults)
      invariant Mirrors(net.world.devices[name], s, hashes - todo)
      decreases todo
    {
      var h :| h in todo;
      todo := todo - {h};
      var stored := s.disk.Read(s.blobs[h].path);
      assert s.disk.At(s.blobs[h].path).name == BlobName(h);
      assert net.codec.Decodes(stored, h);
      net.Do(P.Index(name, h, stored));
    }
    assert hashes - todo == hashes;
  }

  /** There is nothing to save: no file and no registry part, or the latest snapshot has the same contents. */
  ghost predicate NothingToSave(snapshots: map<string, Snapshot>, made: Snapshot) {
    || (made.files == [] && made.registry.None?)
    || exists latest :: IsLatest(snapshots, made.gameID, Some(latest)) && SameRule(latest, made)
  }

  /** Takes the snapshot on the first device and publishes it. */
  method CaptureAndUpload(a: Store, net: P.Network, name: string, target: string, there: Site, saves: Saves,
                          id: string, gameID: string, metadata: Metadata, now: int, registry: Option<(seq<string>, Bytes)>)
    returns (o: Outcome, made: Snapshot, ghost origins: seq<Origin>)
    requires a.Safe() && a.codec.Lossless() && net.codec == a.codec
    requires net.Valid() && name in net.world.devices && net.world.devices[name].upload.None? && target != ""
    modifies net, a`disk, a`blobs, a`snapshots, a`refs, a`created, a`history, a`faults
    ensures a.Safe() && net.Valid() && name in net.world.devices
    ensures o.Done? ==> Captures(a.codec, there.paths, saves, there.excluded, made.files, origins)
    ensures o.Done? ==> CapturesRegistry(a.codec, registry, made.registry) && made.id == id && made.gameID == gameID
    ensures o.Done? ==> exists i :: P.PublishedAt(net.codec, net.start, net.trace, i, made, target)
    // what can end it, apart from failed operations
    ensures a.faults >= old(a.faults) && net.faults >= old(net.faults)
    ensures o.Failed? ==>
      || a.faults > old(a.faults) || net.faults > old(net.faults)
      || id in old(a.snapshots) || NothingToSave(old(a.snapshots), made) || target !in net.start.buckets
      || P.Unindexed(net.codec, net.start, net.trace, |old(net.trace)|, name, HashesOf(made))
  {
    hide P.Fresh, P.Run, P.PublishedAt, P.Complete, AllPresent, Needed, Captures, CapturesRegistry, RefsExact, JournalNamed,
      Trusted, BlobsNamed, Canonical, SizesTrue, PresentBlobs, IsLatest, SameRule, IsNew, P.Unindexed;
    var r;
    r, made, origins := Create(a, there.root, id, gameID, metadata, now, there.paths, saves, there.excluded, registry);
    if !r.Created? {
      return if r.CreateCrashed? then Crashed else Failed, made, origins;
    }
    ShowBlobs(net, name, a, HashesOf(made));
    ghost var shown := |net.trace|;
    o := P.UploadSnapshot(net, name, made, target);
    if P.Unindexed(net.codec, net.start, net.trace, shown, name, HashesOf(made)) {
      P.UnindexedStays(net.codec, net.start, net.trace, net.trace, shown, |old(net.trace)|, name, HashesOf(made), HashesOf(made));
    }
  }

  /** What a network has shown of a published snapshot when its manifest is visible: all its blobs. */
  lemma VisibleIsComplete(codec: Codec, w: P.World, target: string, made: Snapshot)
    requires P.Complete(codec, w) && target in w.buckets && Visible(w.buckets[target].manifests, made)
    ensures forall h :: h in HashesOf(made) ==> P.Uploaded(codec, w, target, h)
  {
    assert HashesOf(made.(synced := true)) == HashesOf(made);
    hide P.Uploaded, HashesOf;
  }

  /** A bucket where a captured manifest is visible lacks nothing for its download. */
  lemma VisibleIsNotLacking(codec: Codec, w: P.World, target: string, made: Snapshot, paths: seq<GamePath>, saves: Saves,
                            origins: seq<Origin>, registry: Option<(seq<string>, Bytes)>)
    requires codec.CollisionFree() && P.Complete(codec, w) && target in w.buckets && Visible(w.buckets[target].manifests, made)
    requires Lists(codec, paths, saves, made.files, origins) && CapturesRegistry(codec, registry, made.registry)
    ensures !Lacking(codec, made.(synced := true), w.buckets[target].blobs)
  {
    VisibleIsComplete(codec, w, target, made);
    var remote := w.buckets[target].blobs;
    forall h, size | Listed(made.(synced := true), h, size)
      ensures h in remote && codec.Verifies(remote[h], h, size)
    {
      assert Listed(made, h, size) && h in HashesOf(made);
      assert P.Uploaded(codec, w, target, h);
      CompleteBucketVerifies(codec, paths, saves, made, origins, registry, h, size, remote[h]);
    }
  }

  /** The listed sizes are those of the contents. */
  ghost predicate TrulyListed(codec: Codec, made: Snapshot) {
    forall h, size :: Listed(made, h, size) ==> TrueSize(codec, h, size)
  }

  lemma CapturedIsTrulyListed(codec: Codec, paths: seq<GamePath>, saves: Saves, made: Snapshot, origins: seq<Origin>,
                              registry: Option<(seq<string>, Bytes)>)
    requires Lists(codec, paths, saves, made.files, origins) && CapturesRegistry(codec, registry, made.registry)
    ensures TrulyListed(codec, made)
  {
    forall h, size | Listed(made, h, size)
      ensures TrueSize(codec, h, size)
    {
      if f :| f in made.files && f.hash == h && f.size == size {
        var j :| 0 <= j < |made.files| && made.files[j] == f;
        ContentShowsSize(codec, saves[origins[j].file]);
      } else {
        ContentShowsSize(codec, registry.value.1);
      }
    }
  }

  /** What is held under a listed size can be staged for every entry of its hash. */
  lemma HeldIsRestorable(codec: Codec, d: Disk, blobs: map<Hash, BlobRow>, paths: seq<GamePath>, sn: Snapshot)
    requires codec.CollisionFree() && d.Valid() && TrulyListed(codec, sn)
    requires forall h :: h in HashesOf(sn) ==> HeldAsListed(codec, d, blobs, sn, h)
    requires forall f :: f in sn.files ==> DestinationOf(codec, paths, f).Some?
    ensures Restorable(codec, d, blobs, paths, sn.files)
  {
    hide DestinationOf;
    forall i | 0 <= i < |sn.files|
      ensures Placed(codec, d, blobs, paths, sn.files[i])
    {
      var f := sn.files[i];
      assert f in sn.files && Listed(sn, f.hash, f.size) && f.hash in HashesOf(sn);
      assert HeldAsListed(codec, d, blobs, sn, f.hash);
    }
  }

  ghost predicate WellNamed(manifests: map<P.ManifestKey, Snapshot>, gameName: P.ManifestKey -> string, k: P.ManifestKey)
    requires k in manifests
  {
    && ObjectID(k.0) && ObjectID(k.1) && k == P.KeyOf(manifests[k])
    && Readable(Manifest(1, gameName(k), manifests[k]))
  }

  /** The ids and manifests of the bucket can be imported, the ids are new here, and every entry and the registry part have a place. */
  ghost predicate WelcomeHere(codec: Codec, snapshots: map<string, Snapshot>, keys: R.Keys, bucket: P.Bucket,
                              gameName: P.ManifestKey -> string, here: Site, made: Snapshot, preID: string,
                              saved: Option<SavedRegistry>) {
    && (forall k :: k in bucket.manifests ==> WellNamed(bucket.manifests, gameName, k))
    && (forall g :: g in bucket.metadata ==> ObjectID(g) && g != "snapshots")
    && preID !in snapshots && (forall k :: k in bucket.manifests ==> k.1 != preID)
    && (forall f :: f in made.files ==> DestinationOf(codec, here.paths, f).Some?)
    && Applicable(keys, saved)
  }

  lemma WelcomeIsImportable(bucket: P.Bucket, gameName: P.ManifestKey -> string, x: RemoteObject)
    requires forall k :: k in bucket.manifests ==> WellNamed(bucket.manifests, gameName, k)
    requires forall g :: g in bucket.metadata ==> ObjectID(g) && g != "snapshots"
    requires ListedAs(bucket, gameName, x)
    ensures IsManifestKey(x.key) ==> Importable(x)
  {
    hide ObjectKey, MetadataKey, SnapshotObjectIdentity, Readable, IsManifestKey;
    if k :| k in bucket.manifests && x == ObjectFor(bucket.manifests, gameName, k) {
      KeyIsIdentity(x.key, k.0, k.1);
    } else {
      var g :| g in bucket.metadata && x == RemoteObject(MetadataKey(g), None);
      MetadataAsManifest(g);
    }
  }

  lemma WelcomeIsImported(manifests: map<P.ManifestKey, Snapshot>, objects: seq<RemoteObject>, made: Snapshot, preID: string,
                          before: map<string, Snapshot>, now: map<string, Snapshot>)
    requires Visible(manifests, made) && ListingOf(manifests, objects) && ImportedFrom(before, now, objects)
    requires forall k :: k in manifests ==> ObjectID(k.0) && ObjectID(k.1) && k.1 != preID
    requires preID !in before
    requires forall x :: x in objects && IsManifestKey(x.key) ==>
               SnapshotObjectIdentity(x.key).Some? && SnapshotObjectIdentity(x.key).value.1 in now
    ensures made.id in now && preID !in now
  {
    VisibleIsImported(manifests, objects, made, now);
    if preID in now {
      assert Comes(objects, preID, now[preID]);
      hide SnapshotObjectIdentity, ObjectKey, Readable, HasKey, HasObject, Comes;
      var o := ObjectThatCame(objects, preID, now[preID]);
      var k := KeyOfObject(manifests, o);
      IdentityTellsKey(k.0, k.1, (now[preID].gameID, preID));
      assert false;
    }
  }

  lemma SameListing(codec: Codec, made: Snapshot)
    requires TrulyListed(codec, made)
    ensures TrulyListed(codec, made.(synced := true))
  {
    forall h, size | Listed(made.(synced := true), h, size)
      ensures TrueSize(codec, h, size)
    {
      assert Listed(made, h, size);
    }
  }

  /** On the second device: imports what the bucket lists, downloads the snapshot's blobs, and restores it. */
  method ImportAndRestore(b: Store, fs: SaveFileSystem, hives: R.Hives, here: Site, bucket: P.Bucket, gameName: P.ManifestKey -> string,
                          made: Snapshot, preID: string, metadata: Metadata, now: int, registry: Option<(seq<string>, Bytes)>,
                          saved: Option<SavedRegistry>, previous: Option<SavedRegistry>)
    returns (o: Outcome, clean: bool, refused: bool)
    requires b.Safe() && b.codec.Lossless() && b.codec.CollisionFree()
    requires hives.Valid() && CanonicalRoots(saved) && CanonicalRoots(previous)
    requires Visible(bucket.manifests, made) && made.id !in b.snapshots
    modifies fs, hives, b`disk, b`blobs, b`snapshots, b`refs, b`created, b`history, b`faults
    ensures b.Safe()
    ensures refused ==> o.Failed? && Lacking(b.codec, made.(synced := true), bucket.blobs)
    ensures !o.Done? && clean ==> fs.files == old(fs.files)
    ensures o.Done? && clean ==> Restored(b.codec, here.paths, made.files, old(fs.files), fs.files)
    // a truly listed snapshot that is welcome here and not refused is restored unless an operation fails
    ensures b.faults >= old(b.faults) && fs.faults >= old(fs.faults) && hives.faults >= old(hives.faults)
    ensures o.Failed? && !refused && TrulyListed(b.codec, made)
            && old(WelcomeHere(b.codec, b.snapshots, hives.keys, bucket, gameName, here, made, preID, saved)) ==>
      b.faults > old(b.faults) || fs.faults > old(fs.faults) || hives.faults > old(hives.faults)
  {
    hide AllPresent, Needed, RefsExact, JournalNamed, Trusted, BlobsNamed, Restored, Lacking, RegistryTakenBack, RegistryRestored,
      CanonicalRoots, R.Closed, R.Stored, RollbackOf, ListingOf, ImportedFrom, Visible, SnapshotObjectIdentity, IsManifestKey,
      Importable, TrulyListed, ListedAs, Applicable, Restorable, Canonical, SizesTrue, Readable, ObjectKey, HashesOf;
    clean, refused := true, false;
    var objects := ListBucket(bucket, gameName);
    ghost var before := b.snapshots;
    ghost var welcome := WelcomeHere(b.codec, b.snapshots, hives.keys, bucket, gameName, here, made, preID, saved);
    if welcome {
      forall x | x in objects
        ensures IsManifestKey(x.key) ==> Importable(x)
      {
        WelcomeIsImportable(bucket, gameName, x);
      }
    }
    var games;
    o, games := Reconcile(b, objects, {});
    if !o.Done? {
      return Failed, true, false;
    }
    if welcome {
      WelcomeIsImported(bucket.manifests, objects, made, preID, before, b.snapshots);
    }
    if made.id !in b.snapshots {
      return Failed, true, false;
    }
    ImportedIsPublished(bucket.manifests, objects, made, before, b.snapshots);
    ghost var needed := Needed(b.snapshots, b.created);
    o, refused := EnsureLocal(b, b.snapshots[made.id], here.root, bucket.blobs, needed);
    if !o.Done? {
      return;
    }
    if welcome && TrulyListed(b.codec, made) {
      SameListing(b.codec, made);
      HeldIsRestorable(b.codec, b.disk, b.blobs, here.paths, b.snapshots[made.id]);
    }
    var rollback;
    ghost var rollbackMade, rollbackOrigins;
    o, clean, rollback, rollbackMade, rollbackOrigins :=
      RestoreSnapshot(fs, b, hives, here.root, made.id, preID, made.gameID, metadata, now, here.paths, here.excluded,
                      registry, saved, previous);
  }

  /**
   End to end: a snapshot taken on device `a`, uploaded while other devices work on
   the bucket, and imported, downloaded and restored on device `b` writes files
   that are byte-identical to those captured, exactly when the restoring device
   does not send files of different content to one place; with distinct source
   keys on both devices and locations apart on the second it never does.  The
   download never finds the bucket lacking.
   */
  method CaptureThereRestoreHere(a: Store, b: Store, net: P.Network, fs: SaveFileSystem, hives: R.Hives, name: string, target: string,
                                 there: Site, here: Site, saves: Saves, id: string, preID: string, gameID: string,
                                 metadata: Metadata, now: int, later: int, gameName: P.ManifestKey -> string,
                                 registry: Option<(seq<string>, Bytes)>, registryHere: Option<(seq<string>, Bytes)>,
                                 saved: Option<SavedRegistry>, previous: Option<SavedRegistry>)
    returns (o: Outcome, clean: bool, refused: bool, ghost made: Snapshot, ghost origins: seq<Origin>)
    requires a != b && a.Safe() && b.Safe() && a.codec == b.codec == net.codec && a.codec.Lossless() && a.codec.CollisionFree()
    requires net.Valid() && name in net.world.devices && net.world.devices[name].upload.None? && target != ""
    requires hives.Valid() && CanonicalRoots(saved) && CanonicalRoots(previous)
    requires id !in b.snapshots && forall f :: f in saves ==> PlainComponents(f)
    modifies net, fs, hives, a, b
    ensures a.Safe() && b.Safe() && !refused
    ensures !o.Done? && clean ==> fs.files == old(fs.files)
    ensures o.Done? ==> Captures(a.codec, there.paths, saves, there.excluded, made.files, origins)
    ensures o.Done? && clean ==>
              (SameBytes(a.codec, here.paths, made.files, origins, saves, fs.files) <==>
               AgreeOnDestinations(a.codec, here.paths, made.files))
    ensures o.Done? && clean && a.codec.TellsApart() && DistinctSources(there.paths) && DistinctSources(here.paths)
            && NonOverlapping(here.paths) ==>
              SameBytes(a.codec, here.paths, made.files, origins, saves, fs.files)
    // what can end it, apart from failed operations
    ensures o.Failed? ==>
      || a.faults > old(a.faults) || b.faults > old(b.faults) || net.faults > old(net.faults)
      || fs.faults > old(fs.faults) || hives.faults > old(hives.faults)
      || id in old(a.snapshots) || NothingToSave(old(a.snapshots), made)
      || target !in net.start.buckets || target !in net.world.buckets || !Visible(net.world.buckets[target].manifests, made)
      || P.Unindexed(net.codec, net.start, net.trace, |old(net.trace)|, name, HashesOf(made))
      || !WelcomeHere(b.codec, old(b.snapshots), old(hives.keys), net.world.buckets[target], gameName, here, made, preID, saved)
  {
    hide AllPresent, Needed, RefsExact, JournalNamed, Trusted, BlobsNamed, Restored, Lacking, R.Closed, R.Stored, CanonicalRoots,
      P.Fresh, P.Run, P.PublishedAt, P.Complete, Captures, CapturesRegistry, Visible, SameBytes, AgreeOnDestinations,
      DistinctSources, NonOverlapping, Codec.CollisionFree, Codec.Lossless, Codec.TellsApart, NothingToSave, P.Unindexed,
      WelcomeHere, TrulyListed, Canonical, SizesTrue, HashesOf;
    clean, refused := true, false;
    var taken;
    o, taken, origins := CaptureAndUpload(a, net, name, target, there, saves, id, gameID, metadata, now, registry);
    made := taken;
    if !o.Done? {
      return;
    }
    net.Others(name);
    if target !in net.world.buckets || !Visible(net.world.buckets[target].manifests, taken) {
      // deleted by another device before it was seen
      o := Failed;
      return;
    }
    P.BucketsComplete(net.codec, net.start, net.trace);
    CapturedLists(a.codec, there.paths, saves, there.excluded, made.files, origins);
    CapturedIsTrulyListed(a.codec, there.paths, saves, made, origins, registry);
    VisibleIsNotLacking(a.codec, net.world, target, made, there.paths, saves, origins, registry);
    ghost var before := fs.files;
    o, clean, refused := ImportAndRestore(b, fs, hives, here, net.world.buckets[target], gameName, taken, preID, metadata, later,
                                          registryHere, saved, previous);
    if o.Done? && clean {
      RestoredElsewhere(a.codec, there.paths, saves, made.files, origins, here.paths, before, fs.files);
      CapturedIsUsable(a.codec, there.paths, saves, there.excluded, made.files, origins);
      if a.codec.TellsApart() && DistinctSources(there.paths) && DistinctSources(here.paths) && NonOverlapping(here.paths) {
        RestoredHasDestinations(a.codec, here.paths, made.files, before, fs.files);
        ApartLocationsAgree(a.codec, there.paths, saves, made.files, origins, here.paths);
      }
    }
  }

  lemma CapturedLists(codec: Codec, paths: seq<GamePath>, saves: Saves, excluded: FilePath -> bool, files: seq<SnapshotFile>,
                      origins: seq<Origin>)
    requires Captures(codec, paths, saves, excluded, files, origins)
    ensures Lists(codec, paths, saves, files, origins)
  {
  }

  lemma RestoredHasDestinations(codec: Codec, paths: seq<GamePath>, files: seq<SnapshotFile>, before: Saves, now: Saves)
    requires Restored(codec, paths, files, before, now)
    ensures forall j :: 0 <= j < |files| ==> DestinationOf(codec, paths, files[j]).Some?
  {
  }

  /** Where an entry of a directory goes whose path joins plain parts. */
  lemma PlainPathGoes(resolved: FilePath, f: SnapshotFile, parts: seq<string>)
    requires !f.rootFile && parts != [] && PlainComponents(parts) && f.path == Text.Join(parts, '/')
    ensures RestoreDestination(resolved, f) == Some(resolved + parts)
  {
    Text.SplitOfJoin(parts, '/');
    CleanOfPlain([], parts);
    JoinStartsPlain(parts);
    assert [] + parts == parts && parts[0] in parts;
  }

  /** The input where locations inside one another mix two captured files, for all that their source keys differ. */
  lemma InnerLocationMixesFiles(codec: Codec, f: SnapshotFile, g: SnapshotFile)
    requires codec.TellsApart() && f.hash != g.hash && !f.rootFile && !g.rootFile
    requires f.sourceKey == SourceKey(codec, GamePath("outer", "", ["saves"], true)) && f.path == "in/slot"
    requires g.sourceKey == SourceKey(codec, GamePath("inner", "", ["saves", "in"], true)) && g.path == "slot"
    ensures var here := [GamePath("outer", "", ["saves"], true), GamePath("inner", "", ["saves", "in"], true)];
            DistinctSources(here) && !AgreeOnDestinations(codec, here, [f, g])
  {
    var here := [GamePath("outer", "", ["saves"], true), GamePath("inner", "", ["saves", "in"], true)];
    assert DistinctSources(here);
    assert ["in", "slot"][1..] == ["slot"] && Text.Join(["slot"], '/') == "slot";
    assert Text.Join(["in", "slot"], '/') == "in" + ['/'] + Text.Join(["slot"], '/') == "in/slot";
    PlainPathGoes(["saves"], f, ["in", "slot"]);
    PlainPathGoes(["saves", "in"], g, ["slot"]);
    hide RestoreDestination, PlainComponents;
    SourceFound(codec, here, 0);
    SourceFound(codec, here, 1);
    hide SourceIndex, SourceKey, DistinctSources, Codec.TellsApart;
    assert ["saves"] + ["in", "slot"] == ["saves", "in"] + ["slot"];
    var files := [f, g];
    assert DestinationOf(codec, here, files[0]) == DestinationOf(codec, here, files[1]);
  }
}
