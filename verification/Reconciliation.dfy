/**
 Importing the manifests of a bucket, and the object keys they live under.
 */
module Reconciliation {
  import opened Files
  import opened Snapshots
  import opened BlobStore
  import opened Capture
  import opened Restore
  import Runs
  import Text

  // ----- Object keys -----

  predicate IDChar(c: char) {
    'a' <= c <= 'z' || 'A' <= c <= 'Z' || '0' <= c <= '9' || c == '_' || c == '-'
  }

  predicate ObjectID(id: string) {
    1 <= |id| <= 128 && forall c :: c in id ==> IDChar(c)
  }

  const SUFFIX := ".json"

  predicate HasSuffix(s: string) {
    |s| >= |SUFFIX| && s[|s| - |SUFFIX|..] == SUFFIX
  }

  /** Where a manifest is published. */
  function ObjectKey(gameID: string, id: string): string {
    Text.Join(["games", gameID, "snapshots", id + SUFFIX], '/')
  }

  function SnapshotObjectIdentity(key: string): Option<(string, string)> {
    var parts := Text.Split(key, '/');
    if |parts| != 4 || parts[0] != "games" || parts[2] != "snapshots" || !HasSuffix(parts[3]) then None
    else
      var id := parts[3][..|parts[3]| - |SUFFIX|];
      if ObjectID(parts[1]) && ObjectID(id) then Some((parts[1], id)) else None
  }

  /** Keys and identities correspond one to one: a key is accepted exactly when it is the key of two valid ids. */
  lemma KeyIsIdentity(key: string, gameID: string, id: string)
    ensures SnapshotObjectIdentity(key) == Some((gameID, id)) <==> ObjectID(gameID) && ObjectID(id) && key == ObjectKey(gameID, id)
  {
    var parts := ["games", gameID, "snapshots", id + SUFFIX];
    if ObjectID(gameID) && ObjectID(id) && key == ObjectKey(gameID, id) {
      NoSlash(gameID);
      NoSlash(id);
      Text.SplitOfJoin(parts, '/');
      assert (id + SUFFIX)[|id|..] == SUFFIX && (id + SUFFIX)[..|id|] == id;
    }
    if SnapshotObjectIdentity(key) == Some((gameID, id)) {
      Text.JoinOfSplit(key, '/');
      var split := Text.Split(key, '/');
      assert split[3] == split[3][..|split[3]| - |SUFFIX|] + split[3][|split[3]| - |SUFFIX|..] == id + SUFFIX;
      assert split == parts;
    }
  }

  lemma NoSlash(id: string)
    requires ObjectID(id)
    ensures '/' !in id
  {
    assert !IDChar('/');
  }

  // ----- Manifests -----

  /** The check on a manifest entry before import. */
  predicate SafeEntry(f: SnapshotFile) {
    f.rootFile
    || (!(f.path != [] && f.path[0] == '/')
        && var clean := CleanInto([], Text.Split(f.path, '/'));
           clean != [] && clean[0] != "..")
  }

  /** An entry passes the check exactly when a restore finds a destination for it under every root. */
  lemma SafeEntryHasDestination(f: SnapshotFile)
    ensures SafeEntry(f) <==> forall resolved :: RestoreDestination(resolved, f).Some?
  {
    assert RestoreDestination([], f).Some? <==> SafeEntry(f);
    assert forall resolved :: RestoreDestination(resolved, f).Some? <==> RestoreDestination([], f).Some?;
  }

  /** A manifest as it is encoded. */
  datatype Manifest = Manifest(version: int, gameName: string, snapshot: Snapshot)

  /** An object of the listing; `body` is its manifest, unless it cannot be decoded as one. */
  datatype RemoteObject = RemoteObject(key: string, body: Option<Manifest>)

  /** The checks on a decoded manifest. */
  predicate Readable(m: Manifest) {
    && m.version == 1 && m.snapshot.id != "" && m.snapshot.gameID != "" && m.gameName != ""
    && forall f :: f in m.snapshot.files ==> SafeEntry(f)
  }

  predicate HoldsAt(key: string, i: nat, part: string) {
    i + |part| <= |key| && key[i..i + |part|] == part
  }

  /** Whether the listing loop treats an object as a manifest at all. */
  predicate IsManifestKey(key: string) {
    HasSuffix(key) && exists i :: 0 <= i <= |key| && HoldsAt(key, i, "/snapshots/")
  }

  /** An object that the import takes: its key names an identity, and its manifest is readable and has it. */
  predicate Importable(x: RemoteObject) {
    var identity := SnapshotObjectIdentity(x.key);
    identity.Some? && x.body.Some? && Readable(x.body.value)
    && (x.body.value.snapshot.gameID, x.body.value.snapshot.id) == identity.value
  }

  /** Where the metadata of a game is published. */
  function MetadataKey(gameID: string): string {
    Text.Join(["games", gameID, "metadata.json"], '/')
  }

  lemma MetadataKeyIs(gameID: string)
    ensures MetadataKey(gameID) == "games/" + gameID + "/metadata.json"
  {
    assert ["metadata.json"][1..] == [] && Text.Join(["metadata.json"], '/') == "metadata.json";
    assert [gameID, "metadata.json"][1..] == ["metadata.json"];
    assert Text.Join([gameID, "metadata.json"], '/') == gameID + ['/'] + "metadata.json";
    assert ["games", gameID, "metadata.json"][1..] == [gameID, "metadata.json"];
    assert MetadataKey(gameID) == "games" + ['/'] + (gameID + ['/'] + "metadata.json");
  }

  /**
   The listing loop takes the metadata object of a game for a manifest exactly
   when the game's id is "snapshots"; its key then names no identity.
   */
  lemma MetadataAsManifest(gameID: string)
    requires ObjectID(gameID)
    ensures IsManifestKey(MetadataKey(gameID)) <==> gameID == "snapshots"
    ensures SnapshotObjectIdentity(MetadataKey(gameID)).None?
  {
    NoSlash(gameID);
    Text.SplitOfJoin(["games", gameID, "metadata.json"], '/');
    assert |Text.Split(MetadataKey(gameID), '/')| == 3;
    MetadataKeyIs(gameID);
    var key := MetadataKey(gameID);
    hide MetadataKey, ObjectID, HoldsAt, Text.Split, HasSuffix;
    forall i | 0 <= i <= |key| && HoldsAt(key, i, "/snapshots/")
      ensures gameID == "snapshots"
    {
      PartNamesGame(key, "games/", gameID, "/metadata.json", i);
    }
    if gameID == "snapshots" {
      SnapshotsIsTaken(key);
    }
  }

  lemma PartNamesGame(key: string, head: string, gameID: string, tail: string, i: nat)
    requires key == head + gameID + tail && head == "games/" && tail == "/metadata.json" && '/' !in gameID
    requires HoldsAt(key, i, "/snapshots/")
    ensures gameID == "snapshots"
  {
    SlashesOfKey(gameID);
    PartBetweenSlashes(key, i);
    assert i == 5 && i + 10 == 6 + |gameID|;
    assert key[|head|..|head| + |gameID|] == gameID;
  }

  lemma SnapshotsIsTaken(key: string)
    requires key == "games/" + "snapshots" + "/metadata.json"
    ensures HoldsAt(key, 5, "/snapshots/") && HasSuffix(key)
  {
    assert key[5..16] == "/snapshots/";
    assert key[24..] == ".json";
  }

  lemma PartBetweenSlashes(key: string, i: nat)
    requires HoldsAt(key, i, "/snapshots/")
    ensures i + 11 <= |key| && key[i] == '/' && key[i + 10] == '/' && key[i + 1..i + 10] == "snapshots"
  {
    var part := key[i..i + 11];
    assert part == "/snapshots/" && part[0] == '/' && part[10] == '/' && part[1..10] == "snapshots";
    assert part[1..10] == key[i + 1..i + 10];
  }

  lemma SlashesOfKey(gameID: string)
    requires '/' !in gameID
    ensures var key := "games/" + gameID + "/metadata.json";
            forall j :: 0 <= j < |key| && j != 5 && j != 6 + |gameID| ==> key[j] != '/'
  {
    var key := "games/" + gameID + "/metadata.json";
    forall j | 0 <= j < |key| && j != 5 && j != 6 + |gameID|
      ensures key[j] != '/'
    {
      if j < 6 {
        assert key[j] == "games/"[j];
      } else if j < 6 + |gameID| {
        assert key[j] == gameID[j - 6];
      } else {
        assert key[j] == "/metadata.json"[j - 6 - |gameID|];
      }
    }
  }

  /** What an import puts in the table comes from an object whose key names it. */
  ghost predicate Comes(objects: seq<RemoteObject>, id: string, sn: Snapshot) {
    && (exists o :: o in objects && o.body.Some? && sn == o.body.value.snapshot.(synced := true)
                    && SnapshotObjectIdentity(o.key) == Some((sn.gameID, id)) && sn.id == id
                    && o.body.value.version == 1 && o.body.value.gameName != "")
    // and can be restored from, as far as its paths go
    && sn.id != "" && sn.gameID != "" && forall f, resolved :: f in sn.files ==> RestoreDestination(resolved, f).Some?
  }

  lemma ObjectThatCame(objects: seq<RemoteObject>, id: string, sn: Snapshot) returns (o: RemoteObject)
    requires Comes(objects, id, sn)
    ensures o in objects && o.body.Some? && sn == o.body.value.snapshot.(synced := true)
    ensures SnapshotObjectIdentity(o.key) == Some((sn.gameID, id)) && sn.id == id
  {
    hide SnapshotObjectIdentity;
    o :| o in objects && o.body.Some? && sn == o.body.value.snapshot.(synced := true)
         && SnapshotObjectIdentity(o.key) == Some((sn.gameID, id)) && sn.id == id;
  }

  ghost predicate ImportedFrom(before: map<string, Snapshot>, now: map<string, Snapshot>, objects: seq<RemoteObject>) {
    && (forall id :: id in before ==> id in now && now[id] == before[id])
    && (forall id :: id in now && id !in before ==> Comes(objects, id, now[id]))
  }

  /**
   Imports every manifest whose snapshot is not in the table, registering its game
   first.  Stored snapshots are never touched, and blob safety stands.
   */
  method Reconcile(s: Store, objects: seq<RemoteObject>, known: set<string>) returns (o: Outcome, games: set<string>)
    requires s.Safe()
    modifies s`snapshots, s`refs, s`created, s`faults
    ensures s.Safe() && s.created == old(s.created)
    ensures ImportedFrom(old(s.snapshots), s.snapshots, objects)
    ensures known <= games
    ensures forall id :: id in s.snapshots && id !in old(s.snapshots) ==> s.snapshots[id].gameID in games
    ensures o.Done? ==> forall x :: x in objects && IsManifestKey(x.key) ==>
              SnapshotObjectIdentity(x.key).Some? && SnapshotObjectIdentity(x.key).value.1 in s.snapshots
    // only an object that cannot be imported or a failed operation stops it
    ensures s.faults >= old(s.faults)
    ensures !o.Done? && (forall x :: x in objects && IsManifestKey(x.key) ==> Importable(x)) ==> s.faults > old(s.faults)
  {
    hide Needed, AllPresent, RefsExact, Trusted, SnapshotObjectIdentity, Readable, IsManifestKey, Comes, Canonical, SizesTrue;
    games := known;
    for i := 0 to |objects|
      invariant s.Safe() && s.created == old(s.created) && s.faults >= old(s.faults)
      invariant ImportedFrom(old(s.snapshots), s.snapshots, objects) && known <= games
      invariant forall id :: id in s.snapshots && id !in old(s.snapshots) ==> s.snapshots[id].gameID in games
      invariant forall x :: x in objects[..i] && IsManifestKey(x.key) ==>
        SnapshotObjectIdentity(x.key).Some? && SnapshotObjectIdentity(x.key).value.1 in s.snapshots
    {
      var x := objects[i];
      assert objects[..i + 1] == objects[..i] + [x] && x in objects;
      if IsManifestKey(x.key) {
        var identity := SnapshotObjectIdentity(x.key);
        if identity.None? {
          return Failed, games;
        }
        if identity.value.1 !in s.snapshots {
          if x.body.None? || !Readable(x.body.value) {
            return Failed, games;
          }
          var sn := x.body.value.snapshot.(synced := true);
          if (sn.gameID, sn.id) != identity.value {
            return Failed, games;
          }
          ComesFrom(objects, x, sn);
          if * {
            s.faults := s.faults + 1;
            return Failed, games;
          }
          games := games + {sn.gameID};
          Runs.ImportNeedsLess(s.snapshots, s.created, sn);
          ghost var needed := Needed(s.snapshots, s.created);
          o := s.ImportSnapshot(sn);
          assert sn.(synced := true) == sn;
          Runs.NeedsLessIsPresent(s.disk, s.blobs, needed, Needed(s.snapshots, s.created));
          if !o.Done? {
            return;
          }
        }
      }
    }
    assert objects[..|objects|] == objects;
    return Done, games;
  }

  lemma ComesFrom(objects: seq<RemoteObject>, x: RemoteObject, sn: Snapshot)
    requires x in objects && x.body.Some? && sn == x.body.value.snapshot.(synced := true)
    requires SnapshotObjectIdentity(x.key) == Some((sn.gameID, sn.id)) && Readable(x.body.value)
    ensures Comes(objects, sn.id, sn)
  {
    hide SnapshotObjectIdentity, SafeEntry, RestoreDestination;
    forall f | f in sn.files
      ensures forall resolved :: RestoreDestination(resolved, f).Some?
    {
      assert SafeEntry(f);
      SafeEntryHasDestination(f);
    }
  }
}
