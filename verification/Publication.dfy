/**
 Publishing to shared buckets: any number of devices, each with its cache of what
 it uploaded where, interleaved at every effect.

 A world is all devices and all buckets.  An event is one effect; an event that
 is not possible where it is applied changes nothing.
 */
module Publication {
  import opened Files
  import opened Snapshots

  /** An indexed blob on a device: the bytes at its path, and the bucket it was uploaded to, or "". */
  datatype Row = Row(stored: Bytes, uploadedTo: string)

  datatype Phase = Choosing | Opened(hash: Hash, bytes: Bytes) | Sent(hash: Hash)

  /** A running upload of one snapshot; `uploaded` holds the hashes that are done, `described` follows the game's metadata. */
  datatype Upload = Upload(snapshot: Snapshot, target: string, uploaded: set<Hash>, phase: Phase, described: bool)

  datatype Device = Device(rows: map<Hash, Row>, upload: Option<Upload>)

  type ManifestKey = (string, string)

  datatype Bucket = Bucket(blobs: map<Hash, Bytes>, metadata: map<string, Metadata>, manifests: map<ManifestKey, Snapshot>)

  datatype World = World(devices: map<string, Device>, buckets: map<string, Bucket>)

  datatype Event =
    | Index(device: string, hash: Hash, stored: Bytes)   // a create, a download or a relocation
    | Forget(device: string, hash: Hash)                 // the orphan sweep
    | Invalidate(device: string, target: string)         // the bucket was connected anew
    | Begin(device: string, snapshot: Snapshot, target: string)
    | Skip(device: string, hash: Hash)                   // the cache says that the blob is there
    | Open(device: string, hash: Hash)
    | PutBlob(device: string)
    | MarkUploaded(device: string)
    | PutMetadata(device: string)                        // the game's name, notes and image
    | Publish(device: string)
    | Stop(device: string)                               // done, failed, or the process died
    | Unpublish(target: string, key: ManifestKey)        // retention or deletion, by whichever device

  function KeyOf(s: Snapshot): ManifestKey {
    (s.gameID, s.id)
  }

  function WithDevice(w: World, name: string, d: Device): World {
    w.(devices := w.devices[name := d])
  }

  function WithUpload(w: World, name: string, u: Upload): World
    requires name in w.devices
  {
    WithDevice(w, name, w.devices[name].(upload := Some(u)))
  }

  /** What the process of a device may do to its own index. */
  function ApplyLocal(codec: Codec, d: Device, e: Event): Device {
    match e
    case Index(_, h, stored) =>
      if codec.Decodes(stored, h)
      then d.(rows := d.rows[h := Row(stored, if h in d.rows then d.rows[h].uploadedTo else "")])
      else d
    case Forget(_, h) => d.(rows := d.rows - {h})
    case Invalidate(_, target) =>
      d.(rows := map h | h in d.rows :: if d.rows[h].uploadedTo == target then d.rows[h].(uploadedTo := "") else d.rows[h])
    case Stop(_) => d.(upload := None)
    case _ => d
  }

  /** One step of the upload that device `name` runs. */
  function ApplyUpload(w: World, name: string, e: Event): World
    requires name in w.devices && w.devices[name].upload.Some?
  {
    var d := w.devices[name];
    var u := d.upload.value;
    match e
    case Skip(_, h) =>
      if u.phase.Choosing? && h in d.rows && d.rows[h].uploadedTo == u.target
      then WithUpload(w, name, u.(uploaded := u.uploaded + {h})) else w
    case Open(_, h) =>
      if u.phase.Choosing? && h in d.rows then WithUpload(w, name, u.(phase := Opened(h, d.rows[h].stored))) else w
    case PutBlob(_) =>
      if u.phase.Opened? && u.target in w.buckets then
        var b := w.buckets[u.target];
        var sent := WithUpload(w, name, u.(phase := Sent(u.phase.hash)));
        sent.(buckets := w.buckets[u.target := b.(blobs := b.blobs[u.phase.hash := u.phase.bytes])])
      else w
    case MarkUploaded(_) =>
      if u.phase.Sent? then
        var h := u.phase.hash;
        var rows := if h in d.rows then d.rows[h := d.rows[h].(uploadedTo := u.target)] else d.rows;
        WithDevice(w, name, Device(rows, Some(u.(uploaded := u.uploaded + {h}, phase := Choosing))))
      else w
    case PutMetadata(_) =>
      if u.phase.Choosing? && u.target in w.buckets && HashesOf(u.snapshot) <= u.uploaded then
        var b := w.buckets[u.target];
        var sent := WithUpload(w, name, u.(described := true));
        sent.(buckets := w.buckets[u.target := b.(metadata := b.metadata[u.snapshot.gameID := u.snapshot.metadata])])
      else w
    case Publish(_) =>
      if u.phase.Choosing? && u.target in w.buckets && HashesOf(u.snapshot) <= u.uploaded && u.described then
        var b := w.buckets[u.target];
        w.(buckets := w.buckets[u.target := b.(manifests := b.manifests[KeyOf(u.snapshot) := u.snapshot.(synced := true)])])
      else w
    case _ => w
  }

  function Apply(codec: Codec, w: World, e: Event): World {
    if e.Unpublish? then
      if e.target in w.buckets then
        var b := w.buckets[e.target];
        w.(buckets := w.buckets[e.target := b.(manifests := b.manifests - {e.key})])
      else w
    else if e.device !in w.devices then w
    else if e.Begin? then
      if w.devices[e.device].upload.None? && e.target != ""
      then WithUpload(w, e.device, Upload(e.snapshot, e.target, {}, Choosing, false)) else w
    else if e.Index? || e.Forget? || e.Invalidate? || e.Stop? then
      WithDevice(w, e.device, ApplyLocal(codec, w.devices[e.device], e))
    else if w.devices[e.device].upload.Some? then ApplyUpload(w, e.device, e)
    else w
  }

  function Run(codec: Codec, w: World, events: seq<Event>): World {
    if events == [] then w
    else Apply(codec, Run(codec, w, events[..|events| - 1]), events[|events| - 1])
  }

  // ----- Completeness -----

  predicate Uploaded(codec: Codec, w: World, target: string, h: Hash) {
    target in w.buckets && h in w.buckets[target].blobs && codec.Decodes(w.buckets[target].blobs[h], h)
  }

  predicate Described(w: World, target: string, gameID: string) {
    target in w.buckets && gameID in w.buckets[target].metadata
  }

  /** Every visible manifest has its game's metadata and all its blobs, each decoding to its hash. */
  ghost predicate Complete(codec: Codec, w: World) {
    && (forall t, k :: t in w.buckets && k in w.buckets[t].manifests ==> Described(w, t, k.0))
    && forall t, k, h :: t in w.buckets && k in w.buckets[t].manifests && h in HashesOf(w.buckets[t].manifests[k]) ==>
      Uploaded(codec, w, t, h)
  }

  /** A mark is true, and files decode to their hashes. */
  ghost predicate RowsTrue(codec: Codec, w: World, d: Device) {
    forall h :: h in d.rows ==>
      && codec.Decodes(d.rows[h].stored, h)
      && (d.rows[h].uploadedTo != "" ==> Uploaded(codec, w, d.rows[h].uploadedTo, h))
  }

  ghost predicate UploadTrue(codec: Codec, w: World, u: Upload) {
    && u.target != ""
    && (u.described ==> Described(w, u.target, u.snapshot.gameID))
    && (forall h :: h in u.uploaded ==> Uploaded(codec, w, u.target, h))
    && (u.phase.Opened? ==> codec.Decodes(u.phase.bytes, u.phase.hash))
    && (u.phase.Sent? ==> Uploaded(codec, w, u.target, u.phase.hash))
  }

  ghost predicate DeviceTrue(codec: Codec, w: World, d: Device) {
    RowsTrue(codec, w, d) && (d.upload.Some? ==> UploadTrue(codec, w, d.upload.value))
  }

  ghost predicate Invariant(codec: Codec, w: World) {
    && Complete(codec, w)
    && forall name :: name in w.devices ==> DeviceTrue(codec, w, w.devices[name])
  }

  /** A bucket never loses a good blob, nor the metadata of a game. */
  ghost predicate BlobsStay(codec: Codec, w: World, w': World) {
    && (forall t, h :: Uploaded(codec, w, t, h) ==> Uploaded(codec, w', t, h))
    && (forall t, g :: Described(w, t, g) ==> Described(w', t, g))
  }

  lemma DeviceStaysTrue(codec: Codec, w: World, w': World, d: Device)
    requires BlobsStay(codec, w, w') && DeviceTrue(codec, w, d)
    ensures DeviceTrue(codec, w', d)
  {
    hide Uploaded;
  }

  lemma LocalKeepsInvariant(codec: Codec, w: World, name: string, e: Event)
    requires Invariant(codec, w) && name in w.devices
    ensures Invariant(codec, WithDevice(w, name, ApplyLocal(codec, w.devices[name], e)))
  {
    hide HashesOf, Codec.Decodes;
    var w' := WithDevice(w, name, ApplyLocal(codec, w.devices[name], e));
    assert w'.buckets == w.buckets;
    assert DeviceTrue(codec, w, w.devices[name]);
    forall n | n in w'.devices
      ensures DeviceTrue(codec, w', w'.devices[n])
    {
      if n != name {
        DeviceStaysTrue(codec, w, w', w.devices[n]);
      }
    }
  }

  /** A device changed, and whatever the buckets gained is good. */
  lemma DeviceStep(codec: Codec, w: World, w': World, name: string)
    requires Invariant(codec, w) && BlobsStay(codec, w, w') && Complete(codec, w')
    requires w'.devices.Keys == w.devices.Keys + {name}
    requires forall n :: n in w.devices && n != name ==> w'.devices[n] == w.devices[n]
    requires DeviceTrue(codec, w', w'.devices[name])
    ensures Invariant(codec, w')
  {
    hide HashesOf, Codec.Decodes, DeviceTrue, Complete, BlobsStay;
    forall n | n in w'.devices
      ensures DeviceTrue(codec, w', w'.devices[n])
    {
      if n != name {
        DeviceStaysTrue(codec, w, w', w.devices[n]);
      }
    }
  }

  lemma SkipKeepsInvariant(codec: Codec, w: World, name: string, e: Event)
    requires Invariant(codec, w) && name in w.devices && w.devices[name].upload.Some?
    requires e.Skip? || e.Open? || e.MarkUploaded?
    ensures Invariant(codec, ApplyUpload(w, name, e))
  {
    hide HashesOf, Codec.Decodes;
    assert DeviceTrue(codec, w, w.devices[name]);
    DeviceStep(codec, w, ApplyUpload(w, name, e), name);
  }

  lemma PutKeepsInvariant(codec: Codec, w: World, name: string)
    requires Invariant(codec, w) && name in w.devices && w.devices[name].upload.Some?
    ensures Invariant(codec, ApplyUpload(w, name, PutBlob(name)))
  {
    hide HashesOf, Codec.Decodes;
    var w' := ApplyUpload(w, name, PutBlob(name));
    assert DeviceTrue(codec, w, w.devices[name]);
    assert forall t :: t in w'.buckets ==> t in w.buckets && w'.buckets[t].manifests == w.buckets[t].manifests;
    DeviceStep(codec, w, w', name);
  }

  lemma MetadataKeepsInvariant(codec: Codec, w: World, name: string)
    requires Invariant(codec, w) && name in w.devices && w.devices[name].upload.Some?
    ensures Invariant(codec, ApplyUpload(w, name, PutMetadata(name)))
  {
    hide HashesOf, Codec.Decodes;
    var w' := ApplyUpload(w, name, PutMetadata(name));
    assert DeviceTrue(codec, w, w.devices[name]);
    assert forall t :: t in w'.buckets ==>
      t in w.buckets && w'.buckets[t].manifests == w.buckets[t].manifests && w'.buckets[t].blobs == w.buckets[t].blobs;
    DeviceStep(codec, w, w', name);
  }

  lemma PublishKeepsInvariant(codec: Codec, w: World, name: string)
    requires Invariant(codec, w) && name in w.devices && w.devices[name].upload.Some?
    ensures Invariant(codec, ApplyUpload(w, name, Publish(name)))
  {
    hide Codec.Decodes;
    var w' := ApplyUpload(w, name, Publish(name));
    assert DeviceTrue(codec, w, w.devices[name]);
    var u := w.devices[name].upload.value;
    assert HashesOf(u.snapshot.(synced := true)) == HashesOf(u.snapshot);
    hide HashesOf;
    DeviceStep(codec, w, w', name);
  }

  lemma UnpublishKeepsInvariant(codec: Codec, w: World, target: string, key: ManifestKey)
    requires Invariant(codec, w)
    ensures Invariant(codec, Apply(codec, w, Unpublish(target, key)))
  {
    hide HashesOf, Codec.Decodes;
    var w' := Apply(codec, w, Unpublish(target, key));
    forall n | n in w'.devices
      ensures DeviceTrue(codec, w', w'.devices[n])
    {
      DeviceStaysTrue(codec, w, w', w.devices[n]);
    }
  }

  lemma ApplyKeepsInvariant(codec: Codec, w: World, e: Event)
    requires Invariant(codec, w)
    ensures Invariant(codec, Apply(codec, w, e))
  {
    hide HashesOf, Codec.Decodes, ApplyUpload, ApplyLocal, Complete, DeviceTrue;
    if e.Unpublish? {
      UnpublishKeepsInvariant(codec, w, e.target, e.key);
    } else if e.device in w.devices {
      var d := w.devices[e.device];
      if e.Begin? {
        BeginKeepsInvariant(codec, w, e);
      } else if e.Index? || e.Forget? || e.Invalidate? || e.Stop? {
        LocalKeepsInvariant(codec, w, e.device, e);
      } else if d.upload.Some? {
        if e.PutBlob? {
          PutKeepsInvariant(codec, w, e.device);
        } else if e.PutMetadata? {
          MetadataKeepsInvariant(codec, w, e.device);
        } else if e.Publish? {
          PublishKeepsInvariant(codec, w, e.device);
        } else {
          SkipKeepsInvariant(codec, w, e.device, e);
        }
      }
    }
  }

  lemma BeginKeepsInvariant(codec: Codec, w: World, e: Event)
    requires Invariant(codec, w) && e.Begin? && e.device in w.devices
    ensures Invariant(codec, Apply(codec, w, e))
  {
    hide HashesOf, Codec.Decodes;
    assert DeviceTrue(codec, w, w.devices[e.device]);
    DeviceStep(codec, w, Apply(codec, w, e), e.device);
  }

  /** A world in which no device has indexed anything yet and no bucket shows a manifest. */
  ghost predicate Fresh(w: World) {
    && (forall n :: n in w.devices ==> w.devices[n] == Device(map[], None))
    && (forall t :: t in w.buckets ==> w.buckets[t].manifests == map[])
  }

  /**
   Remote completeness: whatever devices do, in whatever order, at every moment
   every manifest in every bucket has its game's metadata and all its blobs, and
   every upload mark tells the truth.
   */
  lemma {:induction false} BucketsComplete(codec: Codec, w: World, events: seq<Event>)
    requires Fresh(w)
    ensures Complete(codec, Run(codec, w, events))
    ensures Invariant(codec, Run(codec, w, events))
  {
    if events != [] {
      BucketsComplete(codec, w, events[..|events| - 1]);
      ApplyKeepsInvariant(codec, Run(codec, w, events[..|events| - 1]), events[|events| - 1]);
    }
  }

  /** What a device does to its own index: a hash that is indexed anew keeps its mark, and a new connection forgets the target's marks only. */
  lemma LocalEffects(codec: Codec, w: World, name: string, h: Hash, stored: Bytes, target: string)
    requires name in w.devices && codec.Decodes(stored, h)
    ensures Apply(codec, w, Index(name, h, stored)).devices[name].rows ==
            w.devices[name].rows[h := Row(stored, if h in w.devices[name].rows then w.devices[name].rows[h].uploadedTo else "")]
    ensures Apply(codec, w, Forget(name, h)).devices[name].rows == w.devices[name].rows - {h}
    ensures var rows, rows' := w.devices[name].rows, Apply(codec, w, Invalidate(name, target)).devices[name].rows;
            && rows'.Keys == rows.Keys
            && forall g :: g in rows ==>
                 rows'[g].stored == rows[g].stored
                 && rows'[g].uploadedTo == if rows[g].uploadedTo == target then "" else rows[g].uploadedTo
  {
  }

  /** Unpublishing hides one manifest and leaves every blob. */
  lemma UnpublishedOnly(codec: Codec, w: World, target: string, key: ManifestKey)
    requires target in w.buckets
    ensures Apply(codec, w, Unpublish(target, key)) ==
            w.(buckets := w.buckets[target := w.buckets[target].(manifests := w.buckets[target].manifests - {key})])
  {
  }

  // ----- The upload as the program runs it -----

  /** The events that the upload of a device makes. */
  predicate IsUploadOf(e: Event, name: string) {
    !e.Unpublish? && e.device == name
    && (e.Begin? || e.Skip? || e.Open? || e.PutBlob? || e.MarkUploaded? || e.PutMetadata? || e.Publish? || e.Stop?)
  }

  lemma OthersLeaveUpload(codec: Codec, w: World, e: Event, name: string)
    requires name in w.devices && !IsUploadOf(e, name)
    ensures name in Apply(codec, w, e).devices
    ensures Apply(codec, w, e).devices[name].upload == w.devices[name].upload
  {
  }

  /** The buckets and devices as one uploading process meets them: between any two of its effects others act. */
  class Network {
    const codec: Codec
    ghost const start: World
    ghost var trace: seq<Event>
    ghost var faults: nat     // how many requests have failed
    var world: World

    ghost predicate Valid()
      reads this
    {
      Fresh(start) && world == Run(codec, start, trace)
    }

    constructor (codec: Codec, world: World)
      requires Fresh(world)
      ensures Valid() && this.codec == codec && this.world == world && trace == []
    {
      this.codec, this.start, this.world, trace, faults := codec, world, world, [], 0;
    }

    method Do(e: Event)
      requires Valid()
      modifies this`world, this`trace
      ensures Valid() && trace == old(trace) + [e] && world == Apply(codec, old(world), e)
    {
      world := Apply(codec, world, e);
      trace := trace + [e];
      assert trace[..|trace| - 1] == old(trace);
    }

    /** Any number of events that are not of this device's upload. */
    method Others(name: string)
      requires Valid() && name in world.devices
      modifies this`world, this`trace
      ensures Valid() && old(trace) <= trace
      ensures name in world.devices && world.devices[name].upload == old(world).devices[name].upload
    {
      hide Fresh, Run, Apply;
      var n :| n >= 0;
      for i := 0 to n
        invariant Valid() && old(trace) <= trace
        invariant name in world.devices && world.devices[name].upload == old(world).devices[name].upload
      {
        var e: Event := *;
        if !IsUploadOf(e, name) {
          OthersLeaveUpload(codec, world, e, name);
          Do(e);
        }
      }
    }
  }

  lemma {:induction false} RunKeepsBuckets(codec: Codec, w: World, events: seq<Event>)
    ensures Run(codec, w, events).buckets.Keys == w.buckets.Keys
  {
    if events != [] {
      RunKeepsBuckets(codec, w, events[..|events| - 1]);
    }
  }

  /** At some moment since the first `from` events the device did not index one of the hashes. */
  ghost predicate Unindexed(codec: Codec, start: World, trace: seq<Event>, from: nat, name: string, hashes: set<Hash>) {
    exists i: nat, h :: from <= i <= |trace| && h in hashes && NotIndexed(Run(codec, start, trace[..i]), name, h)
  }

  ghost predicate NotIndexed(w: World, name: string, h: Hash) {
    name in w.devices && h !in w.devices[name].rows
  }

  lemma UnindexedNow(codec: Codec, start: World, trace: seq<Event>, from: nat, name: string, hashes: set<Hash>, h: Hash)
    requires from <= |trace| && h in hashes && NotIndexed(Run(codec, start, trace), name, h)
    ensures Unindexed(codec, start, trace, from, name, hashes)
  {
    assert trace[..|trace|] == trace;
  }

  lemma UnindexedStays(codec: Codec, start: World, trace: seq<Event>, more: seq<Event>, from: nat, from': nat, name: string,
                       hashes: set<Hash>, hashes': set<Hash>)
    requires Unindexed(codec, start, trace, from, name, hashes) && trace <= more && from' <= from && hashes <= hashes'
    ensures Unindexed(codec, start, more, from', name, hashes')
  {
    var i: nat, h :| from <= i <= |trace| && h in hashes && NotIndexed(Run(codec, start, trace[..i]), name, h);
    assert more[..i] == trace[..i];
  }

  /** The device is between two blobs of its upload, with at least `done` behind it. */
  ghost predicate Uploading(w: World, name: string, snapshot: Snapshot, target: string, done: set<Hash>) {
    && name in w.devices && w.devices[name].upload.Some?
    && var u := w.devices[name].upload.value;
       u.snapshot == snapshot && u.target == target && u.phase.Choosing? && done <= u.uploaded
  }

  /** The cache now says that the target has the blob, so it is not sent there again. */
  ghost predicate Remembered(d: Device, h: Hash, target: string) {
    h in d.rows ==> d.rows[h].uploadedTo == target
  }

  /** The second half of sending a blob: the opened file goes to the target and the row is marked. */
  method FinishBlob(net: Network, name: string, ghost h: Hash, ghost snapshot: Snapshot, ghost target: string,
                    ghost done: set<Hash>)
    returns (o: Outcome)
    requires net.Valid() && name in net.world.devices && net.world.devices[name].upload.Some?
    requires var u := net.world.devices[name].upload.value;
             u.snapshot == snapshot && u.target == target && done <= u.uploaded && u.phase.Opened? && u.phase.hash == h
    modifies net
    ensures net.Valid() && old(net.trace) <= net.trace && name in net.world.devices
    ensures !o.Crashed? && (o.Done? ==> Uploading(net.world, name, snapshot, target, done + {h}))
    ensures o.Done? ==> Remembered(net.world.devices[name], h, target)
    ensures net.faults >= old(net.faults) && (o.Failed? && target in net.start.buckets ==> net.faults > old(net.faults))
  {
    RunKeepsBuckets(net.codec, net.start, net.trace);
    hide Fresh, Run, ApplyLocal, HashesOf, Codec.Decodes;
    if net.world.devices[name].upload.value.target !in net.world.buckets {
      return Failed;
    }
    if * {
      net.faults := net.faults + 1;
      return Failed;
    }
    net.Do(PutBlob(name));
    if * {
      // the answer is lost
      net.faults := net.faults + 1;
      return Failed;
    }
    net.Others(name);
    net.Do(MarkUploaded(name));
    return Done;
  }

  /** Sends one blob unless the cache says that the target has it. */
  method EnsureBlob(net: Network, name: string, h: Hash, ghost snapshot: Snapshot, ghost target: string,
                    ghost done: set<Hash>)
    returns (o: Outcome)
    requires net.Valid() && Uploading(net.world, name, snapshot, target, done)
    modifies net
    ensures net.Valid() && old(net.trace) <= net.trace && name in net.world.devices
    ensures !o.Crashed? && (o.Done? ==> Uploading(net.world, name, snapshot, target, done + {h}))
    ensures o.Done? ==> Remembered(net.world.devices[name], h, target)
    // without a failed request only a missing bucket or row prevents it
    ensures net.faults >= old(net.faults)
    ensures o.Failed? && target in net.start.buckets ==>
      net.faults > old(net.faults) || Unindexed(net.codec, net.start, net.trace, |old(net.trace)|, name, {h})
  {
    hide Fresh, Run, ApplyLocal, HashesOf, Codec.Decodes, Unindexed;
    net.Others(name);
    var rows := net.world.devices[name].rows;
    if h !in rows {
      UnindexedNow(net.codec, net.start, net.trace, |old(net.trace)|, name, {h}, h);
      return Failed;
    }
    if rows[h].uploadedTo == net.world.devices[name].upload.value.target {
      net.Do(Skip(name, h));
      return Done;
    }
    net.Others(name);
    if h !in net.world.devices[name].rows {
      UnindexedNow(net.codec, net.start, net.trace, |old(net.trace)|, name, {h}, h);
      return Failed;
    }
    if * {
      // the file cannot be opened
      net.faults := net.faults + 1;
      return Failed;
    }
    net.Do(Open(name, h));
    net.Others(name);
    o := FinishBlob(net, name, h, snapshot, target, done);
  }

  /** After event `j` of the trace, the bucket has the snapshot's metadata as that of its game. */
  ghost predicate DescribedAt(codec: Codec, start: World, trace: seq<Event>, j: nat, snapshot: Snapshot, target: string) {
    && j < |trace|
    && var w := Run(codec, start, trace[..j + 1]);
       && target in w.buckets && snapshot.gameID in w.buckets[target].metadata
       && w.buckets[target].metadata[snapshot.gameID] == snapshot.metadata
  }

  lemma DescribedNow(codec: Codec, start: World, trace: seq<Event>, w: World, name: string, snapshot: Snapshot, target: string)
    requires w == Run(codec, start, trace) && target in w.buckets
    requires Uploading(w, name, snapshot, target, HashesOf(snapshot))
    ensures DescribedAt(codec, start, trace + [PutMetadata(name)], |trace|, snapshot, target)
  {
    var more := trace + [PutMetadata(name)];
    assert more[..|more| - 1] == trace && more[..|trace| + 1] == more;
  }

  /**
   After event `i` of the trace, the manifest is in the bucket and all its blobs
   are; the snapshot's metadata was put there for its game not later.
   */
  ghost predicate PublishedAt(codec: Codec, start: World, trace: seq<Event>, i: nat, snapshot: Snapshot, target: string) {
    && i < |trace|
    && (exists j: nat :: j < i && DescribedAt(codec, start, trace, j, snapshot, target))
    && var w := Run(codec, start, trace[..i + 1]);
       && target in w.buckets && KeyOf(snapshot) in w.buckets[target].manifests
       && w.buckets[target].manifests[KeyOf(snapshot)] == snapshot.(synced := true)
       && Described(w, target, snapshot.gameID)
       && forall h :: h in HashesOf(snapshot) ==> Uploaded(codec, w, target, h)
  }

  lemma PublishedNow(codec: Codec, start: World, trace: seq<Event>, w: World, name: string, snapshot: Snapshot,
                     target: string, j: nat)
    requires Fresh(start) && w == Run(codec, start, trace) && target in w.buckets
    requires DescribedAt(codec, start, trace, j, snapshot, target)
    requires Uploading(w, name, snapshot, target, HashesOf(snapshot)) && w.devices[name].upload.value.described
    ensures PublishedAt(codec, start, trace + [Publish(name)], |trace|, snapshot, target)
  {
    var more := trace + [Publish(name)];
    assert more[..|more| - 1] == trace && more[..|trace| + 1] == more;
    var w' := Run(codec, start, more);
    assert w' == Apply(codec, w, Publish(name));
    BucketsComplete(codec, start, more);
    assert HashesOf(snapshot.(synced := true)) == HashesOf(snapshot);
    ManifestPut(codec, w, name, snapshot, target);
    hide Uploaded, Apply, Run, HashesOf, KeyOf, Fresh, Invariant, Described, Uploading;
    assert KeyOf(snapshot).0 == snapshot.gameID by { KeyIsOfGame(snapshot); }
    DescribedStays(codec, start, trace, more, j, snapshot, target);
  }

  lemma ManifestPut(codec: Codec, w: World, name: string, snapshot: Snapshot, target: string)
    requires Uploading(w, name, snapshot, target, HashesOf(snapshot)) && w.devices[name].upload.value.described && target in w.buckets
    ensures var w' := Apply(codec, w, Publish(name));
            && target in w'.buckets && KeyOf(snapshot) in w'.buckets[target].manifests
            && w'.buckets[target].manifests[KeyOf(snapshot)] == snapshot.(synced := true)
  {
    hide HashesOf;
  }

  lemma KeyIsOfGame(s: Snapshot)
    ensures KeyOf(s).0 == s.gameID
  {
  }

  lemma DescribedStays(codec: Codec, start: World, trace: seq<Event>, more: seq<Event>, j: nat, snapshot: Snapshot, target: string)
    requires DescribedAt(codec, start, trace, j, snapshot, target) && trace <= more
    ensures DescribedAt(codec, start, more, j, snapshot, target)
  {
    assert trace[..j + 1] == more[..j + 1];
  }

  lemma PublishedStays(codec: Codec, start: World, trace: seq<Event>, more: seq<Event>, i: nat, snapshot: Snapshot,
                       target: string)
    requires PublishedAt(codec, start, trace, i, snapshot, target) && trace <= more
    ensures PublishedAt(codec, start, more, i, snapshot, target)
  {
    assert trace[..i + 1] == more[..i + 1];
    var j: nat :| j < i && DescribedAt(codec, start, trace, j, snapshot, target);
    DescribedStays(codec, start, trace, more, j, snapshot, target);
  }

  lemma StepKeepsDevice(codec: Codec, w: World, name: string, e: Event)
    requires name in w.devices
    ensures name in Apply(codec, w, e).devices
  {
  }

  lemma BeginAndStop(codec: Codec, w: World, name: string, snapshot: Snapshot, target: string)
    requires name in w.devices
    ensures w.devices[name].upload.None? && target != "" ==>
              Uploading(Apply(codec, w, Begin(name, snapshot, target)), name, snapshot, target, {})
    ensures var stopped := Apply(codec, w, Stop(name)); name in stopped.devices && stopped.devices[name].upload.None?
  {
  }

  /** Sends every blob of a snapshot, each once. */
  method SendBlobs(net: Network, name: string, snapshot: Snapshot, ghost target: string)
    returns (o: Outcome)
    requires net.Valid() && Uploading(net.world, name, snapshot, target, {})
    modifies net
    ensures net.Valid() && old(net.trace) <= net.trace && name in net.world.devices
    ensures o.Done? ==> Uploading(net.world, name, snapshot, target, HashesOf(snapshot))
    ensures net.faults >= old(net.faults)
    ensures o.Failed? && target in net.start.buckets ==>
      net.faults > old(net.faults) || Unindexed(net.codec, net.start, net.trace, |old(net.trace)|, name, HashesOf(snapshot))
    ensures !o.Crashed?
  {
    hide Fresh, Run, Uploaded, Unindexed;
    var uploaded: set<Hash> := {};
    for i := 0 to |snapshot.files|
      invariant net.Valid() && old(net.trace) <= net.trace && net.faults >= old(net.faults)
      invariant uploaded == set j | 0 <= j < i :: snapshot.files[j].hash
      invariant Uploading(net.world, name, snapshot, target, uploaded)
    {
      var h := snapshot.files[i].hash;
      if h !in uploaded {
        ghost var before := |net.trace|;
        o := EnsureBlob(net, name, h, snapshot, target, uploaded);
        if !o.Done? {
          assert h in HashesOf(snapshot);
          if Unindexed(net.codec, net.start, net.trace, before, name, {h}) {
            UnindexedStays(net.codec, net.start, net.trace, net.trace, before, |old(net.trace)|, name, {h}, HashesOf(snapshot));
          }
          return;
        }
        uploaded := uploaded + {h};
      }
    }
    assert uploaded == set f | f in snapshot.files :: f.hash;
    o := Done;
    if snapshot.registry.Some? && snapshot.registry.value.hash !in uploaded {
      var h := snapshot.registry.value.hash;
      ghost var before := |net.trace|;
      o := EnsureBlob(net, name, h, snapshot, target, uploaded);
      if Unindexed(net.codec, net.start, net.trace, before, name, {h}) {
        UnindexedStays(net.codec, net.start, net.trace, net.trace, before, |old(net.trace)|, name, {h}, HashesOf(snapshot));
      }
    }
  }

  lemma MetadataPut(codec: Codec, w: World, name: string, snapshot: Snapshot, target: string)
    requires Uploading(w, name, snapshot, target, HashesOf(snapshot)) && target in w.buckets
    ensures var w' := Apply(codec, w, PutMetadata(name));
            Uploading(w', name, snapshot, target, HashesOf(snapshot)) && w'.devices[name].upload.value.described
  {
    hide HashesOf;
  }

  /** Uploads a snapshot: its blobs, then the metadata of its game, then its manifest. */
  method UploadSnapshot(net: Network, name: string, snapshot: Snapshot, target: string)
    returns (o: Outcome)
    requires net.Valid() && name in net.world.devices && net.world.devices[name].upload.None? && target != ""
    modifies net
    ensures net.Valid() && old(net.trace) <= net.trace
    ensures name in net.world.devices && net.world.devices[name].upload.None?
    ensures o.Done? ==> exists i: nat :: |old(net.trace)| <= i && PublishedAt(net.codec, net.start, net.trace, i, snapshot, target)
    ensures Complete(net.codec, net.world)
    // without a failed request only a missing bucket or row prevents it
    ensures net.faults >= old(net.faults) && !o.Crashed?
    ensures o.Failed? && target in net.start.buckets ==>
      net.faults > old(net.faults) || Unindexed(net.codec, net.start, net.trace, |old(net.trace)|, name, HashesOf(snapshot))
  {
    hide Fresh, Run, Complete, Uploaded, PublishedAt, DescribedAt, Apply, KeyOf, HashesOf, Unindexed;
    BeginAndStop(net.codec, net.world, name, snapshot, target);
    net.Do(Begin(name, snapshot, target));
    ghost var begun := |net.trace|;
    o := SendBlobs(net, name, snapshot, target);
    ghost var sent := net.trace;
    if o.Done? {
      o := SendMetadata(net, name, snapshot, target);
    }
    if o.Done? {
      o := SendManifest(net, name, snapshot, target);
    }
    ghost var finished := net.trace;
    BeginAndStop(net.codec, net.world, name, snapshot, target);
    net.Do(Stop(name));
    BucketsComplete(net.codec, net.start, net.trace);
    if o.Done? {
      ghost var i: nat :| begun <= i && PublishedAt(net.codec, net.start, finished, i, snapshot, target);
      PublishedStays(net.codec, net.start, finished, net.trace, i, snapshot, target);
    }
    if Unindexed(net.codec, net.start, sent, begun, name, HashesOf(snapshot)) {
      UnindexedStays(net.codec, net.start, sent, net.trace, begun, |old(net.trace)|, name, HashesOf(snapshot), HashesOf(snapshot));
    }
  }

  /** The metadata object of the game. */
  method SendMetadata(net: Network, name: string, snapshot: Snapshot, ghost target: string) returns (o: Outcome)
    requires net.Valid() && Uploading(net.world, name, snapshot, target, HashesOf(snapshot))
    modifies net
    ensures net.Valid() && old(net.trace) <= net.trace && name in net.world.devices && !o.Crashed?
    ensures net.faults >= old(net.faults) && (o.Failed? && target in net.start.buckets ==> net.faults > old(net.faults))
    ensures o.Done? ==> Uploading(net.world, name, snapshot, target, HashesOf(snapshot)) && net.world.devices[name].upload.value.described
    ensures o.Done? ==> exists j: nat :: DescribedAt(net.codec, net.start, net.trace, j, snapshot, target)
  {
    RunKeepsBuckets(net.codec, net.start, net.trace);
    hide Fresh, Run, Uploaded, DescribedAt, Apply, HashesOf;
    net.Others(name);
    if net.world.devices[name].upload.value.target !in net.world.buckets {
      BucketIsMissing(net.codec, net.start, net.trace, net.world, target);
      return Failed;
    }
    if * {
      net.faults := net.faults + 1;
      return Failed;
    }
    ghost var before := net.trace;
    MetadataPut(net.codec, net.world, name, snapshot, target);
    DescribedNow(net.codec, net.start, before, net.world, name, snapshot, target);
    net.Do(PutMetadata(name));
    net.Others(name);
    DescribedStays(net.codec, net.start, before + [PutMetadata(name)], net.trace, |before|, snapshot, target);
    if * {
      // the answer is lost
      net.faults := net.faults + 1;
      return Failed;
    }
    return Done;
  }

  lemma BucketIsMissing(codec: Codec, start: World, trace: seq<Event>, w: World, target: string)
    requires w == Run(codec, start, trace)
    ensures target in w.buckets <==> target in start.buckets
  {
    RunKeepsBuckets(codec, start, trace);
  }

  /** The manifest. */
  method SendManifest(net: Network, name: string, snapshot: Snapshot, ghost target: string) returns (o: Outcome)
    requires net.Valid() && Uploading(net.world, name, snapshot, target, HashesOf(snapshot))
    requires net.world.devices[name].upload.value.described
    requires exists j: nat :: DescribedAt(net.codec, net.start, net.trace, j, snapshot, target)
    modifies net
    ensures net.Valid() && old(net.trace) <= net.trace && name in net.world.devices && !o.Crashed?
    ensures net.faults >= old(net.faults) && (o.Failed? && target in net.start.buckets ==> net.faults > old(net.faults))
    ensures o.Done? ==> exists i: nat :: |old(net.trace)| <= i && PublishedAt(net.codec, net.start, net.trace, i, snapshot, target)
  {
    hide Fresh, Run, Uploaded, PublishedAt, DescribedAt, Apply, HashesOf, KeyOf;
    BucketIsMissing(net.codec, net.start, net.trace, net.world, target);
    if net.world.devices[name].upload.value.target !in net.world.buckets {
      return Failed;
    }
    if * {
      net.faults := net.faults + 1;
      return Failed;
    }
    ghost var before := net.trace;
    ghost var j: nat :| DescribedAt(net.codec, net.start, net.trace, j, snapshot, target);
    StepKeepsDevice(net.codec, net.world, name, Publish(name));
    PublishedNow(net.codec, net.start, before, net.world, name, snapshot, target, j);
    net.Do(Publish(name));
    net.Others(name);
    PublishedStays(net.codec, net.start, before + [Publish(name)], net.trace, |before|, snapshot, target);
    if * {
      // the answer is lost
      net.faults := net.faults + 1;
      return Failed;
    }
    return Done;
  }
}
