/**
 Removing the source files that committed moves left behind.
 */
module SourceCleanup {
  import opened Files
  import opened Snapshots
  import opened BlobStore
  import opened Artifacts

  /** The hash is indexed where the row says, under the row's root. */
  predicate Current(blobs: map<Hash, BlobRow>, k: PendingKey, v: PendingValue) {
    k.hash in blobs && blobs[k.hash].path == v.replacement && WithinRoot(v.replacement, k.root)
  }

  /** Some indexed path is `source`, or is the same physical file. */
  predicate IndexedAs(d: Disk, blobs: map<Hash, BlobRow>, source: Path) {
    exists h :: h in blobs && (source == blobs[h].path || d.SameFile(source, blobs[h].path))
  }

  method HasIndexedBlobPathReference(d: Disk, blobs: map<Hash, BlobRow>, source: Path) returns (referenced: bool)
    ensures referenced <==> IndexedAs(d, blobs, source)
  {
    var todo := blobs.Keys;
    while todo != {}
      invariant todo <= blobs.Keys
      invariant forall h :: h in blobs && h !in todo ==> source != blobs[h].path && !d.SameFile(source, blobs[h].path)
      decreases todo
    {
      var h :| h in todo;
      todo := todo - {h};
      if source == blobs[h].path || d.SameFile(source, blobs[h].path) {
        return true;
      }
    }
    return false;
  }

  /** Unlinking a file that no index entry resolves to leaves every indexed file. */
  lemma UnlinkKeepsIndexed(d: Disk, blobs: map<Hash, BlobRow>, source: Path)
    requires !IndexedAs(d, blobs, source)
    ensures KeepsIndexed(d, d.Unlink(source), blobs)
  {
    forall h | h in blobs && d.Has(blobs[h].path)
      ensures d.At(blobs[h].path) != d.At(source)
    {
      assert !d.SameFile(source, blobs[h].path);
    }
  }

  /** What a row leads to verifies, as far as the row is current. */
  ghost predicate RowVerifies(codec: Codec, d: Disk, blobs: map<Hash, BlobRow>, k: PendingKey, v: PendingValue)
    requires d.Valid()
  {
    Current(blobs, k, v) ==> d.Verified(codec, v.replacement, k.hash, v.size)
  }

  ghost predicate RowsVerify(codec: Codec, d: Disk, blobs: map<Hash, BlobRow>, pending: PendingTable)
    requires d.Valid()
  {
    forall k :: k in pending ==> RowVerifies(codec, d, blobs, k, pending[k])
  }

  /** Where digests do not collide, files are enough. */
  lemma PresentRowsVerify(codec: Codec, d: Disk, blobs: map<Hash, BlobRow>, pending: PendingTable, artifacts: Journal)
    requires d.Valid() && Trusted(codec, d) && BlobsNamed(blobs) && SizesTrue(codec, blobs, pending, artifacts) && codec.CollisionFree()
    requires AllPresent(d, blobs, blobs.Keys)
    ensures RowsVerify(codec, d, blobs, pending)
  {
    forall k | k in pending && Current(blobs, k, pending[k])
      ensures d.Verified(codec, pending[k].replacement, k.hash, pending[k].size)
    {
      assert k.hash in blobs.Keys;
      TrueSizeVerifies(codec, d, pending[k].replacement, k.hash, pending[k].size);
    }
  }

  lemma RowStillVerifies(codec: Codec, d: Disk, d': Disk, blobs: map<Hash, BlobRow>, k: PendingKey, v: PendingValue)
    requires d.Valid() && d'.Valid() && KeepsIndexed(d, d', blobs) && OnlyShrinks(d, d') && RowVerifies(codec, d, blobs, k, v)
    ensures RowVerifies(codec, d', blobs, k, v)
  {
    if Current(blobs, k, v) {
      assert d'.Has(v.replacement) && d'.Read(v.replacement) == d.Read(v.replacement);
    }
  }

  /** One row of the table, as it was listed. */
  method CleanupPendingBlobSource(s: Store, k: PendingKey, v: PendingValue) returns (o: Outcome)
    requires s.Valid()
    modifies s`disk, s`pending, s`faults
    ensures s.Valid() && KeepsIndexed(old(s.disk), s.disk, s.blobs)
    ensures s.disk == old(s.disk) || s.disk == old(s.disk).Unlink(k.source)
    ensures s.pending == old(s.pending) || s.pending == old(s.pending) - {k}
    // the file goes only when the row is current and nothing indexed is that file
    ensures s.disk != old(s.disk) ==>
      Current(s.blobs, k, v) && s.disk.Has(v.replacement) && !IndexedAs(old(s.disk), s.blobs, k.source)
    // the row goes only when the file is gone or is the replacement itself
    ensures s.pending != old(s.pending) ==>
      Current(s.blobs, k, v) && (old(s.disk).SameFile(k.source, v.replacement) || s.disk == old(s.disk).Unlink(k.source))
    ensures o.Done? && Current(s.blobs, k, v) ==>
      || IndexedAs(old(s.disk), s.blobs, k.source)
      || (s.disk == old(s.disk).Unlink(k.source) && s.pending == old(s.pending) - {k})
    ensures o.Done? && Current(s.blobs, k, v) && old(s.disk).SameFile(k.source, v.replacement) ==> s.pending == old(s.pending) - {k}
    ensures s.faults >= old(s.faults)
    ensures o.Failed? && RowVerifies(s.codec, old(s.disk), s.blobs, k, v) ==> s.faults > old(s.faults)
  {
    assert Canonical(s.pending - {k}) && SizesTrue(s.codec, s.blobs, s.pending - {k}, s.artifacts);
    hide Canonical, SizesTrue, RefsExact, JournalNamed, Trusted, BlobsNamed;
    if * {
      s.faults := s.faults + 1;
      return Failed;
    }
    if k.hash !in s.blobs {
      return Done;
    }
    var indexed := s.blobs[k.hash].path;
    if indexed != v.replacement || !WithinRoot(indexed, k.root) {
      return Done;
    }
    if !s.disk.Verified(s.codec, indexed, k.hash, v.size) {
      return Failed;
    }
    if * {
      s.faults := s.faults + 1;
      return Failed;
    }
    if s.disk.SameFile(k.source, indexed) {
      if * {
        s.faults := s.faults + 1;
        return Failed;
      }
      s.pending := s.pending - {k};
      return Done;
    }
    var referenced := HasIndexedBlobPathReference(s.disk, s.blobs, k.source);
    if referenced {
      return Done;
    }
    if * {
      s.faults := s.faults + 1;
      return Failed;
    }
    UnlinkKeepsIndexed(s.disk, s.blobs, k.source);
    s.disk := s.disk.Unlink(k.source);
    if * {
      return Crashed;
    }
    if * {
      s.faults := s.faults + 1;
      return Failed;
    }
    s.pending := s.pending - {k};
    return Done;
  }

  // ----- No cleanup work is lost -----

  /** `l` once held the indexed hash `h`, still has a file, and is not where `h` is indexed now. */
  ghost predicate LeftBehind(d: Disk, blobs: map<Hash, BlobRow>, history: set<(Hash, Path)>, h: Hash, l: Path) {
    (h, l) in history && h in blobs && d.Has(l) && d.At(l) != d.At(blobs[h].path)
  }

  ghost predicate OnlyClaimedLeft(d: Disk, blobs: map<Hash, BlobRow>, history: set<(Hash, Path)>, claims: set<Path>) {
    forall h, l :: LeftBehind(d, blobs, history, h, l) ==> d.At(l) in claims
  }

  ghost predicate NoneLeftBehind(d: Disk, blobs: map<Hash, BlobRow>, history: set<(Hash, Path)>) {
    forall h, l :: !LeftBehind(d, blobs, history, h, l)
  }

  /** A row for the current root leads from the location of `l` to where `h` is indexed. */
  ghost predicate Scheduled(d: Disk, blobs: map<Hash, BlobRow>, pending: PendingTable, root: Dir, h: Hash, l: Path) {
    h in blobs && exists k :: k in pending && k.root == root && k.hash == h && d.At(k.source) == d.At(l)
                              && pending[k].replacement == blobs[h].path
  }

  ghost predicate IndexedUnder(blobs: map<Hash, BlobRow>, root: Dir, history: set<(Hash, Path)>) {
    forall h :: h in blobs ==> blobs[h].path == BlobPath(root, h) && (h, blobs[h].path) in history
  }

  /** Every source is a path that its hash was once indexed at. */
  ghost predicate SourcesRecorded(pending: PendingTable, history: set<(Hash, Path)>) {
    forall k :: k in pending ==> k.source.name == BlobName(k.hash) && (k.hash, k.source) in history
  }

  /** Every left-behind file has a row, or is one of the locations that the journal claims. */
  ghost predicate Tracked(d: Disk, blobs: map<Hash, BlobRow>, pending: PendingTable, root: Dir, history: set<(Hash, Path)>,
                          claims: set<Path>) {
    && IndexedUnder(blobs, root, history)
    && SourcesRecorded(pending, history)
    && (forall e :: e in history ==> e.1.name == BlobName(e.0))
    && forall h, l :: LeftBehind(d, blobs, history, h, l) ==> Scheduled(d, blobs, pending, root, h, l) || d.At(l) in claims
  }

  /** No two blob files are hard links to one another. */
  ghost predicate Unshared(d: Disk) {
    forall l, l' :: l in d.links && l' in d.links && l.name.BlobName? && l'.name.BlobName? && d.links[l] == d.links[l'] ==> l == l'
  }

  /** A source that resolves to an indexed file resolves to the place of its own hash. */
  lemma IndexedAsOwnPlace(codec: Codec, d: Disk, blobs: map<Hash, BlobRow>, k: PendingKey)
    requires d.Valid() && Trusted(codec, d) && Unshared(d) && BlobsNamed(blobs)
    requires k.source.name == BlobName(k.hash) && k.hash in blobs && IndexedAs(d, blobs, k.source)
    ensures d.At(k.source) == d.At(blobs[k.hash].path)
  {
    var h :| h in blobs && (k.source == blobs[h].path || d.SameFile(k.source, blobs[h].path));
    assert d.At(k.source).name == BlobName(k.hash) && d.At(blobs[h].path).name == BlobName(h);
    assert d.At(k.source) == d.At(blobs[h].path);
  }

  /** One row's cleanup, however it ends, loses track of nothing. */
  lemma CleanupKeepsTracked(codec: Codec, d: Disk, d': Disk, blobs: map<Hash, BlobRow>, p: PendingTable, p': PendingTable,
                            root: Dir, history: set<(Hash, Path)>, claims: set<Path>, k: PendingKey, v: PendingValue)
    requires d.Valid() && Trusted(codec, d) && Unshared(d) && BlobsNamed(blobs)
    requires Tracked(d, blobs, p, root, history, claims) && k.source.name == BlobName(k.hash)
    requires d' == d || d' == d.Unlink(k.source)
    requires p' == p || p' == p - {k}
    requires p' != p ==> Current(blobs, k, v) && (d.SameFile(k.source, v.replacement) || d' == d.Unlink(k.source))
    ensures Tracked(d', blobs, p', root, history, claims)
  {
    forall h, l | LeftBehind(d', blobs, history, h, l) && d.At(l) !in claims
      ensures Scheduled(d', blobs, p', root, h, l)
    {
      assert LeftBehind(d, blobs, history, h, l);
      var j :| j in p && j.root == root && j.hash == h && d.At(j.source) == d.At(l) && p[j].replacement == blobs[h].path;
      if p' != p && d.SameFile(k.source, v.replacement) {
        assert IndexedAs(d, blobs, k.source);
        IndexedAsOwnPlace(codec, d, blobs, k);
      }
      assert j in p';
    }
  }

  /** A finished row: its file is gone, or is the indexed file of its own hash. */
  ghost predicate Finished(d: Disk, blobs: map<Hash, BlobRow>, k: PendingKey, v: PendingValue) {
    Current(blobs, k, v) ==> !d.Has(k.source) || d.At(k.source) == d.At(v.replacement)
  }

  /** Only files left behind went between the two disks. */
  ghost predicate OnlyLeftBehindGone(d0: Disk, d: Disk, blobs: map<Hash, BlobRow>, history: set<(Hash, Path)>) {
    && d.alias == d0.alias && d.data == d0.data
    && (forall l :: l in d.links ==> l in d0.links && d.links[l] == d0.links[l])
    && (forall l :: l in d0.links && l !in d.links ==>
          exists e :: e in history && d0.At(e.1) == l && LeftBehind(d0, blobs, history, e.0, e.1))
  }

  lemma OneMoreSourceGone(d0: Disk, d: Disk, d': Disk, blobs: map<Hash, BlobRow>, history: set<(Hash, Path)>,
                          k: PendingKey, v: PendingValue)
    requires OnlyLeftBehindGone(d0, d, blobs, history)
    requires d' == d || (d' == d.Unlink(k.source) && Current(blobs, k, v) && d'.Has(v.replacement)
                         && !IndexedAs(d, blobs, k.source) && (k.hash, k.source) in history)
    ensures OnlyLeftBehindGone(d0, d', blobs, history)
  {
    forall l | l in d0.links && l !in d'.links
      ensures exists e :: e in history && d0.At(e.1) == l && LeftBehind(d0, blobs, history, e.0, e.1)
    {
      if l in d.links {
        assert l == d.At(k.source);
        assert LeftBehind(d0, blobs, history, k.hash, k.source);
        assert (k.hash, k.source) in history && d0.At((k.hash, k.source).1) == l;
      }
    }
  }

  /** Where the pass over the table stands: on track, with only left-behind files gone. */
  ghost predicate OnTrack(d0: Disk, d: Disk, blobs: map<Hash, BlobRow>, p: PendingTable, root: Dir,
                          history: set<(Hash, Path)>, claims: set<Path>) {
    Unshared(d) && Tracked(d, blobs, p, root, history, claims) && OnlyLeftBehindGone(d0, d, blobs, history)
  }

  /** One row of the pass. */
  method CleanupListedRow(s: Store, k: PendingKey, v: PendingValue, ghost root: Dir, ghost claims: set<Path>, ghost d0: Disk)
    returns (o: Outcome)
    requires s.Valid()
    modifies s`disk, s`pending, s`faults
    ensures s.Valid() && KeepsIndexed(old(s.disk), s.disk, s.blobs)
    ensures s.disk.links.Keys <= old(s.disk.links.Keys)
    ensures OnlyShrinks(old(s.disk), s.disk)
    ensures s.pending == old(s.pending) || s.pending == old(s.pending) - {k}
    ensures s.faults >= old(s.faults)
    ensures o.Failed? && RowVerifies(s.codec, old(s.disk), s.blobs, k, v) ==> s.faults > old(s.faults)
    ensures k.source.name == BlobName(k.hash) && (k.hash, k.source) in s.history
            && old(OnTrack(d0, s.disk, s.blobs, s.pending, root, s.history, claims)) ==>
      && OnTrack(d0, s.disk, s.blobs, s.pending, root, s.history, claims)
      && (o.Done? ==> Finished(s.disk, s.blobs, k, v))
  {
    hide Tracked, OnlyLeftBehindGone, KeepsIndexed, RefsExact, JournalNamed, Canonical, SizesTrue, RowVerifies;
    o := CleanupPendingBlobSource(s, k, v);
    ghost var ready := k.source.name == BlobName(k.hash) && (k.hash, k.source) in s.history
                       && old(OnTrack(d0, s.disk, s.blobs, s.pending, root, s.history, claims));
    if ready {
      CleanupKeepsTracked(s.codec, old(s.disk), s.disk, s.blobs, old(s.pending), s.pending, root, s.history, claims, k, v);
      if s.disk != old(s.disk) {
        UnlinkKeepsIndexed(old(s.disk), s.blobs, k.source);
        assert s.disk.Has(v.replacement);
      }
      OneMoreSourceGone(d0, old(s.disk), s.disk, s.blobs, s.history, k, v);
      if o.Done? && Current(s.blobs, k, v) && IndexedAs(old(s.disk), s.blobs, k.source) {
        IndexedAsOwnPlace(s.codec, old(s.disk), s.blobs, k);
      }
    }
  }

  /** Between two moments of the pass indexed files stay and no file comes. */
  ghost predicate Kept(d: Disk, d': Disk, blobs: map<Hash, BlobRow>) {
    KeepsIndexed(d, d', blobs) && OnlyShrinks(d, d')
  }

  ghost predicate FewerRows(p: PendingTable, listed: PendingTable) {
    forall k :: k in p ==> k in listed && p[k] == listed[k]
  }

  /** The listed rows of the root are finished, but for those still to do. */
  ghost predicate Passed(d: Disk, blobs: map<Hash, BlobRow>, listed: PendingTable, todo: set<PendingKey>, root: Dir) {
    forall k :: k in listed && k !in todo && k.root == root ==> Finished(d, blobs, k, listed[k])
  }

  /** Where a pass that began on `d0` stands; with `tracked` it began on track, with `smooth` nothing has failed. */
  ghost predicate Passing(d0: Disk, d: Disk, blobs: map<Hash, BlobRow>, p: PendingTable, listed: PendingTable, todo: set<PendingKey>,
                          root: Dir, history: set<(Hash, Path)>, claims: set<Path>, tracked: bool, smooth: bool) {
    && Kept(d0, d, blobs) && FewerRows(p, listed)
    && (tracked ==> SourcesRecorded(listed, history) && OnTrack(d0, d, blobs, p, root, history, claims))
    && (tracked && smooth ==> Passed(d, blobs, listed, todo, root))
  }

  /** One listed row in the middle of the pass. */
  method PassRow(s: Store, listed: PendingTable, k: PendingKey, ghost todo: set<PendingKey>, ghost root: Dir, ghost claims: set<Path>,
                 ghost d0: Disk, ghost tracked: bool, ghost smooth: bool)
    returns (o: Outcome)
    requires s.Valid() && d0.Valid() && k in listed
    requires Passing(d0, s.disk, s.blobs, s.pending, listed, todo, root, s.history, claims, tracked, smooth)
    modifies s`disk, s`pending, s`faults
    ensures s.Valid() && s.faults >= old(s.faults)
    ensures o.Failed? && RowsVerify(s.codec, d0, s.blobs, listed) ==> s.faults > old(s.faults)
    ensures Passing(d0, s.disk, s.blobs, s.pending, listed, todo - {k}, root, s.history, claims, tracked, smooth && o.Done?)
  {
    hide OnTrack, RefsExact, JournalNamed, BlobsNamed, Trusted, Canonical, SizesTrue, RowVerifies, Finished, KeepsIndexed, OnlyShrinks;
    ghost var before := s.disk;
    if RowsVerify(s.codec, d0, s.blobs, listed) {
      RowStillVerifies(s.codec, d0, before, s.blobs, k, listed[k]);
    }
    if * {
      return Crashed;
    }
    o := CleanupListedRow(s, k, listed[k], root, claims, d0);
    KeptTwice(d0, before, s.disk, s.blobs);
    FinishedStays(before, s.disk, s.blobs, listed);
  }

  lemma KeptTwice(d0: Disk, d1: Disk, d2: Disk, blobs: map<Hash, BlobRow>)
    requires Kept(d0, d1, blobs) && Kept(d1, d2, blobs)
    ensures Kept(d0, d2, blobs)
  {
  }

  /** The rows of the active root, one after the other; a failure stops none of the others. */
  method PassOverSources(s: Store, activeRoot: Option<Dir>, ghost root: Dir, ghost claims: set<Path>, ghost tracked: bool)
    returns (o: Outcome)
    requires s.Valid() && (tracked ==> Unshared(s.disk) && Tracked(s.disk, s.blobs, s.pending, root, s.history, claims))
    modifies s`disk, s`pending, s`faults
    ensures s.Valid() && Kept(old(s.disk), s.disk, s.blobs) && FewerRows(s.pending, old(s.pending))
    ensures s.faults >= old(s.faults)
    ensures o.Failed? && RowsVerify(s.codec, old(s.disk), s.blobs, old(s.pending)) ==> s.faults > old(s.faults)
    ensures tracked ==> OnTrack(old(s.disk), s.disk, s.blobs, s.pending, root, s.history, claims)
    ensures tracked && o.Done? && (activeRoot.Some? ==> activeRoot.value == root) ==>
      OnlyClaimedLeft(s.disk, s.blobs, s.history, claims)
  {
    var listed := s.pending;
    ghost var d0, all := s.disk, activeRoot.Some? ==> activeRoot.value == root;
    assert d0.Valid();
    PassStarts(d0, s.blobs, listed, root, s.history, claims, tracked);
    hide Tracked, OnTrack, RefsExact, JournalNamed, BlobsNamed, Trusted, Unshared, LeftBehind, Canonical, SizesTrue,
      RowsVerify, OnlyClaimedLeft, Passing, Kept, FewerRows, Store.Valid, Disk.Valid;
    var todo := listed.Keys;
    o := Done;
    while todo != {} && !o.Crashed?
      invariant s.Valid() && s.faults >= old(s.faults) && todo <= listed.Keys
      invariant o.Failed? && RowsVerify(s.codec, d0, s.blobs, listed) ==> s.faults > old(s.faults)
      invariant Passing(d0, s.disk, s.blobs, s.pending, listed, todo, root, s.history, claims, tracked, all && o.Done?)
      decreases todo
    {
      var k :| k in todo;
      if activeRoot.None? || activeRoot.value == k.root {
        var r := PassRow(s, listed, k, todo, root, claims, d0, tracked, all && o.Done?);
        o := if r.Done? then o else if r.Crashed? then Crashed else Failed;
      } else {
        OtherRootPassed(d0, s.disk, s.blobs, s.pending, listed, todo, root, s.history, claims, tracked, all && o.Done?, k);
      }
      todo := todo - {k};
    }
    PassEnds(d0, s.disk, s.blobs, s.pending, listed, todo, root, s.history, claims, tracked, all && o.Done?);
  }

  lemma PassStarts(d: Disk, blobs: map<Hash, BlobRow>, p: PendingTable, root: Dir, history: set<(Hash, Path)>, claims: set<Path>,
                   tracked: bool)
    requires tracked ==> Unshared(d) && Tracked(d, blobs, p, root, history, claims)
    ensures Passing(d, d, blobs, p, p, p.Keys, root, history, claims, tracked, true)
    ensures tracked ==> OnTrack(d, d, blobs, p, root, history, claims)
  {
  }

  lemma OtherRootPassed(d0: Disk, d: Disk, blobs: map<Hash, BlobRow>, p: PendingTable, listed: PendingTable, todo: set<PendingKey>,
                        root: Dir, history: set<(Hash, Path)>, claims: set<Path>, tracked: bool, smooth: bool, k: PendingKey)
    requires Passing(d0, d, blobs, p, listed, todo, root, history, claims, tracked, smooth) && (smooth ==> k.root != root)
    ensures Passing(d0, d, blobs, p, listed, todo - {k}, root, history, claims, tracked, smooth)
  {
  }

  lemma PassEnds(d0: Disk, d: Disk, blobs: map<Hash, BlobRow>, p: PendingTable, listed: PendingTable, todo: set<PendingKey>,
                 root: Dir, history: set<(Hash, Path)>, claims: set<Path>, tracked: bool, smooth: bool)
    requires Passing(d0, d, blobs, p, listed, todo, root, history, claims, tracked, smooth)
    requires tracked ==> Tracked(d0, blobs, listed, root, history, claims)
    ensures Kept(d0, d, blobs) && FewerRows(p, listed)
    ensures tracked ==> OnTrack(d0, d, blobs, p, root, history, claims)
    ensures tracked && smooth && todo == {} ==> OnlyClaimedLeft(d, blobs, history, claims)
  {
    if tracked && smooth && todo == {} {
      NothingLeftBehind(d0, d, blobs, listed, p, root, history, claims);
    }
  }

  /**
   The pass over the table.  However it ends it keeps every indexed file and
   stays on track; when nothing failed, nothing is left behind any more.
   */
  method CleanupListedSources(s: Store, activeRoot: Option<Dir>, ghost root: Dir, ghost claims: set<Path>) returns (o: Outcome)
    requires s.Valid()
    modifies s`disk, s`pending, s`faults
    ensures s.Valid() && KeepsIndexed(old(s.disk), s.disk, s.blobs)
    ensures forall k :: k in s.pending ==> k in old(s.pending) && s.pending[k] == old(s.pending)[k]
    // every verifiable row is passed unless an operation fails
    ensures s.faults >= old(s.faults)
    ensures o.Failed? && RowsVerify(s.codec, old(s.disk), s.blobs, old(s.pending)) ==> s.faults > old(s.faults)
    ensures old(Unshared(s.disk) && Tracked(s.disk, s.blobs, s.pending, root, s.history, claims)) ==>
      && OnTrack(old(s.disk), s.disk, s.blobs, s.pending, root, s.history, claims)
      && (o.Done? && (activeRoot.Some? ==> activeRoot.value == root) ==>
            OnlyClaimedLeft(s.disk, s.blobs, s.history, claims))
  {
    hide Tracked, OnTrack, RefsExact, JournalNamed, BlobsNamed, Trusted, Unshared, LeftBehind, Canonical, SizesTrue, RowsVerify, OnlyClaimedLeft;
    if * {
      // the rows cannot be listed
      s.faults := s.faults + 1;
      PassStarts(s.disk, s.blobs, s.pending, root, s.history, claims,
                 Unshared(s.disk) && Tracked(s.disk, s.blobs, s.pending, root, s.history, claims));
      return Failed;
    }
    ghost var tracked := Unshared(s.disk) && Tracked(s.disk, s.blobs, s.pending, root, s.history, claims);
    o := PassOverSources(s, activeRoot, root, claims, tracked);
  }

  lemma KeepsIndexedTwice(d0: Disk, d1: Disk, d2: Disk, blobs: map<Hash, BlobRow>)
    requires KeepsIndexed(d0, d1, blobs) && KeepsIndexed(d1, d2, blobs)
    ensures KeepsIndexed(d0, d2, blobs)
  {
  }

  lemma FinishedStays(d: Disk, d': Disk, blobs: map<Hash, BlobRow>, listed: PendingTable)
    requires KeepsIndexed(d, d', blobs) && d'.links.Keys <= d.links.Keys
    ensures forall k :: k in listed && Finished(d, blobs, k, listed[k]) ==> Finished(d', blobs, k, listed[k])
  {
  }

  /** When every row for the root is finished, no file is left behind but those that the journal claims. */
  lemma NothingLeftBehind(d0: Disk, d: Disk, blobs: map<Hash, BlobRow>, listed: PendingTable, p: PendingTable, root: Dir,
                          history: set<(Hash, Path)>, claims: set<Path>)
    requires Tracked(d0, blobs, listed, root, history, claims) && OnTrack(d0, d, blobs, p, root, history, claims)
    requires Passed(d, blobs, listed, {}, root)
    ensures OnlyClaimedLeft(d, blobs, history, claims)
  {
    forall h, l | d.At(l) !in claims
      ensures !LeftBehind(d, blobs, history, h, l)
    {
      if LeftBehind(d0, blobs, history, h, l) {
        var k :| k in listed && k.root == root && k.hash == h && d0.At(k.source) == d0.At(l)
                 && listed[k].replacement == blobs[h].path;
        assert Finished(d, blobs, k, listed[k]) && Current(blobs, k, listed[k]);
      }
    }
  }

  /** The pass over the table gives up no claim of the journal on a file that stays. */
  lemma PassKeepsClaims(codec: Codec, d0: Disk, d: Disk, blobs: map<Hash, BlobRow>, j: Journal, history: set<(Hash, Path)>)
    requires d0.Valid() && d.Valid() && JournalNamed(j) && KeepsIndexed(d0, d, blobs) && OnlyLeftBehindGone(d0, d, blobs, history)
    requires forall e :: e in history ==> e.1.name == BlobName(e.0)
    ensures ClaimsKept(codec, d0, j, d, j, blobs)
  {
    forall id | id in j && RemovesDestination(codec, d0, blobs, j[id]) && d0.At(j[id].destination) in d.links
      ensures d0.At(j[id].destination) in ClaimedBy(codec, d, blobs, j)
    {
      var a := j[id];
      RemovedIsThere(codec, d0, blobs, a);
      assert d0.At(a.staging).name.StagingName?;
      assert d0.Has(a.source) ==> d.Has(a.source);
      StillRemoves(codec, d0, d, blobs, a);
    }
  }
}
