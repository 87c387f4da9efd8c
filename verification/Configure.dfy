/**
 Moving the local backup location: prepare, switch, save the configuration,
 clean up, with a rollback wherever one of the steps fails.
 */
module Configure {
  import opened Files
  import opened Snapshots
  import opened BlobStore
  import opened Artifacts
  import opened PendingSources
  import opened PendingUndo
  import opened Relocation
  import opened SourceCleanup
  import opened Switching
  import opened ChainedMoves
  import opened Tracking

  // ----- Going back -----

  /** The receipt describes the index and the journal as they are. */
  ghost predicate Describes(items: Items, blobs: map<Hash, BlobRow>, artifacts: Journal) {
    && (forall h :: h in items && h in blobs ==> items[h].oldPath == blobs[h].path)
    && (forall id :: id in JournaledIds(items) && id in artifacts ==> !artifacts[id].committed)
  }

  /** Switching back restores paths and journal states, however often the receipt was switched before. */
  lemma SwitchBack(items: Items, blobs: map<Hash, BlobRow>, artifacts: Journal, there: bool)
    requires Describes(items, blobs, artifacts)
    ensures SwitchedBlobs(blobs, items, false) == blobs
    ensures SwitchedBlobs(SwitchedBlobs(blobs, items, there), items, there) == SwitchedBlobs(blobs, items, there)
    ensures SwitchedBlobs(SwitchedBlobs(blobs, items, there), items, false) == blobs
    ensures SwitchedJournal(artifacts, items, false) == artifacts
    ensures SwitchedJournal(SwitchedJournal(artifacts, items, there), items, there) == SwitchedJournal(artifacts, items, there)
    ensures SwitchedJournal(SwitchedJournal(artifacts, items, there), items, false) == artifacts
  {
  }

  /**
   A receipt switched there any number of times, with any of the attempts
   failing, and then switched back leaves the index, the journal and the table
   of pending sources exactly as they were, and the way back is never refused.
   */
  method SwitchThereAndBack(r: BlobRelocation, times: nat) returns (o: Outcome, refused: bool)
    requires r.Valid() && r.store.Valid() && !r.pendingUndoReady
    requires Describes(r.items, r.store.blobs, r.store.artifacts)
    modifies r, r.store`blobs, r.store`artifacts, r.store`pending, r.store`history, r.store`faults
    ensures o.Failed? ==> r.store.faults > old(r.store.faults)
    ensures o.Done? ==>
      && r.store.blobs == old(r.store.blobs)
      && r.store.artifacts == old(r.store.artifacts)
      && r.store.pending == old(r.store.pending)
    ensures !refused
  {
    ghost var b0, j0, p0 := r.store.blobs, r.store.artifacts, r.store.pending;
    SwitchBack(r.items, b0, j0, true);
    hide SwitchedTable, ExactUndoAll, SwitchedBlobs, SwitchedJournal, Trusted, BlobsNamed, JournalNamed, RefsExact, Canonical, SizesTrue, TableSized, ItemsSized, Clashes;
    for i := 0 to times
      invariant r.Valid() && r.store.Valid() && r.store.faults >= old(r.store.faults)
      invariant !r.pendingUndoReady ==> r.store.blobs == b0 && r.store.artifacts == j0 && r.store.pending == p0
      invariant r.pendingUndoReady ==>
        && r.store.blobs == SwitchedBlobs(b0, r.items, true)
        && r.store.artifacts == SwitchedJournal(j0, r.items, true)
        && SwitchedTable(p0, r.store.pending, r.items, r.root)
        && ExactUndoAll(p0, r.items, r.root, r.pendingUndo, r.pendingUndoKeys)
    {
      ghost var last, ready := r.store.pending, r.pendingUndoReady;
      o, refused := r.Switch(true);
      if o.Crashed? {
        return Crashed, false;
      }
      if o.Done? && ready {
        SwitchTwiceIsSwitchOnce(p0, last, r.store.pending, r.items, r.root);
      }
    }
    if r.pendingUndoReady {
      UndoRestoresTable(p0, r.store.pending, r.items, r.root, r.pendingUndo, r.pendingUndoKeys);
      CanonicalNeverStuck(p0, r.store.pending, r.items, r.root);
    }
    o, refused := r.Switch(false);
  }

  lemma CanonicalNeverStuck(p: PendingTable, p': PendingTable, items: Items, root: Dir)
    requires ItemsNamed(items) && Canonical(p) && SwitchedTable(p, p', items, root)
    requires forall h :: h in items ==> items[h].newPath == BlobPath(root, h)
    ensures !exists k :: k in p && StuckRow(p, items, root, k)
  {
    SwitchKeepsCanonical(p, p', items, root);
  }

  // ----- Rolling back an attempt -----

  /** The tables that switching back gives; it will not be refused. */
  ghost predicate LeadsBackTo(r: BlobRelocation, x: Tables)
    reads r, r.store
  {
    && SwitchedBlobs(r.store.blobs, r.items, false) == x.blobs
    && SwitchedJournal(r.store.artifacts, r.items, false) == x.artifacts
    && x.pending == (if r.pendingUndoReady then (r.store.pending - r.pendingUndoKeys) + r.pendingUndo else r.store.pending)
    && x.history == (if r.pendingUndoReady then r.undoHistory else r.store.history)
    && (r.pendingUndoReady ==> !Clashes(r.store.pending, r.pendingUndo, r.pendingUndoKeys))
  }

  /** The store has the tables `x`, but for rows that a cleanup of its journal took with their files since disk `d`. */
  ghost predicate CleanedFrom(s: Store, d: Disk, x: Tables)
    reads s
  {
    && TablesOf(s) == x.(artifacts := s.artifacts)
    && CleanupSafe(s.codec, d, x.artifacts, s.disk, s.artifacts, x.blobs)
  }

  /**
   Switches back, then removes what the attempt made; a failure of the first
   does not stop the second.  When neither failed, the tables are the ones from
   before the switch and the files the ones from before the attempt.
   */
  method Rollback(r: BlobRelocation, ghost t: Ledger, ghost x: Tables, ghost needed: set<Hash>)
    returns (o: Outcome, ghost back: bool)
    requires r.Valid() && r.store.Valid() && LeadsBackTo(r, x)
    requires Attempting(r.store.codec, t, r.store.disk, x.blobs, x.artifacts) && Covers(x.artifacts, t, r.items)
    requires AllPresent(r.store.disk, r.store.blobs, needed) && AllPresent(r.store.disk, x.blobs, needed)
    modifies r, r.store`blobs, r.store`artifacts, r.store`pending, r.store`history, r.store`disk, r.store`faults
    ensures r.store.faults >= old(r.store.faults) && (o.Failed? ==> r.store.faults > old(r.store.faults))
    ensures r.store.Valid() && AllPresent(r.store.disk, r.store.blobs, needed)
    ensures CleanedFrom(r.store, old(r.store.disk), if back then x else old(TablesOf(r.store)))
    ensures o.Done? ==> back && r.store.artifacts == t.base && r.store.disk.SameFilesAs(t.disk)
  {
    hide Attempting, Covers, SwitchedBlobs, SwitchedJournal, SwitchedTable, ExactUndoAll, CleanupSafe,
      Trusted, BlobsNamed, JournalNamed, RefsExact, Canonical, SizesTrue, TableSized, ItemsSized, Clashes;
    ghost var d0, y := r.store.disk, TablesOf(r.store);
    var r1, refused := r.Switch(false);
    back := TablesOf(r.store) == x;
    assert TablesOf(r.store) == if back then x else y;
    if r1.Crashed? {
      CleanupSafeItself(r.store.codec, d0, r.store.artifacts, r.store.blobs);
      return Crashed, back;
    }
    ghost var t';
    o, t' := CleanupDestinations(r.store, r.items, t);
    SafeKeepsPresent(r.store.codec, d0, if back then x.artifacts else y.artifacts, r.store.disk, r.store.artifacts,
                     r.store.blobs, needed);
    if o.Done? && r1.Failed? {
      o := Failed;
    }
    if o.Done? {
      NothingLeft(r.store.codec, t', r.store.disk, r.store.blobs, r.store.artifacts);
    }
  }

  lemma SafeKeepsPresent(codec: Codec, d: Disk, j: Journal, d': Disk, j': Journal, blobs: map<Hash, BlobRow>, needed: set<Hash>)
    requires CleanupSafe(codec, d, j, d', j', blobs) && AllPresent(d, blobs, needed)
    ensures AllPresent(d', blobs, needed)
  {
  }

  lemma KeepsPresent(d: Disk, d': Disk, blobs: map<Hash, BlobRow>, needed: set<Hash>)
    requires KeepsIndexed(d, d', blobs) && AllPresent(d, blobs, needed)
    ensures AllPresent(d', blobs, needed)
  {
  }

  /** While an attempt runs, the files from before it are all there, and after it the new ones are too. */
  lemma AttemptKeepsPresent(codec: Codec, t: Ledger, d: Disk, blobs: map<Hash, BlobRow>, artifacts: Journal,
                            needed: set<Hash>)
    requires Attempting(codec, t, d, blobs, artifacts) && AllPresent(t.disk, blobs, needed)
    ensures AllPresent(d, blobs, needed)
  {
  }

  lemma ReadyIsPresent(d: Disk, blobs: map<Hash, BlobRow>, artifacts: Journal, root: Dir, items: Items, t: Ledger,
                       needed: set<Hash>)
    requires Ready(blobs, d, artifacts, root, items, t) && items.Keys == blobs.Keys && needed <= blobs.Keys
    ensures AllPresent(d, SwitchedBlobs(blobs, items, true), needed)
  {
    forall h | h in needed
      ensures d.Has(SwitchedBlobs(blobs, items, true)[h].path)
    {
      assert ItemReady(blobs, d, root, h, items[h]);
    }
  }

  /** Recovery and source cleanup, at startup and after a move: the journal first, then the table. */
  method CleanupPendingBlobSources(s: Store, activeRoot: Option<Dir>, ghost root: Dir) returns (o: Outcome)
    requires s.Valid()
    modifies s`disk, s`artifacts, s`pending, s`faults
    // with every blob in place it completes unless an operation fails
    ensures s.faults >= old(s.faults)
    ensures o.Failed? && s.codec.CollisionFree() && AllPresent(old(s.disk), s.blobs, s.blobs.Keys) ==> s.faults > old(s.faults)
    ensures !o.Crashed? && s.faults == old(s.faults) ==> s.artifacts == map[]
    ensures s.Valid() && KeepsIndexed(old(s.disk), s.disk, s.blobs)
    ensures forall k :: k in s.pending ==> k in old(s.pending) && s.pending[k] == old(s.pending)[k]
    ensures o.Done? ==> s.artifacts == map[]
    ensures old(TrackedOn(s, root)) ==> TrackedOn(s, root)
    ensures old(TrackedOn(s, root)) && o.Done? && (activeRoot.Some? ==> activeRoot.value == root) ==> NoneLeftBehind(s.disk, s.blobs, s.history)
  {
    hide OnTrackAt, OnTrack, Tracked, Unshared, Trusted, BlobsNamed, JournalNamed, RefsExact, Attempting, LeftBehind, Canonical,
      CleanupSafe, RecoveryRun, ClaimedBy, KeepsIndexed, SizesTrue, RowsVerify, OnlyClaimedLeft, NoneLeftBehind, AllPresent,
      Codec.CollisionFree;
    ghost var t, run := Ledger(s.disk, s.artifacts, map[], map[]), [];
    ghost var d0, x0 := s.disk, TablesOf(s);
    var r1;
    r1, t, run := CleanupRelocationArtifacts(s, t, run);
    CleanupStaysOnTrack(s.codec, d0, s.disk, x0, s.artifacts, root);
    SafeKeepsIndexed(s.codec, d0, x0.artifacts, s.disk, s.artifacts, s.blobs);
    ghost var d1, x1 := s.disk, TablesOf(s);
    assert old(TrackedOn(s, root)) ==> OnTrackAt(s.codec, d1, x1, root);
    if r1.Crashed? {
      return Crashed;
    }
    ghost var claims := ClaimedBy(s.codec, s.disk, s.blobs, s.artifacts);
    OnTrackMeans(s.codec, d1, x1, root);
    if s.codec.CollisionFree() && AllPresent(d0, s.blobs, s.blobs.Keys) {
      KeepsPresent(d0, d1, s.blobs, s.blobs.Keys);
      PresentRowsVerify(s.codec, d1, s.blobs, s.pending, s.artifacts);
    }
    o := CleanupListedSources(s, activeRoot, root, claims);
    KeepsIndexedTwice(d0, d1, s.disk, s.blobs);
    if old(TrackedOn(s, root)) {
      PassStaysOnTrack(s.codec, d1, s.disk, x1, s.pending, root);
      if o.Done? && r1.Done? && (activeRoot.Some? ==> activeRoot.value == root) {
        NoRowsNoClaims(s.codec, d1, s.blobs);
        NoneIsLeft(s.disk, s.blobs, s.history);
      }
    }
    if o.Done? {
      o := r1;
    }
  }

  lemma SafeKeepsIndexed(codec: Codec, d: Disk, j: Journal, d': Disk, j': Journal, blobs: map<Hash, BlobRow>)
    requires CleanupSafe(codec, d, j, d', j', blobs)
    ensures KeepsIndexed(d, d', blobs)
  {
  }

  lemma OnTrackMeans(codec: Codec, d: Disk, x: Tables, root: Dir)
    requires d.Valid()
    ensures OnTrackAt(codec, d, x, root) ==>
      Unshared(d) && Tracked(d, x.blobs, x.pending, root, x.history, ClaimedBy(codec, d, x.blobs, x.artifacts))
  {
  }

  lemma NoneIsLeft(d: Disk, blobs: map<Hash, BlobRow>, history: set<(Hash, Path)>)
    requires OnlyClaimedLeft(d, blobs, history, {})
    ensures NoneLeftBehind(d, blobs, history)
  {
  }

  lemma NoRowsNoClaims(codec: Codec, d: Disk, blobs: map<Hash, BlobRow>)
    requires d.Valid()
    ensures ClaimedBy(codec, d, blobs, map[]) == {}
  {
  }

  /** After a pass over the table the journal still claims what it claimed. */
  lemma PassStaysOnTrack(codec: Codec, d0: Disk, d: Disk, x: Tables, p: PendingTable, root: Dir)
    requires d0.Valid() && d.Valid() && JournalNamed(x.artifacts) && KeepsIndexed(d0, d, x.blobs)
    requires OnTrack(d0, d, x.blobs, p, root, x.history, ClaimedBy(codec, d0, x.blobs, x.artifacts))
    ensures OnTrackAt(codec, d, x.(pending := p), root)
  {
    PassKeepsClaims(codec, d0, d, x.blobs, x.artifacts, x.history);
    hide RemovesDestination, Unshared, KeepsIndexed;
    FewerLinksKeepTracked(d, d, x.blobs, p, root, x.history, ClaimedBy(codec, d0, x.blobs, x.artifacts),
                          ClaimedBy(codec, d, x.blobs, x.artifacts));
  }

  /** A receipt that is ready describes the tables and gives a valid relocation. */
  lemma ReadyDescribes(codec: Codec, t: Ledger, d: Disk, blobs: map<Hash, BlobRow>, artifacts: Journal, root: Dir,
                       items: Items)
    requires Attempting(codec, t, d, blobs, artifacts) && Ready(blobs, d, artifacts, root, items, t)
    requires BlobsNamed(blobs) && ItemsNamed(items)
    ensures Describes(items, blobs, artifacts) && MovesTo(items, root) && Covers(artifacts, t, items)
    ensures forall h :: h in items ==> items[h].oldPath.name == BlobName(h) && items[h].oldPath == blobs[h].path
  {
    EntriesUncommitted(codec, t, d, blobs, artifacts, items);
    hide Attempting, JournaledIds, BlobsNamed;
    forall h | h in items
      ensures ItemReady(blobs, d, root, h, items[h])
    {
    }
  }

  lemma EntriesUncommitted(codec: Codec, t: Ledger, d: Disk, blobs: map<Hash, BlobRow>, artifacts: Journal, items: Items)
    requires Attempting(codec, t, d, blobs, artifacts) && Covers(artifacts, t, items) && ItemsNamed(items)
    ensures forall id :: id in JournaledIds(items) && id in artifacts ==> !artifacts[id].committed
  {
    hide OwnsDestination, Grown;
    forall id | id in JournaledIds(items) && id in artifacts
      ensures !artifacts[id].committed
    {
      var h :| h in items && Switches(items, h) && items[h].artifact == Some(id);
      assert Remembers(artifacts, t, items[h]);
      EntryFacts(codec, t.disk, d, blobs, t.mine, h);
    }
  }

  /** A prepared receipt, before anything was switched. */
  ghost predicate Prepared(r: BlobRelocation, t: Ledger)
    reads r, r.store
  {
    && r.Valid() && !r.pendingUndoReady
    && InAttempt(r.store, t) && Ready(r.store.blobs, r.store.disk, r.store.artifacts, r.root, r.items, t)
    && r.items.Keys == r.store.blobs.Keys
    && Covers(r.store.artifacts, t, r.items)
    && Describes(r.items, r.store.blobs, r.store.artifacts)
  }

  lemma PreparedFacts(codec: Codec, t: Ledger, d: Disk, blobs: map<Hash, BlobRow>, artifacts: Journal, root: Dir,
                      items: Items,
                      needed: set<Hash>)
    requires Attempting(codec, t, d, blobs, artifacts) && Ready(blobs, d, artifacts, root, items, t)
    requires items.Keys == blobs.Keys && Trusted(codec, d) && Describes(items, blobs, artifacts)
    requires AllPresent(t.disk, blobs, needed)
    ensures AllPresent(d, blobs, needed) && AllPresent(d, SwitchedBlobs(blobs, items, true), needed)
    ensures GrownForItems(t.disk, d, items)
    ensures Unshared(t.disk) ==> Unshared(d)
    ensures SwitchedBlobs(blobs, items, false) == blobs
    ensures SwitchedBlobs(SwitchedBlobs(blobs, items, true), items, false) == blobs
    ensures SwitchedJournal(artifacts, items, false) == artifacts
    ensures SwitchedJournal(SwitchedJournal(artifacts, items, true), items, false) == artifacts
  {
    hide Attempting, Ready, SwitchedBlobs, SwitchedJournal, Trusted, AllPresent, Unshared, GrownForItems;
    SwitchBack(items, blobs, artifacts, true);
    AttemptKeepsPresent(codec, t, d, blobs, artifacts, needed);
    assert needed <= blobs.Keys by {
      PresentIsIndexed(t.disk, blobs, needed);
    }
    ReadyIsPresent(d, blobs, artifacts, root, items, t, needed);
    AttemptGrowsForItems(codec, t, d, blobs, blobs, artifacts, root, items);
    if Unshared(t.disk) {
      AttemptKeepsUnshared(codec, t, d, blobs, artifacts);
    }
  }

  lemma PresentIsIndexed(d: Disk, blobs: map<Hash, BlobRow>, needed: set<Hash>)
    requires AllPresent(d, blobs, needed)
    ensures needed <= blobs.Keys
  {
  }

  /** What a switch to the destination may leave, given the tables from before it. */
  ghost predicate SwitchOutcome(r: BlobRelocation, o: Outcome, needed: set<Hash>, x: Tables)
    reads r, r.store
  {
    && r.Valid() && r.store.Valid()
    && AllPresent(r.store.disk, r.store.blobs, needed) && AllPresent(r.store.disk, x.blobs, needed)
    && (TablesOf(r.store) == x || SwitchedTables(x, TablesOf(r.store), r.items, r.root))
    && (o.Done? ==> SwitchedTables(x, TablesOf(r.store), r.items, r.root))
    && (o.Failed? ==> TablesOf(r.store) == x)
    && (!o.Crashed? ==> LeadsBackTo(r, x))
  }

  /** The switch of a prepared receipt: all or nothing, safe, and reversible. */
  method SwitchPrepared(r: BlobRelocation, ghost t: Ledger, ghost needed: set<Hash>) returns (o: Outcome)
    requires Prepared(r, t) && AllPresent(t.disk, r.store.blobs, needed)
    modifies r, r.store`blobs, r.store`artifacts, r.store`pending, r.store`history, r.store`faults
    ensures r.store.faults >= old(r.store.faults) && (o.Failed? ==> r.store.faults > old(r.store.faults))
    ensures SwitchOutcome(r, o, needed, old(TablesOf(r.store)))
  {
    hide Attempting, Ready, SwitchedTable, ExactUndoAll, SwitchedBlobs, SwitchedJournal, Trusted, BlobsNamed, JournalNamed,
      RefsExact, AllPresent, Unshared, GrownForItems, HistoryAfter, Canonical, SizesTrue, TableSized, ItemsSized, Clashes;
    PreparedFacts(r.store.codec, t, r.store.disk, r.store.blobs, r.store.artifacts, r.root, r.items, needed);
    UndoneBySwitchBack(r.store.pending, r.items, r.root);
    var refused;
    o, refused := r.Switch(true);
  }

  lemma UndoneBySwitchBack(p: PendingTable, items: Items, root: Dir)
    requires ItemsMove(items, root) && Canonical(p)
    ensures forall p', before, keys {:trigger SwitchedTable(p, p', items, root), ExactUndoAll(p, items, root, before, keys)} ::
              SwitchedTable(p, p', items, root) && ExactUndoAll(p, items, root, before, keys) ==>
                (p' - keys) + before == p && !Clashes(p', before, keys)
  {
    forall p', before, keys | SwitchedTable(p, p', items, root) && ExactUndoAll(p, items, root, before, keys)
      ensures (p' - keys) + before == p && !Clashes(p', before, keys)
    {
      UndoRestoresTable(p, p', items, root, before, keys);
      CanonicalNeverStuck(p, p', items, root);
    }
  }

  class BackupLocation {
    const store: Store
    var blobRoot: Dir       // where the running process stores new blobs
    var configRoot: Dir     // what the saved configuration says

    constructor (store: Store, root: Dir)
      ensures this.store == store && blobRoot == root && configRoot == root
    {
      this.store, blobRoot, configRoot := store, root, root;
    }

    /** Nothing that the store keeps has changed. */
    twostate predicate Untouched()
      reads this, store
    {
      && store.blobs == old(store.blobs) && store.pending == old(store.pending)
      && store.artifacts == old(store.artifacts) && store.disk.Valid() && old(store.disk.Valid())
      && store.disk.SameFilesAs(old(store.disk))
      && blobRoot == old(blobRoot) && configRoot == old(configRoot)
    }

    /**
     Moves every blob to `newRoot`.  However it ends, the blobs that local
     snapshots need stay indexed at their files.  A failure whose compensation
     worked (`clean`) leaves everything as it was; otherwise the index is
     either the old one or the one of the new root (`moved`).  The store is on
     track with either; when the index moved, provided that the move forgot no
     file that only the journal claimed.
     */
    method ConfigureLocal(newRoot: Dir, ghost root: Dir) returns (o: Outcome, clean: bool, ghost moved: bool)
      requires store.Safe()
      modifies this, store`disk, store`blobs, store`artifacts, store`pending, store`history, store`faults
      ensures store.Safe()
      ensures o.Done? ==> blobRoot == newRoot && configRoot == newRoot
      ensures configRoot == old(configRoot) || (configRoot == newRoot && moved)
      ensures o.Done? ==> moved
      ensures if moved then MovedFrom(old(store.blobs), store.blobs, newRoot) else store.blobs == old(store.blobs)
      ensures o.Failed? && clean ==> Untouched()
      ensures old(TrackedOn(store, root)) && (moved ==> old(CarriedOver(store.codec, store.disk, TablesOf(store), root, newRoot))) ==>
        TrackedOn(store, if moved then newRoot else root)
      // unless an operation fails it succeeds exactly where every blob can be placed, and then cleans up
      ensures store.faults >= old(store.faults)
      ensures o.Done? ==> old(AllPlaceable(store.codec, store.disk, store.blobs, newRoot))
      ensures o.Failed? && old(AllPlaceable(store.codec, store.disk, store.blobs, newRoot)) ==> store.faults > old(store.faults)
      ensures o.Done? && store.faults == old(store.faults) ==> store.artifacts == map[]
      ensures o.Done? && store.faults == old(store.faults) && store.codec.CollisionFree()
              && old(TrackedOn(store, root) && CarriedOver(store.codec, store.disk, TablesOf(store), root, newRoot)) ==>
        NoneLeftBehind(store.disk, store.blobs, store.history)
      // and one failure alone is always compensated
      ensures o.Failed? && !clean ==>
        store.faults > old(store.faults) + if old(AllPlaceable(store.codec, store.disk, store.blobs, newRoot)) then 1 else 0
    {
      hide Attempting, Trusted, BlobsNamed, JournalNamed, RefsExact, AllPresent, OnTrackAt, CarriedOver, Unshared, Needed, Canonical,
        AllPlaceable, SizesTrue, NoneLeftBehind, Prepared, Codec.CollisionFree;
      if * {
        // the directory cannot be made
        store.faults := store.faults + 1;
        return Failed, true, false;
      }
      ghost var needed := Needed(store.snapshots, store.created);
      var receipt;
      ghost var t;
      o, clean, receipt, t := PrepareMove(store, newRoot, needed);
      if o.Done? {
        o, clean, moved := SwitchAndSave(receipt, t, newRoot, root, needed);
      } else {
        moved := false;
        AttemptStaysOnTrack(store.codec, t, store.disk, TablesOf(store), root);
      }
    }

    /** The switch of a prepared move, the saved configuration, and the cleanup; or the way back. */
    method SwitchAndSave(receipt: BlobRelocation, ghost t: Ledger, newRoot: Dir, ghost root: Dir, ghost needed: set<Hash>)
      returns (o: Outcome, clean: bool, ghost moved: bool)
      requires receipt.store == store && receipt.root == newRoot && Prepared(receipt, t)
      requires needed == Needed(store.snapshots, store.created) && AllPresent(t.disk, store.blobs, needed)
      modifies this, receipt, store`disk, store`blobs, store`artifacts, store`pending, store`history, store`faults
      ensures store.Valid() && AllPresent(store.disk, store.blobs, needed)
      ensures o.Done? ==> moved && blobRoot == newRoot && configRoot == newRoot
      ensures configRoot == old(configRoot) || (configRoot == newRoot && moved)
      ensures if moved then MovedFrom(old(store.blobs), store.blobs, newRoot) else store.blobs == old(store.blobs)
      ensures o.Failed? && clean ==>
        && store.blobs == old(store.blobs) && store.pending == old(store.pending) && store.artifacts == t.base
        && store.disk.SameFilesAs(t.disk) && blobRoot == old(blobRoot) && configRoot == old(configRoot)
      ensures var x0 := old(TablesOf(store)).(artifacts := t.base);
              OnTrackAt(store.codec, t.disk, x0, root) && (moved ==> CarriedOver(store.codec, t.disk, x0, root, newRoot)) ==>
                TrackedOn(store, if moved then newRoot else root)
      ensures store.faults >= old(store.faults)
      ensures o.Failed? ==> store.faults > old(store.faults) + if clean then 0 else 1
      ensures o.Done? && store.faults == old(store.faults) ==> store.artifacts == map[]
      ensures var x0 := old(TablesOf(store)).(artifacts := t.base);
              o.Done? && store.faults == old(store.faults) && store.codec.CollisionFree()
              && OnTrackAt(store.codec, t.disk, x0, root) && CarriedOver(store.codec, t.disk, x0, root, newRoot) ==>
                NoneLeftBehind(store.disk, store.blobs, store.history)
    {
      hide Attempting, Ready, SwitchedTables, SwitchedTable, ExactUndoAll, SwitchedBlobs, SwitchedJournal, Trusted, BlobsNamed,
        JournalNamed, RefsExact, AllPresent, OnTrackAt, CarriedOver, Unshared, Needed, GrownForItems, Canonical, CleanupSafe,
        ItemsMove, Describes, Covers, SizesTrue, TableSized, ItemsSized, NoneLeftBehind, Clashes, Codec.CollisionFree, MovedFrom,
        HistoryAfter;
      ghost var x, d1 := TablesOf(store), store.disk;
      AttemptStaysOnTrack(store.codec, t, d1, x, root);
      PreparedFacts(store.codec, t, d1, x.blobs, x.artifacts, newRoot, receipt.items, needed);
      o := SwitchPrepared(receipt, t, needed);
      ghost var y := TablesOf(store);
      moved := SwitchedTables(x, y, receipt.items, newRoot);
      if moved {
        WhenSwitched(store.codec, t, d1, x, y, receipt.items, root, newRoot);
      }
      if o.Crashed? {
        return Crashed, false, moved;
      }
      var saved := o.Done?;
      if saved {
        if * {
          return Crashed, false, moved;
        }
        if * {
          // the configuration cannot be saved
          store.faults := store.faults + 1;
          saved := false;
        }
      }
      if !saved {
        ghost var back;
        o, back := Rollback(receipt, t, x, needed);
        CleanupStaysOnTrack(store.codec, d1, store.disk, if back then x else y, store.artifacts, if back || !moved then root else newRoot);
        return if o.Crashed? then Crashed else Failed, o.Done?, moved && !back;
      }
      o := Settle(newRoot, needed);
      return o, false, true;
    }

    /** The new root counts from now on, and what the move left behind goes. */
    method Settle(newRoot: Dir, ghost needed: set<Hash>) returns (o: Outcome)
      requires store.Valid() && AllPresent(store.disk, store.blobs, needed) && AllPresent(store.disk, store.blobs, store.blobs.Keys)
      modifies this, store`disk, store`artifacts, store`pending, store`faults
      ensures store.Valid() && AllPresent(store.disk, store.blobs, needed) && configRoot == newRoot
      ensures !o.Failed? && (o.Done? ==> blobRoot == newRoot)
      ensures old(TrackedOn(store, newRoot)) ==> TrackedOn(store, newRoot)
      ensures store.faults >= old(store.faults)
      ensures o.Done? && store.faults == old(store.faults) ==> store.artifacts == map[]
      ensures o.Done? && store.faults == old(store.faults) && store.codec.CollisionFree() && old(TrackedOn(store, newRoot)) ==>
        NoneLeftBehind(store.disk, store.blobs, store.history)
    {
      hide Trusted, BlobsNamed, JournalNamed, RefsExact, AllPresent, OnTrackAt, Canonical, SizesTrue, NoneLeftBehind, Codec.CollisionFree;
      ghost var d := store.disk;
      configRoot := newRoot;
      if * {
        return Crashed;
      }
      blobRoot := newRoot;
      o := CleanupPendingBlobSources(store, Some(newRoot), newRoot);
      KeepsPresent(d, store.disk, store.blobs, needed);
      return if o.Crashed? then Crashed else Done;
    }
  }

  /** Each hash is indexed at its place under `root`, with the size and the upload mark that it had. */
  ghost predicate MovedFrom(blobs: map<Hash, BlobRow>, blobs': map<Hash, BlobRow>, root: Dir) {
    blobs' == map h | h in blobs :: BlobRow(BlobPath(root, h), blobs[h].size, blobs[h].uploadedTo)
  }

  /** What a committed switch of a prepared receipt means for the index and for what is on track. */
  lemma WhenSwitched(codec: Codec, t: Ledger, d: Disk, x: Tables, y: Tables, items: Items, root: Dir, newRoot: Dir)
    requires Attempting(codec, t, d, x.blobs, x.artifacts) && JournalNamed(x.artifacts) && d.Valid() && Trusted(codec, d)
    requires Ready(x.blobs, d, x.artifacts, newRoot, items, t) && ItemsMove(items, newRoot) && items.Keys == x.blobs.Keys
    requires Canonical(x.pending) && SwitchedTables(x, y, items, newRoot)
    ensures MovedFrom(x.blobs, y.blobs, newRoot)
    ensures AllPresent(d, y.blobs, y.blobs.Keys)
    ensures var x0 := x.(artifacts := t.base);
            OnTrackAt(codec, t.disk, x0, root) && CarriedOver(codec, t.disk, x0, root, newRoot) ==> OnTrackAt(codec, d, y, newRoot)
  {
    hide Attempting, Ready, CarriedOver, OnTrackAt, Trusted, JournalNamed, Canonical, SwitchedTable, SwitchedBlobs, SwitchedJournal;
    ReadyIsPresent(d, x.blobs, x.artifacts, newRoot, items, t, x.blobs.Keys);
    SwitchedIsAt(x.blobs, d, x.artifacts, items, newRoot, t);
    if OnTrackAt(codec, t.disk, x.(artifacts := t.base), root) {
      OnTrackExactlyWhenCarriedOver(codec, t, d, x, y, items, root, newRoot);
    }
  }

  /** A ready receipt moves blobs to their places and has their true sizes. */
  lemma ReadyItems(codec: Codec, blobs: map<Hash, BlobRow>, d: Disk, pending: PendingTable, artifacts: Journal, root: Dir, items: Items,
                   t: Ledger)
    requires Ready(blobs, d, artifacts, root, items, t) && BlobsNamed(blobs) && ItemsNamed(items)
    requires SizesTrue(codec, blobs, pending, artifacts)
    ensures ItemsMove(items, root) && ItemsSized(codec, items)
  {
    hide TrueSize;
    forall h | h in items
      ensures ItemReady(blobs, d, root, h, items[h])
    {
    }
  }

  /** Prepares the move and hands out its receipt. */
  method PrepareMove(s: Store, newRoot: Dir, ghost needed: set<Hash>)
    returns (o: Outcome, clean: bool, receipt: BlobRelocation, ghost t: Ledger)
    requires s.Valid() && AllPresent(s.disk, s.blobs, needed)
    modifies s`disk, s`artifacts, s`faults
    ensures s.faults >= old(s.faults)
    ensures o.Done? ==> AllPlaceable(s.codec, old(s.disk), s.blobs, newRoot)
    ensures o.Failed? && AllPlaceable(s.codec, old(s.disk), s.blobs, newRoot) ==> s.faults > old(s.faults)
    ensures o.Failed? && !clean ==>
      s.faults > old(s.faults) + if AllPlaceable(s.codec, old(s.disk), s.blobs, newRoot) then 1 else 0
    ensures s.Valid() && AllPresent(s.disk, s.blobs, needed)
    ensures fresh(receipt) && receipt.store == s && receipt.root == newRoot
    ensures t.disk == old(s.disk) && t.base == old(s.artifacts)
    ensures InAttempt(s, t) && (o.Done? ==> Prepared(receipt, t))
    ensures o.Failed? && clean ==> s.artifacts == old(s.artifacts) && s.disk.SameFilesAs(old(s.disk))
  {
    hide Attempting, Ready, Trusted, JournalNamed, RefsExact, AllPresent, AllPlaceable, SizesTrue, ItemsSized, ItemsMove, BlobsNamed, Covers, Describes;
    var items;
    o, clean, items, t := PrepareBlobRelocation(s, newRoot);
    AttemptKeepsPresent(s.codec, t, s.disk, s.blobs, s.artifacts, needed);
    receipt := new BlobRelocation(s, newRoot, items);
    if o.Done? {
      ReadyDescribes(s.codec, t, s.disk, s.blobs, s.artifacts, newRoot, items);
      ReadyItems(s.codec, s.blobs, s.disk, s.pending, s.artifacts, newRoot, items, t);
    }
  }
}
