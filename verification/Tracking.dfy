/**
 Which leftover files the store keeps on track, and what every step of a move
 of the backup location does to that.
 */
module Tracking {
  import opened Files
  import opened BlobStore
  import opened Artifacts
  import opened PendingSources
  import opened PendingUndo
  import opened Relocation
  import opened SourceCleanup
  import opened Switching
  import opened ChainedMoves

  /** The tables that a move of the backup location writes, with the paths that hashes were indexed at. */
  datatype Tables = Tables(blobs: map<Hash, BlobRow>, pending: PendingTable, artifacts: Journal, history: set<(Hash, Path)>)

  ghost function TablesOf(s: Store): Tables
    reads s
  {
    Tables(s.blobs, s.pending, s.artifacts, s.history)
  }

  ghost predicate SwitchedTables(x: Tables, x': Tables, items: Items, root': Dir) {
    && x'.blobs == SwitchedBlobs(x.blobs, items, true)
    && x'.artifacts == SwitchedJournal(x.artifacts, items, true)
    && SwitchedTable(x.pending, x'.pending, items, root')
    && x'.history == HistoryAfter(x.history, items)
  }

  /** Every blob is indexed under `root`, and every left-behind file has a row for `root` or is claimed by the journal. */
  ghost predicate OnTrackAt(codec: Codec, d: Disk, x: Tables, root: Dir) {
    && d.Valid() && Unshared(d)
    && Tracked(d, x.blobs, x.pending, root, x.history, ClaimedBy(codec, d, x.blobs, x.artifacts))
  }

  ghost predicate TrackedOn(s: Store, root: Dir)
    reads s
  {
    OnTrackAt(s.codec, s.disk, TablesOf(s), root)
  }

  function BlobsAt(blobs: map<Hash, BlobRow>, root: Dir): map<Hash, BlobRow> {
    map h | h in blobs :: blobs[h].(path := BlobPath(root, h))
  }

  /**
   A move from `root` to `root'` forgets no file that only the journal claims:
   each is a new place itself, has a row that waits for `root'`, or is claimed by
   a row that counts again once the blobs are at `root'`.
   */
  ghost predicate CarriedOver(codec: Codec, d: Disk, x: Tables, root: Dir, root': Dir) {
    d.Valid() && CarriesOver(d, x.blobs, x.pending, root, root', x.history, ClaimedBy(codec, d, BlobsAt(x.blobs, root'), x.artifacts))
  }

  /** With an empty journal any move may start. */
  lemma EmptyJournalCarriesOver(codec: Codec, d: Disk, x: Tables, root: Dir, root': Dir)
    requires OnTrackAt(codec, d, x, root) && x.artifacts == map[]
    ensures CarriedOver(codec, d, x, root, root')
  {
    assert ClaimedBy(codec, d, x.blobs, x.artifacts) == {};
    NoClaimsCarryOver(d, x.blobs, x.pending, root, root', x.history, {});
  }

  /** And whatever the journal holds, a move to where the blobs are. */
  lemma StayingCarriesOver(codec: Codec, d: Disk, x: Tables, root: Dir)
    requires OnTrackAt(codec, d, x, root)
    ensures CarriedOver(codec, d, x, root, root)
  {
    assert BlobsAt(x.blobs, root) == x.blobs;
  }

  /** An attempt that switched nothing yet, or never will. */
  lemma AttemptStaysOnTrack(codec: Codec, t: Ledger, d: Disk, x: Tables, root: Dir)
    requires Attempting(codec, t, d, x.blobs, x.artifacts) && JournalNamed(x.artifacts) && d.Valid() && Trusted(codec, d)
    ensures OnTrackAt(codec, t.disk, x.(artifacts := t.base), root) ==> OnTrackAt(codec, d, x, root)
  {
    hide Attempting, Tracked, ClaimedBy, Unshared, Trusted, JournalNamed;
    if OnTrackAt(codec, t.disk, x.(artifacts := t.base), root) {
      AttemptKeepsUnshared(codec, t, d, x.blobs, x.artifacts);
      AttemptKeepsTracked(codec, t, d, x.blobs, x.artifacts, x.pending, root, x.history);
    }
  }

  /** A cleanup of journal rows. */
  lemma CleanupStaysOnTrack(codec: Codec, d: Disk, d': Disk, x: Tables, j: Journal, root: Dir)
    requires CleanupSafe(codec, d, x.artifacts, d', j, x.blobs)
    ensures OnTrackAt(codec, d, x, root) ==> OnTrackAt(codec, d', x.(artifacts := j), root)
  {
    hide Tracked, Unshared, RemovesDestination;
    if OnTrackAt(codec, d, x, root) {
      FewerLinksKeepTracked(d, d', x.blobs, x.pending, root, x.history, ClaimedBy(codec, d, x.blobs, x.artifacts),
                            ClaimedBy(codec, d', x.blobs, j));
    }
  }

  /** Of the files from before the attempt, the journal claims after the switch what could be foretold before it. */
  lemma ClaimsForetold(codec: Codec, t: Ledger, d: Disk, x: Tables, x': Tables, items: Items, root': Dir)
    requires Attempting(codec, t, d, x.blobs, x.artifacts) && JournalNamed(x.artifacts)
    requires Ready(x.blobs, d, x.artifacts, root', items, t) && ItemsNamed(items) && items.Keys == x.blobs.Keys
    requires SwitchedTables(x, x', items, root')
    ensures x'.blobs == BlobsAt(x.blobs, root') && t.disk.Valid() && d.Valid()
    ensures forall l :: l in t.disk.links ==>
      (l in ClaimedBy(codec, t.disk, x'.blobs, t.base) <==> l in ClaimedBy(codec, d, x'.blobs, x'.artifacts))
  {
    AttemptGrows(codec, t, d, x.blobs, x.artifacts);
    SwitchedRows(codec, t, d, x, x', items, root');
    SwitchedIsAt(x.blobs, d, x.artifacts, items, root', t);
    assert x'.blobs == SwitchedBlobs(x.blobs, items, true);
    hide Attempting, RemovesDestination, Ready, SwitchedTables, JournalNamed, ItemsNamed, ClaimedBy, SwitchedBlobs;
    BaseClaims(codec, t, d, x, x'.blobs, x'.artifacts);
  }

  lemma SwitchedIsAt(blobs: map<Hash, BlobRow>, d: Disk, artifacts: Journal, items: Items, root: Dir, t: Ledger)
    requires Ready(blobs, d, artifacts, root, items, t) && items.Keys == blobs.Keys
    ensures SwitchedBlobs(blobs, items, true) == BlobsAt(blobs, root)
    ensures MovesTo(items, root) && forall h :: h in items ==> items[h].oldPath == blobs[h].path
  {
    assert forall h :: h in items ==> ItemReady(blobs, d, root, h, items[h]);
  }

  /** Later tables in which only older rows claim, claim the older files that the older rows claimed where the attempt started. */
  lemma BaseClaims(codec: Codec, t: Ledger, d: Disk, x: Tables, index: map<Hash, BlobRow>, j: Journal)
    requires Attempting(codec, t, d, x.blobs, x.artifacts) && JournalNamed(x.artifacts) && t.disk.Valid() && d.Valid()
    requires d.alias == t.disk.alias
    requires forall id :: id in t.base ==> id in j && j[id] == t.base[id]
    requires forall id :: id in j && RemovesDestination(codec, d, index, j[id]) ==> id in t.base
    ensures forall l :: l in t.disk.links ==>
      (l in ClaimedBy(codec, t.disk, index, t.base) <==> l in ClaimedBy(codec, d, index, j))
  {
    hide Attempting, RemovesDestination, JournalNamed;
    forall l | l in t.disk.links
      ensures l in ClaimedBy(codec, t.disk, index, t.base) <==> l in ClaimedBy(codec, d, index, j)
    {
      if l in ClaimedBy(codec, t.disk, index, t.base) {
        var id :| id in t.base && RemovesDestination(codec, t.disk, index, t.base[id]) && l == t.disk.At(t.base[id].destination);
        BaseRowRemoves(codec, t, d, x.blobs, x.artifacts, id, index);
        assert id in j;
      }
      if l in ClaimedBy(codec, d, index, j) {
        var id :| id in j && RemovesDestination(codec, d, index, j[id]) && l == d.At(j[id].destination);
        BaseRowRemoves(codec, t, d, x.blobs, x.artifacts, id, index);
      }
    }
  }

  /** The switch leaves the older rows alone, and no row of its own attempt claims anything after it. */
  lemma SwitchedRows(codec: Codec, t: Ledger, d: Disk, x: Tables, x': Tables, items: Items, root': Dir)
    requires Attempting(codec, t, d, x.blobs, x.artifacts) && d.Valid()
    requires Ready(x.blobs, d, x.artifacts, root', items, t) && ItemsNamed(items)
    requires SwitchedTables(x, x', items, root')
    ensures forall id :: id in t.base ==> id in x'.artifacts && x'.artifacts[id] == t.base[id]
    ensures forall id :: id in x'.artifacts && RemovesDestination(codec, d, x'.blobs, x'.artifacts[id]) ==> id in t.base
  {
    hide Attempt, OwnsDestination;
    forall id | id in x'.artifacts && id !in t.base
      ensures x'.artifacts[id].committed
    {
      var h := HashOfEntry(codec, t, d, x.blobs, x.artifacts, id);
      LedgerFacts(codec, t, d, x.blobs, x.artifacts, h);
      assert Remembers(x.artifacts, t, items[h]) && ItemReady(x.blobs, d, root', h, items[h]);
      assert Switches(items, h) && id in JournaledIds(items);
    }
    forall h | h in items && items[h].artifact.Some?
      ensures items[h].artifact.value !in t.base
    {
      assert Remembers(x.artifacts, t, items[h]);
      LedgerFacts(codec, t, d, x.blobs, x.artifacts, h);
    }
  }

  /** The committed switch of a prepared receipt leaves the store on track exactly when the move carried over what it had to. */
  lemma OnTrackExactlyWhenCarriedOver(codec: Codec, t: Ledger, d: Disk, x: Tables, x': Tables, items: Items, root: Dir, root': Dir)
    requires Attempting(codec, t, d, x.blobs, x.artifacts) && JournalNamed(x.artifacts) && d.Valid() && Trusted(codec, d)
    requires Ready(x.blobs, d, x.artifacts, root', items, t) && ItemsNamed(items) && items.Keys == x.blobs.Keys
    requires Canonical(x.pending) && OnTrackAt(codec, t.disk, x.(artifacts := t.base), root)
    requires SwitchedTables(x, x', items, root')
    ensures OnTrackAt(codec, d, x', root') <==> CarriedOver(codec, t.disk, x.(artifacts := t.base), root, root')
  {
    AttemptStaysOnTrack(codec, t, d, x, root);
    AttemptGrowsForItems(codec, t, d, x.blobs, x.blobs, x.artifacts, root', items);
    ClaimsForetold(codec, t, d, x, x', items, root');
    SwitchedIsAt(x.blobs, d, x.artifacts, items, root', t);
    hide Attempting, ClaimedBy, Ready, Trusted, JournalNamed, SwitchedTable, SwitchedBlobs, SwitchedJournal, GrownForItems, Tracked,
      CarriesOver, RemovesDestination, Unshared, Canonical;
    var claims, claims' := ClaimedBy(codec, t.disk, x'.blobs, t.base), ClaimedBy(codec, d, x'.blobs, x'.artifacts);
    SameClaimsCarryOver(t.disk, x, root, root', claims, claims');
    SwitchTracksExactlyWhat(t.disk, d, x.blobs, x.pending, x'.pending, items, root, root', x.history,
                            ClaimedBy(codec, t.disk, x.blobs, t.base), claims');
  }

  lemma SameClaimsCarryOver(d: Disk, x: Tables, root: Dir, root': Dir, claims: set<Path>, claims': set<Path>)
    requires forall l :: l in d.links ==> (l in claims <==> l in claims')
    ensures CarriesOver(d, x.blobs, x.pending, root, root', x.history, claims) <==>
            CarriesOver(d, x.blobs, x.pending, root, root', x.history, claims')
  {
  }
}
