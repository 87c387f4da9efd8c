/**
 The receipt of a prepared relocation: the transaction that points the index at
 the new paths, and the one that takes it back.
 */
module Switching {
  import opened Files
  import opened BlobStore
  import opened Artifacts
  import opened PendingSources
  import opened PendingUndo
  import opened Relocation
  import opened SourceCleanup

  function Target(it: Item, toDestination: bool): Path {
    if toDestination then it.newPath else it.oldPath
  }

  function SwitchedBlobs(blobs: map<Hash, BlobRow>, items: Items, toDestination: bool): map<Hash, BlobRow> {
    map h | h in blobs :: if h in items then blobs[h].(path := Target(items[h], toDestination)) else blobs[h]
  }

  function HistoryAfter(history: set<(Hash, Path)>, items: Items): set<(Hash, Path)> {
    history + (set h | h in items :: (h, items[h].newPath))
  }

  function JournaledIds(items: Items): set<Id> {
    set h | h in items && Switches(items, h) && items[h].artifact.Some? :: items[h].artifact.value
  }

  function SwitchedJournal(artifacts: Journal, items: Items, toDestination: bool): Journal {
    var ids := JournaledIds(items);
    map id | id in artifacts :: if id in ids then artifacts[id].(committed := toDestination) else artifacts[id]
  }

  lemma SwitchedBlobsStep(blobs: map<Hash, BlobRow>, items: Items, it: Item, toDestination: bool)
    requires it.hash !in items
    ensures SwitchedBlobs(blobs, items[it.hash := it], toDestination) ==
            var b := SwitchedBlobs(blobs, items, toDestination);
            if it.hash in b then b[it.hash := b[it.hash].(path := Target(it, toDestination))] else b
  {
  }

  lemma SwitchedJournalStep(artifacts: Journal, items: Items, it: Item, toDestination: bool)
    requires it.hash !in items
    ensures SwitchedJournal(artifacts, items[it.hash := it], toDestination) ==
            var j := SwitchedJournal(artifacts, items, toDestination);
            if it.oldPath != it.newPath && it.artifact.Some? && it.artifact.value in j
            then j[it.artifact.value := j[it.artifact.value].(committed := toDestination)] else j
  {
    var items' := items[it.hash := it];
    assert forall h :: h in items ==> h in items' && items'[h] == items[h];
    if it.oldPath != it.newPath && it.artifact.Some? {
      assert Switches(items', it.hash);
      assert JournaledIds(items') == JournaledIds(items) + {it.artifact.value};
    } else {
      assert JournaledIds(items') == JournaledIds(items);
    }
  }

  /** The items move blobs to their places under `root`. */
  ghost predicate ItemsMove(items: Items, root: Dir) {
    && ItemsNamed(items)
    && forall h :: h in items ==> items[h].oldPath.name == BlobName(h) && items[h].newPath == BlobPath(root, h)
  }

  lemma SwitchedNamed(blobs: map<Hash, BlobRow>, artifacts: Journal, items: Items, root: Dir, toDestination: bool)
    requires BlobsNamed(blobs) && JournalNamed(artifacts)
    requires ItemsMove(items, root)
    ensures ItemsNamed(items) && MovesTo(items, root)
    ensures BlobsNamed(SwitchedBlobs(blobs, items, toDestination))
    ensures JournalNamed(SwitchedJournal(artifacts, items, toDestination))
  {
  }

  ghost predicate ItemsSized(codec: Codec, items: Items) {
    forall h :: h in items ==> TrueSize(codec, h, items[h].size)
  }

  /** Nor do they bring in a wrong size. */
  lemma StaysSized(codec: Codec, blobs: map<Hash, BlobRow>, artifacts: Journal, p: PendingTable, p': PendingTable, items: Items,
                   root: Dir, toDestination: bool, restored: PendingTable, keys: set<PendingKey>, undo: PendingTable,
                   undoKeys: set<PendingKey>)
    requires SizesTrue(codec, blobs, p, artifacts) && ItemsNamed(items) && ItemsSized(codec, items) && TableSized(codec, restored)
    requires if toDestination then SwitchedTable(p, p', items, root) else p' == p || p' == (p - keys) + restored
    ensures SizesTrue(codec, SwitchedBlobs(blobs, items, toDestination), p', SwitchedJournal(artifacts, items, toDestination))
    ensures ExactUndoAll(p, items, root, undo, undoKeys) ==> TableSized(codec, undo)
  {
    hide TrueSize;
    forall k | k in p'
      ensures TrueSize(codec, k.hash, p'[k].size)
    {
      if toDestination {
        assert Switches(items, k.hash) ==> RetargetedAt(p, p', items[k.hash], root, k);
        assert !Switches(items, k.hash) ==> SameAt(p, p', k);
      }
    }
  }

  /** Neither the switch, nor what it records, nor taking it back leaves the canonical tables. */
  lemma StaysCanonical(p: PendingTable, p': PendingTable, items: Items, root: Dir, toDestination: bool,
                       restored: PendingTable, keys: set<PendingKey>, undo: PendingTable, undoKeys: set<PendingKey>)
    requires Canonical(p) && ItemsNamed(items) && MovesTo(items, root) && Canonical(restored)
    requires if toDestination then SwitchedTable(p, p', items, root) else p' == p || p' == (p - keys) + restored
    ensures Canonical(p')
    ensures ExactUndoAll(p, items, root, undo, undoKeys) ==> Canonical(undo)
  {
    if toDestination {
      SwitchKeepsCanonical(p, p', items, root);
    }
  }

  class BlobRelocation {
    const store: Store
    const root: Dir
    const items: Items
    var pendingUndo: PendingTable
    var pendingUndoKeys: set<PendingKey>
    var pendingUndoReady: bool
    ghost var undoHistory: set<(Hash, Path)>     // what the store's history was before the switch

    constructor (store: Store, root: Dir, items: Items)
      ensures this.store == store && this.root == root && this.items == items && !pendingUndoReady
      ensures pendingUndo == map[]
    {
      this.store, this.root, this.items := store, root, items;
      pendingUndo, pendingUndoKeys, pendingUndoReady := map[], {}, false;
      undoHistory := {};
    }

    ghost predicate Valid()
      reads this
    {
      && ItemsMove(items, root) && ItemsSized(store.codec, items)
      && Canonical(pendingUndo) && TableSized(store.codec, pendingUndo)
    }

    /** The three tables after a committed switch. */
    twostate predicate Switched(toDestination: bool)
      reads this, store
    {
      && store.blobs == SwitchedBlobs(old(store.blobs), items, toDestination)
      && store.artifacts == SwitchedJournal(old(store.artifacts), items, toDestination)
      && store.history == (if toDestination then HistoryAfter(old(store.history), items)
                           else if old(pendingUndoReady) then old(undoHistory) else old(store.history))
      && (toDestination ==> SwitchedTable(old(store.pending), store.pending, items, root))
      && (!toDestination ==>
            store.pending == if old(pendingUndoReady) then (old(store.pending) - old(pendingUndoKeys)) + old(pendingUndo)
                             else old(store.pending))
    }

    twostate predicate Unswitched()
      reads this, store
    {
      && store.blobs == old(store.blobs) && store.artifacts == old(store.artifacts)
      && store.pending == old(store.pending) && store.history == old(store.history)
      && pendingUndo == old(pendingUndo) && pendingUndoKeys == old(pendingUndoKeys) && pendingUndoReady == old(pendingUndoReady)
      && undoHistory == old(undoHistory)
    }

    /** All paths to the destination or all back, in one transaction.  `refused`: a row to restore was already there. */
    method Switch(toDestination: bool) returns (o: Outcome, refused: bool)
      requires Valid() && store.Valid()
      modifies this, store`blobs, store`artifacts, store`pending, store`history, store`faults
      ensures store.Valid() && Valid()
      ensures o.Failed? ==> Unswitched()
      ensures o.Crashed? ==> Unswitched() || Switched(toDestination)
      ensures o.Done? ==> Switched(toDestination) && pendingUndoReady == toDestination
      ensures o.Done? && toDestination && !old(pendingUndoReady) ==>
        ExactUndoAll(old(store.pending), items, root, pendingUndo, pendingUndoKeys) && undoHistory == old(store.history)
      ensures o.Done? && toDestination && old(pendingUndoReady) ==>
        pendingUndo == old(pendingUndo) && pendingUndoKeys == old(pendingUndoKeys) && undoHistory == old(undoHistory)
      ensures store.faults >= old(store.faults) && (o.Failed? && !refused ==> store.faults > old(store.faults))
      ensures refused ==> o.Failed? && !toDestination && old(pendingUndoReady)
      ensures refused ==> Clashes(store.pending, pendingUndo, pendingUndoKeys)
      ensures o.Done? && !toDestination && old(pendingUndoReady) ==>
        !Clashes(old(store.pending), old(pendingUndo), old(pendingUndoKeys))
    {
      assert Canonical(map[]) && TableSized(store.codec, map[]);
      hide SwitchedTable, ExactUndoAll, SwitchedBlobs, SwitchedJournal, Trusted, BlobsNamed, JournalNamed, RefsExact, ItemsNamed,
        HistoryAfter, Canonical, MovesTo, ItemsMove, SizesTrue, TableSized, ItemsSized, Clashes;
      var blobs, artifacts, pending, undo, undoKeys;
      o, refused, blobs, artifacts, pending, undo, undoKeys := Statements(toDestination);
      if !o.Done? {
        return;
      }
      if * {
        store.faults := store.faults + 1;
        return Failed, false;
      }
      ghost var past := store.history;
      store.blobs, store.artifacts, store.pending := blobs, artifacts, pending;
      store.history := if toDestination then HistoryAfter(past, items) else if pendingUndoReady then undoHistory else past;
      if * {
        return Crashed, false;
      }
      if toDestination && !pendingUndoReady {
        pendingUndo, pendingUndoKeys, pendingUndoReady := undo, undoKeys, true;
        undoHistory := past;
      }
      if !toDestination && pendingUndoReady {
        pendingUndo, pendingUndoKeys, pendingUndoReady := map[], {}, false;
      }
      return Done, false;
    }

    /** The transaction before its commit: what it would make of the tables. */
    method Statements(toDestination: bool)
      returns (o: Outcome, refused: bool, blobs: map<Hash, BlobRow>, artifacts: Journal, pending: PendingTable,
               undo: PendingTable, undoKeys: set<PendingKey>)
      requires Valid() && store.Valid()
      modifies store`faults
      ensures o.Done? || o.Failed?
      ensures store.faults == old(store.faults) + if o.Failed? && !refused then 1 else 0
      ensures refused ==> o.Failed? && !toDestination && pendingUndoReady
      ensures !toDestination && pendingUndoReady && (refused || o.Done?) ==>
        (refused <==> Clashes(store.pending, pendingUndo, pendingUndoKeys))
      ensures o.Done? ==>
        && blobs == SwitchedBlobs(store.blobs, items, toDestination)
        && artifacts == SwitchedJournal(store.artifacts, items, toDestination)
        && (toDestination ==> SwitchedTable(store.pending, pending, items, root))
        && (!toDestination ==>
              pending == if pendingUndoReady then (store.pending - pendingUndoKeys) + pendingUndo else store.pending)
        && BlobsNamed(blobs) && JournalNamed(artifacts) && Canonical(pending) && SizesTrue(store.codec, blobs, pending, artifacts)
      ensures o.Done? && toDestination && !pendingUndoReady ==>
        ExactUndoAll(store.pending, items, root, undo, undoKeys) && Canonical(undo) && TableSized(store.codec, undo)
    {
      SwitchedNamed(store.blobs, store.artifacts, items, root, toDestination);
      hide SwitchedTable, ExactUndoAll, SwitchedBlobs, SwitchedJournal, Trusted, BlobsNamed, JournalNamed, RefsExact, ItemsNamed,
        Canonical, MovesTo, ItemsMove, SizesTrue, TableSized, ItemsSized, Clashes;
      refused := false;
      var failed;
      failed, blobs, artifacts, pending, undo, undoKeys :=
        SwitchItems(store, store.blobs, store.artifacts, store.pending, items, root, toDestination, toDestination && !pendingUndoReady);
      if failed {
        o := Failed;
        return;
      }
      if !toDestination && pendingUndoReady {
        refused, pending := RestorePendingSources(pending, pendingUndo, pendingUndoKeys);
        if refused {
          o := Failed;
          return;
        }
      }
      StaysSized(store.codec, store.blobs, store.artifacts, store.pending, pending, items, root, toDestination, pendingUndo,
                 pendingUndoKeys, undo, undoKeys);
      StaysCanonical(store.pending, pending, items, root, toDestination, pendingUndo, pendingUndoKeys, undo, undoKeys);
      o := Done;
    }
  }

  /** The statements of one switch, item by item, on the transaction's view of the tables. */
  method SwitchItems(s: Store, blobs: map<Hash, BlobRow>, artifacts: Journal, pending: PendingTable,
                     items: Items, root: Dir, toDestination: bool, capturing: bool)
    returns (failed: bool, blobs': map<Hash, BlobRow>, artifacts': Journal, pending': PendingTable,
             undo: PendingTable, undoKeys: set<PendingKey>)
    requires ItemsNamed(items) && (capturing ==> toDestination)
    modifies s`faults
    ensures s.faults == old(s.faults) + if failed then 1 else 0
    ensures !failed ==> blobs' == SwitchedBlobs(blobs, items, toDestination)
    ensures !failed ==> artifacts' == SwitchedJournal(artifacts, items, toDestination)
    ensures !failed ==> if toDestination then SwitchedTable(pending, pending', items, root) else pending' == pending
    ensures !failed && capturing ==> ExactUndoAll(pending, items, root, undo, undoKeys)
  {
    hide SwitchedTable, ExactUndoAll;
    blobs', artifacts', pending', undo, undoKeys := blobs, artifacts, pending, map[], {};
    SwitchStarts(blobs, artifacts, pending, root, toDestination);
    var todo := items.Keys;
    ghost var done: Items := map[];
    while todo != {}
      invariant s.faults == old(s.faults)
      invariant items.Keys == todo + done.Keys && todo !! done.Keys
      invariant forall h :: h in done ==> done[h] == items[h]
      invariant blobs' == SwitchedBlobs(blobs, done, toDestination)
      invariant artifacts' == SwitchedJournal(artifacts, done, toDestination)
      invariant if toDestination then SwitchedTable(pending, pending', done, root) else pending' == pending
      invariant capturing ==> ExactUndoAll(pending, done, root, undo, undoKeys)
      decreases todo
    {
      var h :| h in todo;
      var it := items[h];
      if * {
        s.faults := s.faults + 1;
        failed := true;
        return;
      }
      var rows, keys := map[], {};
      if capturing {
        rows, keys := CapturePendingSourceUndo(pending', it, root);
      }
      ghost var last := pending';
      blobs', artifacts', pending' := SwitchRelocationItem(blobs', artifacts', pending', it, root, toDestination);
      SwitchedBlobsStep(blobs, done, it, toDestination);
      SwitchedJournalStep(artifacts, done, it, toDestination);
      if toDestination {
        SwitchOneMore(pending, last, pending', done, it, root, undo, undoKeys, rows, keys);
      }
      undo, undoKeys := undo + rows, undoKeys + keys;
      todo, done := todo - {h}, done[h := it];
    }
    assert done == items;
    failed := false;
  }

  lemma SwitchStarts(blobs: map<Hash, BlobRow>, artifacts: Journal, p: PendingTable, root: Dir, toDestination: bool)
    ensures SwitchedBlobs(blobs, map[], toDestination) == blobs
    ensures SwitchedJournal(artifacts, map[], toDestination) == artifacts
    ensures SwitchedTable(p, p, map[], root)
    ensures ExactUndoAll(p, map[], root, map[], {})
  {
  }

  /** The statements for one item: its path, its pending rows, its journal state. */
  method SwitchRelocationItem(blobs: map<Hash, BlobRow>, artifacts: Journal, pending: PendingTable,
                              it: Item, root: Dir, toDestination: bool)
    returns (blobs': map<Hash, BlobRow>, artifacts': Journal, pending': PendingTable)
    ensures blobs' == if it.hash in blobs then blobs[it.hash := blobs[it.hash].(path := Target(it, toDestination))] else blobs
    ensures artifacts' ==
      if it.oldPath != it.newPath && it.artifact.Some? && it.artifact.value in artifacts
      then artifacts[it.artifact.value := artifacts[it.artifact.value].(committed := toDestination)] else artifacts
    ensures it.oldPath == it.newPath || !toDestination ==> pending' == pending
    ensures it.oldPath != it.newPath && toDestination ==> Retargeted(pending, pending', it, root)
  {
    blobs', artifacts', pending' := blobs, artifacts, pending;
    if it.hash in blobs {
      blobs' := blobs[it.hash := blobs[it.hash].(path := Target(it, toDestination))];
    }
    if it.oldPath == it.newPath {
      return;
    }
    if toDestination {
      pending' := UpdatePendingSource(pending, it, root);
    }
    if it.artifact.Some? && it.artifact.value in artifacts {
      artifacts' := artifacts[it.artifact.value := artifacts[it.artifact.value].(committed := toDestination)];
    }
  }
}
