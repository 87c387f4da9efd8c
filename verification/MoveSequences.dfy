/**
 Sequences of moves of the backup location with failures, crashes and starts
 between them: no file that a move left behind is forgotten.
 */
module MoveSequences {
  import opened Files
  import opened Snapshots
  import opened BlobStore
  import opened Artifacts
  import opened PendingSources
  import opened PendingUndo
  import opened Relocation
  import opened SourceCleanup
  import opened Switching
  import opened ChainedMoves
  import opened Tracking
  import opened Configure
  import opened Runs

  datatype Step = MoveTo(root: Dir) | StartAgain

  /** A move that pointed the index at `to`, with the store as the move found it. */
  datatype Committed = Committed(disk: Disk, tables: Tables, from: Dir, to: Dir)

  /** The journal was empty, or all that it claimed is taken care of after the move. */
  ghost predicate Careful(codec: Codec, m: Committed) {
    m.tables.artifacts == map[] || CarriedOver(codec, m.disk, m.tables, m.from, m.to)
  }

  ghost predicate AllCareful(codec: Codec, moves: seq<Committed>) {
    forall i :: 0 <= i < |moves| ==> Careful(codec, moves[i])
  }

  /** The root of the index after the last committed move. */
  ghost function RootAfter(moves: seq<Committed>, root: Dir): Dir {
    if moves == [] then root else moves[|moves| - 1].to
  }

  /**
   Any moves to any roots, back to earlier ones included, each ending well, in
   failure or in a crash, with starts in between that may fail or die.  When the
   committed ones found no journal row that the move would orphan, every file
   left behind by any of them stays on track, and a start that completes on the
   root of the index leaves none behind.
   */
  method MoveAround(l: BackupLocation, steps: seq<Step>, ghost root: Dir) returns (o: Outcome, ghost moves: seq<Committed>)
    requires l.store.Safe() && TrackedOn(l.store, root)
    modifies l, l.store
    ensures l.store.Safe()
    ensures AllCareful(l.store.codec, moves) ==> TrackedOn(l.store, RootAfter(moves, root))
    ensures AllCareful(l.store.codec, moves) && o.Done? && l.configRoot == RootAfter(moves, root) ==> NoneLeftBehind(l.store.disk, l.store.blobs, l.store.history)
  {
    hide Trusted, BlobsNamed, JournalNamed, RefsExact, Canonical, Needed, AllPresent, OnTrackAt, LeftBehind, Careful;
    moves := [];
    for i := 0 to |steps|
      invariant l.store.Safe()
      invariant AllCareful(l.store.codec, moves) ==> TrackedOn(l.store, RootAfter(moves, root))
    {
      if steps[i].MoveTo? {
        moves := MoveOnce(l, steps[i].root, root, moves);
      } else {
        o := Start(l, RootAfter(moves, root));
      }
    }
    o := Start(l, RootAfter(moves, root));
  }

  /** One move, recorded when it committed. */
  method MoveOnce(l: BackupLocation, to: Dir, ghost root: Dir, ghost moves: seq<Committed>) returns (ghost moves': seq<Committed>)
    requires l.store.Safe()
    modifies l, l.store
    ensures l.store.Safe()
    ensures moves' == moves
         || moves' == moves + [Committed(old(l.store.disk), old(TablesOf(l.store)), RootAfter(moves, root), to)]
    ensures old(AllCareful(l.store.codec, moves) ==> TrackedOn(l.store, RootAfter(moves, root))) && AllCareful(l.store.codec, moves') ==>
      TrackedOn(l.store, RootAfter(moves', root))
  {
    hide Trusted, BlobsNamed, JournalNamed, RefsExact, Canonical, Needed, AllPresent, OnTrackAt, CarriedOver;
    ghost var from := RootAfter(moves, root);
    ghost var m := Committed(l.store.disk, TablesOf(l.store), from, to);
    if TrackedOn(l.store, from) && m.tables.artifacts == map[] {
      EmptyJournalCarriesOver(l.store.codec, m.disk, m.tables, from, to);
    }
    ghost var moved;
    var o, clean;
    o, clean, moved := l.ConfigureLocal(to, from);
    moves' := if moved then moves + [m] else moves;
    if AllCareful(l.store.codec, moves') {
      assert AllCareful(l.store.codec, moves) by {
        assert forall i :: 0 <= i < |moves| ==> moves'[i] == moves[i];
      }
      assert moved ==> Careful(l.store.codec, moves'[|moves|]);
    }
  }

  // ----- A file that is forgotten -----

  /** The blob `h` was moved from `a` to `b`, and cleaned up after: one file, one index row, two recorded paths. */
  ghost function MovedOnce(h: Hash, a: Dir, b: Dir, bytes: Bytes): Committed {
    Committed(Disk(d => d, map[BlobPath(b, h) := 0], [bytes]),
              Tables(map[h := BlobRow(BlobPath(b, h), 0, "")], map[], map[], {(h, BlobPath(a, h)), (h, BlobPath(b, h))}), b, a)
  }

  /** The journal row of a move of `h` from `b` to `root`. */
  function RowTo(h: Hash, b: Dir, root: Dir, id: Id): Artifact {
    Artifact(h, BlobPath(b, h), root, BlobPath(root, h), StagingPath(root, h, id), 0, true, false, false)
  }

  /** A move back to `a` died after it had linked the stage to its destination; the next one goes to `c`. */
  ghost function DiedGoingBack(h: Hash, a: Dir, b: Dir, c: Dir, bytes: Bytes, id: Id): Committed {
    Committed(Disk(d => d, map[BlobPath(b, h) := 0, BlobPath(a, h) := 1, StagingPath(a, h, id) := 1], [bytes, bytes]),
              MovedOnce(h, a, b, bytes).tables.(artifacts := map[id := RowTo(h, b, a, id)]), b, c)
  }

  /** The move from there to `c` when it is about to switch: its own row journaled, its file linked. */
  ghost function ReadyToGoOn(h: Hash, a: Dir, b: Dir, c: Dir, bytes: Bytes, id: Id, id': Id): Committed {
    var m := DiedGoingBack(h, a, b, c, bytes, id);
    Committed(Disk(d => d, m.disk.links[BlobPath(c, h) := 2][StagingPath(c, h, id') := 2], m.disk.data + [bytes]),
              m.tables.(artifacts := m.tables.artifacts[id' := RowTo(h, b, c, id')]), b, c)
  }

  lemma PathsDiffer(h: Hash, a: Dir, b: Dir)
    requires a != b
    ensures BlobPath(a, h) != BlobPath(b, h)
  {
    if BlobPath(a, h) == BlobPath(b, h) {
      BlobPathInjective(a, b, h);
    }
  }

  /**
   Why the moves have to be careful.  The dead move left an attempt like any
   other and a store on track: its file at `a` is claimed by its row.  Once the
   next move has committed, that file is left behind, no row of either table
   leads to it, and recovery drops the journal row without removing it.
   */
  lemma StaleClaimIsForgotten(codec: Codec, h: Hash, a: Dir, b: Dir, c: Dir, bytes: Bytes, id: Id, id': Id, x': Tables)
    requires a != b && b != c && a != c && id != id'
    requires var items := map[h := Item(h, BlobPath(b, h), BlobPath(c, h), 0, Some(id'))];
             SwitchedTables(ReadyToGoOn(h, a, b, c, bytes, id, id').tables, x', items, c)
    ensures var m, n := MovedOnce(h, a, b, bytes), DiedGoingBack(h, a, b, c, bytes, id);
            && OnTrackAt(codec, m.disk, m.tables, b) && OnTrackAt(codec, n.disk, n.tables, b)
            && Attempting(codec, Ledger(m.disk, map[], map[h := id], map[h := RowTo(h, b, a, id)]),
                          n.disk, n.tables.blobs, n.tables.artifacts)
            && !Careful(codec, n)
    ensures var d := ReadyToGoOn(h, a, b, c, bytes, id, id').disk;
            && LeftBehind(d, x'.blobs, x'.history, h, BlobPath(a, h)) && !OnTrackAt(codec, d, x', c)
            && id in x'.artifacts && x'.artifacts[id] == RowTo(h, b, a, id)
            && WithoutArtifact(codec, d, x'.blobs, x'.artifacts[id]).Has(BlobPath(a, h))
  {
    PathsDiffer(h, a, b);
    PathsDiffer(h, b, c);
    PathsDiffer(h, a, c);
    GoingBackIsAnAttempt(codec, h, a, b, c, bytes, id);
    GoingBackIsTracked(codec, h, a, b, c, bytes, id);
    GoingOnIsCareless(codec, h, a, b, c, bytes, id);
    GoingOnForgets(codec, h, a, b, c, bytes, id, id', x');
  }

  lemma GoingBackIsAnAttempt(codec: Codec, h: Hash, a: Dir, b: Dir, c: Dir, bytes: Bytes, id: Id)
    requires BlobPath(a, h) != BlobPath(b, h)
    ensures var m, n := MovedOnce(h, a, b, bytes), DiedGoingBack(h, a, b, c, bytes, id);
            Attempting(codec, Ledger(m.disk, map[], map[h := id], map[h := RowTo(h, b, a, id)]),
                       n.disk, n.tables.blobs, n.tables.artifacts)
  {
    assert map[h := id].Values == {id} by {
      assert map[h := id][h] == id;
    }
  }

  lemma GoingBackIsTracked(codec: Codec, h: Hash, a: Dir, b: Dir, c: Dir, bytes: Bytes, id: Id)
    requires BlobPath(a, h) != BlobPath(b, h)
    ensures OnTrackAt(codec, MovedOnce(h, a, b, bytes).disk, MovedOnce(h, a, b, bytes).tables, b)
    ensures var n := DiedGoingBack(h, a, b, c, bytes, id); OnTrackAt(codec, n.disk, n.tables, b)
  {
    var n := DiedGoingBack(h, a, b, c, bytes, id);
    assert RemovesDestination(codec, n.disk, n.tables.blobs, n.tables.artifacts[id]);
    assert BlobPath(a, h) in ClaimedBy(codec, n.disk, n.tables.blobs, n.tables.artifacts);
  }

  lemma GoingOnIsCareless(codec: Codec, h: Hash, a: Dir, b: Dir, c: Dir, bytes: Bytes, id: Id)
    requires BlobPath(a, h) != BlobPath(b, h) && BlobPath(b, h) != BlobPath(c, h) && BlobPath(a, h) != BlobPath(c, h)
    ensures !Careful(codec, DiedGoingBack(h, a, b, c, bytes, id))
  {
    var n := DiedGoingBack(h, a, b, c, bytes, id);
    assert LeftBehind(n.disk, n.tables.blobs, n.tables.history, h, BlobPath(a, h));
    assert id in n.tables.artifacts;
  }

  lemma GoingOnForgets(codec: Codec, h: Hash, a: Dir, b: Dir, c: Dir, bytes: Bytes, id: Id, id': Id, x': Tables)
    requires BlobPath(a, h) != BlobPath(b, h) && BlobPath(b, h) != BlobPath(c, h) && BlobPath(a, h) != BlobPath(c, h)
    requires id != id'
    requires var items := map[h := Item(h, BlobPath(b, h), BlobPath(c, h), 0, Some(id'))];
             SwitchedTables(ReadyToGoOn(h, a, b, c, bytes, id, id').tables, x', items, c)
    ensures var d := ReadyToGoOn(h, a, b, c, bytes, id, id').disk;
            && LeftBehind(d, x'.blobs, x'.history, h, BlobPath(a, h)) && !OnTrackAt(codec, d, x', c)
            && id in x'.artifacts && x'.artifacts[id] == RowTo(h, b, a, id)
            && WithoutArtifact(codec, d, x'.blobs, x'.artifacts[id]).Has(BlobPath(a, h))
  {
    var m := ReadyToGoOn(h, a, b, c, bytes, id, id');
    var items := map[h := Item(h, BlobPath(b, h), BlobPath(c, h), 0, Some(id'))];
    assert JournaledIds(items) == {id'} by {
      assert Switches(items, h);
    }
    assert x'.blobs[h].path == BlobPath(c, h);
    assert LeftBehind(m.disk, x'.blobs, x'.history, h, BlobPath(a, h));
    forall k | k in x'.pending
      ensures k.source == BlobPath(b, h)
    {
      assert if Switches(items, k.hash) then RetargetedAt(map[], x'.pending, items[k.hash], c, k) else SameAt(map[], x'.pending, k);
    }
    assert !Scheduled(m.disk, x'.blobs, x'.pending, c, h, BlobPath(a, h));
    assert x'.artifacts[id'].committed;
    assert BlobPath(a, h) !in ClaimedBy(codec, m.disk, x'.blobs, x'.artifacts);
  }
}
