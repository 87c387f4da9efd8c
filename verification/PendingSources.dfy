/**
 The table of source files that a relocation left behind.

 A row (source, root, hash) -> replacement says that `source` may go once `hash`
 is indexed at `replacement`.  When the blobs move again before the row was
 cleaned up, the switch retargets it to the new root; when the switch is undone,
 the table must come back exactly.
 */
module PendingSources {
  import opened Files
  import opened BlobStore

  datatype Item = Item(hash: Hash, oldPath: Path, newPath: Path, size: nat, artifact: Option<Id>)

  /** SELECT ... WHERE hash = h */
  function RowsOf(p: PendingTable, h: Hash): PendingTable {
    map k | k in p && k.hash == h :: p[k]
  }

  /** An older row that the item's move retargets. */
  predicate Moves(p: PendingTable, it: Item, k: PendingKey) {
    k in p && k.hash == it.hash && k.source != it.oldPath && p[k].replacement == it.oldPath
  }

  function MovedSources(p: PendingTable, it: Item): set<Path> {
    set k | k in p && Moves(p, it, k) :: k.source
  }

  /** A key that the switch writes. */
  predicate UndoKey(p: PendingTable, it: Item, root: Dir, k: PendingKey) {
    k.hash == it.hash && k.root == root && (k.source == it.oldPath || k.source in MovedSources(p, it))
  }

  ghost predicate SameAt(p: PendingTable, p': PendingTable, k: PendingKey) {
    (k in p <==> k in p') && (k in p ==> p[k] == p'[k])
  }

  /** `before` holds every row that the switch will change, `keys` every key that it will write. */
  ghost predicate ExactUndo(p: PendingTable, it: Item, root: Dir, before: PendingTable, keys: set<PendingKey>) {
    && (forall k :: k in before <==> k in p && (UndoKey(p, it, root, k) || Moves(p, it, k)))
    && (forall k :: k in before ==> before[k] == p[k])
    && (forall k :: k in keys <==> UndoKey(p, it, root, k))
  }

  /** The rows of `p` that lead to the item's old path, and their sources. */
  method FindMoved(p: PendingTable, it: Item) returns (moved: set<PendingKey>, sources: set<Path>)
    ensures forall k :: k in moved <==> Moves(p, it, k)
    ensures sources == MovedSources(p, it)
  {
    var all := RowsOf(p, it.hash);
    var todo := all.Keys;
    moved, sources := {}, {};
    while todo != {}
      invariant todo <= all.Keys
      invariant forall k :: k in moved <==> Moves(p, it, k) && k !in todo
      invariant sources == set k | k in moved :: k.source
      decreases todo
    {
      var k :| k in todo;
      todo := todo - {k};
      if k.source != it.oldPath && all[k].replacement == it.oldPath {
        moved, sources := moved + {k}, sources + {k.source};
      }
    }
  }

  /** Records, before the switch writes, the rows it will change and the keys it will write. */
  method CapturePendingSourceUndo(p: PendingTable, it: Item, root: Dir)
    returns (before: PendingTable, keys: set<PendingKey>)
    ensures ExactUndo(p, it, root, before, keys)
  {
    var all := RowsOf(p, it.hash);
    var moved, sources := FindMoved(p, it);
    before, keys := map[], {};
    var todo := all.Keys;
    while todo != {}
      invariant todo <= all.Keys
      invariant forall k :: k in before <==> k in all && k !in todo && UndoKey(p, it, root, k)
      invariant forall k :: k in before ==> before[k] == p[k]
      decreases todo
    {
      var k :| k in todo;
      todo := todo - {k};
      if k.source in sources && k.root == root {
        before := before[k := all[k]];
      } else if k.source == it.oldPath && k.root == root {
        before := before[k := all[k]];
      }
    }
    todo := moved;
    while todo != {}
      invariant todo <= moved
      invariant forall k :: k in before <==> k in all && (UndoKey(p, it, root, k) || (k in moved && k !in todo))
      invariant forall k :: k in before ==> before[k] == p[k]
      invariant keys == set k | k in moved && k !in todo :: PendingKey(k.source, root, it.hash)
      decreases todo
    {
      var k :| k in todo;
      todo := todo - {k};
      if k !in before {
        before := before[k := all[k]];
      }
      keys := keys + {PendingKey(k.source, root, k.hash)};
    }
    keys := keys + {PendingKey(it.oldPath, root, it.hash)};
    assert forall k :: k in keys ==> UndoKey(p, it, root, k);
    forall k | UndoKey(p, it, root, k)
      ensures k in keys
    {
      if k.source != it.oldPath {
        var m :| m in p && Moves(p, it, m) && m.source == k.source;
        assert m in moved && k == PendingKey(m.source, root, it.hash);
      }
    }
  }

  /** The size recorded by one of the rows that move `source`. */
  ghost predicate SizeOfMoved(p: PendingTable, it: Item, source: Path, size: nat) {
    exists k :: Moves(p, it, k) && k.source == source && p[k].size == size
  }

  /** What the switch of one item makes of the row at `k`. */
  ghost predicate RetargetedAt(p: PendingTable, p': PendingTable, it: Item, root: Dir, k: PendingKey) {
    if k.hash == it.hash && k.root == root && k.source == it.oldPath then
      k in p' && p'[k] == PendingValue(it.newPath, it.size)
    else if k.hash == it.hash && k.root == root && k.source in MovedSources(p, it) then
      k in p' && p'[k].replacement == it.newPath && SizeOfMoved(p, it, k.source, p'[k].size)
    else if Moves(p, it, k) then
      k !in p'
    else
      SameAt(p, p', k)
  }

  ghost predicate Retargeted(p: PendingTable, p': PendingTable, it: Item, root: Dir) {
    forall k :: RetargetedAt(p, p', it, root, k)
  }

  /** The deletes and the upsert for one older source. */
  method RetargetSource(p: PendingTable, now: PendingTable, it: Item, root: Dir, source: Path)
    returns (p': PendingTable)
    requires source in MovedSources(p, it)
    requires forall k: PendingKey :: k.source == source ==> SameAt(p, now, k)
    ensures forall k: PendingKey :: k.source == source ==> RetargetedAt(p, p', it, root, k)
    ensures forall k: PendingKey :: k.source != source ==> SameAt(now, p', k)
  {
    var all := RowsOf(p, it.hash);
    p' := now;
    var todo := all.Keys;
    while todo != {}
      invariant todo <= all.Keys
      invariant forall k :: k in p' ==> k in now && p'[k] == now[k]
      invariant forall k :: k in now ==>
        (k !in p' <==> k in all && k !in todo && k.source == source && (Moves(p, it, k) || k.root == root))
      decreases todo
    {
      var k :| k in todo;
      todo := todo - {k};
      if k.source == source && (all[k].replacement == it.oldPath || k.root == root) {
        p' := p' - {k};
      }
    }
    var k0 :| k0 in p && Moves(p, it, k0) && k0.source == source;
    p' := p'[PendingKey(source, root, it.hash) := PendingValue(it.newPath, p[k0].size)];
  }

  /** Retargets the older rows that led to the old path and records the old path itself. */
  method UpdatePendingSource(p: PendingTable, it: Item, root: Dir) returns (p': PendingTable)
    ensures Retargeted(p, p', it, root)
  {
    var moved, sources := FindMoved(p, it);
    p' := p;
    var todo, done := sources, {};
    while todo != {}
      invariant sources == todo + done && todo !! done
      invariant forall k: PendingKey :: k.source in done ==> RetargetedAt(p, p', it, root, k)
      invariant forall k: PendingKey :: k.source !in done ==> SameAt(p, p', k)
      decreases todo
    {
      var source :| source in todo;
      ghost var last := p';
      p' := RetargetSource(p, p', it, root, source);
      todo, done := todo - {source}, done + {source};
    }
    p' := p'[PendingKey(it.oldPath, root, it.hash) := PendingValue(it.newPath, it.size)];
  }

  /** A recorded row that is not among the written keys is there already. */
  predicate Clashes(p: PendingTable, before: PendingTable, keys: set<PendingKey>) {
    exists k :: k in before && k !in keys && k in p
  }

  /** Deletes the written keys, then re-inserts the recorded rows; a plain INSERT refuses a key that is present. */
  method RestorePendingSources(p: PendingTable, before: PendingTable, keys: set<PendingKey>)
    returns (clash: bool, p': PendingTable)
    ensures clash <==> Clashes(p, before, keys)
    ensures !clash ==> p' == (p - keys) + before
  {
    p' := p - keys;
    var todo, done := before.Keys, {};
    while todo != {}
      invariant before.Keys == todo + done && todo !! done
      invariant done !! (p.Keys - keys)
      invariant p' == (p - keys) + (map k | k in done :: before[k])
      decreases todo
    {
      var k :| k in todo;
      if k in p' {
        assert k in before && k !in keys && k in p;
        return true, p';
      }
      p' := p'[k := before[k]];
      todo, done := todo - {k}, done + {k};
    }
    clash := false;
    assert before == map k | k in done :: before[k];
  }
}
