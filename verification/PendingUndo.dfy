/**
 One switch transaction over all items, and the transaction that undoes it.

 `blobs` has one row per hash, so the items of a relocation are keyed by hash.
 */
module PendingUndo {
  import opened Files
  import opened BlobStore
  import opened PendingSources

  type Items = map<Hash, Item>

  ghost predicate ItemsNamed(items: Items) {
    forall h :: h in items ==> items[h].hash == h
  }

  ghost predicate SameRows(p: PendingTable, p': PendingTable, h: Hash) {
    forall k: PendingKey :: k.hash == h ==> SameAt(p, p', k)
  }

  predicate Switches(items: Items, h: Hash) {
    h in items && items[h].oldPath != items[h].newPath
  }

  /** The table after every item was switched; an item that stays in place writes no row. */
  ghost predicate SwitchedTable(p: PendingTable, p': PendingTable, items: Items, root: Dir) {
    forall k: PendingKey ::
      if Switches(items, k.hash) then RetargetedAt(p, p', items[k.hash], root, k) else SameAt(p, p', k)
  }

  ghost predicate Undone(p: PendingTable, items: Items, root: Dir, k: PendingKey) {
    k.hash in items && (UndoKey(p, items[k.hash], root, k) || Moves(p, items[k.hash], k))
  }

  ghost predicate Written(p: PendingTable, items: Items, root: Dir, k: PendingKey) {
    k.hash in items && UndoKey(p, items[k.hash], root, k)
  }

  /** What the captures of all items amount to. */
  ghost predicate ExactUndoAll(p: PendingTable, items: Items, root: Dir, before: PendingTable, keys: set<PendingKey>) {
    && (forall k :: k in before <==> k in p && Undone(p, items, root, k))
    && (forall k :: k in before ==> before[k] == p[k])
    && (forall k :: k in keys <==> Written(p, items, root, k))
  }

  /** A row recorded for another root that leads to the path of an item that does not move. */
  predicate StuckRow(p: PendingTable, items: Items, root: Dir, k: PendingKey) {
    k.hash in items && items[k.hash].oldPath == items[k.hash].newPath && Moves(p, items[k.hash], k) && k.root != root
  }

  lemma MovedSourceIsIn(p: PendingTable, it: Item, k: PendingKey)
    requires Moves(p, it, k)
    ensures k.source in MovedSources(p, it)
  {
  }

  /**
   Undoing the switch gives the table back row for row, except that the undo is
   refused exactly when some row for another root leads to a path that stays.
   */
  lemma UndoRestoresTable(p: PendingTable, p': PendingTable, items: Items, root: Dir,
                          before: PendingTable, keys: set<PendingKey>)
    requires ItemsNamed(items)
    requires SwitchedTable(p, p', items, root)
    requires ExactUndoAll(p, items, root, before, keys)
    ensures Clashes(p', before, keys) <==> exists k :: k in p && StuckRow(p, items, root, k)
    ensures (p' - keys) + before == p
  {
    forall k: PendingKey
      ensures k in before && k !in keys && k in p' <==> k in p && StuckRow(p, items, root, k)
    {
      if k.hash in items && Moves(p, items[k.hash], k) {
        MovedSourceIsIn(p, items[k.hash], k);
      }
      assert Switches(items, k.hash) ==> RetargetedAt(p, p', items[k.hash], root, k);
      assert !Switches(items, k.hash) ==> SameAt(p, p', k);
    }
    if Clashes(p', before, keys) {
      var k :| k in before && k !in keys && k in p';
      assert k in p && StuckRow(p, items, root, k);
    }
    if k :| k in p && StuckRow(p, items, root, k) {
      assert k in before && k !in keys && k in p';
    }
    var r := (p' - keys) + before;
    forall k: PendingKey
      ensures SameAt(p, r, k)
    {
      assert Switches(items, k.hash) ==> RetargetedAt(p, p', items[k.hash], root, k);
      assert !Switches(items, k.hash) ==> SameAt(p, p', k);
    }
    SameEverywhere(p, r);
  }

  lemma SameEverywhere(p: PendingTable, p': PendingTable)
    requires forall k :: SameAt(p, p', k)
    ensures p == p'
  {
    forall k: PendingKey
      ensures (k in p <==> k in p') && (k in p ==> p[k] == p'[k])
    {
      assert SameAt(p, p', k);
    }
  }

  ghost predicate MovesTo(items: Items, root: Dir) {
    forall h :: h in items ==> items[h].newPath == BlobPath(root, h)
  }

  /** In a canonical table no row is stuck, and the switch keeps the table canonical. */
  lemma SwitchKeepsCanonical(p: PendingTable, p': PendingTable, items: Items, root: Dir)
    requires ItemsNamed(items) && Canonical(p) && MovesTo(items, root) && SwitchedTable(p, p', items, root)
    ensures Canonical(p')
    ensures forall k :: k in p ==> !StuckRow(p, items, root, k)
  {
    forall k | k in p
      ensures !StuckRow(p, items, root, k)
    {
      if StuckRow(p, items, root, k) {
        BlobPathInjective(k.root, root, k.hash);
      }
    }
    forall k | k in p'
      ensures p'[k].replacement == BlobPath(k.root, k.hash)
    {
      assert Switches(items, k.hash) ==> RetargetedAt(p, p', items[k.hash], root, k);
      assert !Switches(items, k.hash) ==> SameAt(p, p', k);
    }
  }

  /** A repeated switch to the destination changes nothing more. */
  lemma SwitchTwiceIsSwitchOnce(p: PendingTable, p': PendingTable, p'': PendingTable, items: Items, root: Dir)
    requires ItemsNamed(items)
    requires SwitchedTable(p, p', items, root) && SwitchedTable(p', p'', items, root)
    ensures p'' == p'
  {
    forall k: PendingKey
      ensures SameAt(p', p'', k)
    {
      if Switches(items, k.hash) {
        var it := items[k.hash];
        forall m | Moves(p', it, m)
          ensures false
        {
          assert RetargetedAt(p, p', it, root, m);
          assert Moves(p, it, m);
          MovedSourceIsIn(p, it, m);
        }
        assert MovedSources(p', it) == {};
        assert RetargetedAt(p, p', it, root, k) && RetargetedAt(p', p'', it, root, k);
      } else {
        assert SameAt(p', p'', k);
      }
    }
    SameEverywhere(p', p'');
  }

  lemma SameRowsSameUndo(p: PendingTable, now: PendingTable, it: Item, root: Dir)
    requires SameRows(p, now, it.hash)
    ensures forall k :: Moves(p, it, k) <==> Moves(now, it, k)
    ensures MovedSources(p, it) == MovedSources(now, it)
  {
    forall k: PendingKey
      ensures Moves(p, it, k) <==> Moves(now, it, k)
    {
      if k.hash == it.hash {
        assert SameAt(p, now, k);
      }
    }
    forall s | s in MovedSources(p, it)
      ensures s in MovedSources(now, it)
    {
      var k :| k in p && Moves(p, it, k) && k.source == s;
      assert Moves(now, it, k);
    }
    forall s | s in MovedSources(now, it)
      ensures s in MovedSources(p, it)
    {
      var k :| k in now && Moves(now, it, k) && k.source == s;
      assert Moves(p, it, k);
    }
  }

  /** Switching and capturing one more item extends both relations by that item. */
  lemma SwitchOneMore(p: PendingTable, now: PendingTable, next: PendingTable, items: Items, it: Item, root: Dir,
                      before: PendingTable, keys: set<PendingKey>, before1: PendingTable, keys1: set<PendingKey>)
    requires ItemsNamed(items) && it.hash !in items
    requires SwitchedTable(p, now, items, root)
    requires if it.oldPath == it.newPath then next == now else Retargeted(now, next, it, root)
    ensures SwitchedTable(p, next, items[it.hash := it], root)
    ensures ExactUndoAll(p, items, root, before, keys) && ExactUndo(now, it, root, before1, keys1) ==>
              ExactUndoAll(p, items[it.hash := it], root, before + before1, keys + keys1)
  {
    forall k: PendingKey | k.hash == it.hash
      ensures SameAt(p, now, k)
    {
      assert !Switches(items, k.hash);
    }
    SameRowsSameUndo(p, now, it, root);
    var items' := items[it.hash := it];
    forall k: PendingKey
      ensures if Switches(items', k.hash) then RetargetedAt(p, next, items'[k.hash], root, k) else SameAt(p, next, k)
    {
      assert it.oldPath != it.newPath ==> RetargetedAt(now, next, it, root, k);
      if k.hash == it.hash {
        if it.oldPath != it.newPath && k.root == root && k.source != it.oldPath && k.source in MovedSources(now, it) {
          var m :| Moves(now, it, m) && m.source == k.source && now[m].size == next[k].size;
          assert Moves(p, it, m) && p[m].size == next[k].size;
        }
      } else {
        assert SameAt(now, next, k);
        assert Switches(items, k.hash) ==> RetargetedAt(p, now, items[k.hash], root, k);
        assert !Switches(items, k.hash) ==> SameAt(p, now, k);
      }
    }
    if ExactUndoAll(p, items, root, before, keys) && ExactUndo(now, it, root, before1, keys1) {
      forall k: PendingKey
        ensures k in before + before1 <==> k in p && Undone(p, items', root, k)
        ensures k in before + before1 ==> (before + before1)[k] == p[k]
        ensures k in keys + keys1 <==> Written(p, items', root, k)
      {
        if k.hash == it.hash {
          assert SameAt(p, now, k);
          assert UndoKey(p, it, root, k) <==> UndoKey(now, it, root, k);
        }
      }
    }
  }
}
