/**
 Blobs that move again before the last move was cleaned up: the switch carries
 the unfinished cleanup work over to the new root.
 */
module ChainedMoves {
  import opened Files
  import opened BlobStore
  import opened Artifacts
  import opened PendingSources
  import opened PendingUndo
  import opened Relocation
  import opened SourceCleanup
  import opened Switching

  /** The disk grew by nothing but files at the items' destinations and staging names. */
  ghost predicate GrownForItems(d0: Disk, d: Disk, items: Items) {
    && d.alias == d0.alias
    && (forall l :: l in d0.links ==> l in d.links && d.links[l] == d0.links[l])
    && (forall l :: l in d.links && l !in d0.links && l.name.BlobName? ==>
          l.name.hash in items && l == d.At(items[l.name.hash].newPath))
  }

  lemma AttemptGrowsForItems(codec: Codec, t: Ledger, d: Disk, blobs: map<Hash, BlobRow>, b0: map<Hash, BlobRow>,
                             artifacts: Journal, root: Dir, items: Items)
    requires Attempting(codec, t, d, b0, artifacts) && Ready(blobs, d, artifacts, root, items, t)
    ensures GrownForItems(t.disk, d, items)
  {
    forall l | l in d.links && l !in t.disk.links && l.name.BlobName?
      ensures l.name.hash in items && l == d.At(items[l.name.hash].newPath)
    {
      assert Belongs(d, t.mine, l);
      assert ItemReady(blobs, d, root, l.name.hash, items[l.name.hash]);
    }
  }

  /** New files get new inodes, so blob files still share none: two of one hash would be one entry's. */
  lemma AttemptKeepsUnshared(codec: Codec, t: Ledger, d: Disk, blobs: map<Hash, BlobRow>, artifacts: Journal)
    requires Attempting(codec, t, d, blobs, artifacts) && Trusted(codec, d) && Unshared(t.disk)
    ensures Unshared(d)
  {
    forall l, l' | l in d.links && l' in d.links && l.name.BlobName? && l'.name.BlobName? && d.links[l] == d.links[l']
      ensures l == l'
    {
      assert l.name.hash == l'.name.hash;
      if l !in t.disk.links && l' !in t.disk.links {
        assert Belongs(d, t.mine, l) && Belongs(d, t.mine, l');
      }
    }
  }

  /** Losing files keeps track of the others, as long as claims on them stand. */
  lemma FewerLinksKeepTracked(d: Disk, d': Disk, blobs: map<Hash, BlobRow>, p: PendingTable, root: Dir, history: set<(Hash, Path)>,
                              claims: set<Path>, claims': set<Path>)
    requires d'.alias == d.alias && OnlyShrinks(d, d')
    requires forall l :: l in claims && l in d'.links ==> l in claims'
    ensures Unshared(d) ==> Unshared(d')
    ensures Tracked(d, blobs, p, root, history, claims) ==> Tracked(d', blobs, p, root, history, claims')
  {
    if Tracked(d, blobs, p, root, history, claims) {
      forall h, l | LeftBehind(d', blobs, history, h, l) && d'.At(l) !in claims'
        ensures Scheduled(d', blobs, p, root, h, l)
      {
        assert LeftBehind(d, blobs, history, h, l) && d.At(l) !in claims;
        var k :| k in p && k.root == root && k.hash == h && d.At(k.source) == d.At(l) && p[k].replacement == blobs[h].path;
        assert d'.At(k.source) == d'.At(l);
      }
    }
  }

  /** An attempt keeps track of everything: what it adds it claims. */
  lemma AttemptKeepsTracked(codec: Codec, t: Ledger, d: Disk, blobs: map<Hash, BlobRow>, artifacts: Journal,
                            p: PendingTable, root: Dir, history: set<(Hash, Path)>)
    requires Attempting(codec, t, d, blobs, artifacts) && JournalNamed(artifacts)
    requires Tracked(t.disk, blobs, p, root, history, ClaimedBy(codec, t.disk, blobs, t.base))
    ensures Tracked(d, blobs, p, root, history, ClaimedBy(codec, d, blobs, artifacts))
  {
    AttemptClaims(codec, t, d, blobs, artifacts);
    hide RemovesDestination, Attempting, ClaimedBy;
    assert d.alias == t.disk.alias by { AttemptGrows(codec, t, d, blobs, artifacts); }
    forall h, l | LeftBehind(d, blobs, history, h, l) && d.At(l) !in ClaimedBy(codec, d, blobs, artifacts)
      ensures Scheduled(d, blobs, p, root, h, l)
    {
      assert d.At(l).name == BlobName(h);
      assert LeftBehind(t.disk, blobs, history, h, l);
      assert Scheduled(t.disk, blobs, p, root, h, l);
    }
  }

  /** A file left behind after the switch was left behind before it, or is where its hash just was. */
  lemma LeftBehindBySwitch(d0: Disk, d: Disk, blobs: map<Hash, BlobRow>, items: Items, root': Dir,
                           history: set<(Hash, Path)>,
                           h: Hash, l: Path)
    requires GrownForItems(d0, d, items) && MovesTo(items, root') && ItemsNamed(items) && items.Keys == blobs.Keys
    requires forall g :: g in items ==> items[g].oldPath == blobs[g].path
    requires forall e :: e in history ==> e.1.name == BlobName(e.0)
    requires LeftBehind(d, SwitchedBlobs(blobs, items, true), HistoryAfter(history, items), h, l)
    ensures h in items && d0.Has(l) && (h, l) in history && d.At(l) != d.At(items[h].newPath)
    ensures d0.At(l) == d0.At(items[h].oldPath) || LeftBehind(d0, blobs, history, h, l)
  {
    assert SwitchedBlobs(blobs, items, true)[h].path == items[h].newPath;
    assert l.name == BlobName(h);
    assert d.At(l).name == BlobName(h);
  }

  /** A row that was waiting for the new root leads from the location of `l` to the new place of `h`. */
  ghost predicate WaitingRow(d: Disk, p: PendingTable, root: Dir, h: Hash, l: Path) {
    exists k :: k in p && k.root == root && k.hash == h && d.At(k.source) == d.At(l) && p[k].replacement == BlobPath(root, h)
  }

  /**
   What only the journal claimed is not forgotten by a move to `root'`: it is the
   new place itself, a row already waits for it, or the journal claims it still.
   */
  ghost predicate CarriesOver(d: Disk, blobs: map<Hash, BlobRow>, p: PendingTable, root: Dir, root': Dir,
                              history: set<(Hash, Path)>, claims': set<Path>) {
    forall h, l :: LeftBehind(d, blobs, history, h, l) && !Scheduled(d, blobs, p, root, h, l) ==>
      d.At(l) == d.At(BlobPath(root', h)) || WaitingRow(d, p, root', h, l) || d.At(l) in claims'
  }

  /** A journal that claims nothing leaves nothing to carry over. */
  lemma NoClaimsCarryOver(d: Disk, blobs: map<Hash, BlobRow>, p: PendingTable, root: Dir, root': Dir,
                          history: set<(Hash, Path)>, claims': set<Path>)
    requires Tracked(d, blobs, p, root, history, {})
    ensures CarriesOver(d, blobs, p, root, root', history, claims')
  {
  }

  /** The row that leads from an old source to the new place after the switch. */
  lemma RowAfterSwitch(d: Disk, p: PendingTable, p': PendingTable, items: Items, root: Dir, root': Dir, h: Hash, l: Path)
    requires MovesTo(items, root') && ItemsNamed(items) && SwitchedTable(p, p', items, root') && h in items
    requires items[h].oldPath == BlobPath(root, h)
    requires WaitingRow(d, p, root', h, l) || WaitingRow(d, p, root, h, l) || d.At(l) == d.At(items[h].oldPath)
    requires d.At(l) == d.At(items[h].oldPath) ==> d.At(l) != d.At(items[h].newPath)
    ensures WaitingRow(d, p', root', h, l)
  {
    var it := items[h];
    var k: PendingKey;
    if it.oldPath == it.newPath {
      BlobPathInjective(root, root', h);
    }
    if d.At(l) == d.At(it.oldPath) {
      k := PendingKey(it.oldPath, root', h);
      assert RetargetedAt(p, p', it, root', k);
    } else if WaitingRow(d, p, root', h, l) {
      k :| k in p && k.root == root' && k.hash == h && d.At(k.source) == d.At(l) && p[k].replacement == BlobPath(root', h);
      assert if Switches(items, h) then RetargetedAt(p, p', it, root', k) else SameAt(p, p', k);
    } else {
      var j :| j in p && j.root == root && j.hash == h && d.At(j.source) == d.At(l) && p[j].replacement == BlobPath(root, h);
      k := PendingKey(j.source, root', h);
      MovedSourceIsIn(p, it, j);
      assert RetargetedAt(p, p', it, root', k);
    }
    assert k in p' && k.root == root' && k.hash == h && d.At(k.source) == d.At(l) && p'[k].replacement == BlobPath(root', h);
  }

  /**
   The committed switch keeps every left-behind file on track: the rows that led
   to the old paths lead to the new ones, and the old paths get rows themselves.
   */
  lemma SwitchKeepsTracked(d0: Disk, d: Disk, blobs: map<Hash, BlobRow>, p: PendingTable, p': PendingTable, items: Items,
                           root: Dir, root': Dir, history: set<(Hash, Path)>, claims: set<Path>, claims': set<Path>)
    requires Tracked(d0, blobs, p, root, history, claims) && CarriesOver(d0, blobs, p, root, root', history, claims')
    requires GrownForItems(d0, d, items) && MovesTo(items, root') && ItemsNamed(items) && items.Keys == blobs.Keys
    requires forall g :: g in items ==> items[g].oldPath == blobs[g].path
    requires SwitchedTable(p, p', items, root')
    ensures Tracked(d, SwitchedBlobs(blobs, items, true), p', root', HistoryAfter(history, items), claims')
  {
    var blobs', history' := SwitchedBlobs(blobs, items, true), HistoryAfter(history, items);
    hide SwitchedTable;
    forall h, l | LeftBehind(d, blobs', history', h, l) && d.At(l) !in claims'
      ensures Scheduled(d, blobs', p', root', h, l)
    {
      LeftBehindBySwitch(d0, d, blobs, items, root', history, h, l);
      assert Scheduled(d0, blobs, p, root, h, l) ==> WaitingRow(d0, p, root, h, l);
      RowAfterSwitch(d0, p, p', items, root, root', h, l);
      assert WaitingRow(d0, p', root', h, l);
    }
    SwitchRecordsSources(p, p', items, root', history);
    assert IndexedUnder(blobs', root', history');
  }

  lemma SwitchRecordsSources(p: PendingTable, p': PendingTable, items: Items, root': Dir, history: set<(Hash, Path)>)
    requires SwitchedTable(p, p', items, root') && ItemsNamed(items) && SourcesRecorded(p, history)
    requires forall g :: g in items ==> items[g].oldPath.name == BlobName(g) && (g, items[g].oldPath) in history
    ensures SourcesRecorded(p', HistoryAfter(history, items))
  {
    forall k | k in p'
      ensures k.source.name == BlobName(k.hash) && (k.hash, k.source) in history
    {
      SourceOfSwitchedRow(p, p', items, root', k);
    }
  }

  /** In a canonical table the switch makes a row for a left-behind file only out of a row for it. */
  lemma RowBeforeSwitch(d: Disk, p: PendingTable, p': PendingTable, items: Items, root: Dir, root': Dir, h: Hash, l: Path)
    requires Canonical(p) && MovesTo(items, root') && ItemsNamed(items) && SwitchedTable(p, p', items, root') && h in items
    requires items[h].oldPath == BlobPath(root, h) && d.At(l) != d.At(items[h].oldPath) && WaitingRow(d, p', root', h, l)
    ensures WaitingRow(d, p, root', h, l) || WaitingRow(d, p, root, h, l)
  {
    var it := items[h];
    var k :| k in p' && k.root == root' && k.hash == h && d.At(k.source) == d.At(l) && p'[k].replacement == BlobPath(root', h);
    assert if Switches(items, h) then RetargetedAt(p, p', it, root', k) else SameAt(p, p', k);
    if Switches(items, h) && k.source in MovedSources(p, it) {
      var j :| j in p && Moves(p, it, j) && j.source == k.source;
      BlobPathInjective(j.root, root, h);
      assert j.root == root && d.At(j.source) == d.At(l) && p[j].replacement == BlobPath(root, h);
    } else {
      assert k in p && p[k].replacement == BlobPath(root', h);
    }
  }

  /** And it keeps track exactly when what only the journal claimed carries over. */
  lemma SwitchTracksExactlyWhat(d0: Disk, d: Disk, blobs: map<Hash, BlobRow>, p: PendingTable, p': PendingTable, items: Items,
                                root: Dir, root': Dir, history: set<(Hash, Path)>, claims: set<Path>, claims': set<Path>)
    requires Tracked(d0, blobs, p, root, history, claims) && Canonical(p)
    requires GrownForItems(d0, d, items) && MovesTo(items, root') && ItemsNamed(items) && items.Keys == blobs.Keys
    requires forall g :: g in items ==> items[g].oldPath == blobs[g].path
    requires SwitchedTable(p, p', items, root')
    ensures Tracked(d, SwitchedBlobs(blobs, items, true), p', root', HistoryAfter(history, items), claims') <==>
            CarriesOver(d0, blobs, p, root, root', history, claims')
  {
    var blobs', history' := SwitchedBlobs(blobs, items, true), HistoryAfter(history, items);
    if Tracked(d, blobs', p', root', history', claims') {
      hide SwitchedTable, Canonical;
      forall h, l | LeftBehind(d0, blobs, history, h, l) && !Scheduled(d0, blobs, p, root, h, l)
                    && d0.At(l) != d0.At(BlobPath(root', h)) && d0.At(l) !in claims'
        ensures WaitingRow(d0, p, root', h, l)
      {
        assert LeftBehind(d, blobs', history', h, l) && Scheduled(d, blobs', p', root', h, l);
        assert WaitingRow(d0, p', root', h, l);
        RowBeforeSwitch(d0, p, p', items, root, root', h, l);
      }
    }
    if CarriesOver(d0, blobs, p, root, root', history, claims') {
      SwitchKeepsTracked(d0, d, blobs, p, p', items, root, root', history, claims, claims');
    }
  }

  lemma SourceOfSwitchedRow(p: PendingTable, p': PendingTable, items: Items, root': Dir, k: PendingKey)
    requires SwitchedTable(p, p', items, root') && ItemsNamed(items) && k in p'
    ensures (k.hash in items && k.source == items[k.hash].oldPath) || exists j :: j in p && j.hash == k.hash && j.source == k.source
  {
    if Switches(items, k.hash) {
      assert RetargetedAt(p, p', items[k.hash], root', k);
      if k.source in MovedSources(p, items[k.hash]) {
        var j :| j in p && Moves(p, items[k.hash], j) && j.source == k.source;
      }
    } else {
      assert SameAt(p, p', k);
    }
  }
}
