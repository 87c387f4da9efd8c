/**
 Registry backup and restore as a pair: what a backup brings back, and what a
 failed restore leaves.
 */
module RegistryRestore {
  import opened Files
  import opened RegistryPaths
  import opened Registry
  import opened RegistryTree
  import opened RegistryDocuments
  import opened RegistryBackup

  // ----- What a document says -----

  ghost predicate DistinctPaths(docs: seq<KeyData>) {
    && (forall d :: d in docs ==> FoldedPath(d.path).Some?)
    && (forall i, j :: 0 <= i < j < |docs| ==> FoldedPath(docs[i].path) != FoldedPath(docs[j].path))
  }

  lemma {:induction false} DistinctDocument(docs: seq<KeyData>)
    requires DistinctPaths(docs)
    ensures forall k :: k in DocumentMap(docs) <==> Lists(docs, Some(k))
    ensures forall d :: d in docs ==>
              FoldedPath(d.path).value in DocumentMap(docs) && DocumentMap(docs)[FoldedPath(d.path).value] == d.values
  {
    hide FoldedPath;
    if docs != [] {
      var init, last := docs[..|docs| - 1], docs[|docs| - 1];
      assert forall d :: d in docs <==> d in init || d == last;
      assert last in docs;
      DistinctDocument(init);
      forall d | d in init
        ensures FoldedPath(d.path) != FoldedPath(last.path)
      {
        var i :| 0 <= i < |init| && init[i] == d;
        assert docs[i] == d;
      }
    }
  }

  /** What a backup of the roots says: each key under a root, at its path, with its values. */
  ghost predicate BackedUp(keys: Keys, roots: seq<Key>, m: map<Key, Values>) {
    && (forall raw :: raw in keys && InRoots(roots, raw) ==> raw != [] && Represents(m, raw))
    && (forall k :: k in m ==> Witnessed(keys, roots, m, k))
  }

  ghost predicate Represents(m: map<Key, Values>, raw: Key)
    requires raw != []
  {
    FoldedPath(PathOf(raw)).Some? && FoldedPath(PathOf(raw)).value in m
  }

  ghost predicate Witnessed(keys: Keys, roots: seq<Key>, m: map<Key, Values>, k: Key)
    requires k in m
  {
    exists raw :: raw in keys && raw != [] && InRoots(roots, raw) && FoldedPath(PathOf(raw)) == Some(k) && m[k] == keys[raw]
  }

  lemma UniqueIsBackup(keys: Keys, roots: seq<Key>, docs: seq<KeyData>, raws: seq<Key>, unique: seq<KeyData>)
    requires Flat(keys, docs, raws)
    requires forall k :: k in raws <==> k in keys && InRoots(roots, k)
    requires DistinctPaths(unique) && forall d :: d in unique ==> d in docs
    requires forall d :: d in docs ==> Lists(unique, FoldedPath(d.path))
    ensures BackedUp(keys, roots, DocumentMap(unique))
  {
    var m := DocumentMap(unique);
    hide FoldedPath, DocumentMap, InRoots, DistinctPaths, Lists, PathOf, Flat, Represents, Witnessed;
    forall raw | raw in keys && InRoots(roots, raw)
      ensures raw != [] && Represents(m, raw)
    {
      var i :| 0 <= i < |raws| && raws[i] == raw;
      FlatAt(keys, docs, raws, i);
      RawIsRepresented(unique, raw);
    }
    forall k | k in m
      ensures Witnessed(keys, roots, m, k)
    {
      KeyIsWitnessed(keys, roots, docs, raws, unique, k);
    }
  }

  lemma FlatAt(keys: Keys, docs: seq<KeyData>, raws: seq<Key>, i: nat)
    requires Flat(keys, docs, raws) && i < |raws|
    ensures |docs| == |raws| && raws[i] in keys && raws[i] != [] && docs[i] in docs
    ensures docs[i] == KeyData(PathOf(raws[i]), keys[raws[i]])
  {
  }

  lemma RawIsRepresented(unique: seq<KeyData>, raw: Key)
    requires DistinctPaths(unique) && raw != [] && Lists(unique, FoldedPath(PathOf(raw)))
    ensures Represents(DocumentMap(unique), raw)
  {
    hide FoldedPath, PathOf, DocumentMap;
    DistinctDocument(unique);
    var u := ListedBy(unique, FoldedPath(PathOf(raw)));
  }

  lemma KeyIsWitnessed(keys: Keys, roots: seq<Key>, docs: seq<KeyData>, raws: seq<Key>, unique: seq<KeyData>, k: Key)
    requires Flat(keys, docs, raws)
    requires forall k :: k in raws <==> k in keys && InRoots(roots, k)
    requires DistinctPaths(unique) && forall d :: d in unique ==> d in docs
    requires k in DocumentMap(unique)
    ensures Witnessed(keys, roots, DocumentMap(unique), k)
  {
    hide FoldedPath, DocumentMap, InRoots, DistinctPaths, Lists, PathOf, Flat;
    DistinctDocument(unique);
    var d := ListedBy(unique, Some(k));
    var i :| 0 <= i < |docs| && docs[i] == d;
    assert |docs| == |raws| by { FlatSize(keys, docs, raws); }
    FlatAt(keys, docs, raws, i);
    assert raws[i] in raws;
  }

  lemma FlatSize(keys: Keys, docs: seq<KeyData>, raws: seq<Key>)
    requires Flat(keys, docs, raws)
    ensures |docs| == |raws|
  {
  }

  lemma ListedBy(docs: seq<KeyData>, path: Option<Key>) returns (d: KeyData)
    requires DistinctPaths(docs) && Lists(docs, path)
    ensures d in docs && FoldedPath(d.path) == path && path.Some?
  {
    hide FoldedPath;
    d :| d in docs && FoldedPath(d.path) == path;
  }

  /** Reads every root that exists into one document without repeated keys. */
  method Backup(h: Hives, roots: seq<Key>) returns (document: Option<Document>)
    requires Closed(h.keys) && forall r :: r in roots ==> r != []
    modifies h`faults
    ensures document.Some? ==> document.value.version == 1 && BackedUp(h.keys, roots, DocumentMap(document.value.keys))
    ensures document.Some? ==> DistinctPaths(document.value.keys)
    // only a key that cannot be listed or a failed operation prevents it
    ensures h.faults >= old(h.faults)
    ensures document.None? && Listable(h.keys, roots) ==> h.faults > old(h.faults)
  {
    hide Closed, FoldedPath, Flat, BackedUp, DocumentMap, DistinctPaths;
    var docs: seq<KeyData>, failed := [], false;
    ghost var keys, raws: seq<Key> := h.keys, [];
    FlatNothing(keys);
    for i := 0 to |roots|
      invariant Flat(keys, docs, raws) && h.faults >= old(h.faults)
      invariant forall k :: k in raws <==> k in keys && InRoots(roots[..i], k)
    {
      var root := roots[i];
      assert root in roots && roots[..i + 1] == roots[..i] + [root];
      forall k
        ensures InRoots(roots[..i + 1], k) <==> InRoots(roots[..i], k) || Under(k, root)
      {
        InRootsMore(roots[..i], root, k);
      }
      if root in h.keys {
        failed, docs, raws := ReadKey(h, root, docs, raws);
        if failed {
          return None;
        }
      } else {
        AbsentMeansNoneUnder(keys, root);
      }
    }
    assert roots[..|roots|] == roots;
    var unique := DeduplicateKeys(docs);
    if unique.None? {
      IllFormedIsUnlistable(keys, roots, docs, raws);
      return None;
    }
    AllDistinct(docs, unique.value);
    UniqueIsBackup(keys, roots, docs, raws, unique.value);
    return Some(Document(1, unique.value));
  }

  /** The path of every key under the roots is well formed. */
  ghost predicate Listable(keys: Keys, roots: seq<Key>) {
    forall k :: k in keys && InRoots(roots, k) ==> k != [] && FoldedPath(PathOf(k)).Some?
  }

  lemma IllFormedIsUnlistable(keys: Keys, roots: seq<Key>, docs: seq<KeyData>, raws: seq<Key>)
    requires Flat(keys, docs, raws)
    requires forall k :: k in raws <==> k in keys && InRoots(roots, k)
    requires exists d :: d in docs && FoldedPath(d.path).None?
    ensures !Listable(keys, roots)
  {
    hide FoldedPath, PathOf, Flat, InRoots;
    var d :| d in docs && FoldedPath(d.path).None?;
    var i :| 0 <= i < |docs| && docs[i] == d;
    FlatSize(keys, docs, raws);
    FlatAt(keys, docs, raws, i);
    assert raws[i] in raws;
  }

  lemma AllDistinct(docs: seq<KeyData>, unique: seq<KeyData>)
    requires forall d :: d in docs ==> FoldedPath(d.path).Some?
    requires forall d :: d in unique ==> d in docs
    requires forall i, j :: 0 <= i < j < |unique| ==> FoldedPath(unique[i].path) != FoldedPath(unique[j].path)
    ensures DistinctPaths(unique)
  {
    hide FoldedPath;
  }

  // ----- The round trip -----

  /** No key under the roots has a slash in one of its names. */
  predicate SlashFree(keys: Keys, roots: seq<Key>) {
    forall k :: k in keys && InRoots(roots, k) ==> forall n :: n in k ==> '/' !in n
  }

  ghost predicate RootsSame(a: Keys, b: Keys, roots: seq<Key>) {
    forall p :: InRoots(roots, p) ==> SameAt(a, b, p)
  }

  /** Without slashes in names, the document is the part of the registry under the roots. */
  lemma BackupIsExact(keys: Keys, roots: seq<Key>, m: map<Key, Values>, k: Key)
    requires Named(keys) && SlashFree(keys, roots) && BackedUp(keys, roots, m)
    requires forall r :: r in roots ==> CanonicalRoot(r)
    ensures k in m <==> k in keys && InRoots(roots, k)
    ensures k in m ==> m[k] == keys[k]
  {
    hide FoldedPath, CanonicalRoot, PathOf;
    if k in keys && InRoots(roots, k) {
      KeyComesBack(keys, roots, m, k);
    }
    if k in m {
      assert Witnessed(keys, roots, m, k);
      var raw :| raw in keys && raw != [] && InRoots(roots, raw) && FoldedPath(PathOf(raw)) == Some(k) && m[k] == keys[raw];
      KeyComesBack(keys, roots, m, raw);
    }
  }

  lemma KeyComesBack(keys: Keys, roots: seq<Key>, m: map<Key, Values>, k: Key)
    requires Named(keys) && SlashFree(keys, roots) && BackedUp(keys, roots, m)
    requires forall r :: r in roots ==> CanonicalRoot(r)
    requires k in keys && InRoots(roots, k)
    ensures k != [] && FoldedPath(PathOf(k)) == Some(k) && k in m
  {
    hide FoldedPath, CanonicalRoot, PathOf;
    var r :| r in roots && Under(k, r);
    assert Represents(m, k);
    PathComesBack(k, r);
  }

  /** Below a root, the registry has a key exactly when it has one at or below it. */
  lemma PresentIsHasBelow(keys: Keys, roots: seq<Key>, m: map<Key, Values>, p: Key)
    requires Closed(keys) && InRoots(roots, p) && p != []
    requires forall k :: k in m <==> k in keys && InRoots(roots, k)
    ensures p in keys <==> HasBelow(m, p)
  {
    if p in keys {
      assert Under(p, p);
    }
    if HasBelow(m, p) {
      var k :| k in m && Under(k, p);
      AncestorPresent(keys, k, p);
    }
  }

  /**
   Round trip: restoring a backup gives every root back as it was, whatever is in
   the registry by then, exactly when no key name under the roots holds a slash.
   A name with a slash is read as two names when the document is applied.
   */
  lemma BackupRecovers(keys: Keys, roots: seq<Key>, m: map<Key, Values>, now: Keys, after: Keys)
    requires Closed(keys) && Stored(keys) && Named(keys)
    requires forall r :: r in roots ==> CanonicalRoot(r)
    requires BackedUp(keys, roots, m) && Patched(now, after, m, roots)
    ensures RootsSame(keys, after, roots) <==> SlashFree(keys, roots)
  {
    hide CanonicalRoot, FoldedPath, PathOf;
    if SlashFree(keys, roots) {
      forall p | InRoots(roots, p)
        ensures SameAt(keys, after, p)
      {
        RecoveredAt(keys, roots, m, now, after, p);
      }
    } else {
      var k :| k in keys && InRoots(roots, k) && exists n :: n in k && '/' in n;
      SlashIsLost(keys, roots, m, now, after, k);
      assert !SameAt(keys, after, k);
    }
  }

  lemma RecoveredAt(keys: Keys, roots: seq<Key>, m: map<Key, Values>, now: Keys, after: Keys, p: Key)
    requires Closed(keys) && Stored(keys) && Named(keys) && SlashFree(keys, roots)
    requires forall r :: r in roots ==> CanonicalRoot(r)
    requires BackedUp(keys, roots, m) && Patched(now, after, m, roots) && InRoots(roots, p)
    ensures SameAt(keys, after, p)
  {
    hide Named, SlashFree, BackedUp, FoldedPath, PathOf, HasBelow;
    forall k
      ensures (k in m <==> k in keys && InRoots(roots, k)) && (k in m ==> m[k] == keys[k])
    {
      BackupIsExact(keys, roots, m, k);
    }
    assert p != [] by {
      var r :| r in roots && Under(p, r);
      assert CanonicalRoot(r);
    }
    PresentIsHasBelow(keys, roots, m, p);
    assert PatchedAt(now, after, m, roots, p);
    if p in after {
      HoldsAllIsExact(after[p], after[p], ValuesAt(m, p));
    }
  }

  lemma SlashIsLost(keys: Keys, roots: seq<Key>, m: map<Key, Values>, now: Keys, after: Keys, k: Key)
    requires BackedUp(keys, roots, m) && Patched(now, after, m, roots)
    requires InRoots(roots, k) && exists n :: n in k && '/' in n
    ensures k !in after
  {
    hide FoldedPath, PathOf;
    forall x | x in m
      ensures !Under(x, k)
    {
      assert Witnessed(keys, roots, m, x);
      var raw :| raw in keys && raw != [] && InRoots(roots, raw) && FoldedPath(PathOf(raw)) == Some(x) && m[x] == keys[raw];
      FoldedPathIsPlain(PathOf(raw));
      NoSlashPrefix(x, k);
    }
    assert PatchedAt(now, after, m, roots, k);
  }

  lemma NoSlashPrefix(x: Key, k: Key)
    requires (forall n :: n in x ==> '/' !in n) && exists n :: n in k && '/' in n
    ensures !Under(x, k)
  {
    var n :| n in k && '/' in n;
    var i :| 0 <= i < |k| && k[i] == n;
    assert i < |x| ==> x[i] in x && x[i] != k[i];
  }

  // ----- Restore -----

  /** Every listed key is well formed, under a root, and listed once. */
  ghost predicate Contained(docs: seq<KeyData>, roots: seq<Key>) {
    && DistinctPaths(docs)
    && forall d :: d in docs ==> InRoots(roots, FoldedPath(d.path).value)
  }

  method ValidateDocument(docs: seq<KeyData>, roots: seq<Key>) returns (ok: bool)
    ensures ok <==> Contained(docs, roots)
  {
    hide FoldedPath, InRoots;
    var seen: set<Key> := {};
    for i := 0 to |docs|
      invariant Contained(docs[..i], roots)
      invariant seen == set d | d in docs[..i] :: FoldedPath(d.path).value
    {
      var d := docs[i];
      assert docs[..i + 1] == docs[..i] + [d] && d in docs;
      var k := FoldedPath(d.path);
      if k.None? || !InRoots(roots, k.value) {
        return false;
      }
      if k.value in seen {
        RepeatedIsRefused(docs, roots, i);
        return false;
      }
      ContainedMore(docs[..i], roots, d);
      seen := seen + {k.value};
    }
    assert docs[..|docs|] == docs;
    return true;
  }

  lemma ContainedMore(docs: seq<KeyData>, roots: seq<Key>, d: KeyData)
    requires Contained(docs, roots) && FoldedPath(d.path).Some? && InRoots(roots, FoldedPath(d.path).value)
    requires forall e :: e in docs ==> FoldedPath(e.path) != FoldedPath(d.path)
    ensures Contained(docs + [d], roots)
  {
    hide FoldedPath, InRoots;
    assert forall e :: e in docs + [d] <==> e in docs || e == d;
  }

  lemma RepeatedIsRefused(docs: seq<KeyData>, roots: seq<Key>, i: nat)
    requires i < |docs| && exists e :: e in docs[..i] && FoldedPath(e.path) == FoldedPath(docs[i].path)
    ensures !Contained(docs, roots)
  {
    hide FoldedPath, InRoots;
    var e :| e in docs[..i] && FoldedPath(e.path) == FoldedPath(docs[i].path);
    var j :| 0 <= j < i && docs[..i][j] == e;
    assert docs[j] == e;
  }

  lemma OutsideKeptTwice(a: Keys, b: Keys, c: Keys, roots: seq<Key>)
    requires OutsideKept(a, b, roots) && OutsideKept(b, c, roots)
    ensures OutsideKept(a, c, roots)
  {
    hide InRoots;
    forall p | !InRoots(roots, p)
      ensures OutsideKeptAt(a, c, roots, p)
    {
      assert OutsideKeptAt(a, b, roots, p) && OutsideKeptAt(b, c, roots, p);
    }
  }

  /**
   Brings the roots to a document.  When that fails and the way back does not,
   every root is as before (if no name there holds a slash).
   */
  method Restore(h: Hives, document: Document, roots: seq<Key>) returns (failed: bool, undone: bool)
    requires h.Valid() && forall r :: r in roots ==> CanonicalRoot(r)
    modifies h
    ensures h.Valid() && OutsideKept(old(h.keys), h.keys, roots)
    ensures !failed ==> document.version == 1 && Contained(document.keys, roots)
    ensures !failed ==> Patched(old(h.keys), h.keys, DocumentMap(document.keys), roots)
    // only a bad document, a key that cannot be listed or a failed operation prevents it, and one failure is taken back
    ensures h.faults >= old(h.faults)
    ensures failed && document.version == 1 && Contained(document.keys, roots) && Listable(old(h.keys), roots) ==>
      h.faults > old(h.faults)
    ensures failed && !undone ==> h.faults > old(h.faults) + 1
    ensures failed && undone && Named(old(h.keys)) && SlashFree(old(h.keys), roots) ==> RootsSame(old(h.keys), h.keys, roots)
  {
    hide Closed, Stored, Named, Patched, OutsideKept, BackedUp, DocumentMap, CanonicalRoot, Contained, SlashFree, RootsSame, Listable;
    RootsNotEmpty(roots);
    NothingMoved(h.keys, roots);
    failed, undone := true, true;
    if document.version != 1 {
      return;
    }
    var valid := ValidateDocument(document.keys, roots);
    if !valid {
      return;
    }
    ContainedIsWellFormed(document.keys, roots);
    var before := Backup(h, roots);
    if before.None? {
      return;
    }
    failed := ApplyDocument(h, document.keys, roots);
    if failed {
      ghost var broken := h.keys;
      DistinctIsWellFormed(before.value.keys);
      var stuck := ApplyDocument(h, before.value.keys, roots);
      OutsideKeptTwice(old(h.keys), broken, h.keys, roots);
      undone := !stuck;
      if undone && Named(old(h.keys)) {
        BackupRecovers(old(h.keys), roots, DocumentMap(before.value.keys), broken, h.keys);
      }
    }
  }

  lemma ContainedIsWellFormed(docs: seq<KeyData>, roots: seq<Key>)
    requires Contained(docs, roots)
    ensures forall d :: d in docs ==> FoldedPath(d.path).Some?
  {
  }

  lemma DistinctIsWellFormed(docs: seq<KeyData>)
    requires DistinctPaths(docs)
    ensures forall d :: d in docs ==> FoldedPath(d.path).Some?
  {
  }

  lemma RootsNotEmpty(roots: seq<Key>)
    requires forall r :: r in roots ==> CanonicalRoot(r)
    ensures forall r :: r in roots ==> r != []
  {
  }

  lemma NothingMoved(keys: Keys, roots: seq<Key>)
    ensures OutsideKept(keys, keys, roots) && RootsSame(keys, keys, roots)
  {
    forall p
      ensures SameAt(keys, keys, p)
    {
    }
  }
}
