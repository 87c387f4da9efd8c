/**
 Registry key paths as text, and reading a subtree into the entries of a document.
 */
module RegistryBackup {
  import opened Files
  import opened RegistryPaths
  import opened Registry
  import opened RegistryTree
  import opened RegistryDocuments
  import Text

  datatype Document = Document(version: int, keys: seq<KeyData>)

  function PathOf(k: Key): string
    requires k != []
  {
    Text.Join(k, '/')
  }

  /** Names are kept folded, and none holds a backslash. */
  ghost predicate Named(keys: Keys) {
    forall k :: k in keys ==> k != [] && FoldKey(k) == k && forall n :: n in k ==> '\\' !in n
  }

  /** A configured root in folded canonical form. */
  predicate CanonicalRoot(r: Key) {
    r != [] && FoldedPath(PathOf(r)) == Some(r)
  }

  // ----- Paths -----

  lemma {:induction false} JoinAvoids(parts: seq<string>, c: char)
    requires parts != [] && c != '/' && forall p :: p in parts ==> c !in p
    ensures c !in Text.Join(parts, '/')
  {
    assert parts[0] in parts;
    if |parts| > 1 {
      assert forall p :: p in parts[1..] ==> p in parts;
      JoinAvoids(parts[1..], c);
    }
  }

  lemma {:induction false} FoldAvoids(s: string, c: char)
    requires c == '/' || c == '\\'
    ensures c in Fold(s) <==> c in s
  {
    if s != [] {
      FoldAvoids(s[1..], c);
    }
  }

  /** A folded path never holds a slash inside a component. */
  lemma FoldedPathIsPlain(path: string)
    requires FoldedPath(path).Some?
    ensures forall n :: n in FoldedPath(path).value ==> '/' !in n
  {
    var k, f := NormalizePath(path).value, FoldedPath(path).value;
    forall i | 0 <= i < |f|
      ensures '/' !in f[i]
    {
      FoldAvoids(k[i], '/');
    }
  }

  lemma FoldHives()
    ensures Fold("HKCU") == "hkcu" && Fold("HKLM") == "hklm"
  {
    assert "HKCU"[1..] == "KCU" && "KCU"[1..] == "CU" && "CU"[1..] == "U" && "U"[1..] == "";
    assert "HKLM"[1..] == "KLM" && "KLM"[1..] == "LM" && "LM"[1..] == "M" && "M"[1..] == "";
    assert Fold("U") == "u" && Fold("CU") == "cu" && Fold("KCU") == "kcu";
    assert Fold("M") == "m" && Fold("LM") == "lm" && Fold("KLM") == "klm";
  }

  /** Folded components without separators come back from the joined path. */
  lemma PathComesBack(k: Key, r: Key)
    requires CanonicalRoot(r) && Under(k, r) && FoldKey(k) == k
    requires forall n :: n in k ==> '\\' !in n && '/' !in n
    requires FoldedPath(PathOf(k)).Some?
    ensures FoldedPath(PathOf(k)) == Some(k)
  {
    JoinAvoids(k, '\\');
    SlashesPlain(PathOf(k));
    Text.SplitOfJoin(k, '/');
    var n := NormalizePath(PathOf(k)).value;
    assert n[1..] == k[1..];
    FoldHives();
    assert k[0] == r[0] == Fold(NormalizePath(PathOf(r)).value[0]) && Fold(k[0]) == k[0];
    assert FoldKey(n)[0] == Fold(n[0]) == k[0];
    assert forall i :: 1 <= i < |k| ==> n[i] == n[1..][i - 1] == k[1..][i - 1] == k[i];
    assert FoldKey(n) == k;
  }

  // ----- Reading -----

  /** Each entry is one key of the tree, with the path and the values it has there. */
  ghost predicate Flat(keys: Keys, docs: seq<KeyData>, raws: seq<Key>) {
    && |docs| == |raws|
    && forall i :: 0 <= i < |raws| ==> raws[i] in keys && raws[i] != [] && docs[i] == KeyData(PathOf(raws[i]), keys[raws[i]])
  }

  lemma FlatTogether(keys: Keys, docs: seq<KeyData>, raws: seq<Key>, docs': seq<KeyData>, raws': seq<Key>)
    requires Flat(keys, docs, raws) && Flat(keys, docs', raws')
    ensures Flat(keys, docs + docs', raws + raws')
    ensures forall k :: k in raws + raws' <==> k in raws || k in raws'
  {
  }

  /** The document grew by one entry for each key at or below the path, and by nothing else. */
  ghost predicate Reads(keys: Keys, path: Key, docs: seq<KeyData>, all: seq<KeyData>) {
    && (forall d :: d in docs ==> d in all)
    && (forall k :: k in keys && Under(k, path) ==> k != [] && KeyData(PathOf(k), keys[k]) in all)
    && (forall d :: d in all ==> d in docs || exists k :: k in keys && Under(k, path) && k != [] && d == KeyData(PathOf(k), keys[k]))
  }

  lemma FlatReads(keys: Keys, path: Key, docs: seq<KeyData>, raws: seq<Key>, all: seq<KeyData>, read: seq<Key>)
    requires Flat(keys, docs, raws) && Flat(keys, all, read)
    requires forall k :: k in read <==> k in raws || (k in keys && Under(k, path))
    ensures Reads(keys, path, docs, all)
  {
    hide PathOf;
    forall d | d in docs
      ensures d in all
    {
      var i :| 0 <= i < |docs| && docs[i] == d;
      assert raws[i] in read;
      var j :| 0 <= j < |read| && read[j] == raws[i];
      assert all[j] == d;
    }
    forall k | k in keys && Under(k, path)
      ensures k != [] && KeyData(PathOf(k), keys[k]) in all
    {
      var j :| 0 <= j < |read| && read[j] == k;
      assert all[j] in all;
    }
    forall d | d in all
      ensures d in docs || exists k :: k in keys && Under(k, path) && k != [] && d == KeyData(PathOf(k), keys[k])
    {
      var j :| 0 <= j < |all| && all[j] == d;
      if read[j] in raws {
        var i :| 0 <= i < |raws| && raws[i] == read[j];
        assert docs[i] == d;
      }
      assert read[j] in read;
    }
  }

  /** Appends a key and everything below it to the document. */
  method ReadKey(h: Hives, path: Key, docs: seq<KeyData>, ghost raws: seq<Key>)
    returns (failed: bool, all: seq<KeyData>, ghost read: seq<Key>)
    requires Closed(h.keys) && path in h.keys && Flat(h.keys, docs, raws)
    modifies h`faults
    ensures h.faults >= old(h.faults) && (failed ==> h.faults > old(h.faults))
    ensures Flat(h.keys, all, read)
    ensures !failed ==> Reads(h.keys, path, docs, all)
    ensures !failed ==> forall k :: k in read <==> k in raws || (k in h.keys && Under(k, path))
    decreases KeysUnder(h.keys, path)
  {
    hide Closed, PathOf, Flat, Reads;
    ghost var keys := h.keys;
    PathIsKey(keys, path);
    all, read := docs, raws;
    if * {
      h.faults := h.faults + 1;
      return true, all, read;
    }
    FlatOne(keys, path);
    FlatTogether(keys, all, read, [KeyData(PathOf(path), keys[path])], [path]);
    all, read := all + [KeyData(PathOf(path), h.keys[path])], read + [path];
    var children := SubKeyNames(h.keys, path);
    var todo := children;
    while todo != {}
      invariant Flat(keys, all, read) && todo <= children && h.faults >= old(h.faults)
      invariant forall k :: k in read <==>
        k in raws || k == path || (k in keys && Under(k, path) && |k| > |path| && k[|path|] in children - todo)
      decreases todo
    {
      var n :| n in todo;
      todo := todo - {n};
      ghost var before := read;
      ChildrenUnder(keys, path, n);
      assert path in KeysUnder(keys, path);
      failed, all, read := ReadKey(h, path + [n], all, read);
      if failed {
        return;
      }
      forall k | k in keys
        ensures Under(k, path + [n]) <==> Under(k, path) && |k| > |path| && k[|path|] == n
      {
        UnderChild(k, path, n);
      }
    }
    failed := false;
    forall k | k in keys && Under(k, path) && k != path
      ensures |k| > |path| && k[|path|] in children
    {
      NamedByChild(keys, path, k);
    }
    FlatReads(keys, path, docs, raws, all, read);
  }

  lemma PathIsKey(keys: Keys, path: Key)
    requires Closed(keys) && path in keys
    ensures path != [] && Under(path, path)
  {
  }

  lemma FlatNothing(keys: Keys)
    ensures Flat(keys, [], [])
  {
  }

  lemma FlatOne(keys: Keys, path: Key)
    requires path in keys && path != []
    ensures Flat(keys, [KeyData(PathOf(path), keys[path])], [path])
  {
  }

  lemma NamedByChild(keys: Keys, path: Key, k: Key)
    requires Closed(keys) && path != [] && k in keys && Under(k, path) && k != path
    ensures |k| > |path| && path + [k[|path|]] in keys
  {
    UnderChild(k, path, k[|path|]);
    AncestorPresent(keys, k, path + [k[|path|]]);
  }

  ghost predicate Lists(docs: seq<KeyData>, path: Option<Key>) {
    exists d :: d in docs && FoldedPath(d.path) == path
  }

  /** Keeps the first entry of each key; a path that is not well formed fails. */
  method DeduplicateKeys(docs: seq<KeyData>) returns (unique: Option<seq<KeyData>>)
    ensures unique.Some? <==> forall d :: d in docs ==> FoldedPath(d.path).Some?
    ensures unique.Some? ==> forall d :: d in unique.value ==> d in docs
    ensures unique.Some? ==> forall d :: d in docs ==> Lists(unique.value, FoldedPath(d.path))
    ensures unique.Some? ==> forall i, j :: 0 <= i < j < |unique.value| ==>
              FoldedPath(unique.value[i].path) != FoldedPath(unique.value[j].path)
  {
    hide FoldedPath;
    var kept: seq<KeyData> := [];
    var seen: set<Key> := {};
    for i := 0 to |docs|
      invariant forall d :: d in docs[..i] ==> FoldedPath(d.path).Some?
      invariant forall d :: d in kept ==> d in docs && FoldedPath(d.path).Some? && FoldedPath(d.path).value in seen
      invariant forall k :: k in seen ==> exists u :: u in kept && FoldedPath(u.path) == Some(k)
      invariant forall d :: d in docs[..i] ==> FoldedPath(d.path).value in seen
      invariant forall a, b :: 0 <= a < b < |kept| ==> FoldedPath(kept[a].path) != FoldedPath(kept[b].path)
    {
      var d := docs[i];
      assert docs[..i + 1] == docs[..i] + [d] && d in docs;
      var k := FoldedPath(d.path);
      if k.None? {
        return None;
      }
      if k.value !in seen {
        seen := seen + {k.value};
        var more := kept + [d];
        assert forall u :: u in more <==> u in kept || u == d;
        kept := more;
      }
    }
    assert docs[..|docs|] == docs;
    return Some(kept);
  }
}
