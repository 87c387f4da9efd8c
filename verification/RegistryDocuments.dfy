/**
 Applying a registry document: afterwards each configured root holds exactly the
 keys that the document lists, with their ancestors, and nothing else moved.
 */
module RegistryDocuments {
  import opened Files
  import opened RegistryPaths
  import opened Registry
  import opened RegistryTree

  datatype KeyData = KeyData(path: string, values: Values)

  function FoldedPath(path: string): Option<Key> {
    match NormalizePath(path)
    case None => None
    case Some(k) => Some(FoldKey(k))
  }

  /** The listed keys; of two entries for one key the later counts. */
  function DocumentMap(docs: seq<KeyData>): map<Key, Values> {
    if docs == [] then map[]
    else
      var rest, last := DocumentMap(docs[..|docs| - 1]), docs[|docs| - 1];
      match FoldedPath(last.path)
      case None => rest
      case Some(k) => rest[k := last.values]
  }

  ghost predicate HasBelow(m: map<Key, Values>, p: Key) {
    exists k :: k in m && Under(k, p)
  }

  function ValuesAt(m: map<Key, Values>, p: Key): Values {
    if p in m then m[p] else map[]
  }

  // ----- The desired tree of one root -----

  /** Adds a listed key, making the nodes on the way. */
  function Insert(node: KeyNode, q: Key, values: Values): KeyNode
    decreases |q|
  {
    if q == [] then KeyNode(Some(values), node.children)
    else
      var child := if q[0] in node.children then node.children[q[0]] else KeyNode(None, map[]);
      KeyNode(node.data, node.children[q[0] := Insert(child, q[1..], values)])
  }

  lemma {:induction false} InsertAt(node: KeyNode, q: Key, values: Values, p: Key)
    ensures var after, before := NodeAt(Insert(node, q, values), p), NodeAt(node, p);
            && (after.Some? <==> before.Some? || p <= q)
            && (after.Some? ==>
                  after.value.data == (if p == q then Some(values) else if before.Some? then before.value.data else None))
    decreases |q|
  {
    if q != [] && p != [] && p[0] == q[0] {
      var child := if q[0] in node.children then node.children[q[0]] else KeyNode(None, map[]);
      InsertAt(child, q[1..], values, p[1..]);
      assert p <= q <==> p[1..] <= q[1..];
      assert p == q <==> p[1..] == q[1..] by {
        assert p == [p[0]] + p[1..] && q == [q[0]] + q[1..];
      }
      assert q[0] !in node.children && p[1..] != [] ==> NodeAt(child, p[1..]).None?;
    }
  }

  ghost predicate DesiresAt(tree: KeyNode, m: map<Key, Values>, root: Key, q: Key) {
    var n := NodeAt(tree, q);
    && (n.Some? <==> q == [] || HasBelow(m, root + q))
    && (n.Some? ==> n.value.data == if root + q in m then Some(m[root + q]) else None)
  }

  /** The tree holds the part of the document under the root, with all ancestors. */
  ghost predicate Desires(tree: KeyNode, m: map<Key, Values>, root: Key) {
    forall q :: DesiresAt(tree, m, root, q)
  }

  lemma DesiresMore(tree: KeyNode, m: map<Key, Values>, root: Key, k: Key, values: Values)
    requires Desires(tree, m, root)
    ensures Desires(if Under(k, root) then Insert(tree, k[|root|..], values) else tree, m[k := values], root)
  {
    var tree', m' := if Under(k, root) then Insert(tree, k[|root|..], values) else tree, m[k := values];
    forall q
      ensures DesiresAt(tree', m', root, q)
    {
      assert DesiresAt(tree, m, root, q);
      HasBelowMore(m, k, values, root + q);
      if Under(k, root) {
        InsertAt(tree, k[|root|..], values, q);
        PrefixAfter(root, q, k);
      } else {
        UnderLonger(k, root, q);
      }
    }
  }

  lemma UnderLonger(k: Key, root: Key, q: Key)
    ensures Under(k, root + q) ==> Under(k, root)
  {
    if Under(k, root + q) {
      assert k[..|root|] == (root + q)[..|root|] == root;
    }
  }

  lemma PrefixAfter(root: Key, q: Key, k: Key)
    requires Under(k, root)
    ensures q <= k[|root|..] <==> Under(k, root + q)
    ensures q == k[|root|..] <==> root + q == k
  {
    var rest := k[|root|..];
    assert k == root + rest;
    if q <= rest {
      assert k[..|root + q|] == root + q;
    }
    if Under(k, root + q) {
      assert forall i :: 0 <= i < |q| ==> rest[i] == k[|root| + i] == (root + q)[|root| + i] == q[i];
    }
    if root + q == k {
      assert rest == (root + q)[|root|..] == q;
    }
  }

  lemma HasBelowMore(m: map<Key, Values>, k: Key, values: Values, p: Key)
    ensures HasBelow(m[k := values], p) <==> HasBelow(m, p) || Under(k, p)
  {
    var more := m[k := values];
    if HasBelow(m, p) {
      var x :| x in m && Under(x, p);
      assert x in more;
    }
    if Under(k, p) {
      assert k in more;
    }
  }

  /** Collects the listed keys of one root; a path that is not well formed fails. */
  method DesiredTree(docs: seq<KeyData>, root: Key) returns (tree: Option<KeyNode>)
    ensures tree.Some? ==> Desires(tree.value, DocumentMap(docs), root)
    ensures tree.None? ==> exists i :: 0 <= i < |docs| && FoldedPath(docs[i].path).None?
  {
    hide FoldedPath, Desires;
    var desired := KeyNode(None, map[]);
    NothingDesired(root);
    for i := 0 to |docs|
      invariant Desires(desired, DocumentMap(docs[..i]), root)
    {
      assert docs[..i + 1][..i] == docs[..i];
      var k := FoldedPath(docs[i].path);
      if k.None? {
        return None;
      }
      DesiresMore(desired, DocumentMap(docs[..i]), root, k.value, docs[i].values);
      if Under(k.value, root) {
        desired := Insert(desired, k.value[|root|..], docs[i].values);
      }
    }
    assert docs[..|docs|] == docs;
    return Some(desired);
  }

  lemma NothingDesired(root: Key)
    ensures Desires(KeyNode(None, map[]), map[], root)
  {
    forall q
      ensures DesiresAt(KeyNode(None, map[]), map[], root, q)
    {
    }
  }

  // ----- All roots -----

  /** The key belongs to one of the roots. */
  predicate InRoots(roots: seq<Key>, p: Key) {
    exists r :: r in roots && Under(p, r)
  }

  /** The key is an ancestor of a root that the document has something for. */
  ghost predicate LeadsToRoot(m: map<Key, Values>, roots: seq<Key>, p: Key) {
    p != [] && exists r :: r in roots && Under(r, p) && HasBelow(m, r)
  }

  ghost predicate PatchedAt(before: Keys, now: Keys, m: map<Key, Values>, roots: seq<Key>, p: Key) {
    if InRoots(roots, p) then
      (p in now <==> HasBelow(m, p)) && (p in now ==> HoldsAll(now[p], ValuesAt(m, p)))
    else
      && (p in now <==> p in before || LeadsToRoot(m, roots, p))
      && (p in now ==> now[p] == if p in before then before[p] else map[])
  }

  /**
   Inside the roots exactly the listed keys and their ancestors, with the listed
   values; outside everything as before, but for new ancestors of roots.
   */
  ghost predicate Patched(before: Keys, now: Keys, m: map<Key, Values>, roots: seq<Key>) {
    forall p :: PatchedAt(before, now, m, roots, p)
  }

  ghost predicate RootDoneAt(before: Keys, now: Keys, m: map<Key, Values>, root: Key, p: Key) {
    if Under(p, root) then
      (p in now <==> HasBelow(m, p)) && (p in now ==> HoldsAll(now[p], ValuesAt(m, p)))
    else if HasBelow(m, root) then SameAt(Created(before, root), now, p)
    else SameAt(before, now, p)
  }

  /** One root was treated. */
  ghost predicate RootDone(before: Keys, now: Keys, m: map<Key, Values>, root: Key) {
    forall p :: RootDoneAt(before, now, m, root, p)
  }

  lemma ReconciledIsRootDone(before: Keys, now: Keys, m: map<Key, Values>, root: Key, tree: KeyNode)
    requires Desires(tree, m, root) && HasBelow(m, root) && Reconciled(before, now, root, tree)
    ensures RootDone(before, now, m, root)
  {
    hide HoldsAll, NodeAt;
    forall p
      ensures RootDoneAt(before, now, m, root, p)
    {
      if Under(p, root) {
        var q := p[|root|..];
        assert root + q == p;
        assert DesiresAt(tree, m, root, q) && NodeMatches(now, p, NodeAt(tree, q));
      }
    }
  }

  lemma DeletedIsRootDone(before: Keys, m: map<Key, Values>, root: Key)
    requires !HasBelow(m, root)
    ensures RootDone(before, WithoutUnder(before, root), m, root)
  {
    forall p
      ensures RootDoneAt(before, WithoutUnder(before, root), m, root, p)
    {
      if Under(p, root) && HasBelow(m, p) {
        BelowIsTransitive(m, root, p);
      }
    }
  }

  lemma BelowIsTransitive(m: map<Key, Values>, p: Key, q: Key)
    requires Under(q, p) && HasBelow(m, q)
    ensures HasBelow(m, p)
  {
    var k :| k in m && Under(k, q);
    assert k[..|p|] == q[..|p|] == p;
    assert Under(k, p);
  }

  /** An empty tree means that the document has nothing under the root. */
  lemma EmptyTreeMeans(tree: KeyNode, m: map<Key, Values>, root: Key)
    requires Desires(tree, m, root)
    ensures tree.data.None? && tree.children == map[] <==> !HasBelow(m, root)
  {
    assert DesiresAt(tree, m, root, []) && root + [] == root && Under(root, root);
    forall n | n in tree.children
      ensures HasBelow(m, root)
    {
      assert DesiresAt(tree, m, root, [n]) && NodeAt(tree, [n]).Some?;
      UnderChild(root + [n], root, n);
      BelowIsTransitive(m, root, root + [n]);
    }
    if HasBelow(m, root) {
      var k :| k in m && Under(k, root);
      if k != root {
        var n := k[|root|];
        UnderChild(k, root, n);
        assert HasBelow(m, root + [n]) && DesiresAt(tree, m, root, [n]);
      }
    }
  }

  /** Treating one more root, wherever it lies with respect to the others. */
  lemma PatchedMore(before: Keys, mid: Keys, now: Keys, m: map<Key, Values>, roots: seq<Key>, root: Key)
    requires Patched(before, mid, m, roots) && RootDone(mid, now, m, root)
    ensures Patched(before, now, m, roots + [root])
  {
    forall p
      ensures PatchedAt(before, now, m, roots + [root], p)
    {
      assert PatchedAt(before, mid, m, roots, p) && RootDoneAt(mid, now, m, root, p);
      InRootsMore(roots, root, p);
      LeadsToRootMore(m, roots, root, p);
      if Under(root, p) && HasBelow(m, root) {
        BelowIsTransitive(m, p, root);
      }
      hide HasBelow, HoldsAll, InRoots, LeadsToRoot;
    }
  }

  lemma InRootsMore(roots: seq<Key>, root: Key, p: Key)
    ensures InRoots(roots + [root], p) <==> InRoots(roots, p) || Under(p, root)
  {
    assert forall r :: r in roots + [root] <==> r in roots || r == root;
  }

  lemma LeadsToRootMore(m: map<Key, Values>, roots: seq<Key>, root: Key, p: Key)
    ensures LeadsToRoot(m, roots + [root], p) <==>
            LeadsToRoot(m, roots, p) || (p != [] && Under(root, p) && HasBelow(m, root))
  {
    hide HasBelow;
    assert forall r :: r in roots + [root] <==> r in roots || r == root;
  }

  /** Outside the roots, even a failed application only makes ancestors of roots. */
  ghost predicate OutsideKept(before: Keys, now: Keys, roots: seq<Key>) {
    forall p :: !InRoots(roots, p) ==> OutsideKeptAt(before, now, roots, p)
  }

  ghost predicate OutsideKeptAt(before: Keys, now: Keys, roots: seq<Key>, p: Key) {
    SameAt(before, now, p) || (p !in before && p in now && now[p] == map[] && exists r :: r in roots && Under(r, p))
  }

  lemma TouchedIsOutsideKept(before: Keys, mid: Keys, now: Keys, roots: seq<Key>, root: Key)
    requires OutsideKept(before, mid, roots) && Touched(mid, now, root) && root in roots
    ensures OutsideKept(before, now, roots)
  {
    forall p | !InRoots(roots, p)
      ensures OutsideKeptAt(before, now, roots, p)
    {
      assert OutsideKeptAt(before, mid, roots, p) && !Under(p, root);
      assert SameAt(mid, now, p) || SameAt(Created(mid, root), now, p);
      assert Under(root, p) <==> p <= root;
    }
  }

  lemma PatchedNothing(keys: Keys, m: map<Key, Values>)
    ensures Patched(keys, keys, m, []) && forall roots :: OutsideKept(keys, keys, roots)
  {
    forall p
      ensures PatchedAt(keys, keys, m, [], p)
    {
    }
    forall roots
      ensures OutsideKept(keys, keys, roots)
    {
      assert forall p :: SameAt(keys, keys, p);
    }
  }

  /** Brings every root to the document. */
  method ApplyDocument(h: Hives, docs: seq<KeyData>, roots: seq<Key>) returns (failed: bool)
    requires h.Valid() && forall r :: r in roots ==> r != []
    modifies h
    ensures h.Valid() && OutsideKept(old(h.keys), h.keys, roots)
    ensures !failed ==> Patched(old(h.keys), h.keys, DocumentMap(docs), roots)
    ensures h.faults >= old(h.faults)
    ensures failed && (forall d :: d in docs ==> FoldedPath(d.path).Some?) ==> h.faults > old(h.faults)
  {
    hide Closed, Stored, Patched, OutsideKept, Desires, RootDone, Touched, HasBelow, Reconciled, DocumentMap, FoldedPath;
    ghost var m := DocumentMap(docs);
    PatchedNothing(h.keys, m);
    for i := 0 to |roots|
      invariant h.Valid() && OutsideKept(old(h.keys), h.keys, roots) && h.faults >= old(h.faults)
      invariant Patched(old(h.keys), h.keys, m, roots[..i])
    {
      if * {
        h.faults := h.faults + 1;
        return true;
      }
      var root := roots[i];
      assert root in roots;
      var tree := DesiredTree(docs, root);
      if tree.None? {
        return true;
      }
      ghost var mid := h.keys;
      EmptyTreeMeans(tree.value, m, root);
      if tree.value.data.None? && tree.value.children == map[] {
        failed := DeleteTree(h, root);
        DeletedIsTouched(mid, h.keys, root);
        DeletedIsRootDone(mid, m, root);
      } else {
        failed := ReconcileKey(h, root, tree.value);
        if !failed {
          ReconciledIsRootDone(mid, h.keys, m, root, tree.value);
        }
      }
      TouchedIsOutsideKept(old(h.keys), mid, h.keys, roots, root);
      if failed {
        return;
      }
      PatchedMore(old(h.keys), mid, h.keys, m, roots[..i], root);
      assert roots[..i + 1] == roots[..i] + [root];
    }
    assert roots[..|roots|] == roots;
    failed := false;
  }

  lemma DeletedIsTouched(before: Keys, now: Keys, root: Key)
    requires SameOutside(before, now, root)
    ensures Touched(before, now, root)
  {
  }

  /** The result depends on the set of roots only: overlapping roots may come in any order. */
  lemma OrderDoesNotMatter(before: Keys, a: Keys, b: Keys, m: map<Key, Values>, roots: seq<Key>, others: seq<Key>)
    requires forall r :: r in roots <==> r in others
    requires Patched(before, a, m, roots) && Patched(before, b, m, others)
    ensures a == b
  {
    forall p
      ensures SameAt(a, b, p)
    {
      assert PatchedAt(before, a, m, roots, p) && PatchedAt(before, b, m, others, p);
      assert InRoots(roots, p) <==> InRoots(others, p);
      assert LeadsToRoot(m, roots, p) <==> LeadsToRoot(m, others, p);
      if p in a && p in b && InRoots(roots, p) {
        HoldsAllIsExact(a[p], b[p], ValuesAt(m, p));
      }
    }
    assert forall p :: p in a ==> SameAt(a, b, p);
    assert forall p :: p in b ==> SameAt(a, b, p);
  }
}
