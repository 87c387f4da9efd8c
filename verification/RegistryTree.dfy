/**
 Bringing one registry subtree to a desired tree.
 */
module RegistryTree {
  import opened Files
  import opened RegistryPaths
  import opened Registry

  /** A desired key: its values, if the document lists it, and the keys below it by folded name. */
  datatype KeyNode = KeyNode(data: Option<Values>, children: map<string, KeyNode>)

  function NodeAt(node: KeyNode, q: Key): Option<KeyNode> {
    if q == [] then Some(node)
    else if q[0] in node.children then NodeAt(node.children[q[0]], q[1..])
    else None
  }

  function ExpectedOf(node: KeyNode): Values {
    if node.data.Some? then node.data.value else map[]
  }

  ghost predicate NodeMatches(now: Keys, p: Key, node: Option<KeyNode>) {
    && (p in now <==> node.Some?)
    && (node.Some? ==> HoldsAll(now[p], ExpectedOf(node.value)))
  }

  /** The subtree at `path` is the desired tree; outside, only ancestors of `path` were made. */
  ghost predicate Reconciled(before: Keys, now: Keys, path: Key, node: KeyNode) {
    && SameOutside(Created(before, path), now, path)
    && forall p :: Under(p, path) ==> NodeMatches(now, p, NodeAt(node, p[|path|..]))
  }

  /** What even a failed reconciliation keeps. */
  ghost predicate Touched(before: Keys, now: Keys, path: Key) {
    SameOutside(before, now, path) || SameOutside(Created(before, path), now, path)
  }

  ghost predicate ChildDone(now: Keys, path: Key, n: string, node: KeyNode) {
    forall p :: Under(p, path + [n]) ==> NodeMatches(now, p, NodeAt(node, p[|path|..]))
  }

  /** Work on one child leaves the other children alone. */
  lemma OtherChildDone(before: Keys, now: Keys, path: Key, m: string, n: string, node: KeyNode)
    requires SameOutside(before, now, path + [m]) && m != n
    ensures ChildDone(before, path, n, node) ==> ChildDone(now, path, n, node)
    ensures path + [n] in now <==> path + [n] in before
  {
    hide NodeAt, HoldsAll;
    forall p | Under(p, path + [n])
      ensures SameAt(before, now, p)
    {
      UnderChild(p, path, n);
      UnderChild(p, path, m);
    }
    assert Under(path + [n], path + [n]);
  }

  /** A child that is not desired and absent is done. */
  lemma AbsentChildDone(now: Keys, path: Key, n: string, node: KeyNode)
    requires Closed(now) && path + [n] !in now && n !in node.children
    ensures ChildDone(now, path, n, node)
  {
    AbsentMeansNoneUnder(now, path + [n]);
    forall p | Under(p, path + [n])
      ensures NodeAt(node, p[|path|..]).None?
    {
      UnderChild(p, path, n);
    }
  }

  lemma ReconciledChildDone(before: Keys, now: Keys, path: Key, n: string, node: KeyNode)
    requires Closed(before) && path in before && n in node.children
    requires Touched(before, now, path + [n])
    ensures SameOutside(before, now, path + [n])
    ensures Reconciled(before, now, path + [n], node.children[n]) ==> ChildDone(now, path, n, node)
  {
    hide HoldsAll;
    var child := path + [n];
    forall p | !Under(p, child)
      ensures SameAt(before, Created(before, child), p)
    {
      if p != [] && p <= child {
        assert p <= path;
        AncestorPresent(before, path, p);
      }
    }
    if Reconciled(before, now, child, node.children[n]) {
      forall p | Under(p, child)
        ensures NodeMatches(now, p, NodeAt(node, p[|path|..]))
      {
        UnderChild(p, path, n);
        assert p[|path|..][1..] == p[|child|..];
      }
    }
  }

  lemma {:induction false} AncestorPresent(keys: Keys, k: Key, p: Key)
    requires Closed(keys) && k in keys && p != [] && p <= k
    ensures p in keys
    decreases |k|
  {
    if p != k {
      AncestorPresent(keys, k[..|k| - 1], p);
    }
  }

  lemma AllChildrenDone(before: Keys, base: Keys, now: Keys, path: Key, node: KeyNode)
    requires SameOutside(Created(before, path), base, path) && path in base && HoldsAll(base[path], ExpectedOf(node))
    requires SameButBelow(base, now, path)
    requires forall n :: ChildDone(now, path, n, node)
    ensures Reconciled(before, now, path, node)
  {
    forall p | !Under(p, path)
      ensures SameAt(Created(before, path), now, p)
    {
      assert SameAt(Created(before, path), base, p) && SameAt(base, now, p);
    }
    forall p | Under(p, path)
      ensures NodeMatches(now, p, NodeAt(node, p[|path|..]))
    {
      if p == path {
        assert SameAt(base, now, p) && p[|path|..] == [];
      } else {
        UnderChild(p, path, p[|path|]);
        assert ChildDone(now, path, p[|path|], node);
      }
    }
  }

  lemma StillTouched(before: Keys, base: Keys, now: Keys, path: Key)
    requires SameOutside(Created(before, path), base, path) && SameButBelow(base, now, path)
    ensures SameOutside(Created(before, path), now, path)
  {
    forall p | !Under(p, path)
      ensures SameAt(Created(before, path), now, p)
    {
      assert SameAt(Created(before, path), base, p) && SameAt(base, now, p);
    }
  }

  /** Makes the key if needed, gives it its values, then treats every child, present or desired. */
  method ReconcileKey(h: Hives, path: Key, desired: KeyNode) returns (failed: bool)
    requires h.Valid() && path != []
    modifies h
    ensures h.Valid() && Touched(old(h.keys), h.keys, path)
    ensures !failed ==> Reconciled(old(h.keys), h.keys, path, desired)
    ensures h.faults >= old(h.faults) && (failed ==> h.faults > old(h.faults))
    decreases desired
  {
    hide Closed, Stored, SameOutside, SameButBelow, ChildDone, Reconciled, HoldsAll;
    SameIsSame(h.keys, path);
    if * {
      h.faults := h.faults + 1;
      return true;
    }
    failed := h.CreateKey(path);
    if failed {
      return;
    }
    SameIsSame(h.keys, path);
    failed := SetValues(h, path, ExpectedOf(desired));
    ValuesAreInside(Created(old(h.keys), path), h.keys, path);
    if failed {
      return;
    }
    ghost var base := h.keys;
    SameIsSame(base, path);
    var children := SubKeyNames(h.keys, path);
    var todo := children;
    while todo != {}
      invariant h.faults >= old(h.faults)
      invariant h.Valid() && todo <= children && SameButBelow(base, h.keys, path)
      invariant forall n :: n !in children ==> path + [n] !in h.keys
      invariant forall n :: n in children - todo ==> ChildDone(h.keys, path, n, desired)
      decreases todo
    {
      var n :| n in todo;
      todo := todo - {n};
      failed := TreatChild(h, path, n, desired, base);
      if failed {
        StillTouched(old(h.keys), base, h.keys, path);
        return;
      }
    }
    todo := desired.children.Keys - children;
    AbsentChildrenDone(h.keys, path, children, desired);
    while todo != {}
      invariant h.faults >= old(h.faults)
      invariant h.Valid() && todo <= desired.children.Keys && SameButBelow(base, h.keys, path)
      invariant forall n :: n !in todo ==> ChildDone(h.keys, path, n, desired)
      decreases todo
    {
      var n :| n in todo;
      todo := todo - {n};
      failed := TreatChild(h, path, n, desired, base);
      if failed {
        StillTouched(old(h.keys), base, h.keys, path);
        return;
      }
    }
    AllChildrenDone(old(h.keys), base, h.keys, path, desired);
    StillTouched(old(h.keys), base, h.keys, path);
  }

  lemma ValuesAreInside(a: Keys, b: Keys, path: Key)
    requires path in a && path in b && b == a[path := b[path]]
    ensures SameOutside(a, b, path)
  {
    assert Under(path, path);
  }

  lemma AbsentChildrenDone(now: Keys, path: Key, children: set<string>, node: KeyNode)
    requires Closed(now) && forall n :: n !in children ==> path + [n] !in now
    ensures forall n :: n !in children && n !in node.children ==> ChildDone(now, path, n, node)
  {
    forall n | n !in children && n !in node.children
      ensures ChildDone(now, path, n, node)
    {
      AbsentChildDone(now, path, n, node);
    }
  }

  /** A desired child is reconciled, any other is deleted with all below it. */
  method TreatChild(h: Hives, path: Key, n: string, desired: KeyNode, ghost base: Keys) returns (failed: bool)
    requires h.Valid() && path != [] && path in base && SameButBelow(base, h.keys, path)
    modifies h
    ensures h.Valid() && SameButBelow(base, h.keys, path)
    ensures !failed ==> ChildDone(h.keys, path, n, desired)
    ensures h.faults >= old(h.faults) && (failed ==> h.faults > old(h.faults))
    ensures forall m :: m != n && ChildDone(old(h.keys), path, m, desired) ==> ChildDone(h.keys, path, m, desired)
    ensures forall m :: m != n ==> (path + [m] in h.keys <==> path + [m] in old(h.keys))
    decreases desired, 0
  {
    hide Stored, SameOutside, ChildDone, Reconciled, HoldsAll, Closed;
    assert SameAt(base, h.keys, path);
    if n in desired.children {
      failed := ReconcileKey(h, path + [n], desired.children[n]);
      ReconciledChildDone(old(h.keys), h.keys, path, n, desired);
    } else {
      failed := DeleteTree(h, path + [n]);
      if !failed {
        DeletedChildDone(old(h.keys), h.keys, path, n, desired);
      }
    }
    ChildIsBelow(base, old(h.keys), h.keys, path, n);
    forall m | m != n
      ensures ChildDone(old(h.keys), path, m, desired) ==> ChildDone(h.keys, path, m, desired)
      ensures path + [m] in h.keys <==> path + [m] in old(h.keys)
    {
      OtherChildDone(old(h.keys), h.keys, path, n, m, desired);
    }
  }

  lemma DeletedChildDone(before: Keys, now: Keys, path: Key, n: string, node: KeyNode)
    requires now == WithoutUnder(before, path + [n]) && n !in node.children
    ensures ChildDone(now, path, n, node)
  {
    forall p | Under(p, path + [n])
      ensures NodeAt(node, p[|path|..]).None? && p !in now
    {
      UnderChild(p, path, n);
    }
  }
}
