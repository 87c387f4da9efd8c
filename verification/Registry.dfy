/**
 The Windows registry as this program uses it: a tree of keys changed in place.

 Key and value names are case-insensitive, so the tree is kept by folded names.
 A name may hold a slash but no backslash.  Every operation may fail.
 */
module Registry {
  import opened Files
  import opened RegistryPaths

  datatype Data =
    | Text(expand: bool, text: string)
    | Strings(strings: seq<string>)
    | Dword(n: nat)
    | Qword(n: nat)
    | Binary(bytes: Bytes)

  type Values = map<string, Data>
  type Keys = map<Key, Values>

  /** The stored value is the listed one; of a listed DWORD of more than 32 bits it is the low 32. */
  predicate Holds(stored: Data, listed: Data) {
    if listed.Dword? && listed.n >= 0x1_0000_0000 then stored == Dword(listed.n % 0x1_0000_0000) else stored == listed
  }

  /** A key with exactly the listed values. */
  ghost predicate HoldsAll(stored: Values, listed: Values) {
    stored.Keys == listed.Keys && forall n :: n in listed ==> Holds(stored[n], listed[n])
  }

  lemma HoldsAllIsExact(a: Values, b: Values, listed: Values)
    requires HoldsAll(a, listed)
    ensures HoldsAll(b, listed) <==> a == b
    ensures (forall n :: n in listed && listed[n].Dword? ==> listed[n].n < 0x1_0000_0000) ==> a == listed
  {
  }

  /** Every key has its parent. */
  ghost predicate Closed(keys: Keys) {
    forall k :: k in keys ==> k != [] && (|k| > 1 ==> k[..|k| - 1] in keys)
  }

  /** Every DWORD has 32 bits. */
  ghost predicate Stored(keys: Keys) {
    forall k, n :: k in keys && n in keys[k] && keys[k][n].Dword? ==> keys[k][n].n < 0x1_0000_0000
  }

  predicate SameAt(a: Keys, b: Keys, p: Key) {
    (p in a <==> p in b) && (p in a ==> a[p] == b[p])
  }

  predicate Under(p: Key, k: Key) {
    k <= p
  }

  /** Nothing outside the subtree at `k` differs. */
  ghost predicate SameOutside(a: Keys, b: Keys, k: Key) {
    forall p :: !Under(p, k) ==> SameAt(a, b, p)
  }

  /** Nothing but what is below `k` differs. */
  ghost predicate SameButBelow(a: Keys, b: Keys, k: Key) {
    forall p :: p == k || !Under(p, k) ==> SameAt(a, b, p)
  }

  lemma UnderChild(p: Key, k: Key, n: string)
    ensures Under(p, k + [n]) <==> Under(p, k) && |p| > |k| && p[|k|] == n
  {
    if Under(p, k + [n]) {
      assert p[..|k|] == k && p[|k|] == (k + [n])[|k|];
    }
    if Under(p, k) && |p| > |k| && p[|k|] == n {
      assert p[..|k| + 1] == k + [n];
    }
  }

  lemma ChildIsBelow(a: Keys, b: Keys, c: Keys, k: Key, n: string)
    requires SameButBelow(a, b, k) && SameOutside(b, c, k + [n])
    ensures SameButBelow(a, c, k)
  {
    forall p: Key | p == k || !Under(p, k)
      ensures SameAt(a, c, p)
    {
      UnderChild(p, k, n);
      assert SameAt(a, b, p) && SameAt(b, c, p);
    }
  }

  lemma ChildrenUnder(keys: Keys, k: Key, n: string)
    ensures KeysUnder(keys, k + [n]) <= KeysUnder(keys, k) - {k}
  {
    forall p | p in KeysUnder(keys, k + [n])
      ensures k <= p && p != k
    {
      UnderChild(p, k, n);
    }
  }

  function Prefixes(k: Key): set<Key> {
    set i | 1 <= i <= |k| :: k[..i]
  }

  /** CreateKey makes the missing ancestors too. */
  function Created(keys: Keys, k: Key): (r: Keys)
    ensures forall p :: p in r <==> p in keys || (p != [] && p <= k)
    ensures forall p :: p in r ==> r[p] == if p in keys then keys[p] else map[]
  {
    assert forall p: Key :: p in Prefixes(k) <==> p != [] && p <= k by {
      forall p: Key | p != [] && p <= k
        ensures p in Prefixes(k)
      {
        assert p == k[..|p|];
      }
    }
    map p | p in keys.Keys + Prefixes(k) :: if p in keys then keys[p] else map[]
  }

  /** The names directly below a key. */
  function SubKeyNames(keys: Keys, k: Key): (names: set<string>)
    ensures forall n :: n in names <==> k + [n] in keys
  {
    var names := set p | p in keys && |p| == |k| + 1 && k <= p :: p[|k|];
    assert forall n :: k + [n] in keys ==> (k + [n])[|k|] in names;
    assert forall p :: p in keys && |p| == |k| + 1 && k <= p ==> p == k + [p[|k|]];
    names
  }

  function KeysUnder(keys: Keys, k: Key): set<Key> {
    set p | p in keys && k <= p
  }

  function WithoutUnder(keys: Keys, k: Key): Keys {
    keys - KeysUnder(keys, k)
  }

  class Hives {
    var keys: Keys
    ghost var faults: nat     // how many operations have failed

    ghost predicate Valid()
      reads this
    {
      Closed(keys) && Stored(keys)
    }

    constructor (keys: Keys)
      requires Closed(keys) && Stored(keys)
      ensures Valid() && this.keys == keys
    {
      this.keys, faults := keys, 0;
    }

    method CreateKey(k: Key) returns (failed: bool)
      requires Valid() && k != []
      modifies this
      ensures Valid() && keys == if failed then old(keys) else Created(old(keys), k)
      ensures faults == old(faults) + if failed then 1 else 0
    {
      if * {
        faults := faults + 1;
        return true;
      }
      CreatedIsClosed(keys, k);
      keys := Created(keys, k);
      return false;
    }

    /** Refused for a key with keys below it. */
    method DeleteKey(k: Key) returns (failed: bool)
      requires Valid()
      modifies this
      ensures Valid() && keys == if failed then old(keys) else old(keys) - {k}
      ensures !failed ==> SubKeyNames(old(keys), k) == {}
      ensures faults >= old(faults) && (failed && SubKeyNames(old(keys), k) == {} ==> faults > old(faults))
    {
      if * {
        faults := faults + 1;
        return true;
      }
      if SubKeyNames(keys, k) != {} {
        return true;
      }
      DeletedIsClosed(keys, k);
      keys := keys - {k};
      return false;
    }

    method DeleteValue(k: Key, name: string) returns (failed: bool)
      requires Valid() && k in keys
      modifies this
      ensures Valid() && keys == if failed then old(keys) else old(keys)[k := old(keys)[k] - {name}]
      ensures faults == old(faults) + if failed then 1 else 0
    {
      if * {
        faults := faults + 1;
        return true;
      }
      keys := keys[k := keys[k] - {name}];
      return false;
    }

    method WriteValue(k: Key, name: string, d: Data) returns (failed: bool)
      requires Valid() && k in keys
      modifies this
      ensures Valid() && k in keys && keys == old(keys)[k := keys[k]]
      ensures failed ==> keys == old(keys)
      ensures faults == old(faults) + if failed then 1 else 0
      ensures !failed ==> name in keys[k] && keys[k] == old(keys)[k][name := keys[k][name]] && Holds(keys[k][name], d)
    {
      if * {
        faults := faults + 1;
        return true;
      }
      var stored := if d.Dword? then Dword(d.n % 0x1_0000_0000) else d;
      keys := keys[k := keys[k][name := stored]];
      return false;
    }
  }

  lemma CreatedIsClosed(keys: Keys, k: Key)
    requires Closed(keys) && Stored(keys) && k != []
    ensures Closed(Created(keys, k)) && Stored(Created(keys, k))
  {
    var r := Created(keys, k);
    forall p | p in r && |p| > 1
      ensures p[..|p| - 1] in r
    {
      if p !in keys {
        assert p[..|p| - 1] <= k;
      }
    }
  }

  lemma DeletedIsClosed(keys: Keys, k: Key)
    requires Closed(keys) && Stored(keys) && SubKeyNames(keys, k) == {}
    ensures Closed(keys - {k}) && Stored(keys - {k})
  {
    forall p | p in keys && |p| > 1
      ensures p[..|p| - 1] != k
    {
      var n := p[|p| - 1];
      assert p == p[..|p| - 1] + [n];
      assert n !in SubKeyNames(keys, k);
    }
  }

  /** Gives a key exactly these values: what is not expected goes, the rest is written. */
  method SetValues(h: Hives, k: Key, expected: Values) returns (failed: bool)
    requires h.Valid() && k in h.keys
    modifies h
    ensures h.Valid() && k in h.keys && h.keys == old(h.keys)[k := h.keys[k]]
    ensures !failed ==> HoldsAll(h.keys[k], expected)
    ensures h.faults >= old(h.faults) && (failed ==> h.faults > old(h.faults))
  {
    hide Closed, Stored;
    failed := false;
    var todo := h.keys[k].Keys;
    while todo != {}
      invariant h.faults >= old(h.faults) && (failed ==> h.faults > old(h.faults))
      invariant h.Valid() && k in h.keys && h.keys == old(h.keys)[k := h.keys[k]]
      invariant !failed ==> h.keys[k].Keys <= expected.Keys + todo
      decreases todo
    {
      var n :| n in todo;
      todo := todo - {n};
      if n !in expected {
        var refused := h.DeleteValue(k, n);
        failed := failed || refused;
      }
    }
    todo := expected.Keys;
    while todo != {}
      invariant h.faults >= old(h.faults) && (failed ==> h.faults > old(h.faults))
      invariant h.Valid() && k in h.keys && h.keys == old(h.keys)[k := h.keys[k]] && todo <= expected.Keys
      invariant !failed ==> h.keys[k].Keys <= expected.Keys
      invariant !failed ==> forall n :: n in expected && n !in todo ==> n in h.keys[k] && Holds(h.keys[k][n], expected[n])
      decreases todo
    {
      var n :| n in todo;
      todo := todo - {n};
      var refused := h.WriteValue(k, n, expected[n]);
      failed := failed || refused;
    }
  }

  /** Deletes a key and everything below it, deepest first. */
  method DeleteTree(h: Hives, k: Key) returns (failed: bool)
    requires h.Valid() && k != []
    modifies h
    ensures h.Valid() && SameOutside(old(h.keys), h.keys, k)
    ensures h.keys.Keys <= old(h.keys).Keys
    ensures !failed ==> h.keys == WithoutUnder(old(h.keys), k)
    ensures h.faults >= old(h.faults) && (failed ==> h.faults > old(h.faults))
    decreases KeysUnder(h.keys, k)
  {
    hide Closed, Stored, SameOutside, SameButBelow;
    SameIsSame(h.keys, k);
    if * {
      h.faults := h.faults + 1;
      return true;
    }
    if k !in h.keys {
      AbsentMeansNoneUnder(h.keys, k);
      return false;
    }
    var children := SubKeyNames(h.keys, k);
    var todo := children;
    while todo != {}
      invariant h.Valid() && todo <= children && SameButBelow(old(h.keys), h.keys, k) && h.faults >= old(h.faults)
      invariant forall n :: k + [n] in h.keys ==> n in children
      invariant h.keys.Keys <= old(h.keys).Keys
      invariant forall n :: n in children - todo ==> k + [n] !in h.keys
      decreases todo
    {
      var n :| n in todo;
      todo := todo - {n};
      ghost var before := h.keys;
      ChildrenUnder(h.keys, k, n);
      assert k in KeysUnder(old(h.keys), k) && KeysUnder(h.keys, k) <= KeysUnder(old(h.keys), k);
      failed := DeleteTree(h, k + [n]);
      ChildIsBelow(old(h.keys), before, h.keys, k, n);
      if failed {
        BelowIsOutside(old(h.keys), h.keys, k);
        return;
      }
    }
    NoChildrenMeansNoneBelow(h.keys, k);
    BelowIsOutside(old(h.keys), h.keys, k);
    ghost var emptied := h.keys;
    failed := h.DeleteKey(k);
    if !failed {
      TreeDeleted(old(h.keys), emptied, k);
    }
  }

  lemma SameIsSame(a: Keys, k: Key)
    ensures SameOutside(a, a, k) && SameButBelow(a, a, k)
  {
  }

  lemma BelowIsOutside(a: Keys, b: Keys, k: Key)
    requires SameButBelow(a, b, k)
    ensures SameOutside(a, b, k)
  {
  }

  lemma TreeDeleted(a: Keys, b: Keys, k: Key)
    requires SameOutside(a, b, k) && forall p :: Under(p, k) && p != k ==> p !in b
    ensures b - {k} == WithoutUnder(a, k) && SameOutside(a, b - {k}, k)
  {
    forall p
      ensures SameAt(b - {k}, WithoutUnder(a, k), p)
    {
      assert !Under(p, k) ==> SameAt(a, b, p);
    }
    var left, right := b - {k}, WithoutUnder(a, k);
    assert forall p :: p in left ==> SameAt(left, right, p);
    assert forall p :: p in right ==> SameAt(left, right, p);
  }

  lemma {:induction false} AbsentMeansNoneUnder(keys: Keys, k: Key)
    requires Closed(keys) && k != [] && k !in keys
    ensures forall p :: Under(p, k) ==> p !in keys
    ensures WithoutUnder(keys, k) == keys
  {
    forall p: Key | Under(p, k)
      ensures p !in keys
    {
      AbsentBelow(keys, k, p);
    }
  }

  lemma {:induction false} AbsentBelow(keys: Keys, k: Key, p: Key)
    requires Closed(keys) && k != [] && k !in keys && k <= p
    ensures p !in keys
    decreases |p|
  {
    if p != k {
      AbsentBelow(keys, k, p[..|p| - 1]);
    }
  }

  lemma NoChildrenMeansNoneBelow(keys: Keys, k: Key)
    requires Closed(keys) && k != []
    requires forall n :: k + [n] !in keys
    ensures forall p :: Under(p, k) && p != k ==> p !in keys
  {
    forall p: Key | Under(p, k) && p != k
      ensures p !in keys
    {
      AbsentBelow(keys, k + [p[|k|]], p);
    }
  }
}
