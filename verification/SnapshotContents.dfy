/**
 When two snapshots count as unchanged.
 */
module SnapshotContents {
  import opened Files
  import opened Snapshots
  import opened RegistryPaths
  import opened Sets
  import Text

  /** The key that the comparison indexes by: the two names joined by a NUL. */
  function FileKey(f: SnapshotFile): string {
    f.sourceKey + "\0" + f.path
  }

  /** The empty string, which a Go map gives for a missing key. */
  const NoHash := Hash("", "")

  /** The last file with the key decides. */
  function HashAt(files: seq<SnapshotFile>, key: string): Hash {
    if files == [] then NoHash
    else if FileKey(files[|files| - 1]) == key then files[|files| - 1].hash
    else HashAt(files[..|files| - 1], key)
  }

  predicate RegistryRule(left: Option<RegistryPart>, right: Option<RegistryPart>) {
    if left.None? || right.None? then left.None? && right.None?
    else
      && left.value.hash == right.value.hash
      && WellFormedRoots(left.value.keys) && WellFormedRoots(right.value.keys)
      && RootSet(left.value.keys) == RootSet(right.value.keys)
  }

  /** The test on the files: as many, and each on the right has its digest on the left. */
  predicate Accepts(left: seq<SnapshotFile>, right: seq<SnapshotFile>) {
    |left| == |right| && forall f :: f in right ==> HashAt(left, FileKey(f)) == f.hash
  }

  /** What the comparison decides, on any input. */
  predicate SameRule(left: Snapshot, right: Snapshot) {
    && left.metadata == right.metadata
    && Accepts(left.files, right.files)
    && RegistryRule(left.registry, right.registry)
  }

  method SameContents(left: Snapshot, right: Snapshot) returns (same: bool)
    ensures same <==> SameRule(left, right)
  {
    if left.metadata != right.metadata {
      return false;
    }
    if |left.files| != |right.files| || left.registry.None? != right.registry.None? {
      return false;
    }
    var files: map<string, Hash> := map[];
    for i := 0 to |left.files|
      invariant forall key :: (if key in files then files[key] else NoHash) == HashAt(left.files[..i], key)
    {
      assert left.files[..i + 1][..i] == left.files[..i];
      files := files[FileKey(left.files[i]) := left.files[i].hash];
    }
    assert left.files[..|left.files|] == left.files;
    for i := 0 to |right.files|
      invariant forall j :: 0 <= j < i ==> HashAt(left.files, FileKey(right.files[j])) == right.files[j].hash
    {
      var key := FileKey(right.files[i]);
      if (if key in files then files[key] else NoHash) != right.files[i].hash {
        return false;
      }
    }
    if left.registry.None? {
      return true;
    }
    if left.registry.value.hash != right.registry.value.hash {
      return false;
    }
    same := SameRegistryRoots(left.registry.value.keys, right.registry.value.keys);
  }

  // ----- What it is meant to decide -----

  function KeyPair(f: SnapshotFile): (string, string) {
    (f.sourceKey, f.path)
  }

  /** The saved content of every (source, path), by digest. */
  function ContentsOf(files: seq<SnapshotFile>): map<(string, string), Hash> {
    if files == [] then map[]
    else ContentsOf(files[..|files| - 1])[KeyPair(files[|files| - 1]) := files[|files| - 1].hash]
  }

  /** Digests are never empty, and source keys, being hexadecimal, hold no NUL. */
  ghost predicate Proper(files: seq<SnapshotFile>) {
    forall f :: f in files ==> f.hash != NoHash && '\0' !in f.sourceKey
  }

  ghost predicate DistinctKeys(files: seq<SnapshotFile>) {
    forall i, j :: 0 <= i < j < |files| ==> KeyPair(files[i]) != KeyPair(files[j])
  }

  lemma FileKeyIsKeyPair(f: SnapshotFile, g: SnapshotFile)
    requires '\0' !in f.sourceKey && '\0' !in g.sourceKey
    ensures FileKey(f) == FileKey(g) <==> KeyPair(f) == KeyPair(g)
  {
    Text.NulSeparates(f.sourceKey, f.path, g.sourceKey, g.path);
  }

  lemma {:induction false} HashAtIsContents(files: seq<SnapshotFile>, f: SnapshotFile)
    requires Proper(files) && '\0' !in f.sourceKey
    ensures var c := ContentsOf(files);
            HashAt(files, FileKey(f)) == if KeyPair(f) in c then c[KeyPair(f)] else NoHash
    ensures forall p :: p in ContentsOf(files) <==> exists g :: g in files && KeyPair(g) == p
    ensures forall p :: p in ContentsOf(files) ==> ContentsOf(files)[p] != NoHash
  {
    if files != [] {
      var init, last := files[..|files| - 1], files[|files| - 1];
      assert forall g :: g in files <==> g in init || g == last;
      HashAtIsContents(init, f);
      FileKeyIsKeyPair(last, f);
    }
  }

  lemma {:induction false} ContentsKeys(files: seq<SnapshotFile>)
    ensures ContentsOf(files).Keys == set f | f in files :: KeyPair(f)
  {
    if files != [] {
      var init, last := files[..|files| - 1], files[|files| - 1];
      ContentsKeys(init);
      assert forall g :: g in files <==> g in init || g == last;
    }
  }

  lemma DistinctKeysSplit(init: seq<SnapshotFile>, last: SnapshotFile)
    ensures DistinctKeys(init + [last]) <==> DistinctKeys(init) && forall f :: f in init ==> KeyPair(f) != KeyPair(last)
  {
    var files := init + [last];
    assert forall i :: 0 <= i < |init| ==> files[i] == init[i];
    if DistinctKeys(files) {
      forall f | f in init
        ensures KeyPair(f) != KeyPair(last)
      {
        var i :| 0 <= i < |init| && init[i] == f;
        assert KeyPair(files[i]) != KeyPair(files[|init|]);
      }
    }
  }

  /** There are as many keys as files exactly when no key repeats. */
  lemma {:induction false} ContentsSize(files: seq<SnapshotFile>)
    ensures |ContentsOf(files).Keys| <= |files|
    ensures |ContentsOf(files).Keys| == |files| <==> DistinctKeys(files)
  {
    if files != [] {
      hide DistinctKeys;
      var init, last := files[..|files| - 1], files[|files| - 1];
      assert files == init + [last];
      ContentsSize(init);
      ContentsKeys(init);
      DistinctKeysSplit(init, last);
      assert ContentsOf(files).Keys == ContentsOf(init).Keys + {KeyPair(last)};
    }
  }

  /**
   The one-sided scan and the length test decide equality of contents, for a
   right side without repeated keys: as many distinct keys as files, all found
   on the left, leave no room there for others.
   */
  lemma FileRuleIsEquality(left: seq<SnapshotFile>, right: seq<SnapshotFile>)
    requires Proper(left) && Proper(right) && DistinctKeys(right)
    ensures Accepts(left, right) <==> DistinctKeys(left) && ContentsOf(left) == ContentsOf(right)
  {
    var l, r := ContentsOf(left), ContentsOf(right);
    ContentsSize(left);
    ContentsSize(right);
    ContentsKeys(right);
    forall f | f in right
      ensures KeyPair(f) in r && r[KeyPair(f)] == f.hash
      ensures HashAt(left, FileKey(f)) == (if KeyPair(f) in l then l[KeyPair(f)] else NoHash)
    {
      DistinctLookup(right, f);
      HashAtIsContents(left, f);
    }
    hide ContentsOf, HashAt, DistinctKeys;
    if Accepts(left, right) {
      forall p | p in r
        ensures p in l && l[p] == r[p]
      {
        var f :| f in right && KeyPair(f) == p;
      }
      SubsetIsNotLarger(r.Keys, l.Keys);
      SubsetOfSameSize(r.Keys, l.Keys);
      assert l == r;
    }
  }

  lemma {:induction false} DistinctLookup(files: seq<SnapshotFile>, f: SnapshotFile)
    requires DistinctKeys(files) && f in files
    ensures KeyPair(f) in ContentsOf(files) && ContentsOf(files)[KeyPair(f)] == f.hash
  {
    var init, last := files[..|files| - 1], files[|files| - 1];
    if f != last {
      assert f in init;
      var i :| 0 <= i < |init| && init[i] == f;
      assert files[i] == f;
      DistinctLookup(init, f);
    }
  }

  /** Snapshots as this device makes them from save locations with distinct source keys. */
  ghost predicate Regular(s: Snapshot) {
    && Proper(s.files) && DistinctKeys(s.files)
    && (s.registry.Some? ==> WellFormedRoots(s.registry.value.keys))
  }

  /** Same metadata, same content at every (source, path), same registry digest and root set. */
  ghost predicate Equal(left: Snapshot, right: Snapshot) {
    && left.metadata == right.metadata
    && ContentsOf(left.files) == ContentsOf(right.files)
    && RegistryRule(left.registry, right.registry)
  }

  /** On regular snapshots the comparison is exactly that equality. */
  lemma SameRuleIsEquality(left: Snapshot, right: Snapshot)
    requires Regular(left) && Regular(right)
    ensures SameRule(left, right) <==> Equal(left, right)
  {
    FileRuleIsEquality(left.files, right.files);
    ContentsSize(left.files);
    ContentsSize(right.files);
  }

  /** Hence it is an equivalence relation there. */
  lemma SameRuleIsEquivalence(a: Snapshot, b: Snapshot, c: Snapshot)
    requires Regular(a) && Regular(b) && Regular(c)
    ensures SameRule(a, a)
    ensures SameRule(a, b) ==> SameRule(b, a)
    ensures SameRule(a, b) && SameRule(b, c) ==> SameRule(a, c)
  {
    SameRuleIsEquality(a, a);
    SameRuleIsEquality(a, b);
    SameRuleIsEquality(b, a);
    SameRuleIsEquality(b, c);
    SameRuleIsEquality(a, c);
  }

  /**
   With a repeated key the comparison can miss a change, and then is not even
   symmetric: here the first of two files with one key changed.
   */
  lemma RepeatedKeyHidesChange(s: Snapshot, old1: Hash, both: Hash)
    requires s.registry == None && old1 != both
    ensures var f := (h: Hash) => SnapshotFile("k", "p", false, h, 0);
            var before, after := s.(files := [f(old1), f(both)]), s.(files := [f(both), f(both)]);
            before != after && SameRule(before, after) && !SameRule(after, before)
  {
    var a, b := SnapshotFile("k", "p", false, old1, 0), SnapshotFile("k", "p", false, both, 0);
    assert HashAt([a, b], FileKey(a)) == both;
    assert HashAt([b, b], FileKey(a)) == both;
    assert a in [a, b];
  }

  // ----- Exactly when it misses a change -----

  /** The listed (source, path) and digest pairs, with their multiplicity. */
  function Pairs(files: seq<SnapshotFile>): multiset<((string, string), Hash)> {
    if files == [] then multiset{}
    else Pairs(files[..|files| - 1]) + multiset{(KeyPair(files[|files| - 1]), files[|files| - 1].hash)}
  }

  /** All entries with one key list one digest. */
  ghost predicate Agreeing(files: seq<SnapshotFile>) {
    forall f, g :: f in files && g in files && KeyPair(f) == KeyPair(g) ==> f.hash == g.hash
  }

  /** Some key repeats, and repeats say the same thing. */
  ghost predicate Blind(files: seq<SnapshotFile>) {
    !DistinctKeys(files) && Agreeing(files)
  }

  lemma {:induction false} InPairs(files: seq<SnapshotFile>, p: ((string, string), Hash))
    ensures p in Pairs(files) <==> exists f :: f in files && p == (KeyPair(f), f.hash)
  {
    if files != [] {
      var init, last := files[..|files| - 1], files[|files| - 1];
      InPairs(init, p);
      assert forall f :: f in files <==> f in init || f == last;
    }
  }

  lemma {:induction false} PairsOfDistinct(files: seq<SnapshotFile>, p: ((string, string), Hash))
    requires DistinctKeys(files)
    ensures var c := ContentsOf(files); Pairs(files)[p] == if p.0 in c && c[p.0] == p.1 then 1 else 0
  {
    if files != [] {
      var init, last := files[..|files| - 1], files[|files| - 1];
      assert files == init + [last];
      DistinctKeysSplit(init, last);
      PairsOfDistinct(init, p);
      ContentsKeys(init);
    }
  }

  /** Whatever a list accepts it with, its repeats agree. */
  lemma AcceptedIsAgreeing(left: seq<SnapshotFile>, right: seq<SnapshotFile>)
    requires Accepts(left, right)
    ensures Agreeing(right)
  {
    hide HashAt;
    forall f, g | f in right && g in right && KeyPair(f) == KeyPair(g)
      ensures f.hash == g.hash
    {
      assert FileKey(f) == FileKey(g);
    }
  }

  /** An entry before a later one with its key does not count. */
  lemma {:induction false} EarlierDoesNotCount(files: seq<SnapshotFile>, i: nat, j: nat, h: Hash, key: string)
    requires i < j < |files| && FileKey(files[i]) == FileKey(files[j])
    ensures HashAt(files[i := files[i].(hash := h)], key) == HashAt(files, key)
    decreases |files|
  {
    var last := |files| - 1;
    var files' := files[i := files[i].(hash := h)];
    assert files'[last] == files[last];
    if FileKey(files[last]) != key {
      if j < last {
        EarlierDoesNotCount(files[..last], i, j, h, key);
        assert files'[..last] == files[..last][i := files[i].(hash := h)];
      } else {
        OtherKeyDoesNotCount(files[..last], i, h, key);
        assert files'[..last] == files[..last][i := files[i].(hash := h)];
      }
    }
  }

  lemma {:induction false} OtherKeyDoesNotCount(files: seq<SnapshotFile>, i: nat, h: Hash, key: string)
    requires i < |files| && FileKey(files[i]) != key
    ensures HashAt(files[i := files[i].(hash := h)], key) == HashAt(files, key)
    decreases |files|
  {
    var last := |files| - 1;
    var files' := files[i := files[i].(hash := h)];
    if i < last {
      OtherKeyDoesNotCount(files[..last], i, h, key);
      assert files'[..last] == files[..last][i := files[i].(hash := h)];
    } else {
      assert files'[..last] == files[..last];
    }
  }

  lemma {:induction false} AgreeingAcceptsItself(files: seq<SnapshotFile>)
    requires Proper(files) && Agreeing(files)
    ensures Accepts(files, files)
  {
    forall f | f in files
      ensures HashAt(files, FileKey(f)) == f.hash
    {
      HashAtIsContents(files, f);
      ContentsListed(files, KeyPair(f));
    }
  }

  lemma {:induction false} ContentsListed(files: seq<SnapshotFile>, p: (string, string))
    requires p in ContentsOf(files)
    ensures exists f :: f in files && KeyPair(f) == p && f.hash == ContentsOf(files)[p]
  {
    var init, last := files[..|files| - 1], files[|files| - 1];
    assert forall f :: f in files <==> f in init || f == last;
    if KeyPair(last) != p {
      ContentsListed(init, p);
    }
  }

  function OtherHash(h: Hash): (r: Hash)
    ensures r != h && r != NoHash
  {
    Hash(h.shard + "0", h.rest)
  }

  /** For a blind list, another list that it takes for the same, and that does not take it for the same. */
  lemma MissedChange(right: seq<SnapshotFile>) returns (left: seq<SnapshotFile>)
    requires Proper(right) && Blind(right)
    ensures Proper(left) && Accepts(left, right) && Pairs(left) != Pairs(right) && !Accepts(right, left)
  {
    hide HashAt, Pairs, ContentsOf;
    var i, j :| 0 <= i < j < |right| && KeyPair(right[i]) == KeyPair(right[j]);
    var changed := right[i].(hash := OtherHash(right[i].hash));
    left := right[i := changed];
    AgreeingAcceptsItself(right);
    assert right[i] in right && changed == left[i] && changed in left;
    forall f | f in right
      ensures HashAt(left, FileKey(f)) == f.hash
    {
      EarlierDoesNotCount(right, i, j, changed.hash, FileKey(f));
    }
    assert HashAt(right, FileKey(changed)) == right[i].hash;
    var p := (KeyPair(changed), changed.hash);
    InPairs(left, p);
    InPairs(right, p);
  }

  lemma DistinctMissesNothing(left: seq<SnapshotFile>, right: seq<SnapshotFile>)
    requires Proper(left) && Proper(right) && DistinctKeys(right) && Accepts(left, right)
    ensures Pairs(left) == Pairs(right) && Accepts(right, left)
  {
    FileRuleIsEquality(left, right);
    FileRuleIsEquality(right, left);
    forall p
      ensures Pairs(left)[p] == Pairs(right)[p]
    {
      PairsOfDistinct(left, p);
      PairsOfDistinct(right, p);
    }
  }

  /** The registry parts of the comparison that some left side can pass. */
  predicate RegistryComparable(s: Snapshot) {
    s.registry.Some? ==> WellFormedRoots(s.registry.value.keys)
  }

  /**
   Exactly when the comparison misses a change: for a given right side, some left
   side with other listed content is accepted if and only if the right side
   repeats a key and its repeats agree.  When repeats disagree nothing at all is
   accepted; the comparison is symmetric exactly where it misses nothing.
   */
  lemma MissesExactlyWhenBlind(right: Snapshot)
    requires Proper(right.files) && RegistryComparable(right)
    ensures (exists left: Snapshot :: Proper(left.files) && SameRule(left, right) && Pairs(left.files) != Pairs(right.files)) <==>
            Blind(right.files)
    ensures (forall left: Snapshot :: Proper(left.files) && SameRule(left, right) ==> SameRule(right, left)) <==> !Blind(right.files)
    ensures (exists left: Snapshot :: Proper(left.files) && SameRule(left, right)) <==> Agreeing(right.files)
  {
    hide Accepts, Proper, Blind, Pairs, RootSet, WellFormedRoots;
    if Agreeing(right.files) {
      AgreeingAcceptsItself(right.files);
      assert SameRule(right, right);
    }
    if Blind(right.files) {
      var files := MissedChange(right.files);
      var left := right.(files := files);
      assert SameRule(left, right) && !SameRule(right, left);
    }
    forall left: Snapshot | Proper(left.files) && SameRule(left, right)
      ensures Agreeing(right.files)
      ensures !Blind(right.files) ==> Pairs(left.files) == Pairs(right.files) && SameRule(right, left)
    {
      AcceptedIsAgreeing(left.files, right.files);
      NotBlindIsDistinct(right.files);
      if !Blind(right.files) {
        DistinctMissesNothing(left.files, right.files);
      }
    }
  }

  lemma NotBlindIsDistinct(files: seq<SnapshotFile>)
    requires Agreeing(files)
    ensures Blind(files) || DistinctKeys(files)
  {
  }
}
