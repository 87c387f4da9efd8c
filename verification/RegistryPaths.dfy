/**
 Registry key paths: their canonical components and their folded comparison.

 A normalised path is kept as its components, hive first.  Comparing two of
 them component by component is comparing the joined strings, because no
 component holds a separator.  Folding is ASCII only.
 */
module RegistryPaths {
  import opened Files
  import opened Sets
  import Text

  type Key = seq<string>

  function LowerChar(c: char): char {
    if 'A' <= c <= 'Z' then c - 'A' + 'a' else c
  }

  function Fold(s: string): (f: string)
    ensures |f| == |s|
  {
    if s == [] then [] else [LowerChar(s[0])] + Fold(s[1..])
  }

  function FoldKey(k: Key): (f: Key)
    ensures |f| == |k|
    ensures forall i :: 0 <= i < |k| ==> f[i] == Fold(k[i])
  {
    if k == [] then [] else [Fold(k[0])] + FoldKey(k[1..])
  }

  /** A backslash and a slash separate alike. */
  function Slashes(s: string): (r: string)
    ensures '\\' !in r
  {
    if s == [] then [] else [if s[0] == '\\' then '/' else s[0]] + Slashes(s[1..])
  }

  function Hive(part: string): Option<string> {
    var f := Fold(part);
    if f == "hkey_current_user" || f == "hkcu" then Some("HKCU")
    else if f == "hkey_local_machine" || f == "hklm" then Some("HKLM")
    else None
  }

  predicate PlainPart(p: string) {
    p != "" && p != "." && p != ".."
  }

  function NormalizePath(path: string): (r: Option<Key>)
    ensures r.Some? ==> |r.value| >= 2 && (r.value[0] == "HKCU" || r.value[0] == "HKLM")
    ensures r.Some? ==> forall i :: 1 <= i < |r.value| ==>
              r.value[i] != "" && r.value[i] != "." && r.value[i] != ".." && '/' !in r.value[i]
  {
    var parts := Text.Split(Slashes(path), '/');
    if |parts| < 2 then None
    else
      var hive := Hive(parts[0]);
      if hive.None? || exists i :: 1 <= i < |parts| && !PlainPart(parts[i]) then None
      else Some([hive.value] + parts[1..])
  }

  /** The two names that stand for one hive, in any case. */
  predicate SameHive(a: string, b: string) {
    || (Fold(a) in {"hkcu", "hkey_current_user"} && Fold(b) in {"hkcu", "hkey_current_user"})
    || (Fold(a) in {"hklm", "hkey_local_machine"} && Fold(b) in {"hklm", "hkey_local_machine"})
  }

  lemma {:induction false} SlashesOfSum(s: string, t: string)
    ensures Slashes(s + t) == Slashes(s) + Slashes(t)
  {
    if s == [] {
      assert s + t == t;
    } else {
      SlashesOfSum(s[1..], t);
      assert (s + t)[1..] == s[1..] + t;
    }
  }

  lemma {:induction false} SlashesPlain(s: string)
    requires '\\' !in s
    ensures Slashes(s) == s
  {
    if s != [] {
      SlashesPlain(s[1..]);
    }
  }

  /** A key is the same key whichever name its hive has and whichever separator follows it. */
  lemma SpellingsMeet(a: string, b: string, rest: string)
    requires SameHive(a, b) && '/' !in a && '\\' !in a && '/' !in b && '\\' !in b
    ensures NormalizePath(a + "\\" + rest) == NormalizePath(b + "/" + rest)
    ensures NormalizePath(b + "/" + rest).Some? ==>
              NormalizePath(b + "/" + rest).value[0] == if Fold(a) in {"hkcu", "hkey_current_user"} then "HKCU" else "HKLM"
  {
    PartsOf(a, "\\", rest);
    PartsOf(b, "/", rest);
    HivesMeet(a, b);
    hide Fold, Hive, Slashes, Text.Split, SameHive, NormalizePath;
    PartsDecide(a + "\\" + rest, b + "/" + rest, a, b, Text.Split(Slashes(rest), '/'));
  }

  lemma HivesMeet(a: string, b: string)
    requires SameHive(a, b)
    ensures Hive(a) == Hive(b) == Some(if Fold(a) in {"hkcu", "hkey_current_user"} then "HKCU" else "HKLM")
  {
    hide Fold;
  }

  lemma PartsDecide(p: string, q: string, a: string, b: string, rest: seq<string>)
    requires Text.Split(Slashes(p), '/') == [a] + rest && Text.Split(Slashes(q), '/') == [b] + rest
    requires Hive(a) == Hive(b) && Hive(a).Some?
    ensures NormalizePath(p) == NormalizePath(q)
    ensures NormalizePath(q).Some? ==> NormalizePath(q).value[0] == Hive(a).value
  {
    hide Hive, Slashes, Text.Split, PlainPart;
    assert ([a] + rest)[1..] == rest && ([b] + rest)[1..] == rest;
    assert forall i :: 1 <= i < |[a] + rest| ==> ([a] + rest)[i] == ([b] + rest)[i];
  }

  lemma PartsOf(a: string, separator: string, rest: string)
    requires '/' !in a && '\\' !in a && (separator == "/" || separator == "\\")
    ensures Text.Split(Slashes(a + separator + rest), '/') == [a] + Text.Split(Slashes(rest), '/')
  {
    SlashesOfSum(a + separator, rest);
    SlashesOfSum(a, separator);
    SlashesPlain(a);
    assert separator[1..] == "" && Slashes(separator) == "/";
    var s, tail := a + "/" + Slashes(rest), Slashes(rest);
    assert Slashes(a + separator + rest) == s;
    Text.SplitHead(a, tail, '/');
  }

  /** Separators at the end of a root do not count. */
  lemma TrailingSeparators(root: string)
    ensures NormalizePath(TrimRight(root + "/")) == NormalizePath(TrimRight(root)) == NormalizePath(TrimRight(root + "\\"))
  {
    assert (root + "/")[..|root + "/"| - 1] == root && (root + "\\")[..|root + "\\"| - 1] == root;
  }

  function TrimRight(s: string): string {
    if s != [] && (s[|s| - 1] == '/' || s[|s| - 1] == '\\') then TrimRight(s[..|s| - 1]) else s
  }

  /** The roots in canonical form, trailing separators dropped; one bad root spoils them all. */
  method NormalizeRootPaths(roots: seq<string>) returns (r: Option<seq<Key>>)
    ensures r.Some? <==> forall i :: 0 <= i < |roots| ==> NormalizePath(TrimRight(roots[i])).Some?
    ensures r.Some? ==> |r.value| == |roots|
                        && forall i :: 0 <= i < |roots| ==> r.value[i] == NormalizePath(TrimRight(roots[i])).value
  {
    var normalized: seq<Key> := [];
    for i := 0 to |roots|
      invariant |normalized| == i
      invariant forall j :: 0 <= j < i ==> NormalizePath(TrimRight(roots[j])) == Some(normalized[j])
    {
      var p := NormalizePath(TrimRight(roots[i]));
      if p.None? {
        return None;
      }
      normalized := normalized + [p.value];
    }
    return Some(normalized);
  }

  predicate WellFormedRoots(roots: seq<string>) {
    forall i :: 0 <= i < |roots| ==> NormalizePath(TrimRight(roots[i])).Some?
  }

  /** The keys that the roots name, up to case. */
  function RootSet(roots: seq<string>): set<Key>
    requires WellFormedRoots(roots)
  {
    set i | 0 <= i < |roots| :: FoldKey(NormalizePath(TrimRight(roots[i])).value)
  }

  function FoldedSet(keys: seq<Key>): set<Key> {
    set k | k in keys :: FoldKey(k)
  }

  predicate DistinctFolds(keys: seq<Key>) {
    forall i, j :: 0 <= i < j < |keys| ==> FoldKey(keys[i]) != FoldKey(keys[j])
  }

  /** Keeps the first of every group of roots that differ in case only. */
  method UniqueRegistryRoots(roots: seq<Key>) returns (unique: seq<Key>)
    ensures DistinctFolds(unique)
    ensures forall k :: k in unique ==> k in roots
    ensures FoldedSet(unique) == FoldedSet(roots)
  {
    unique := [];
    for i := 0 to |roots|
      invariant DistinctFolds(unique)
      invariant forall k :: k in unique ==> k in roots
      invariant FoldedSet(unique) == FoldedSet(roots[..i])
    {
      FoldedSetOfMore(roots[..i], roots[i]);
      FoldedSetOfMore(unique, roots[i]);
      assert roots[..i + 1] == roots[..i] + [roots[i]];
      if !exists k :: k in unique && FoldKey(k) == FoldKey(roots[i]) {
        unique := unique + [roots[i]];
      }
    }
    assert roots[..|roots|] == roots;
  }

  lemma FoldedSetOfMore(keys: seq<Key>, k: Key)
    ensures FoldedSet(keys + [k]) == FoldedSet(keys) + {FoldKey(k)}
  {
    assert forall x :: x in keys + [k] <==> x in keys || x == k;
  }

  lemma {:induction false} DistinctFoldsSize(keys: seq<Key>)
    requires DistinctFolds(keys)
    ensures |FoldedSet(keys)| == |keys|
  {
    if keys != [] {
      var init, last := keys[..|keys| - 1], keys[|keys| - 1];
      DistinctFoldsSize(init);
      assert forall k :: k in keys <==> k in init || k == last;
      assert FoldedSet(keys) == FoldedSet(init) + {FoldKey(last)};
      assert FoldKey(last) !in FoldedSet(init);
    }
  }

  /** Two lists of keys without folded repetitions: same length and one inclusion make the same set. */
  method SameFoldedKeys(left: seq<Key>, right: seq<Key>) returns (same: bool)
    requires DistinctFolds(left) && DistinctFolds(right)
    ensures same <==> FoldedSet(left) == FoldedSet(right)
  {
    DistinctFoldsSize(left);
    DistinctFoldsSize(right);
    if |left| != |right| {
      return false;
    }
    for i := 0 to |left|
      invariant forall j :: 0 <= j < i ==> FoldKey(left[j]) in FoldedSet(right)
    {
      var found := exists candidate :: candidate in right && FoldKey(candidate) == FoldKey(left[i]);
      if !found {
        assert left[i] in left && FoldKey(left[i]) in FoldedSet(left);
        return false;
      }
    }
    assert FoldedSet(left) <= FoldedSet(right);
    SubsetOfSameSize(FoldedSet(left), FoldedSet(right));
    return true;
  }

  /** Equality of root sets up to case, order and repetition; ill-formed roots equal nothing. */
  method SameRegistryRoots(left: seq<string>, right: seq<string>) returns (same: bool)
    ensures same <==> WellFormedRoots(left) && WellFormedRoots(right) && RootSet(left) == RootSet(right)
  {
    hide FoldKey, NormalizePath, TrimRight, FoldedSet, DistinctFolds;
    var l := NormalizeRootPaths(left);
    if l.None? {
      return false;
    }
    var r := NormalizeRootPaths(right);
    if r.None? {
      return false;
    }
    RootSetIs(left, l.value);
    RootSetIs(right, r.value);
    var uniqueLeft := UniqueRegistryRoots(l.value);
    var uniqueRight := UniqueRegistryRoots(r.value);
    same := SameFoldedKeys(uniqueLeft, uniqueRight);
  }

  lemma RootSetIs(roots: seq<string>, keys: seq<Key>)
    requires WellFormedRoots(roots) && |keys| == |roots|
    requires forall i :: 0 <= i < |roots| ==> keys[i] == NormalizePath(TrimRight(roots[i])).value
    ensures RootSet(roots) == FoldedSet(keys)
  {
    forall f | f in FoldedSet(keys)
      ensures f in RootSet(roots)
    {
      var k :| k in keys && FoldKey(k) == f;
      var i :| 0 <= i < |keys| && keys[i] == k;
    }
  }
}
