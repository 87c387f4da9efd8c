/**
 Splitting and joining strings at a separator.
 */
module Text {

  function Join(parts: seq<string>, sep: char): string
    requires parts != []
  {
    if |parts| == 1 then parts[0] else parts[0] + [sep] + Join(parts[1..], sep)
  }

  /** strings.Split: n separators give n + 1 parts. */
  function Split(s: string, sep: char): (parts: seq<string>)
    ensures parts != []
    ensures forall p :: p in parts ==> sep !in p
  {
    if s == [] then [""]
    else
      var rest := Split(s[1..], sep);
      if s[0] == sep then [""] + rest
      else [[s[0]] + rest[0]] + rest[1..]
  }

  lemma {:induction false} SplitPlain(s: string, sep: char)
    requires sep !in s
    ensures Split(s, sep) == [s]
  {
    if s != [] {
      SplitPlain(s[1..], sep);
      assert [s[0]] + s[1..] == s;
    }
  }

  lemma {:induction false} SplitHead(head: string, tail: string, sep: char)
    requires sep !in head
    ensures Split(head + [sep] + tail, sep) == [head] + Split(tail, sep)
  {
    var s := head + [sep] + tail;
    if head == [] {
      assert s[1..] == tail;
    } else {
      SplitHead(head[1..], tail, sep);
      assert s[1..] == head[1..] + [sep] + tail;
      assert [s[0]] + head[1..] == head;
    }
  }

  /** Parts without the separator survive being joined and split again. */
  lemma {:induction false} SplitOfJoin(parts: seq<string>, sep: char)
    requires parts != [] && forall p :: p in parts ==> sep !in p
    ensures Split(Join(parts, sep), sep) == parts
  {
    if |parts| == 1 {
      SplitPlain(parts[0], sep);
    } else {
      SplitOfJoin(parts[1..], sep);
      SplitHead(parts[0], Join(parts[1..], sep), sep);
    }
  }

  lemma {:induction false} JoinOfSplit(s: string, sep: char)
    ensures Join(Split(s, sep), sep) == s
  {
    if s != [] {
      JoinOfSplit(s[1..], sep);
      var rest := Split(s[1..], sep);
      if s[0] == sep {
        assert ([""] + rest)[1..] == rest;
      } else if |rest| > 1 {
        assert ([[s[0]] + rest[0]] + rest[1..])[1..] == rest[1..];
      }
    }
  }

  lemma {:induction false} SplitAfterJoin(parts: seq<string>, tail: string, sep: char)
    requires parts != [] && forall p :: p in parts ==> sep !in p
    ensures Split(Join(parts, sep) + [sep] + tail, sep) == parts + Split(tail, sep)
  {
    hide Split;
    if |parts| == 1 {
      SplitHead(parts[0], tail, sep);
      assert parts == [parts[0]];
    } else {
      var rest := Join(parts[1..], sep) + [sep] + tail;
      SplitAfterJoin(parts[1..], tail, sep);
      SplitHead(parts[0], rest, sep);
      assert Join(parts, sep) + [sep] + tail == parts[0] + [sep] + rest;
      assert parts == [parts[0]] + parts[1..];
    }
  }

  lemma SplitInParts(a: string, b: string, sep: char)
    ensures Split(a + [sep] + b, sep) == Split(a, sep) + Split(b, sep)
  {
    JoinOfSplit(a, sep);
    SplitAfterJoin(Split(a, sep), b, sep);
  }

  /** Joining and splitting never loses a part, and gains none exactly when it gives the parts back. */
  lemma {:induction false} SplitGains(parts: seq<string>, sep: char)
    requires parts != []
    ensures |Split(Join(parts, sep), sep)| >= |parts|
    ensures |Split(Join(parts, sep), sep)| == |parts| ==> Split(Join(parts, sep), sep) == parts
  {
    JoinOfSplit(parts[0], sep);
    if |parts| == 1 {
      assert parts == [parts[0]];
    } else {
      SplitGains(parts[1..], sep);
      SplitInParts(parts[0], Join(parts[1..], sep), sep);
      assert parts == [parts[0]] + parts[1..];
    }
  }

  /** A NUL that the first parts do not hold separates them from the second parts. */
  lemma NulSeparates(a: string, b: string, c: string, d: string)
    requires '\0' !in a && '\0' !in c
    ensures a + "\0" + b == c + "\0" + d <==> a == c && b == d
  {
    var s, t := a + "\0" + b, c + "\0" + d;
    var n, m := |a|, |c|;
    assert s[n] == '\0' && t[m] == '\0';
    assert n < m ==> t[n] in c;
    assert m < n ==> s[m] in a;
    assert s[..n] == a && t[..m] == c && s[n + 1..] == b && t[m + 1..] == d;
  }
}
