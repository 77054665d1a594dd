/**
 * Directory listings are sorted by name with Go's string order, which compares
 * the bytes of the two names lexicographically.
 */
module Listing {
  import opened Common
  import opened Handle

  /** Go's `a < b` on strings. */
  predicate NameLess(a: Path, b: Path) {
    if |a| == 0 then |b| > 0
    else if |b| == 0 then false
    else if a[0] != b[0] then a[0] < b[0]
    else NameLess(a[1..], b[1..])
  }

  lemma {:induction false} NameLessIrreflexive(a: Path)
    ensures !NameLess(a, a)
  {
    if |a| > 0 {
      NameLessIrreflexive(a[1..]);
    }
  }

  lemma {:induction false} NameLessTransitive(a: Path, b: Path, c: Path)
    requires NameLess(a, b) && NameLess(b, c)
    ensures NameLess(a, c)
  {
    if |a| > 0 && |b| > 0 && |c| > 0 && a[0] == b[0] == c[0] {
      NameLessTransitive(a[1..], b[1..], c[1..]);
    }
  }

  /** Any two different names are ordered one way or the other. */
  lemma {:induction false} NameLessTotal(a: Path, b: Path)
    requires a != b
    ensures NameLess(a, b) || NameLess(b, a)
  {
    if |a| > 0 && |b| > 0 && a[0] == b[0] {
      assert a == [a[0]] + a[1..] && b == [b[0]] + b[1..];
      NameLessTotal(a[1..], b[1..]);
    }
  }

  /** What `sort.Sort(ByName(entries))` promises: no name is followed by a smaller one. */
  predicate SortedByName(s: seq<FileInfo>) {
    forall i, j | 0 <= i < j < |s| :: !NameLess(s[j].name, s[i].name)
  }

  /** An entry that no name of a sorted listing sorts before can head it. */
  lemma PrependSorted(h: FileInfo, s: seq<FileInfo>)
    requires SortedByName(s)
    requires forall j | 0 <= j < |s| :: !NameLess(s[j].name, h.name)
    ensures SortedByName([h] + s)
  {
    forall i, j | 0 <= i < j < |s| + 1 ensures !NameLess(([h] + s)[j].name, ([h] + s)[i].name) {
      assert ([h] + s)[j] == s[j - 1];
      if i > 0 {
        assert ([h] + s)[i] == s[i - 1];
      }
    }
  }

  /** An entry that sorts before the head of a sorted listing sorts before none of it. */
  lemma {:induction false} BeforeHead(s: seq<FileInfo>, x: FileInfo)
    requires SortedByName(s) && |s| > 0 && NameLess(x.name, s[0].name)
    ensures forall j | 0 <= j < |s| :: !NameLess(s[j].name, x.name)
  {
    forall j | 0 <= j < |s| ensures !NameLess(s[j].name, x.name) {
      if NameLess(s[j].name, x.name) {
        NameLessTransitive(s[j].name, x.name, s[0].name);
        if j == 0 {
          NameLessIrreflexive(s[0].name);
        }
      }
    }
  }

  /** The tail of a sorted listing with `x` inserted holds nothing that sorts before its head. */
  lemma {:induction false} NotBeforeHead(s: seq<FileInfo>, x: FileInfo, rest: seq<FileInfo>)
    requires SortedByName(s) && |s| > 0 && !NameLess(x.name, s[0].name)
    requires multiset(rest) == multiset(s[1..]) + multiset{x}
    ensures forall j | 0 <= j < |rest| :: !NameLess(rest[j].name, s[0].name)
  {
    forall j | 0 <= j < |rest| ensures !NameLess(rest[j].name, s[0].name) {
      assert rest[j] in multiset(rest);
      if rest[j] != x {
        assert rest[j] in multiset(s[1..]);
        var k :| 0 <= k < |s[1..]| && s[1..][k] == rest[j];
        assert s[k + 1] == rest[j];
      }
    }
  }

  /** Inserts `x` after every entry whose name is not greater than its own. */
  function InsertByName(s: seq<FileInfo>, x: FileInfo): (r: seq<FileInfo>)
    requires SortedByName(s)
    ensures SortedByName(r)
    ensures multiset(r) == multiset(s) + multiset{x}
  {
    if s == [] then [x]
    else if NameLess(x.name, s[0].name) then
      BeforeHead(s, x);
      PrependSorted(x, s);
      [x] + s
    else
      var rest := InsertByName(s[1..], x);
      NotBeforeHead(s, x, rest);
      PrependSorted(s[0], rest);
      assert s == [s[0]] + s[1..];
      [s[0]] + rest
  }

  /** The listing sorted by name: sorted, and a permutation of its input. */
  function SortByName(s: seq<FileInfo>): (r: seq<FileInfo>)
    ensures SortedByName(r)
    ensures multiset(r) == multiset(s)
  {
    if s == [] then []
    else
      assert s == s[..|s| - 1] + [s[|s| - 1]];
      InsertByName(SortByName(s[..|s| - 1]), s[|s| - 1])
  }
}
