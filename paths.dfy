/**
 * Paths of the in-memory filesystem.
 *
 * `IsAbs` is the filesystem's own rule. `Dir`, `Base` and `Join` stand in for
 * Go's path/filepath library: they split and join at the separator like the
 * library does, but do not clean `.`, `..` or repeated separators.
 */
module Paths {
  import opened Common

  const Sep: byte := 47  // '/'

  /** On Unix `filepath.IsAbs` and the "starts with a separator" test agree. */
  predicate IsAbs(p: Path) {
    |p| > 0 && p[0] == Sep
  }

  /** The index of the last separator among the first `n` bytes of `p`, or -1 when there is none. */
  function LastSepBefore(p: Path, n: nat): (i: int)
    requires n <= |p|
    ensures -1 <= i < n
    ensures 0 <= i ==> p[i] == Sep
    ensures 0 < n && p[0] == Sep ==> 0 <= i
    decreases n
  {
    if n == 0 then -1
    else if p[n - 1] == Sep then n - 1
    else LastSepBefore(p, n - 1)
  }

  /** Stand-in for `filepath.Dir`: everything before the last separator. */
  function Dir(p: Path): (d: Path)
    ensures IsAbs(p) ==> IsAbs(d)
  {
    var i := LastSepBefore(p, |p|);
    if i < 0 then Bytes(".")
    else if i == 0 then [Sep]
    else p[..i]
  }

  /** The length of the first `n` bytes of `p` without their trailing separators. */
  function TrimmedLength(p: Path, n: nat): (m: nat)
    requires n <= |p|
    ensures m <= n
    ensures 0 < m ==> p[m - 1] != Sep
    decreases n
  {
    if n > 0 && p[n - 1] == Sep then TrimmedLength(p, n - 1) else n
  }

  /** Stand-in for `filepath.Base`: the last element of the path. */
  function Base(p: Path): Path {
    if p == [] then Bytes(".")
    else
      var m := TrimmedLength(p, |p|);
      if m == 0 then [Sep] else p[LastSepBefore(p, m) + 1..m]
  }

  /** Stand-in for `filepath.Join` of two elements. */
  function Join(a: Path, b: Path): (j: Path)
    ensures IsAbs(a) ==> IsAbs(j)
  {
    if a == [] then b
    else if b == [] then a
    else if a[|a| - 1] == Sep then a + b
    else a + [Sep] + b
  }
}
