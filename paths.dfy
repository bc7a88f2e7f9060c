/**
 * Node's POSIX `path.basename(p)`: trailing '/' characters are ignored, then
 * the part after the last remaining '/' is the base name.
 */
module Paths {

  /** Where p[..n] ends once its trailing run of '/' characters is dropped. */
  function TrimmedEnd(p: string, n: nat): (m: nat)
    requires n <= |p|
    ensures m <= n && (m == 0 || p[m - 1] != '/')
    ensures forall i :: m <= i < n ==> p[i] == '/'
  {
    if n > 0 && p[n - 1] == '/' then TrimmedEnd(p, n - 1) else n
  }

  /** Where the last '/'-free segment of p[..n] starts. */
  function SegmentStart(p: string, n: nat): (k: nat)
    requires n <= |p|
    ensures k <= n && (k == 0 || p[k - 1] == '/')
    ensures forall i :: k <= i < n ==> p[i] != '/'
  {
    if n == 0 || p[n - 1] == '/' then n else SegmentStart(p, n - 1)
  }

  /** `path.basename(p)` */
  function Basename(p: string): (r: string)
    ensures '/' !in r
  {
    var m := TrimmedEnd(p, |p|);
    var k := SegmentStart(p, m);
    assert forall i :: 0 <= i < m - k ==> p[k..m][i] == p[k + i];
    p[k..m]
  }

  /**
   * The base name is the last segment of the path once trailing '/'s are
   * dropped: a '/'-free piece of the path that is preceded by a '/' or the
   * start of the path, is followed only by '/'s, and does not end in a '/'
   * that could have been dropped unless it is empty.
   */
  lemma BasenameIsLastSegment(p: string)
    ensures exists k, m :: (0 <= k <= m <= |p| && Basename(p) == p[k..m] &&
      (k == 0 || p[k - 1] == '/') && (m == 0 || p[m - 1] != '/') &&
      forall i :: m <= i < |p| ==> p[i] == '/')
  {
    var m := TrimmedEnd(p, |p|);
    var k := SegmentStart(p, m);
    assert Basename(p) == p[k..m];
  }

  /** Only the last component of a path is its base name: the directory part is dropped. */
  lemma BasenameOfJoin(dir: string, name: string)
    requires name != [] && '/' !in name
    ensures Basename(dir + "/" + name) == name
  {
    var p := dir + "/" + name;
    assert p[|p| - 1] == name[|name| - 1];
    assert TrimmedEnd(p, |p|) == |p|;
    assert forall i :: |dir| + 1 <= i < |p| ==> p[i] == name[i - |dir| - 1];
    SegmentStartOfJoin(p, |dir| + 1, |p|);
    assert p[|dir| + 1..] == name;
  }

  lemma {:induction false} SegmentStartOfJoin(p: string, k: nat, n: nat)
    requires 0 < k <= n <= |p| && p[k - 1] == '/'
    requires forall i :: k <= i < n ==> p[i] != '/'
    ensures SegmentStart(p, n) == k
    decreases n
  {
    if n > k {
      SegmentStartOfJoin(p, k, n - 1);
    }
  }
}
