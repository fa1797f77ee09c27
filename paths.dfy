/**
 * The POSIX flavour of Python's `os.path` functions the fetcher uses to build and
 * de-duplicate the output path: `splitext`, `join` of two components and `basename`.
 */
module Paths {
  import opened Text

  /** `str.rfind` for one character: the last index holding `c`, or -1. */
  function RFind(s: string, c: char): (r: int)
    ensures -1 <= r < |s|
    ensures r >= 0 ==> s[r] == c
    ensures forall k :: r < k < |s| ==> s[k] != c
  {
    if s == [] then -1
    else if s[|s| - 1] == c then |s| - 1
    else RFind(s[..|s| - 1], c)
  }

  /** Some character of `p[from..to]` is not a dot. */
  predicate HasNonDot(p: string, from: int, to: int)
    requires 0 <= from && to <= |p|
  {
    exists k :: from <= k < to && p[k] != '.'
  }

  /**
   * `os.path.splitext`: the extension starts at the last dot when that dot lies in the
   * final path component and the component does not consist of leading dots up to it;
   * otherwise the extension is empty. Root and extension put back together give the path,
   * and the extension is empty or a dot followed by neither dots nor separators.
   */
  function SplitExt(p: string): (r: (string, string))
    ensures r.0 + r.1 == p
    ensures r.1 == [] || (r.1[0] == '.' && forall k :: 1 <= k < |r.1| ==> r.1[k] != '.' && r.1[k] != '/')
  {
    var sepIndex := RFind(p, '/');
    var dotIndex := RFind(p, '.');
    if dotIndex > sepIndex && HasNonDot(p, sepIndex + 1, dotIndex) then
      assert p[..dotIndex] + p[dotIndex..] == p;
      assert forall k :: 1 <= k < |p[dotIndex..]| ==> p[dotIndex..][k] == p[dotIndex + k];
      (p[..dotIndex], p[dotIndex..])
    else (p, [])
  }

  /** The last index holding `c` is the only index with the properties `RFind` promises. */
  lemma RFindUnique(s: string, c: char, k: int)
    requires -1 <= k < |s| && (k >= 0 ==> s[k] == c)
    requires forall j :: k < j < |s| ==> s[j] != c
    ensures RFind(s, c) == k
  {
  }

  /** Searching `a + b` from the back finds the last `c` of `b`, or else the last of `a`. */
  lemma RFindConcat(a: string, b: string, c: char)
    ensures RFind(a + b, c) == if RFind(b, c) >= 0 then |a| + RFind(b, c) else RFind(a, c)
  {
    var rb := RFind(b, c);
    var k := if rb >= 0 then |a| + rb else RFind(a, c);
    var s := a + b;
    forall j | k < j < |s| ensures s[j] != c {
      if j >= |a| {
        assert s[j] == b[j - |a|];
      } else {
        assert s[j] == a[j];
      }
    }
    if rb >= 0 {
      assert s[k] == b[rb];
    } else if k >= 0 {
      assert s[k] == a[k];
    }
    RFindUnique(s, c, k);
  }

  /**
   * Under a directory prefix ending in `/`, a name without separators keeps its own
   * extension: the prefix stays with the root.
   */
  lemma SplitExtUnder(head: string, name: string)
    requires head == [] || head[|head| - 1] == '/'
    requires forall k :: 0 <= k < |name| ==> name[k] != '/'
    ensures SplitExt(head + name) == (head + SplitExt(name).0, SplitExt(name).1)
  {
    var p := head + name;
    RFindConcat(head, name, '/');
    RFindConcat(head, name, '.');
    RFindUnique(head, '/', |head| - 1);
    assert RFind(name, '/') == -1;
    if RFind(name, '.') >= 0 {
      SplitExtUnderDot(head, name);
    } else {
      assert head != [] ==> RFind(head, '.') != |head| - 1;
      SplitExtUnderNoDot(head, name);
    }
  }

  /** The name's last dot is the path's last dot, after its last `/`. */
  lemma SplitExtUnderDot(head: string, name: string)
    requires RFind(name, '/') == -1 && RFind(name, '.') >= 0
    requires RFind(head + name, '/') == |head| - 1
    requires RFind(head + name, '.') == |head| + RFind(name, '.')
    ensures SplitExt(head + name) == (head + SplitExt(name).0, SplitExt(name).1)
  {
    var dn := RFind(name, '.');
    HasNonDotShift(head, name, dn);
    SplitAtDot(head, name, dn);
  }

  /** Without a dot in the name, neither the path nor the name has an extension. */
  lemma SplitExtUnderNoDot(head: string, name: string)
    requires RFind(name, '.') < 0
    requires RFind(head + name, '.') < |head| && RFind(head + name, '/') == |head| - 1
    ensures SplitExt(head + name) == (head + SplitExt(name).0, SplitExt(name).1)
  {
  }

  lemma HasNonDotShift(head: string, name: string, dn: nat)
    requires dn <= |name|
    ensures HasNonDot(head + name, |head|, |head| + dn) <==> HasNonDot(name, 0, dn)
  {
    var p := head + name;
    if HasNonDot(p, |head|, |head| + dn) {
      var k :| |head| <= k < |head| + dn && p[k] != '.';
      assert name[k - |head|] == p[k];
    }
    if HasNonDot(name, 0, dn) {
      var k :| 0 <= k < dn && name[k] != '.';
      assert p[|head| + k] == name[k];
    }
  }

  lemma SplitAtDot(head: string, name: string, dn: nat)
    requires dn <= |name|
    ensures (head + name)[..|head| + dn] == head + name[..dn]
    ensures (head + name)[|head| + dn..] == name[dn..]
  {
  }

  /** `os.path.join(a, b)`: an absolute `b` wins; otherwise a single `/` separates them. */
  function JoinPath(a: string, b: string): string
  {
    if StartsWith(b, "/") then b
    else if a == [] || EndsWith(a, "/") then a + b
    else a + "/" + b
  }

  /**
   * What `os.path.join` puts in front of a relative name: the directory, with a `/` added
   * unless it is empty or already ends in one.
   */
  function DirPrefix(dir: string): (head: string)
    ensures head == [] || head[|head| - 1] == '/'
  {
    if dir == [] || EndsWith(dir, "/") then
      assert dir != [] ==> dir[|dir| - 1] == dir[|dir| - 1..][0];
      dir
    else dir + "/"
  }

  /** A name without separators is joined as the directory prefix followed by the name. */
  lemma JoinRelative(dir: string, name: string)
    requires forall k :: 0 <= k < |name| ==> name[k] != '/'
    ensures JoinPath(dir, name) == DirPrefix(dir) + name
  {
    if name != [] {
      assert !StartsWith(name, "/") by { assert name[..1][0] == name[0]; }
    }
  }

  /** `os.path.basename`: what follows the last `/`. */
  function Basename(p: string): (r: string)
    ensures forall k :: 0 <= k < |r| ==> r[k] != '/'
  {
    p[RFind(p, '/') + 1..]
  }

  /** A name without separators, joined under any directory, is the basename of the result. */
  lemma BasenameOfJoin(dir: string, name: string)
    requires forall k :: 0 <= k < |name| ==> name[k] != '/'
    ensures Basename(JoinPath(dir, name)) == name
  {
    var p := JoinPath(dir, name);
    if name != [] {
      assert !StartsWith(name, "/") by { assert name[..1][0] == name[0]; }
    }
    var head := if dir == [] || EndsWith(dir, "/") then dir else dir + "/";
    assert p == head + name;
    assert head == [] || head[|head| - 1] == '/';
    var i := RFind(p, '/');
    if head == [] {
      assert i == -1;
    } else {
      assert p[|head| - 1] == '/';
      assert i == |head| - 1;
    }
    assert p[i + 1..] == name;
  }
}
