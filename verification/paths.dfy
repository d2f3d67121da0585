/**
 * The two string operations extension dispatch relies on: `str.lower()` and
 * `os.path.splitext` (POSIX flavour: separator '/', extension separator '.').
 */
module Paths {

  function LowerChar(c: char): char
  {
    if 'A' <= c <= 'Z' then (c as int + 32) as char else c
  }

  /** `s.lower()`, restricted to ASCII letters. */
  function Lower(s: string): (r: string)
    ensures |r| == |s|
    ensures forall i :: 0 <= i < |s| ==> r[i] == LowerChar(s[i])
  {
    seq(|s|, i requires 0 <= i < |s| => LowerChar(s[i]))
  }

  /** Lower-casing twice is lower-casing once, so the second `lower()` inside
      the archive test cannot change the dispatch. */
  lemma LowerIdempotent(s: string)
    ensures Lower(Lower(s)) == Lower(s)
  {
    assert forall i :: 0 <= i < |s| ==> LowerChar(LowerChar(s[i])) == LowerChar(s[i]);
  }

  /** Index of the last occurrence of `c` in `s`, or -1 (`str.rfind`). */
  function LastIndex(s: string, c: char): (r: int)
    ensures -1 <= r < |s|
    ensures r >= 0 ==> s[r] == c
    ensures forall k :: r < k < |s| ==> s[k] != c
    decreases |s|
  {
    if |s| == 0 then -1
    else if s[|s| - 1] == c then |s| - 1
    else LastIndex(s[..|s| - 1], c)
  }

  /** Some character strictly between `lo` and `hi` is not a dot. */
  predicate HasStem(p: string, lo: int, hi: int)
  {
    exists k :: lo < k < hi && 0 <= k < |p| && p[k] != '.'
  }

  /** `os.path.splitext(p)`: the extension runs from the last '.' of the final
      path component, unless everything before that dot in the component is
      dots (a hidden file such as `.zip` has no extension). */
  function SplitExt(p: string): (r: (string, string))
    ensures r.0 + r.1 == p
    ensures r.1 == [] || (r.1[0] == '.' && forall k :: 1 <= k < |r.1| ==> r.1[k] != '.' && r.1[k] != '/')
  {
    var sep := LastIndex(p, '/');
    var dot := LastIndex(p, '.');
    if dot > sep && HasStem(p, sep, dot) then (p[..dot], p[dot..])
    else (p, [])
  }

  /** `p` has an extension exactly when its final component holds a non-dot
      character followed later by a dot. */
  lemma ExtensionExists(p: string)
    ensures SplitExt(p).1 != [] <==>
      exists i, j :: 0 <= i < j < |p| && p[i] != '.' && p[j] == '.' && '/' !in p[i..]
  {
    var sep := LastIndex(p, '/');
    var dot := LastIndex(p, '.');
    if SplitExt(p).1 != [] {
      var k :| sep < k < dot && p[k] != '.';
      assert '/' !in p[k..] by {
        forall m | 0 <= m < |p[k..]| ensures p[k..][m] != '/' {
          assert p[k..][m] == p[k + m];
        }
      }
    }
    if exists i, j :: 0 <= i < j < |p| && p[i] != '.' && p[j] == '.' && '/' !in p[i..] {
      var i, j :| 0 <= i < j < |p| && p[i] != '.' && p[j] == '.' && '/' !in p[i..];
      assert sep < i < dot;
    }
  }

  /** Splitting a joined path recovers the extension that was appended: for a
      directory prefix ending in '/', a stem without '/' that is not all dots,
      and an extension '.' + letters without '.' or '/'. */
  lemma SplitExtOfJoin(dir: string, stem: string, ext: string)
    requires dir == [] || dir[|dir| - 1] == '/'
    requires forall k :: 0 <= k < |stem| ==> stem[k] != '/'
    requires exists k :: 0 <= k < |stem| && stem[k] != '.'
    requires |ext| >= 1 && ext[0] == '.'
    requires forall k :: 1 <= k < |ext| ==> ext[k] != '.' && ext[k] != '/'
    ensures SplitExt(dir + stem + ext) == (dir + stem, ext)
  {
    var p := dir + stem + ext;
    var sep := LastIndex(p, '/');
    var dot := LastIndex(p, '.');
    var d := |dir| + |stem|;
    assert p[d] == '.';
    assert dot == d by {
      assert forall k :: d < k < |p| ==> p[k] == ext[k - d];
    }
    assert sep < |dir| by {
      assert forall k :: |dir| <= k < |p| ==> p[k] != '/' by {
        forall k | |dir| <= k < |p| ensures p[k] != '/' {
          if k < d { assert p[k] == stem[k - |dir|]; } else { assert p[k] == ext[k - d]; }
        }
      }
    }
    var k0 :| 0 <= k0 < |stem| && stem[k0] != '.';
    assert p[|dir| + k0] == stem[k0];
    assert p[..dot] == dir + stem;
    assert p[dot..] == ext;
  }
}
