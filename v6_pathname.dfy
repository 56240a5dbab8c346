/**
 * `pathname.c`: resolving an absolute path to an inumber, one component at
 * a time from the root directory.
 *
 * Paths are byte strings. A component followed by a '/' is copied into a
 * 14-byte buffer with its terminating NUL, so such components are at most 13
 * bytes long; the last component is looked up in place and has no limit.
 */
module V6Pathname {
  import opened Wrappers
  import opened V6Inode
  import opened V6Directory

  const SLASH: byte := 47
  const DIR_MAX_LEN: nat := 14

  /** The index of the first '/', or the length when there is none (`strchr`). */
  function FirstSlash(s: seq<byte>): (k: nat)
    ensures k <= |s|
  {
    if s == [] || s[0] == SLASH then 0 else 1 + FirstSlash(s[1..])
  }

  lemma {:induction false} FirstSlashIs(s: seq<byte>)
    ensures forall i :: 0 <= i < FirstSlash(s) ==> s[i] != SLASH
    ensures FirstSlash(s) < |s| ==> s[FirstSlash(s)] == SLASH
  {
    if s != [] && s[0] != SLASH {
      FirstSlashIs(s[1..]);
    }
  }

  /** The first '/' is at `k` when there is none before it. */
  lemma {:induction false} FirstSlashAt(s: seq<byte>, k: nat)
    requires k <= |s| && (k == |s| || s[k] == SLASH)
    requires forall i :: 0 <= i < k ==> s[i] != SLASH
    ensures FirstSlash(s) == k
  {
    if k > 0 {
      FirstSlashAt(s[1..], k - 1);
    }
  }

  /** Every component that is followed by a '/' fits the 14-byte buffer with its NUL. */
  predicate Fits(path: seq<byte>)
    decreases |path|
  {
    var k := FirstSlash(path);
    k == |path| || (k < DIR_MAX_LEN && Fits(path[k + 1..]))
  }

  /** One lookup of `name` in directory `dir`: the entry's inumber, or -1. */
  function Step(disk: Disk, dir: int, name: seq<byte>): (r: int)
    ensures r == -1 || 0 <= r < 0x1_0000
  {
    match FindEntry(disk, name, dir)
    case None => -1
    case Some(e) => e.inumber
  }

  /**
   * `helper`: a path with no '/' is looked up directly in `dir`; otherwise
   * its first component is, and the rest of the path is resolved from the
   * directory found. A failed lookup is -1 at once.
   */
  function Helper(disk: Disk, dir: int, path: seq<byte>): (r: int)
    requires Fits(path)
    ensures r == -1 || 0 <= r < 0x1_0000
    decreases |path|
  {
    var k := FirstSlash(path);
    if k == |path| then Step(disk, dir, path)
    else
      var next := Step(disk, dir, path[..k]);
      if next < 0 then -1 else Helper(disk, next, path[k + 1..])
  }

  /**
   * `pathname_lookup`: the root inumber for "/"; any other path has its
   * first byte (the leading '/') dropped and is resolved from the root.
   */
  function Lookup(disk: Disk, pathname: seq<byte>): (r: int)
    requires pathname != [] && Fits(pathname[1..])
    ensures pathname == [SLASH] ==> r == ROOT_INUMBER
    ensures r == -1 || 0 <= r < 0x1_0000
  {
    if pathname == [SLASH] then ROOT_INUMBER else Helper(disk, ROOT_INUMBER, pathname[1..])
  }

  /** A single component is one lookup in the directory. */
  lemma HelperOne(disk: Disk, dir: int, name: seq<byte>)
    requires forall i :: 0 <= i < |name| ==> name[i] != SLASH
    ensures Fits(name) && Helper(disk, dir, name) == Step(disk, dir, name)
  {
    FirstSlashAt(name, |name|);
  }

  /** The first '/' of `p + t`: the first of `p` if `p` has one, else found in `t`. */
  lemma {:induction false} FirstSlashConcat(p: seq<byte>, t: seq<byte>)
    ensures FirstSlash(p) < |p| ==> FirstSlash(p + t) == FirstSlash(p)
    ensures FirstSlash(p) == |p| ==> FirstSlash(p + t) == |p| + FirstSlash(t)
  {
    if p == [] {
      assert p + t == t;
    } else if p[0] != SLASH {
      assert (p + t)[1..] == p[1..] + t;
      FirstSlashConcat(p[1..], t);
    }
  }

  /** Splitting `p + "/" + q` at its first '/' when `p` has none. */
  lemma SplitAtFirst(p: seq<byte>, q: seq<byte>)
    requires FirstSlash(p) == |p|
    ensures var s := p + [SLASH] + q; FirstSlash(s) == |p| && s[..|p|] == p && s[|p| + 1..] == q
  {
    var s := p + [SLASH] + q;
    FirstSlashConcat(p, [SLASH] + q);
    assert s == p + ([SLASH] + q);
    assert s[..|p|] == p;
    assert s[|p| + 1..] == q;
  }

  /** Splitting `p + "/" + q` at the first '/' of `p`. */
  lemma SplitInside(p: seq<byte>, q: seq<byte>)
    requires FirstSlash(p) < |p|
    ensures FirstSlash(p + [SLASH] + q) == FirstSlash(p)
    ensures (p + [SLASH] + q)[..FirstSlash(p)] == p[..FirstSlash(p)]
    ensures (p + [SLASH] + q)[FirstSlash(p) + 1..] == p[FirstSlash(p) + 1..] + [SLASH] + q
  {
    var k := FirstSlash(p);
    Assoc(p, q);
    FirstSlashConcat(p, [SLASH] + q);
    SlicesAround(p, q, k);
  }

  lemma SlicesAround(p: seq<byte>, q: seq<byte>, k: nat)
    requires k < |p|
    ensures (p + [SLASH] + q)[..k] == p[..k] && (p + [SLASH] + q)[k + 1..] == p[k + 1..] + [SLASH] + q
  {
    var t := [SLASH] + q;
    ConcatSlices(p, t, k);
    Assoc(p, q);
    Assoc(p[k + 1..], q);
  }

  lemma Assoc(p: seq<byte>, q: seq<byte>)
    ensures p + [SLASH] + q == p + ([SLASH] + q)
  {
  }

  lemma ConcatSlices(p: seq<byte>, t: seq<byte>, k: nat)
    requires k < |p|
    ensures (p + t)[..k] == p[..k] && (p + t)[k + 1..] == p[k + 1..] + t
  {
  }

  /**
   * Resolving `p + "/" + q` from `dir` resolves `p` and then `q` from the
   * directory `p` names; a failure anywhere in `p` is a failure.
   */
  lemma {:induction false} HelperAppend(disk: Disk, dir: int, p: seq<byte>, q: seq<byte>)
    requires Fits(p + [SLASH] + q)
    ensures Fits(p) && Fits(q)
    ensures var x := Helper(disk, dir, p);
      Helper(disk, dir, p + [SLASH] + q) == if x < 0 then -1 else Helper(disk, x, q)
    decreases |p|
  {
    var k := FirstSlash(p);
    if k == |p| {
      SplitAtFirst(p, q);
    } else {
      SplitInside(p, q);
      var rest := p[k + 1..];
      assert p[k + 1..] + [SLASH] + q == rest + [SLASH] + q;
      HelperAppend(disk, Step(disk, dir, p[..k]), rest, q);
      var x := Step(disk, dir, p[..k]);
      if x >= 0 {
        HelperAppend(disk, x, rest, q);
      }
    }
  }

  /** "/a/b" is `b` looked up in the directory that `a` names in the root. */
  lemma LookupTwo(disk: Disk, a: seq<byte>, b: seq<byte>)
    requires 0 < |a| < DIR_MAX_LEN
    requires forall i :: 0 <= i < |a| ==> a[i] != SLASH
    requires forall i :: 0 <= i < |b| ==> b[i] != SLASH
    ensures var path := [SLASH] + a + [SLASH] + b;
      Fits(path[1..]) &&
      Lookup(disk, path) == (var x := Step(disk, ROOT_INUMBER, a); if x < 0 then -1 else Step(disk, x, b))
  {
    var path := [SLASH] + a + [SLASH] + b;
    assert path[1..] == a + [SLASH] + b;
    HelperOne(disk, ROOT_INUMBER, a);
    FirstSlashAt(a, |a|);
    SplitAtFirst(a, b);
    HelperOne(disk, ROOT_INUMBER, b);
    assert Fits(a + [SLASH] + b);
    HelperAppend(disk, ROOT_INUMBER, a, b);
    var x := Step(disk, ROOT_INUMBER, a);
    if x >= 0 {
      HelperOne(disk, x, b);
    }
  }

  /** A trailing '/' ends with a lookup of the empty name in the last directory. */
  lemma TrailingSlash(disk: Disk, dir: int, p: seq<byte>)
    requires Fits(p + [SLASH])
    ensures Fits(p)
    ensures var x := Helper(disk, dir, p);
      Helper(disk, dir, p + [SLASH]) == if x < 0 then -1 else Step(disk, x, [])
  {
    assert p + [SLASH] == p + [SLASH] + [];
    HelperAppend(disk, dir, p, []);
    var x := Helper(disk, dir, p);
    if x >= 0 {
      HelperOne(disk, x, []);
    }
  }
}
