/**
 * The ordering std::string uses (character by character on the code, a proper
 * prefix first), the sorted sequences the programs build with std::sort and the
 * iteration order of an ordered std::map, and std::set_intersection on sorted ranges.
 */
module Lex {

  /** `a < b` for std::string. */
  predicate Less(a: string, b: string)
    decreases |a|
  {
    if a == [] then b != []
    else if b == [] then false
    else if a[0] != b[0] then a[0] < b[0]
    else Less(a[1..], b[1..])
  }

  predicate LessEq(a: string, b: string) {
    a == b || Less(a, b)
  }

  lemma {:induction false} LessIrreflexive(a: string)
    ensures !Less(a, a)
    decreases |a|
  {
    if a != [] { LessIrreflexive(a[1..]); }
  }

  lemma {:induction false} LessTransitive(a: string, b: string, c: string)
    requires Less(a, b) && Less(b, c)
    ensures Less(a, c)
    decreases |a|
  {
    if a != [] && b != [] && c != [] && a[0] == b[0] && b[0] == c[0] {
      LessTransitive(a[1..], b[1..], c[1..]);
    }
  }

  lemma {:induction false} LessTotal(a: string, b: string)
    ensures a == b || Less(a, b) || Less(b, a)
    decreases |a|
  {
    if a != [] && b != [] && a[0] == b[0] {
      LessTotal(a[1..], b[1..]);
      if a[1..] == b[1..] {
        assert a == [a[0]] + a[1..] && b == [b[0]] + b[1..];
      }
    }
  }

  lemma {:induction false} LessAsymmetric(a: string, b: string)
    requires Less(a, b)
    ensures !Less(b, a) && a != b
  {
    if Less(b, a) {
      LessTransitive(a, b, a);
      LessIrreflexive(a);
    }
    if a == b { LessIrreflexive(a); }
  }

  /** The smaller of two strings, as std::min returns it. */
  function Min(a: string, b: string): (r: string)
    ensures r == a || r == b
    ensures LessEq(r, a) && LessEq(r, b)
  {
    LessTotal(a, b);
    if Less(b, a) then b else a
  }

  lemma MinCommutative(a: string, b: string)
    ensures Min(a, b) == Min(b, a)
  {
    LessTotal(a, b);
    if Less(a, b) { LessAsymmetric(a, b); }
    if Less(b, a) { LessAsymmetric(b, a); }
  }

  lemma MinAssociative(a: string, b: string, c: string)
    ensures Min(Min(a, b), c) == Min(a, Min(b, c))
  {
    LessTotal(a, b); LessTotal(b, c); LessTotal(a, c);
    if Less(a, b) { LessAsymmetric(a, b); }
    if Less(b, a) { LessAsymmetric(b, a); }
    if Less(b, c) { LessAsymmetric(b, c); }
    if Less(c, b) { LessAsymmetric(c, b); }
    if Less(a, c) { LessAsymmetric(a, c); }
    if Less(c, a) { LessAsymmetric(c, a); }
    if Less(a, b) && Less(b, c) { LessTransitive(a, b, c); }
    if Less(c, b) && Less(b, a) { LessTransitive(c, b, a); }
  }

  /** Nondecreasing in string order. */
  predicate Sorted(s: seq<string>) {
    forall i, j :: 0 <= i < j < |s| ==> LessEq(s[i], s[j])
  }

  /** Strictly increasing in string order: the key order of an ordered map. */
  predicate StrictlySorted(s: seq<string>) {
    forall i, j :: 0 <= i < j < |s| ==> Less(s[i], s[j])
  }

  /** Below the head of a sorted sequence is below all of it. */
  lemma BelowSorted(x: string, s: seq<string>)
    requires Sorted(s) && s != [] && Less(x, s[0])
    ensures forall j :: 0 <= j < |s| ==> Less(x, s[j])
  {
    forall j | 0 < j < |s| ensures Less(x, s[j]) {
      if s[0] != s[j] { LessTransitive(x, s[0], s[j]); }
    }
  }

  /** The head of a sorted sequence is not above anything of its tail or `x` when not above `x`. */
  lemma HeadBelowAll(s: seq<string>, x: string, t: seq<string>)
    requires Sorted(s) && s != [] && LessEq(s[0], x)
    requires multiset(t) == multiset(s[1..]) + multiset{x}
    ensures forall j :: 0 <= j < |t| ==> LessEq(s[0], t[j])
  {
    forall j | 0 <= j < |t| ensures LessEq(s[0], t[j]) {
      assert t[j] in multiset(t);
      if t[j] in multiset(s[1..]) {
        var k :| 0 <= k < |s[1..]| && s[1..][k] == t[j];
        assert s[k + 1] == t[j];
      }
    }
  }

  /** A sorted sequence with an element in front not above any of it is sorted. */
  lemma ConsSorted(h: string, t: seq<string>)
    requires Sorted(t) && forall j :: 0 <= j < |t| ==> LessEq(h, t[j])
    ensures Sorted([h] + t)
  {
    var r := [h] + t;
    forall i, j | 0 <= i < j < |r| ensures LessEq(r[i], r[j]) {
      if i > 0 { assert r[i] == t[i - 1] && r[j] == t[j - 1]; } else { assert r[j] == t[j - 1]; }
    }
  }

  /** Insert `x` into a sorted sequence after every element not greater than it. */
  function Insert(x: string, s: seq<string>): (r: seq<string>)
    requires Sorted(s)
    ensures Sorted(r)
    ensures multiset(r) == multiset(s) + multiset{x}
    ensures |r| == |s| + 1
  {
    if s == [] then [x]
    else if Less(x, s[0]) then
      BelowSorted(x, s);
      ConsSorted(x, s);
      [x] + s
    else
      var t := Insert(x, s[1..]);
      assert s == [s[0]] + s[1..];
      LessTotal(x, s[0]);
      HeadBelowAll(s, x, t);
      ConsSorted(s[0], t);
      [s[0]] + t
  }

  /** Insertion sort; std::sort on strings yields the same sequence (see SortedUnique). */
  function Sort(s: seq<string>): (r: seq<string>)
    ensures Sorted(r)
    ensures multiset(r) == multiset(s)
  {
    if s == [] then [] else
      assert s == [s[0]] + s[1..];
      Insert(s[0], Sort(s[1..]))
  }

  lemma {:induction false} SortedTail(s: seq<string>)
    requires Sorted(s) && s != []
    ensures Sorted(s[1..])
  {
  }

  lemma {:induction false} SortedHeadMin(s: seq<string>)
    requires Sorted(s) && s != []
    ensures forall x :: x in multiset(s) ==> LessEq(s[0], x)
  {
    forall x | x in multiset(s) ensures LessEq(s[0], x) {
      var k :| 0 <= k < |s| && s[k] == x;
    }
  }

  /** Two sorted sequences with the same elements are equal: sorting is deterministic. */
  lemma {:induction false} SortedUnique(a: seq<string>, b: seq<string>)
    requires Sorted(a) && Sorted(b) && multiset(a) == multiset(b)
    ensures a == b
    decreases |a|
  {
    if a == [] {
      assert |b| == |multiset(b)| == 0;
    } else {
      assert |b| == |multiset(b)| == |a|;
      assert a[0] in multiset(b);
      assert b[0] in multiset(a);
      SortedHeadMin(a);
      SortedHeadMin(b);
      if a[0] != b[0] {
        LessAsymmetric(a[0], b[0]);
      }
      assert a == [a[0]] + a[1..] && b == [b[0]] + b[1..];
      assert multiset(a[1..]) == multiset(a) - multiset{a[0]};
      assert multiset(b[1..]) == multiset(b) - multiset{b[0]};
      SortedTail(a);
      SortedTail(b);
      SortedUnique(a[1..], b[1..]);
    }
  }

  lemma SortOfSorted(s: seq<string>)
    requires Sorted(s)
    ensures Sort(s) == s
  {
    SortedUnique(Sort(s), s);
  }

  lemma SortPermutation(a: seq<string>, b: seq<string>)
    requires multiset(a) == multiset(b)
    ensures Sort(a) == Sort(b)
  {
    SortedUnique(Sort(a), Sort(b));
  }

  /** The keys of a set in increasing order: the iteration order of an ordered map. */
  ghost function SortedKeys(keys: set<string>): (r: seq<string>)
    ensures forall k :: k in keys <==> k in r
    decreases |keys|
  {
    if keys == {} then []
    else
      var m := MinOf(keys);
      [m] + SortedKeys(keys - {m})
  }

  /** SortedKeys lists each key once, in strictly increasing order. */
  lemma {:induction false} SortedKeysSorted(keys: set<string>)
    ensures StrictlySorted(SortedKeys(keys)) && |SortedKeys(keys)| == |keys|
    decreases |keys|
  {
    if keys != {} {
      var m := MinOf(keys);
      var t := SortedKeys(keys - {m});
      SortedKeysSorted(keys - {m});
      forall j | 0 <= j < |t| ensures Less(m, t[j]) {
        assert t[j] in t;
      }
      StrictCons(m, t);
    }
  }

  /** A strictly sorted sequence with a smaller element in front is strictly sorted. */
  lemma StrictCons(h: string, t: seq<string>)
    requires StrictlySorted(t) && forall j :: 0 <= j < |t| ==> Less(h, t[j])
    ensures StrictlySorted([h] + t)
  {
    var r := [h] + t;
    forall i, j | 0 <= i < j < |r| ensures Less(r[i], r[j]) {
      if i > 0 { assert r[i] == t[i - 1] && r[j] == t[j - 1]; } else { assert r[j] == t[j - 1]; }
    }
  }

  /** The least element of a non-empty set. */
  ghost function MinOf(keys: set<string>): (m: string)
    requires keys != {}
    ensures m in keys
    ensures forall k :: k in keys && k != m ==> Less(m, k)
    decreases |keys|
  {
    var x :| x in keys;
    if keys == {x} then x
    else
      var y := MinOf(keys - {x});
      LessTotal(x, y);
      if Less(x, y) then
        assert forall k :: k in keys && k != x ==> Less(x, k) by {
          forall k | k in keys && k != x ensures Less(x, k) {
            if k != y { LessTransitive(x, y, k); }
          }
        }
        x
      else
        y
  }

  /**
   * std::set_intersection of two sorted ranges: each value kept as often as it
   * occurs in both.
   */
  function Intersect(a: seq<string>, b: seq<string>): (r: seq<string>)
    requires Sorted(a) && Sorted(b)
    ensures Sorted(r)
    ensures multiset(r) == multiset(a) * multiset(b)
    decreases |a| + |b|
  {
    if a == [] || b == [] then
      assert multiset(a) == multiset{} || multiset(b) == multiset{};
      []
    else if Less(a[0], b[0]) then
      SortedTail(a);
      IntersectSkipHead(a, b);
      Intersect(a[1..], b)
    else if Less(b[0], a[0]) then
      SortedTail(b);
      IntersectSkipHead(b, a);
      assert multiset(a) * multiset(b) == multiset(b) * multiset(a);
      assert multiset(a) * multiset(b[1..]) == multiset(b[1..]) * multiset(a);
      Intersect(a, b[1..])
    else
      LessTotal(a[0], b[0]);
      SortedTail(a);
      SortedTail(b);
      var t := Intersect(a[1..], b[1..]);
      IntersectKeepHead(a, b, t);
      [a[0]] + t
  }

  lemma HeadNotIn(x: string, b: seq<string>)
    requires Sorted(b) && b != [] && Less(x, b[0])
    ensures x !in multiset(b)
  {
    if x in multiset(b) {
      SortedHeadMin(b);
      LessAsymmetric(x, b[0]);
    }
  }

  lemma IntersectSkipHead(a: seq<string>, b: seq<string>)
    requires Sorted(a) && Sorted(b) && a != [] && b != [] && Less(a[0], b[0])
    ensures multiset(a) * multiset(b) == multiset(a[1..]) * multiset(b)
  {
    HeadNotIn(a[0], b);
    assert a == [a[0]] + a[1..];
    IntersectDropMissing(a[0], a[1..], b);
  }

  lemma IntersectKeepHead(a: seq<string>, b: seq<string>, t: seq<string>)
    requires Sorted(a) && Sorted(b) && a != [] && b != [] && a[0] == b[0]
    requires Sorted(t) && multiset(t) == multiset(a[1..]) * multiset(b[1..])
    ensures Sorted([a[0]] + t)
    ensures multiset([a[0]] + t) == multiset(a) * multiset(b)
  {
    assert a == [a[0]] + a[1..] && b == [b[0]] + b[1..];
    IntersectCommonHead(a[0], a[1..], b[1..]);
    SortedHeadMin(a);
    forall j | 0 <= j < |t| ensures LessEq(a[0], t[j]) {
      assert t[j] in multiset(t);
      assert t[j] in multiset(a[1..]);
      assert t[j] in multiset(a);
    }
  }

  lemma IntersectDropMissing(x: string, a: seq<string>, b: seq<string>)
    requires x !in multiset(b)
    ensures multiset([x] + a) * multiset(b) == multiset(a) * multiset(b)
  {
    assert multiset([x] + a) == multiset{x} + multiset(a);
    forall y ensures (multiset([x] + a) * multiset(b))[y] == (multiset(a) * multiset(b))[y] {
      if y == x {
        assert multiset(b)[y] == 0;
      }
    }
  }

  lemma IntersectCommonHead(x: string, a: seq<string>, b: seq<string>)
    ensures multiset([x] + a) * multiset([x] + b) == multiset{x} + multiset(a) * multiset(b)
  {
    assert multiset([x] + a) == multiset{x} + multiset(a);
    assert multiset([x] + b) == multiset{x} + multiset(b);
    forall y ensures (multiset([x] + a) * multiset([x] + b))[y] == (multiset{x} + multiset(a) * multiset(b))[y] {
    }
  }

  /** Intersecting sorted sequences is commutative and associative, so the order of merging does not matter. */
  lemma IntersectCommutative(a: seq<string>, b: seq<string>)
    requires Sorted(a) && Sorted(b)
    ensures Intersect(a, b) == Intersect(b, a)
  {
    assert multiset(a) * multiset(b) == multiset(b) * multiset(a);
    SortedUnique(Intersect(a, b), Intersect(b, a));
  }

  lemma IntersectAssociative(a: seq<string>, b: seq<string>, c: seq<string>)
    requires Sorted(a) && Sorted(b) && Sorted(c)
    ensures Intersect(Intersect(a, b), c) == Intersect(a, Intersect(b, c))
  {
    var l := Intersect(Intersect(a, b), c);
    var r := Intersect(a, Intersect(b, c));
    assert (multiset(a) * multiset(b)) * multiset(c) == multiset(a) * (multiset(b) * multiset(c));
    SortedUnique(l, r);
  }
}
