/** Facts about duplicate-free sequences and finite sets that the other modules share. */
module Sequences {

  predicate Distinct<T(==)>(s: seq<T>) {
    forall i, j :: 0 <= i < j < |s| ==> s[i] != s[j]
  }

  ghost function Elements<T>(s: seq<T>): set<T> {
    set x | x in s
  }

  lemma {:induction false} DistinctFits<T>(s: seq<T>, bound: set<T>)
    requires Distinct(s)
    requires forall x :: x in s ==> x in bound
    ensures |s| <= |bound|
    decreases |s|
  {
    if s != [] {
      var x := s[|s| - 1];
      var t := s[..|s| - 1];
      assert x !in t;
      DistinctFits(t, bound - {x});
    }
  }

  lemma {:induction false} DistinctCardinality<T>(s: seq<T>)
    requires Distinct(s)
    ensures |Elements(s)| == |s|
  {
    if s != [] {
      var t := s[1..];
      DistinctCardinality(t);
      assert s == [s[0]] + t;
      assert Elements(s) == {s[0]} + Elements(t);
    }
  }

  /** A duplicate-free sequence as long as a set that bounds it holds the whole set. */
  lemma DistinctCovers<T>(s: seq<T>, bound: set<T>)
    requires Distinct(s) && Elements(s) <= bound && |s| == |bound|
    ensures Elements(s) == bound
  {
    forall x | x in bound ensures x in s {
      if x !in s {
        DistinctFits(s, bound - {x});
      }
    }
  }

  lemma {:induction false} DistinctMultiset<T>(s: seq<T>, x: T)
    requires Distinct(s)
    ensures multiset(s)[x] == if x in s then 1 else 0
  {
    if s != [] {
      DistinctMultiset(s[1..], x);
      assert s == [s[0]] + s[1..];
    }
  }

  lemma DistinctPermutation<T>(s: seq<T>, t: seq<T>)
    requires Distinct(s) && Distinct(t) && Elements(s) == Elements(t)
    ensures multiset(s) == multiset(t)
  {
    forall x ensures multiset(s)[x] == multiset(t)[x] {
      DistinctMultiset(s, x);
      DistinctMultiset(t, x);
      assert x in s <==> x in Elements(s);
      assert x in t <==> x in Elements(t);
    }
  }

  lemma ProperSubsetIsSmaller<T>(a: set<T>, b: set<T>)
    requires a < b
    ensures |a| < |b|
  {
    var x :| x in b && x !in a;
    SubsetFits(a, b - {x});
  }

  lemma {:induction false} SubsetFits<T>(a: set<T>, b: set<T>)
    requires a <= b
    ensures |a| <= |b|
    decreases |a|
  {
    if a != {} {
      var x :| x in a;
      SubsetFits(a - {x}, b - {x});
    }
  }

  lemma HeadMoves<T>(s: seq<T>, t: seq<T>)
    requires t != []
    ensures s + t == s + [t[0]] + t[1..]
  {
  }

  lemma Regroup<T>(a: seq<T>, b: seq<T>, c: seq<T>)
    ensures a + b + c == a + (b + c)
    ensures a + [] == a
  {
  }

  lemma SplitsAlike<T>(a: seq<T>, c: seq<T>, b: seq<T>, d: seq<T>)
    requires |a| == |b|
    ensures a + c == b + d <==> a == b && c == d
  {
    if a + c == b + d {
      assert a == (a + c)[..|a|] && c == (a + c)[|a|..];
      assert b == (b + d)[..|b|] && d == (b + d)[|b|..];
    }
  }

  lemma BagCancel<T>(a: multiset<T>, b: multiset<T>, c: multiset<T>)
    requires a + c == b + c
    ensures a == b
  {
    forall x ensures a[x] == b[x] {
      assert (a + c)[x] == (b + c)[x];
    }
  }

  lemma BagSwap<T>(t: multiset<T>, l: multiset<T>, m: multiset<T>, g: multiset<T>, a: multiset<T>)
    requires t == l + m && l + g == a
    ensures t + g == a + m
  {
  }

  /** The sequence without its k-th element. */
  function Removed<T>(s: seq<T>, k: nat): seq<T>
    requires k < |s|
  {
    s[..k] + s[k + 1..]
  }

  lemma RemovedCons<T>(s: seq<T>, k: nat)
    requires 0 < k < |s|
    ensures Removed(s, k) == [s[0]] + Removed(s[1..], k - 1)
  {
  }

  /** The last n elements, or all of them. */
  function Last<T>(s: seq<T>, n: nat): seq<T> {
    if |s| <= n then s else s[|s| - n..]
  }

  lemma LastOfRemoved<T>(s: seq<T>, k: nat, x: T, n: nat)
    requires k < |s| && n > 0
    ensures |s| <= n || k >= |s| - n ==>
      var cut := if |s| <= n then 0 else |s| - n;
      Last(Removed(Last(s, n), k - cut) + [x], n) == Last(Removed(s, k) + [x], n)
    ensures |s| > n && k < |s| - n ==> Last(Last(s, n) + [x], n) == Last(Removed(s, k) + [x], n)
  {
  }

  lemma LastOfLast<T>(s: seq<T>, x: T, n: nat)
    requires n > 0
    ensures Last(Last(s, n) + [x], n) == Last(s + [x], n)
  {
  }

  lemma TwiceCounted<T>(t: seq<T>, i: nat, j: nat)
    requires i < j < |t| && t[i] == t[j]
    ensures multiset(t)[t[i]] >= 2
  {
    assert t == t[..i] + [t[i]] + t[i + 1..j] + [t[j]] + t[j + 1..];
  }

  lemma PermutationOfDistinct<T>(s: seq<T>, t: seq<T>)
    requires Distinct(s) && multiset(s) == multiset(t)
    ensures Distinct(t)
  {
    forall i, j | 0 <= i < j < |t| ensures t[i] != t[j] {
      DistinctMultiset(s, t[i]);
      if t[i] == t[j] {
        TwiceCounted(t, i, j);
      }
    }
  }

  lemma SameBagSameMembers<T>(s: seq<T>, t: seq<T>)
    requires multiset(s) == multiset(t)
    ensures forall x :: x in s <==> x in t
  {
    assert forall x :: x in s <==> x in multiset(s);
    assert forall x :: x in t <==> x in multiset(t);
  }

  lemma Around<T>(s: seq<T>, i: nat)
    requires i < |s|
    ensures s == s[..i] + [s[i]] + s[i + 1..]
  {
  }

  lemma OneMore<T>(s: seq<T>, i: nat)
    requires i < |s|
    ensures s[..i + 1] == s[..i] + [s[i]]
  {
  }

  lemma SplitAt<T>(s: seq<T>, i: nat)
    requires i <= |s|
    ensures s == s[..i] + s[i..]
    ensures s[0..] == s
  {
  }

  lemma TailOfTail<T>(s: seq<T>, k: nat)
    requires k < |s|
    ensures s[1..][k..] == s[k + 1..]
  {
  }

  // ---------------------------------------------------------------- suffixes

  ghost predicate IsSuffix<T>(a: seq<T>, s: seq<T>) {
    |a| <= |s| && a == s[|s| - |a|..]
  }

  lemma SuffixFrom<T>(s: seq<T>, k: nat)
    requires k <= |s|
    ensures IsSuffix(s[k..], s)
    ensures s[0..] == s
  {
  }

  lemma SuffixTransitive<T>(a: seq<T>, b: seq<T>, s: seq<T>)
    requires IsSuffix(a, b) && IsSuffix(b, s)
    ensures IsSuffix(a, s)
  {
  }

  lemma SuffixesNested<T>(a: seq<T>, b: seq<T>, s: seq<T>)
    requires IsSuffix(a, s) && IsSuffix(b, s) && |a| <= |b|
    ensures IsSuffix(a, b)
  {
  }

  lemma SuffixOfTail<T>(a: seq<T>, s: seq<T>)
    requires IsSuffix(a, s) && s != [] && a != s
    ensures IsSuffix(a, s[1..])
  {
    assert s[0..] == s;
  }

  // ---------------------------------------------------------------- filters

  /** The elements of s that satisfy p, in order. */
  function Filter<T(!new)>(s: seq<T>, p: T -> bool): (r: seq<T>)
    ensures forall x :: x in r <==> x in s && p(x)
  {
    if s == [] then []
    else
      assert forall x :: x in s <==> x == s[0] || x in s[1..];
      (if p(s[0]) then [s[0]] else []) + Filter(s[1..], p)
  }

  lemma {:induction false} FilterConcat<T(!new)>(a: seq<T>, b: seq<T>, p: T -> bool)
    ensures Filter(a + b, p) == Filter(a, p) + Filter(b, p)
    decreases |a|
  {
    if a == [] {
      assert a + b == b;
    } else {
      assert (a + b)[1..] == a[1..] + b;
      FilterConcat(a[1..], b, p);
    }
  }

  lemma {:induction false} FilterNone<T(!new)>(s: seq<T>, p: T -> bool)
    requires forall x :: x in s ==> !p(x)
    ensures Filter(s, p) == []
  {
    if s != [] {
      FilterNone(s[1..], p);
    }
  }

  lemma {:induction false} FilterAll<T(!new)>(s: seq<T>, p: T -> bool)
    requires forall x :: x in s ==> p(x)
    ensures Filter(s, p) == s
  {
    if s != [] {
      FilterAll(s[1..], p);
    }
  }

  lemma FilterOne<T(!new)>(x: T, p: T -> bool)
    ensures Filter([x], p) == if p(x) then [x] else []
  {
    assert [x][1..] == [];
  }

  lemma FilterSnoc<T(!new)>(s: seq<T>, x: T, p: T -> bool)
    ensures Filter(s + [x], p) == Filter(s, p) + if p(x) then [x] else []
  {
    FilterConcat(s, [x], p);
    FilterOne(x, p);
  }

  function Sum(ns: seq<nat>): nat {
    if ns == [] then 0 else ns[0] + Sum(ns[1..])
  }

  /** A suffix of what is selected is what a suffix selects. */
  lemma {:induction false} SuffixOfFilter<T(!new)>(w: seq<T>, s: seq<T>, p: T -> bool) returns (c: nat)
    requires IsSuffix(w, Filter(s, p))
    ensures c <= |s| && w == Filter(s[c..], p)
  {
    if w == Filter(s, p) {
      c := 0;
      assert s[0..] == s;
    } else {
      SuffixOfRest(w, if p(s[0]) then [s[0]] else [], Filter(s[1..], p));
      c := SuffixOfFilter(w, s[1..], p);
      assert s[1..][c..] == s[c + 1..];
      c := c + 1;
    }
  }

  lemma SuffixOfRest<T>(w: seq<T>, a: seq<T>, b: seq<T>)
    requires |a| <= 1 && IsSuffix(w, a + b) && w != a + b
    ensures IsSuffix(w, b)
  {
    assert |w| <= |b|;
    assert (a + b)[|a + b| - |w|..] == b[|b| - |w|..];
  }

  /** And what a suffix selects is a suffix of what is selected. */
  lemma FilterOfSuffix<T(!new)>(s: seq<T>, c: nat, p: T -> bool)
    requires c <= |s|
    ensures IsSuffix(Filter(s[c..], p), Filter(s, p))
  {
    SplitAt(s, c);
    FilterConcat(s[..c], s[c..], p);
    var a, b := Filter(s[..c], p), Filter(s[c..], p);
    assert (a + b)[|a|..] == b;
  }
}
