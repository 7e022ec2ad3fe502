/** Sizes of finite sets, for the counting arguments of the other modules. */
module Counting {

  /** The n numbers from lo on. */
  ghost function Range(lo: nat, n: nat): (r: set<nat>)
    ensures |r| == n
    ensures forall x: nat :: x in r <==> lo <= x < lo + n
  {
    if n == 0 then {} else Range(lo, n - 1) + {lo + n - 1}
  }

  ghost function Below(n: nat): (r: set<nat>)
    ensures |r| == n
    ensures forall x: nat :: x in r <==> x < n
  {
    Range(0, n)
  }

  ghost function Elements<T(!new)>(s: seq<T>): (r: set<T>)
    ensures forall x :: x in r <==> x in s
  {
    if s == [] then {} else Elements(s[..|s| - 1]) + {s[|s| - 1]}
  }

  lemma {:induction false} SubsetSize<T>(a: set<T>, b: set<T>)
    requires a <= b
    ensures |a| <= |b|
    ensures |a| == |b| ==> a == b
  {
    if a != {} {
      var x :| x in a;
      SubsetSize(a - {x}, b - {x});
    }
  }

  lemma UnionSize(a: set<nat>, b: set<nat>)
    ensures |a + b| <= |a| + |b|
  {
    assert a + b == a + (b - a);
    assert |b - a| <= |b| by { assert b == (b - a) + (b * a); }
  }

  lemma {:induction false} DistinctSize<T(!new)>(s: seq<T>)
    requires forall i, j :: 0 <= i < j < |s| ==> s[i] != s[j]
    ensures |Elements(s)| == |s|
  {
    if s != [] {
      DistinctSize(s[..|s| - 1]);
      assert s[|s| - 1] !in s[..|s| - 1];
    }
  }

  /** The elements of a set in some order. */
  lemma {:induction false} Listing<T(!new)>(a: set<T>) returns (s: seq<T>)
    ensures Elements(s) == a && forall i, j :: 0 <= i < j < |s| ==> s[i] != s[j]
    decreases a
  {
    if a == {} {
      s := [];
    } else {
      var x :| x in a;
      s := Listing(a - {x});
      assert forall i :: 0 <= i < |s| ==> s[i] in Elements(s);
      s := s + [x];
      assert s[..|s| - 1] + [x] == s;
    }
  }

  /** n distinct numbers below n are all the numbers below n. */
  lemma {:induction false} DistinctIsEverything(s: seq<nat>, n: nat, i: nat)
    requires forall i, j :: 0 <= i < j < |s| ==> s[i] != s[j]
    requires forall i :: 0 <= i < |s| ==> s[i] < n
    requires |s| == n && i < n
    ensures i in s
  {
    DistinctSize(s);
    SubsetSize(Elements(s), Below(n));
    assert i in Below(n);
  }

  /** Distinct elements drawn from ys are no more than ys is long. */
  lemma {:induction false} Pigeonhole<T(!new)>(xs: seq<T>, ys: seq<T>)
    requires forall i, j :: 0 <= i < j < |xs| ==> xs[i] != xs[j]
    requires forall i :: 0 <= i < |xs| ==> xs[i] in ys
    ensures |xs| <= |ys|
  {
    DistinctSize(xs);
    SubsetSize(Elements(xs), Elements(ys));
    ElementsSize(ys);
  }

  lemma {:induction false} ElementsSize<T(!new)>(s: seq<T>)
    ensures |Elements(s)| <= |s|
  {
    if s != [] {
      ElementsSize(s[..|s| - 1]);
    }
  }

  /** The sum of the values of a map. */
  ghost function Sum(m: map<nat, nat>): nat
    decreases |m|
  {
    if m == map[] then 0
    else var k :| k in m; m[k] + Sum(m - {k})
  }

  lemma {:induction false} SumRemove(m: map<nat, nat>, k: nat)
    requires k in m
    ensures Sum(m) == m[k] + Sum(m - {k})
    decreases |m|
  {
    var j :| j in m && Sum(m) == m[j] + Sum(m - {j});
    if j != k {
      SumRemove(m - {j}, k);
      SumRemove(m - {k}, j);
      assert m - {j} - {k} == m - {k} - {j};
    }
  }

  lemma {:induction false} SumUpdate(m: map<nat, nat>, k: nat, v: nat)
    ensures Sum(m[k := v]) == v + Sum(m - {k})
  {
    SumRemove(m[k := v], k);
    assert m[k := v] - {k} == m - {k};
  }

  lemma SumNone()
    ensures Sum(map[]) == 0
  {
  }

  lemma {:induction false} SumBound(m: map<nat, nat>, bound: nat)
    requires forall k :: k in m ==> m[k] <= bound
    ensures Sum(m) <= bound * |m|
    decreases |m|
  {
    hide Sum;
    SumNone();
    if m != map[] {
      var k :| k in m;
      SumRemove(m, k);
      SumBound(m - {k}, bound);
      assert |m - {k}| == |m| - 1;
      assert bound * |m| == bound * (|m| - 1) + bound;
    }
  }
}
