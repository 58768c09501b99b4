// Sizes of finite sets and of sequences without repetitions.
module Counting {
  ghost predicate Distinct<T(!new)>(s: seq<T>) {
    forall i, j :: 0 <= i < j < |s| ==> s[i] != s[j]
  }

  ghost function Elems<T>(s: seq<T>): set<T> {
    set x | x in s
  }

  ghost function Upto(n: nat): (r: set<nat>)
    ensures forall i: nat {:trigger i in r} :: i in r <==> i < n
    ensures |r| == n
  {
    if n == 0 then {} else
      var r := Upto(n - 1);
      assert n - 1 !in r;
      r + {n - 1}
  }

  lemma {:induction false} DistinctSize<T(!new)>(s: seq<T>)
    requires Distinct(s)
    ensures |Elems(s)| == |s|
  {
    if s == [] {
      assert Elems(s) == {};
    } else {
      DistinctSize(s[1..]);
      assert Elems(s) == Elems(s[1..]) + {s[0]};
    }
  }

  lemma SubsetSize<T>(a: set<T>, b: set<T>)
    requires a <= b
    ensures |a| <= |b|
    ensures |a| == |b| ==> a == b
  {
    assert b == a + (b - a);
  }

  // A sequence without repetitions over n values is at most n long, and has them all when it is.
  lemma Pigeonhole(s: seq<nat>, n: nat)
    requires Distinct(s) && forall x :: x in s ==> x < n
    ensures |s| <= n
    ensures |s| == n <==> forall i :: 0 <= i < n ==> i in s
  {
    DistinctSize(s);
    SubsetSize(Elems(s), Upto(n));
    if |s| == n {
      forall i: nat | i < n
        ensures i in s
      {
        assert i in Upto(n);
      }
    } else if forall i :: 0 <= i < n ==> i in s {
      assert Upto(n) <= Elems(s);
      SubsetSize(Upto(n), Elems(s));
    }
  }
}
