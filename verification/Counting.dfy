/** Counting the members of sequences and of ranges. */
module Counting {
  predicate Distinct<T(==)>(s: seq<T>) {
    forall i, j :: 0 <= i < j < |s| ==> s[i] != s[j]
  }

  function Members<T(!new)>(s: seq<T>): (m: set<T>)
    ensures forall x :: x in m <==> x in s
  {
    set x | x in s
  }

  lemma {:induction false} MembersSize<T(!new)>(s: seq<T>)
    requires Distinct(s)
    ensures |Members(s)| == |s|
  {
    if s != [] {
      var init, last := s[..|s| - 1], s[|s| - 1];
      MembersSize(init);
      assert Members(s) == Members(init) + {last};
    }
  }

  function Range(lo: nat, hi: nat): (r: set<nat>)
    ensures forall q :: q in r <==> lo <= q < hi
    decreases hi - lo
  {
    if lo >= hi then {} else Range(lo, hi - 1) + {hi - 1}
  }

  lemma OneMore<T>(s: set<T>, x: T)
    requires x !in s
    ensures |s + {x}| == |s| + 1
  {}

  lemma {:induction false} RangeSize(lo: nat, hi: nat)
    requires lo <= hi
    ensures |Range(lo, hi)| == hi - lo
    decreases hi - lo
  {
    if lo < hi {
      RangeSize(lo, hi - 1);
      OneMore(Range(lo, hi - 1), hi - 1);
    }
  }

  lemma SubsetSize<T>(a: set<T>, b: set<T>)
    requires a <= b
    ensures |a| <= |b|
    ensures |a| == |b| ==> a == b
  {
    assert b == a + (b - a) && a !! b - a;
  }
}
