/** Slots that hold a byte string or wait for one: counting, sizing and joining them. */
module Slots {
  import opened Wrappers
  import opened Words

  type Slot = Option<Bytes>

  function CountSome(s: seq<Slot>): (c: nat)
    ensures c <= |s|
  {
    if s == [] then 0 else CountSome(s[..|s| - 1]) + if s[|s| - 1].Some? then 1 else 0
  }

  function TotalBytes(s: seq<Slot>): nat {
    if s == [] then 0 else TotalBytes(s[..|s| - 1]) + if s[|s| - 1].Some? then |s[|s| - 1].value| else 0
  }

  // The filled slots, one after the other.
  function Join(s: seq<Slot>): (r: Bytes)
    ensures |r| == TotalBytes(s)
  {
    if s == [] then [] else Join(s[..|s| - 1]) + if s[|s| - 1].Some? then s[|s| - 1].value else []
  }

  function Empty(n: nat): (s: seq<Slot>)
    ensures |s| == n
  {
    seq(n, _ => None)
  }

  predicate AllSome(s: seq<Slot>) {
    forall i :: 0 <= i < |s| ==> s[i].Some?
  }

  // `b` keeps everything `a` holds.
  predicate Extends(a: seq<Slot>, b: seq<Slot>) {
    |a| == |b| && forall i :: 0 <= i < |a| && a[i].Some? ==> b[i] == a[i]
  }

  lemma {:induction false} EmptyCounts(n: nat)
    ensures CountSome(Empty(n)) == 0 && TotalBytes(Empty(n)) == 0
  {
    if n > 0 {
      EmptyCounts(n - 1);
      assert Empty(n)[..n - 1] == Empty(n - 1);
    }
  }

  // Filling one empty slot.
  lemma {:induction false} FillCounts(s: seq<Slot>, i: nat, v: Bytes)
    requires i < |s| && s[i].None?
    ensures CountSome(s[i := Some(v)]) == CountSome(s) + 1
    ensures TotalBytes(s[i := Some(v)]) == TotalBytes(s) + |v|
  {
    var t := s[i := Some(v)];
    var last := |s| - 1;
    if i == last {
      assert t[..last] == s[..last];
    } else {
      FillCounts(s[..last], i, v);
      assert t[..last] == s[..last][i := Some(v)];
    }
  }

  lemma {:induction false} CountAppend(a: seq<Slot>, b: seq<Slot>)
    ensures CountSome(a + b) == CountSome(a) + CountSome(b)
    ensures TotalBytes(a + b) == TotalBytes(a) + TotalBytes(b)
  {
    if b == [] {
      assert a + b == a;
    } else {
      CountAppend(a, b[..|b| - 1]);
      assert (a + b)[..|a + b| - 1] == a + b[..|b| - 1];
    }
  }

  lemma {:induction false} CountFull(s: seq<Slot>)
    ensures CountSome(s) == |s| <==> AllSome(s)
  {
    if s != [] {
      CountFull(s[..|s| - 1]);
    }
  }

  lemma {:induction false} CountExtends(a: seq<Slot>, b: seq<Slot>)
    requires Extends(a, b)
    ensures CountSome(a) <= CountSome(b) && TotalBytes(a) <= TotalBytes(b)
    ensures CountSome(a) == CountSome(b) ==> a == b
  {
    if a != [] {
      var n := |a| - 1;
      CountExtends(a[..n], b[..n]);
      assert a == a[..n] + [a[n]] && b == b[..n] + [b[n]];
    }
  }

  lemma {:induction false} FilledCount(a: seq<Slot>, b: seq<Slot>)
    requires Extends(a, b)
    ensures |FilledBetween(a, b)| == CountSome(b) - CountSome(a)
  {
    if a != [] {
      FilledCount(a[..|a| - 1], b[..|a| - 1]);
    }
  }

  // The slots that are empty in `a` and filled in `b`.
  function FilledBetween(a: seq<Slot>, b: seq<Slot>): (r: set<int>)
    requires |a| == |b|
    ensures forall i :: i in r <==> 0 <= i < |a| && a[i].None? && b[i].Some?
  {
    if a == [] then {}
    else
      var n := |a| - 1;
      FilledBetween(a[..n], b[..n]) + if a[n].None? && b[n].Some? then {n} else {}
  }

  // Slots no longer than `size` hold at most `size` bytes each.
  lemma {:induction false} BytesBound(s: seq<Slot>, size: nat)
    requires forall i :: 0 <= i < |s| && s[i].Some? ==> |s[i].value| <= size
    ensures TotalBytes(s) <= |s| * size
  {
    if s != [] {
      BytesBound(s[..|s| - 1], size);
      assert |s| * size == (|s| - 1) * size + size;
    }
  }
}
