/** Splitting a frame's fragments into even runs, each short enough for the code. */
module Blocks {
  const MAX_BLOCK_DATA: nat := 128

  // The fragments from `start` up to, not including, `end`.
  datatype Range = Range(start: nat, end: nat)

  function BlockCount(n: nat): (c: nat)
    ensures n > 0 ==> 1 <= c <= n && n <= c * MAX_BLOCK_DATA < n + MAX_BLOCK_DATA
    ensures n == 0 ==> c == 0
  {
    (n + MAX_BLOCK_DATA - 1) / MAX_BLOCK_DATA
  }

  // Where block `b` of `n` fragments begins: the first `n % count` blocks get one more.
  function BlockStart(n: nat, b: nat): nat
    requires n > 0
  {
    b * (n / BlockCount(n)) + if b < n % BlockCount(n) then b else n % BlockCount(n)
  }

  function BlocksOf(n: nat): (r: seq<Range>)
    ensures |r| == BlockCount(n)
  {
    if n == 0 then []
    else seq(BlockCount(n), b requires 0 <= b < BlockCount(n) => Range(BlockStart(n, b), BlockStart(n, b + 1)))
  }

  method ComputeBlocks(n: nat) returns (out: seq<Range>)
    ensures out == BlocksOf(n)
  {
    if n == 0 {
      return [];
    }
    var count := BlockCount(n);
    var base, extra := n / count, n % count;
    out := [];
    var start := 0;
    for block := 0 to count
      invariant |out| == block && start == BlockStart(n, block)
      invariant forall b :: 0 <= b < block ==> out[b] == Range(BlockStart(n, b), BlockStart(n, b + 1))
    {
      var len := base + if block < extra then 1 else 0;
      StartStep(n, block);
      out := out + [Range(start, start + len)];
      start := start + len;
    }
  }

  lemma StartStep(n: nat, b: nat)
    requires n > 0
    ensures BlockStart(n, b + 1) == BlockStart(n, b) + n / BlockCount(n) + if b < n % BlockCount(n) then 1 else 0
  {
    var base := n / BlockCount(n);
    assert (b + 1) * base == b * base + base;
  }

  lemma BaseBounds(n: nat)
    requires n > 0
    ensures var c := BlockCount(n);
            && n == c * (n / c) + n % c
            && 1 <= n / c <= MAX_BLOCK_DATA
            && (n % c > 0 ==> n / c < MAX_BLOCK_DATA)
  {
    var c := BlockCount(n);
    var base, extra := n / c, n % c;
    assert n == c * base + extra;
    if base >= MAX_BLOCK_DATA {
      assert c * base >= c * MAX_BLOCK_DATA;
    }
  }

  // A run of ranges that starts at `from`, ends at `to` and leaves no gap, none longer than a block may be.
  predicate Partition(parts: seq<Range>, from: nat, to: nat) {
    if parts == [] then from == to
    else
      && parts[0].start == from
      && from < parts[0].end <= from + MAX_BLOCK_DATA
      && Partition(parts[1..], parts[0].end, to)
  }

  // The blocks from the b-th on.
  lemma {:induction false} BlocksFrom(n: nat, b: nat)
    requires n > 0 && b <= BlockCount(n)
    ensures Partition(BlocksOf(n)[b..], BlockStart(n, b), n)
    decreases BlockCount(n) - b
  {
    BaseBounds(n);
    if b < BlockCount(n) {
      StartStep(n, b);
      BlocksFrom(n, b + 1);
      assert BlocksOf(n)[b..][1..] == BlocksOf(n)[b + 1..];
    }
  }

  lemma {:induction false} PartitionLength(parts: seq<Range>, from: nat, to: nat)
    requires Partition(parts, from, to)
    ensures from <= to <= from + |parts| * MAX_BLOCK_DATA
  {
    if parts != [] {
      PartitionLength(parts[1..], parts[0].end, to);
    }
  }

  // Every fragment is in one block, the blocks are as few as can be, and their sizes differ by at most one, the
  // larger first.
  lemma BlocksPartition(n: nat)
    ensures Partition(BlocksOf(n), 0, n)
    ensures forall parts :: Partition(parts, 0, n) ==> |BlocksOf(n)| <= |parts|
    ensures forall a, b :: 0 <= a < |BlocksOf(n)| && 0 <= b < |BlocksOf(n)| ==>
              var r, s := BlocksOf(n)[a], BlocksOf(n)[b]; r.end - r.start <= s.end - s.start + 1
    ensures forall a, b :: 0 <= a < b < |BlocksOf(n)| ==>
              var r, s := BlocksOf(n)[a], BlocksOf(n)[b]; r.end - r.start >= s.end - s.start
  {
    if n > 0 {
      BlocksFrom(n, 0);
      assert BlocksOf(n)[0..] == BlocksOf(n);
      forall a | 0 <= a < BlockCount(n)
        ensures var r := BlocksOf(n)[a];
          r.end - r.start == n / BlockCount(n) + if a < n % BlockCount(n) then 1 else 0
      {
        StartStep(n, a);
      }
    }
    forall parts | Partition(parts, 0, n)
      ensures |BlocksOf(n)| <= |parts|
    {
      PartitionLength(parts, 0, n);
    }
  }

  lemma BlockBounds(n: nat, b: nat)
    requires n > 0 && b < BlockCount(n)
    ensures BlockStart(n, 0) == 0 && BlockStart(n, BlockCount(n)) == n
    ensures BlockStart(n, b) < BlockStart(n, b + 1) <= n
    ensures 1 <= BlockSize(n, b) <= MAX_BLOCK_DATA
  {
    BaseBounds(n);
    StartStep(n, b);
    StartMonotone(n, b + 1, BlockCount(n));
  }

  lemma StartMonotone(n: nat, a: nat, b: nat)
    requires n > 0 && a <= b
    ensures BlockStart(n, a) <= BlockStart(n, b)
    ensures b <= BlockCount(n) ==> BlockStart(n, a) + (b - a) <= BlockStart(n, b)
    decreases b - a
  {
    BaseBounds(n);
    if a < b {
      StartStep(n, a);
      StartMonotone(n, a + 1, b);
    }
  }

  function BlockSize(n: nat, b: nat): int
    requires n > 0
  {
    BlockStart(n, b + 1) - BlockStart(n, b)
  }

  // The block that fragment `i` is in.
  function BlockOf(n: nat, i: nat): (b: nat)
    requires i < n
    ensures b < BlockCount(n) && BlockStart(n, b) <= i < BlockStart(n, b + 1)
  {
    BlockBounds(n, 0);
    BlockSearch(n, i, 0)
  }

  function BlockSearch(n: nat, i: nat, b: nat): (r: nat)
    requires i < n && b < BlockCount(n) && BlockStart(n, b) <= i
    ensures r < BlockCount(n) && BlockStart(n, r) <= i < BlockStart(n, r + 1)
    decreases BlockCount(n) - b
  {
    BlockBounds(n, b);
    if i < BlockStart(n, b + 1) then b else BlockSearch(n, i, b + 1)
  }

  lemma BlockUnique(n: nat, i: nat, b: nat)
    requires i < n && b < BlockCount(n) && BlockStart(n, b) <= i < BlockStart(n, b + 1)
    ensures BlockOf(n, i) == b
  {
    var c := BlockOf(n, i);
    if c < b {
      StartMonotone(n, c + 1, b);
    } else if b < c {
      StartMonotone(n, b + 1, c);
    }
  }
}
