/** The parity packets of a frame, how a receiver reads them, and how much parity is sent. */
module Parity {
  import opened Wrappers
  import opened Words
  import opened Headers
  import opened Blocks
  import opened Erasure

  // A header and its payload, ready for the sealer.
  datatype Packet = Packet(header: Header, payload: Bytes)

  // How many parity fragments a block of so many data fragments gets.
  type Policy = nat -> nat

  function ParityCount(policy: Policy, k: nat): (m: nat)
    requires k <= MAX_SHARDS
    ensures k + m <= MAX_SHARDS && m <= policy(k)
    ensures m < policy(k) ==> k + m == 256
  {
    if policy(k) < MAX_SHARDS - k then policy(k) else MAX_SHARDS - k
  }

  // A payload padded with zeros to a whole shard.
  function Resize(s: Bytes): (r: Bytes)
    ensures |r| == FRAGMENT_SIZE
    ensures forall i :: 0 <= i < |r| ==> r[i] == if i < |s| then s[i] else 0
  {
    if |s| >= FRAGMENT_SIZE then s[..FRAGMENT_SIZE] else s + seq(FRAGMENT_SIZE - |s|, _ => 0)
  }

  function Truncate(s: Bytes, len: nat): (r: Bytes)
    ensures |r| <= len && |r| <= |s| && (len <= |s| ==> |r| == len)
  {
    if |s| > len then s[..len] else s
  }

  lemma TruncateResize(s: Bytes)
    requires |s| <= FRAGMENT_SIZE
    ensures Truncate(Resize(s), |s|) == s
    ensures |s| == FRAGMENT_SIZE ==> Resize(s) == s
  {}

  function Padded(parts: seq<Packet>): (s: seq<Bytes>)
    ensures |s| == |parts| && Full(s)
  {
    seq(|parts|, o requires 0 <= o < |parts| => Resize(parts[o].payload))
  }

  // The data shards of block `b`.
  function BlockShards(data: seq<Packet>, b: nat): (s: seq<Bytes>)
    requires |data| > 0 && b < BlockCount(|data|)
    ensures |s| == BlockSize(|data|, b) && Full(s)
  {
    hide BlockStart, BlockCount;
    BlockBounds(|data|, b);
    Padded(data[BlockStart(|data|, b)..BlockStart(|data|, b + 1)])
  }

  function ParityShards(code: Code, policy: Policy, data: seq<Packet>, b: nat): (s: seq<Bytes>)
    requires |data| > 0 && b < BlockCount(|data|)
    ensures BlockSize(|data|, b) <= MAX_BLOCK_DATA && |s| == ParityCount(policy, BlockSize(|data|, b)) && Full(s)
  {
    BlockBounds(|data|, b);
    code.encode(ParityCount(policy, BlockSize(|data|, b)), BlockShards(data, b))
  }

  // ---- On the wire ----

  datatype Prefix = Prefix(block: nat, index: nat, count: nat, lastLen: nat)

  function ParityPayload(prefix: Prefix, shard: Bytes): (p: Bytes)
    requires prefix.block < 0x1_0000 && prefix.index < 0x100 && prefix.count < 0x100 && prefix.lastLen < 0x1_0000
    ensures |p| == PREFIX_LEN + |shard|
  {
    Be16(prefix.block) + [prefix.index, prefix.count] + Be16(prefix.lastLen) + shard
  }

  function Parse(payload: Bytes): (r: Option<(Prefix, Bytes)>)
    ensures r.Some? ==>
      && r.value.0.index < r.value.0.count < 0x100
      && r.value.0.lastLen <= FRAGMENT_SIZE
      && |r.value.1| == FRAGMENT_SIZE
  {
    if |payload| != PREFIX_LEN + FRAGMENT_SIZE then None
    else
      var prefix := Prefix(FromBe16(payload[0..2]), payload[2], payload[3], FromBe16(payload[4..6]));
      if prefix.count == 0 || prefix.index >= prefix.count || prefix.lastLen > FRAGMENT_SIZE then None
      else Some((prefix, payload[PREFIX_LEN..]))
  }

  // A well-formed parity payload reads back; any other prefix is refused.
  lemma ParseParityPayload(prefix: Prefix, shard: Bytes)
    requires prefix.block < 0x1_0000 && prefix.index < 0x100 && prefix.count < 0x100 && prefix.lastLen < 0x1_0000
    ensures Parse(ParityPayload(prefix, shard))
            == if |shard| == FRAGMENT_SIZE && prefix.index < prefix.count && prefix.lastLen <= FRAGMENT_SIZE
               then Some((prefix, shard)) else None
  {
    var p := ParityPayload(prefix, shard);
    assert p[0..2] == Be16(prefix.block) && p[4..6] == Be16(prefix.lastLen) && p[PREFIX_LEN..] == shard;
    Be16RoundTrip(prefix.block);
    Be16RoundTrip(prefix.lastLen);
  }

  // Where each part is, and that nothing else is accepted than a whole shard at a place it can have.
  lemma ParityLayout(prefix: Prefix, shard: Bytes)
    requires prefix.block < 0x1_0000 && prefix.index < 0x100 && prefix.count < 0x100 && prefix.lastLen < 0x1_0000
    ensures var p := ParityPayload(prefix, shard);
            && BigEndian(p[..2]) == prefix.block && p[2] == prefix.index && p[3] == prefix.count
            && BigEndian(p[4..6]) == prefix.lastLen && p[6..] == shard
  {
    hide Be16, BigEndian;
    var p := ParityPayload(prefix, shard);
    assert p[..2] == Be16(prefix.block) && p[4..6] == Be16(prefix.lastLen);
    BeIsBigEndian(prefix.block, 0, 0);
    BeIsBigEndian(prefix.lastLen, 0, 0);
  }

  function LastLen(data: seq<Packet>): nat
    requires |data| > 0
  {
    |data[|data| - 1].payload|
  }

  // What the sender hands over: no more fragments than a header can number, none longer than a shard.
  ghost predicate Cut(data: seq<Packet>) {
    |data| < 0x1_0000 && forall i :: 0 <= i < |data| ==> |data[i].payload| <= FRAGMENT_SIZE
  }

  // The `number`-th parity packet of the frame, for shard `j` of block `b`.
  function ParityPacket(code: Code, policy: Policy, data: seq<Packet>, b: nat, j: nat, number: nat): Packet
    requires |data| > 0 && Cut(data) && b < BlockCount(|data|)
    requires j < |ParityShards(code, policy, data, b)|
  {
    BlockBounds(|data|, b);
    var shards := ParityShards(code, policy, data, b);
    var first := data[0].header;
    Packet(
      Header(1, first.stream, first.frame, number % 0x1_0000, first.fragments, 0, first.sentUs),
      ParityPayload(Prefix(b, j, |shards|, LastLen(data)), shards[j]))
  }

  // The parity packets of the first `b` blocks.
  function ParityBefore(code: Code, policy: Policy, data: seq<Packet>, b: nat): seq<Packet>
    requires |data| > 0 && Cut(data) && b <= BlockCount(|data|)
  {
    if b == 0 then []
    else
      var earlier := ParityBefore(code, policy, data, b - 1);
      earlier + ParityOfBlock(code, policy, data, b - 1, |earlier|)
  }

  function ParityOfBlock(code: Code, policy: Policy, data: seq<Packet>, b: nat, number: nat): (s: seq<Packet>)
    requires |data| > 0 && Cut(data) && b < BlockCount(|data|)
    ensures |s| == |ParityShards(code, policy, data, b)|
  {
    var shards := ParityShards(code, policy, data, b);
    seq(|shards|, j requires 0 <= j < |shards| => ParityPacket(code, policy, data, b, j, number + j))
  }

  method EncodeParity(code: Code, data: seq<Packet>, policy: Policy) returns (out: seq<Packet>)
    requires Cut(data)
    ensures out == if data == [] then [] else ParityBefore(code, policy, data, BlockCount(|data|))
  {
    hide BlockStart, BlockCount, ParityOfBlock, BlockShards, ParityCount;
    if data == [] {
      return [];
    }
    out := [];
    var ranges := ComputeBlocks(|data|);
    for block := 0 to |ranges|
      invariant out == ParityBefore(code, policy, data, block)
    {
      BlockBounds(|data|, block);
      var range := ranges[block];
      var m := ParityCount(policy, range.end - range.start);
      if m == 0 {
        assert ParityOfBlock(code, policy, data, block, |out|) == [];
        continue;
      }
      var packets := EncodeBlock(code, data, policy, block, range, |out|);
      out := out + packets;
    }
  }

  // The parity packets of one block, numbered from `number` on.
  method EncodeBlock(code: Code, data: seq<Packet>, policy: Policy, block: nat, range: Range, number: nat)
    returns (out: seq<Packet>)
    requires |data| > 0 && Cut(data) && block < BlockCount(|data|)
    requires range == Range(BlockStart(|data|, block), BlockStart(|data|, block + 1))
    ensures out == ParityOfBlock(code, policy, data, block, number)
  {
    hide BlockStart, BlockCount, Resize, Be16, ParityPayload;
    BlockBounds(|data|, block);
    var first := data[0].header;
    var lastLen := |data[|data| - 1].payload|;
    var m := ParityCount(policy, range.end - range.start);
    var shards := Padded(data[range.start..range.end]);
    assert shards == BlockShards(data, block);
    var parity := code.encode(m, shards);
    out := [];
    for index := 0 to |parity|
      invariant out == ParityOfBlock(code, policy, data, block, number)[..index]
    {
      var header := Header(1, first.stream, first.frame, (number + index) % 0x1_0000, first.fragments, 0, first.sentUs);
      var packet := Packet(header, ParityPayload(Prefix(block, index, m, lastLen), parity[index]));
      assert packet == ParityPacket(code, policy, data, block, index, number + index);
      out := out + [packet];
    }
  }

  // The packets of block `b` are those of its shards, wherever they are in the list.
  lemma {:induction false} ParityBeforeHas(code: Code, policy: Policy, data: seq<Packet>, count: nat, p: Packet)
    requires |data| > 0 && Cut(data) && count <= BlockCount(|data|)
    requires p in ParityBefore(code, policy, data, count)
    ensures exists b, j, number :: 0 <= b < count && 0 <= j < |ParityShards(code, policy, data, b)|
              && 0 <= number && p == ParityPacket(code, policy, data, b, j, number)
  {
    hide BlockStart, BlockCount, ParityPacket, ParityShards;
    var earlier := ParityBefore(code, policy, data, count - 1);
    if p in earlier {
      ParityBeforeHas(code, policy, data, count - 1, p);
    } else {
      var s := ParityOfBlock(code, policy, data, count - 1, |earlier|);
      var j :| 0 <= j < |s| && s[j] == p;
      assert p == ParityPacket(code, policy, data, count - 1, j, |earlier| + j);
    }
  }

  // The parity packets are numbered on from 0 over the whole frame, and marked as parity of it.
  lemma {:induction false} ParityNumbered(code: Code, policy: Policy, data: seq<Packet>, count: nat, i: nat)
    requires |data| > 0 && Cut(data) && count <= BlockCount(|data|)
    requires i < |ParityBefore(code, policy, data, count)|
    ensures var h, first := ParityBefore(code, policy, data, count)[i].header, data[0].header;
            && h.fragment == i % 0x1_0000 && h.flags == 1 && h.packet == 0
            && h.stream == first.stream && h.frame == first.frame && h.fragments == first.fragments
            && h.sentUs == first.sentUs
  {
    hide BlockStart, BlockCount, ParityShards, ParityPayload;
    var earlier := ParityBefore(code, policy, data, count - 1);
    if i < |earlier| {
      ParityNumbered(code, policy, data, count - 1, i);
    } else {
      var s := ParityOfBlock(code, policy, data, count - 1, |earlier|);
      var j := i - |earlier|;
      assert ParityBefore(code, policy, data, count)[i] == s[j];
      assert s[j] == ParityPacket(code, policy, data, count - 1, j, |earlier| + j);
    }
  }

  // ---- How much parity ----

  function Ceil(x: real): int {
    -((-x).Floor)
  }

  function Smooth(loss: real, rate: real): real {
    loss + 0.25 * (rate - loss)
  }

  // `parity_for` at a given smoothed loss.
  function AdaptiveCount(loss: real, safety: real, maxOverhead: real, data: nat): nat
    requires loss >= 0.0 && safety >= 0.0
  {
    if data == 0 || loss < 0.002 then 0 else Capped(Wanted(loss, safety, data), Share(maxOverhead, data))
  }

  // The expected loss times the safety factor.
  function Wanted(loss: real, safety: real, data: nat): real {
    data as real * loss * safety
  }

  // The most parity may add.
  function Share(maxOverhead: real, data: nat): real {
    data as real * maxOverhead
  }

  // What is wanted, at least one, or else the cap, at least one.
  function Capped(wanted: real, cap: real): int {
    Min(Max(Ceil(wanted), 1), Max(Ceil(cap), 1))
  }

  function Max(a: int, b: int): int {
    if a < b then b else a
  }

  function Min(a: int, b: int): int {
    if a < b then a else b
  }

  class AdaptiveParity {
    var loss: real
    const safety: real
    const maxOverhead: real

    ghost predicate Valid()
      reads this
    {
      0.0 <= loss <= 1.0 && 0.0 <= safety && 0.0 <= maxOverhead <= 1.0
    }

    constructor ()
      ensures Valid() && loss == 0.0 && safety == 2.0 && maxOverhead == 0.5
    {
      loss, safety, maxOverhead := 0.0, 2.0, 0.5;
    }

    constructor Layered()
      ensures Valid() && loss == 0.0 && safety == 1.0 && maxOverhead == 0.25
    {
      loss, safety, maxOverhead := 0.0, 1.0, 0.25;
    }

    // One report: of `sent` packets, `lost` did not arrive.
    method Observe(sent: nat, lost: nat)
      requires Valid()
      modifies this
      ensures Valid()
      ensures loss == if sent == 0 then old(loss) else Smooth(old(loss), Min(lost, sent) as real / sent as real)
    {
      if sent == 0 {
        return;
      }
      var rate := Min(lost, sent) as real / sent as real;
      assert 0.0 <= rate <= 1.0;
      loss := loss + 0.25 * (rate - loss);
    }

    // None without loss to speak of, and never more than the data.
    function ParityFor(data: nat): (count: nat)
      requires Valid()
      reads this
      ensures count <= data && (count == 0 <==> data == 0 || loss < 0.002)
    {
      AdaptiveBounded(loss, safety, maxOverhead, data);
      AdaptiveCount(loss, safety, maxOverhead, data)
    }
  }

  // Parity never outnumbers the data it covers. There is some exactly when there is loss to speak of, and then it
  // covers the expected loss times the safety factor or else takes the share it may take; and it is the least that
  // does.
  lemma AdaptiveBounded(loss: real, safety: real, maxOverhead: real, data: nat)
    requires 0.0 <= loss <= 1.0 && 0.0 <= safety && 0.0 <= maxOverhead <= 1.0
    ensures var count := AdaptiveCount(loss, safety, maxOverhead, data);
            && count <= data
            && (count == 0 <==> data == 0 || loss < 0.002)
            && (count > 0 ==>
                  count as real >= Wanted(loss, safety, data) || count as real >= Share(maxOverhead, data))
            && count as real <= Share(maxOverhead, data) + 1.0
            && (count > 1 ==>
                  (count - 1) as real < Wanted(loss, safety, data) && (count - 1) as real < Share(maxOverhead, data))
  {
    hide Capped, Wanted, Share;
    ShareBounds(maxOverhead, data);
    if data > 0 {
      CappedCount(Wanted(loss, safety, data), Share(maxOverhead, data), data);
    }
  }

  lemma ShareBounds(maxOverhead: real, data: nat)
    requires 0.0 <= maxOverhead <= 1.0
    ensures 0.0 <= Share(maxOverhead, data) <= data as real
  {
    assert data as real * (1.0 - maxOverhead) >= 0.0;
  }

  lemma CappedCount(wanted: real, cap: real, data: nat)
    requires data > 0 && 0.0 <= cap <= data as real
    ensures var count := Capped(wanted, cap);
            && 1 <= count <= data && (count as real >= wanted || count as real >= cap) && count as real <= cap + 1.0
            && (count > 1 ==> (count - 1) as real < wanted && (count - 1) as real < cap)
  {
    hide Ceil;
    CeilBounds(wanted, data);
    CeilBounds(cap, data);
  }

  lemma CeilBounds(x: real, n: int)
    ensures x <= Ceil(x) as real < x + 1.0
    ensures x <= n as real ==> Ceil(x) <= n
  {}

  // So every block with its parity fits the code.
  lemma AdaptiveFits(loss: real, safety: real, maxOverhead: real, n: nat, b: nat)
    requires 0.0 <= loss <= 1.0 && 0.0 <= safety && 0.0 <= maxOverhead <= 1.0
    requires n > 0 && b < BlockCount(n)
    ensures BlockSize(n, b) > 0
    ensures BlockSize(n, b) + AdaptiveCount(loss, safety, maxOverhead, BlockSize(n, b)) <= MAX_SHARDS
  {
    BlockBounds(n, b);
    AdaptiveBounded(loss, safety, maxOverhead, BlockSize(n, b));
  }

  function Power(x: real, n: nat): real {
    if n == 0 then 1.0 else x * Power(x, n - 1)
  }

  function SmoothAll(loss: real, rates: seq<real>): real {
    if rates == [] then loss else Smooth(SmoothAll(loss, rates[..|rates| - 1]), rates[|rates| - 1])
  }

  // Whatever is reported, the estimate is a rate.
  lemma {:induction false} SmoothStaysARate(loss: real, rates: seq<real>)
    requires 0.0 <= loss <= 1.0 && forall i :: 0 <= i < |rates| ==> 0.0 <= rates[i] <= 1.0
    ensures 0.0 <= SmoothAll(loss, rates) <= 1.0
  {
    if rates != [] {
      SmoothStaysARate(loss, rates[..|rates| - 1]);
    }
  }

  // Reports of one constant rate bring the estimate to it geometrically.
  lemma {:induction false} SmoothConverges(loss: real, rate: real, n: nat)
    ensures SmoothAll(loss, seq(n, _ => rate)) - rate == Power(0.75, n) * (loss - rate)
  {
    var rates := seq(n, _ => rate);
    if n > 0 {
      SmoothConverges(loss, rate, n - 1);
      assert rates[..n - 1] == seq(n - 1, _ => rate);
    }
  }
}
