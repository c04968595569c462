/** One unfinished frame: its slots, its parity, and rebuilding lost fragments. */
module Pendings {
  import opened Wrappers
  import opened Words
  import opened Blocks
  import opened Slots
  import opened Erasure
  import opened Parity
  import opened Fragments

  // The most fragments a frame may claim: their bytes exceed MAX_FRAME by at most one fragment.
  const MAX_FRAGMENTS: nat := (MAX_FRAME + FRAGMENT_SIZE) / FRAGMENT_SIZE

  datatype ReassembleError = TooLarge | Inconsistent | BadFragment

  datatype Pending = Pending(
    frame: u32,
    sentUs: u32,
    slots: seq<Slot>,
    received: nat,
    bytes: nat,
    parity: map<nat, seq<Slot>>,
    parityStored: nat,
    lastLen: Option<nat>)

  function NewPending(frame: u32, sentUs: u32, fragments: nat): Pending {
    Pending(frame, sentUs, Empty(fragments), 0, 0, map[], 0, None)
  }

  // ---- What the counters and sizes of an unfinished frame are ----

  ghost predicate SlotsSized(slots: seq<Slot>) {
    forall i :: 0 <= i < |slots| && slots[i].Some? ==>
      |slots[i].value| <= FRAGMENT_SIZE && (i + 1 < |slots| ==> |slots[i].value| == FRAGMENT_SIZE)
  }

  ghost predicate ParityShaped(parity: map<nat, seq<Slot>>, n: nat) {
    forall b :: b in parity ==> b < BlockCount(n) && 1 <= |parity[b]| < 0x100 && FullSlots(parity[b])
  }

  // How many parity shards the first `c` blocks hold.
  function Stored(parity: map<nat, seq<Slot>>, c: nat): nat {
    if c == 0 then 0 else Stored(parity, c - 1) + if c - 1 in parity then CountSome(parity[c - 1]) else 0
  }

  ghost predicate WellFormed(p: Pending) {
    var n := |p.slots|;
    && 1 <= n <= MAX_FRAGMENTS
    && SlotsSized(p.slots)
    && p.received == CountSome(p.slots)
    && p.bytes == TotalBytes(p.slots)
    && ParityShaped(p.parity, n)
    && p.parityStored == Stored(p.parity, BlockCount(n))
    && p.parityStored <= Max(n, 8)
    && (p.lastLen.Some? ==> p.lastLen.value <= FRAGMENT_SIZE)
    && (p.parity != map[] ==> p.lastLen.Some?)
  }

  // ---- Rebuilding ----

  function BlockSlots(p: Pending, b: nat): (s: seq<Slot>)
    requires |p.slots| > 0 && b < BlockCount(|p.slots|)
    ensures |s| == BlockSize(|p.slots|, b)
  {
    hide BlockStart, BlockCount;
    BlockBounds(|p.slots|, b);
    p.slots[BlockStart(|p.slots|, b)..BlockStart(|p.slots|, b + 1)]
  }

  // Filled slots as whole shards.
  function Shards(slots: seq<Slot>): (s: seq<Slot>)
    ensures |s| == |slots| && FullSlots(s)
  {
    seq(|slots|, i requires 0 <= i < |slots| => if slots[i].Some? then Some(Resize(slots[i].value)) else None)
  }

  // The data shards of block `b`, when it lacks data and has shards enough.
  function RebuiltBlock(code: Code, p: Pending, b: nat): (r: Option<seq<Bytes>>)
    requires |p.slots| > 0 && ParityShaped(p.parity, |p.slots|) && b < BlockCount(|p.slots|)
    ensures r.Some? ==> |r.value| == BlockSize(|p.slots|, b) && Full(r.value)
  {
    hide BlockStart, BlockCount;
    BlockBounds(|p.slots|, b);
    var data := BlockSlots(p, b);
    var k := |data|;
    if p.lastLen.None? || b !in p.parity || AllSome(data) then None
    else if CountSome(data) + CountSome(p.parity[b]) < k then None
    else if k + |p.parity[b]| > MAX_SHARDS then None
    else code.recover(k, Shards(data) + p.parity[b])
  }

  // Slot `i` after rebuilding: what it held, or the rebuilt shard cut to its length.
  function RebuiltSlot(code: Code, p: Pending, i: nat): Slot
    requires ParityShaped(p.parity, |p.slots|) && i < |p.slots|
  {
    if p.slots[i].Some? then p.slots[i]
    else
      var b := BlockOf(|p.slots|, i);
      match RebuiltBlock(code, p, b)
      case None => None
      case Some(data) =>
        Some(Truncate(data[i - BlockStart(|p.slots|, b)],
                      if i == |p.slots| - 1 then p.lastLen.value else FRAGMENT_SIZE))
  }

  function RebuiltSlots(code: Code, p: Pending, limit: nat): (s: seq<Slot>)
    requires ParityShaped(p.parity, |p.slots|)
    ensures |s| == |p.slots|
  {
    seq(|p.slots|, i requires 0 <= i < |p.slots| => if i < limit then RebuiltSlot(code, p, i) else p.slots[i])
  }

  // Every block rebuilt that can be, all at once.
  function Rebuilt(code: Code, p: Pending): Pending
    requires ParityShaped(p.parity, |p.slots|)
  {
    var slots := RebuiltSlots(code, p, |p.slots|);
    p.(slots := slots, received := CountSome(slots), bytes := TotalBytes(slots))
  }

  lemma SlotInBlock(code: Code, p: Pending, b: nat, i: nat)
    requires |p.slots| > 0 && ParityShaped(p.parity, |p.slots|) && b < BlockCount(|p.slots|)
    requires BlockStart(|p.slots|, b) <= i < BlockStart(|p.slots|, b + 1) <= |p.slots|
    ensures RebuiltBlock(code, p, b).None? ==> RebuiltSlot(code, p, i) == p.slots[i]
    ensures RebuiltBlock(code, p, b).Some? && p.slots[i].None? ==>
              RebuiltSlot(code, p, i) == Some(Truncate(RebuiltBlock(code, p, b).value[i - BlockStart(|p.slots|, b)],
                if i == |p.slots| - 1 then p.lastLen.value else FRAGMENT_SIZE))
  {
    hide BlockStart, BlockCount, RebuiltBlock;
    BlockUnique(|p.slots|, i, b);
  }

  lemma BlockLeft(code: Code, p: Pending, b: nat)
    requires |p.slots| > 0 && ParityShaped(p.parity, |p.slots|) && b < BlockCount(|p.slots|)
    requires RebuiltBlock(code, p, b).None?
    ensures RebuiltSlots(code, p, BlockStart(|p.slots|, b + 1)) == RebuiltSlots(code, p, BlockStart(|p.slots|, b))
  {
    hide BlockStart, BlockCount, RebuiltBlock;
    var n := |p.slots|;
    BlockBounds(n, b);
    forall i | BlockStart(n, b) <= i < BlockStart(n, b + 1)
      ensures RebuiltSlot(code, p, i) == p.slots[i]
    {
      SlotInBlock(code, p, b, i);
    }
  }

  // The source's loop over the blocks, filling the slots of each as it goes.
  method Recover(code: Code, p: Pending) returns (r: Pending)
    requires WellFormed(p)
    ensures r == Rebuilt(code, p)
  {
    hide BlockStart, BlockCount, RebuiltBlock, RebuiltSlot, CountSome, TotalBytes, Stored;
    var n := |p.slots|;
    if p.lastLen.None? {
      NothingRebuilt(code, p);
      return p;
    }
    var lastLen := p.lastLen.value;
    var slots, received, bytes := p.slots, p.received, p.bytes;
    var ranges := ComputeBlocks(n);
    BlockBounds(n, 0);
    assert slots == RebuiltSlots(code, p, 0);
    for block := 0 to |ranges|
      invariant slots == RebuiltSlots(code, p, BlockStart(n, block))
      invariant received == CountSome(slots) && bytes == TotalBytes(slots)
    {
      BlockBounds(n, block);
      var range := ranges[block];
      var data := slots[range.start..range.end];
      assert data == BlockSlots(p, block);
      var k := range.end - range.start;
      BlockDecision(code, p, block);
      if block !in p.parity
        || AllSome(data)
        || CountSome(data) + CountSome(p.parity[block]) < k
        || k + |p.parity[block]| > MAX_SHARDS
      {
        BlockLeft(code, p, block);
        continue;
      }
      var shards := code.recover(k, Shards(data) + p.parity[block]);
      if shards.None? {
        BlockLeft(code, p, block);
        continue;
      }
      for i := range.start to range.end
        invariant slots == RebuiltSlots(code, p, i)
        invariant received == CountSome(slots) && bytes == TotalBytes(slots)
      {
        SlotInBlock(code, p, block, i);
        ghost var was := slots;
        if slots[i].None? {
          var shard := Truncate(shards.value[i - range.start], if i == n - 1 then lastLen else FRAGMENT_SIZE);
          FillCounts(slots, i, shard);
          bytes := bytes + |shard|;
          slots := slots[i := Some(shard)];
          received := received + 1;
        }
        SlotsStep(code, p, i);
      }
    }
    BlockBounds(n, 0);
    r := p.(slots := slots, received := received, bytes := bytes);
  }

  lemma SlotsStep(code: Code, p: Pending, i: nat)
    requires ParityShaped(p.parity, |p.slots|) && i < |p.slots|
    ensures RebuiltSlots(code, p, i + 1) == RebuiltSlots(code, p, i)[i := RebuiltSlot(code, p, i)]
    ensures p.slots[i].Some? ==> RebuiltSlot(code, p, i) == p.slots[i]
  {
    hide RebuiltBlock;
  }

  lemma BlockDecision(code: Code, p: Pending, b: nat)
    requires |p.slots| > 0 && ParityShaped(p.parity, |p.slots|) && b < BlockCount(|p.slots|) && p.lastLen.Some?
    ensures var data := BlockSlots(p, b);
            var k := BlockSize(|p.slots|, b);
            RebuiltBlock(code, p, b)
            == if b !in p.parity || AllSome(data) || CountSome(data) + CountSome(p.parity[b]) < k
                  || k + |p.parity[b]| > MAX_SHARDS
               then None else code.recover(k, Shards(data) + p.parity[b])
  {
    hide BlockStart, BlockCount;
  }

  lemma NothingRebuilt(code: Code, p: Pending)
    requires WellFormed(p) && p.lastLen.None?
    ensures Rebuilt(code, p) == p
  {
    hide BlockStart, BlockCount, CountSome, TotalBytes;
    assert RebuiltSlots(code, p, |p.slots|) == p.slots;
  }

  // Rebuilding adds to the filled slots and keeps everything else as it was.
  lemma RebuiltWellFormed(code: Code, p: Pending)
    requires WellFormed(p)
    ensures WellFormed(Rebuilt(code, p))
    ensures Extends(p.slots, Rebuilt(code, p).slots)
    ensures p.received <= Rebuilt(code, p).received
    ensures Rebuilt(code, p) == p.(slots := Rebuilt(code, p).slots, received := Rebuilt(code, p).received,
                                   bytes := Rebuilt(code, p).bytes)
  {
    hide BlockStart, BlockCount, RebuiltBlock, CountSome, TotalBytes, Stored;
    CountExtends(p.slots, Rebuilt(code, p).slots);
  }

  // ---- One packet for an unfinished frame ----

  datatype Arrival =
    | Data(index: nat, payload: Bytes)
    | Shard(prefix: Prefix, shard: Bytes)

  datatype Absorbed =
    | Ignored
    | Discarded(error: ReassembleError)
    | Grown(pending: Pending, rebuilt: nat)

  // The packet fits a frame of `n` fragments, as the checks before it made sure.
  predicate Fits(a: Arrival, n: nat) {
    match a
    case Data(index, payload) =>
      index < n && |payload| <= FRAGMENT_SIZE && (index + 1 < n ==> |payload| == FRAGMENT_SIZE)
    case Shard(prefix, shard) =>
      && prefix.block < BlockCount(n)
      && prefix.index < prefix.count < 0x100
      && prefix.lastLen <= FRAGMENT_SIZE
      && |shard| == FRAGMENT_SIZE
  }

  function Fill(p: Pending, index: nat, payload: Bytes): Pending
    requires index < |p.slots|
  {
    p.(slots := p.slots[index := Some(payload)], received := p.received + 1, bytes := p.bytes + |payload|)
  }

  function BlockEntry(p: Pending, prefix: Prefix): seq<Slot> {
    if prefix.block in p.parity then p.parity[prefix.block] else Empty(prefix.count)
  }

  function Store(p: Pending, prefix: Prefix, shard: Bytes): Pending
    requires prefix.index < |BlockEntry(p, prefix)|
  {
    p.(parity := p.parity[prefix.block := BlockEntry(p, prefix)[prefix.index := Some(shard)]],
       parityStored := p.parityStored + 1,
       lastLen := Some(prefix.lastLen))
  }

  function Absorb(code: Code, p: Pending, a: Arrival): Absorbed
    requires WellFormed(p) && Fits(a, |p.slots|)
  {
    match a
    case Data(index, payload) =>
      if p.slots[index].Some? then Ignored
      else if p.bytes + |payload| > MAX_FRAME then Discarded(ReassembleError.TooLarge)
      else
        var q := Fill(p, index, payload);
        if q.parity == map[] then Grown(q, 0)
        else
          FillWellFormed(p, index, payload);
          RebuiltWellFormed(code, q);
          Grown(Rebuilt(code, q), Rebuilt(code, q).received - q.received)
    case Shard(prefix, shard) =>
      if p.parityStored >= Max(|p.slots|, 8) then Ignored
      else if |BlockEntry(p, prefix)| != prefix.count then Discarded(Inconsistent)
      else if BlockEntry(p, prefix)[prefix.index].Some? then Ignored
      else
        var q := Store(p, prefix, shard);
        StoreWellFormed(p, prefix, shard);
        RebuiltWellFormed(code, q);
        Grown(Rebuilt(code, q), Rebuilt(code, q).received - q.received)
  }

  lemma FillWellFormed(p: Pending, index: nat, payload: Bytes)
    requires WellFormed(p) && Fits(Data(index, payload), |p.slots|) && p.slots[index].None?
    ensures WellFormed(Fill(p, index, payload))
    ensures Extends(p.slots, Fill(p, index, payload).slots)
  {
    hide BlockCount, CountSome, TotalBytes, Stored, ParityShaped;
    FillCounts(p.slots, index, payload);
  }

  lemma {:induction false} StoredUpdate(parity: map<nat, seq<Slot>>, c: nat, b: nat, s: seq<Slot>)
    ensures Stored(parity[b := s], c)
            == Stored(parity, c) + if b < c then CountSome(s) - (if b in parity then CountSome(parity[b]) else 0) else 0
  {
    if c > 0 {
      StoredUpdate(parity, c - 1, b, s);
    }
  }

  lemma {:induction false} StoredNone(c: nat)
    ensures Stored(map[], c) == 0
  {
    if c > 0 {
      StoredNone(c - 1);
    }
  }

  lemma StoreWellFormed(p: Pending, prefix: Prefix, shard: Bytes)
    requires WellFormed(p) && Fits(Shard(prefix, shard), |p.slots|) && p.parityStored < Max(|p.slots|, 8)
    requires |BlockEntry(p, prefix)| == prefix.count && BlockEntry(p, prefix)[prefix.index].None?
    ensures WellFormed(Store(p, prefix, shard))
  {
    hide BlockCount, CountSome, TotalBytes, Stored;
    var entry := BlockEntry(p, prefix);
    FillCounts(entry, prefix.index, shard);
    EmptyCounts(prefix.count);
    StoredUpdate(p.parity, BlockCount(|p.slots|), prefix.block, entry[prefix.index := Some(shard)]);
  }

  lemma NewWellFormed(frame: u32, sentUs: u32, fragments: nat)
    requires 1 <= fragments <= MAX_FRAGMENTS
    ensures WellFormed(NewPending(frame, sentUs, fragments))
  {
    hide BlockCount;
    EmptyCounts(fragments);
    StoredNone(BlockCount(fragments));
  }

  // The slots a packet fills itself.
  function Own(a: Arrival): set<int> {
    match a
    case Data(index, _) => {index}
    case Shard(_, _) => {}
  }

  // Whatever arrives, what an unfinished frame holds only grows, its counts stay true, it stays within its bounds,
  // and `rebuilt` is the number of slots filled by something other than the packet itself.
  lemma AbsorbKeeps(code: Code, p: Pending, a: Arrival)
    requires WellFormed(p) && Fits(a, |p.slots|) && Absorb(code, p, a).Grown?
    ensures var q := Absorb(code, p, a).pending;
            && WellFormed(q) && q.frame == p.frame && q.sentUs == p.sentUs
            && Extends(p.slots, q.slots)
            && Absorb(code, p, a).rebuilt == |FilledBetween(p.slots, q.slots) - Own(a)|
            && (Absorb(code, p, a).rebuilt == 0 && p.bytes <= MAX_FRAME ==> q.bytes <= MAX_FRAME)
  {
    hide BlockCount, CountSome, TotalBytes, Stored, Rebuilt, FilledBetween;
    match a
    case Data(index, payload) =>
      var q := Fill(p, index, payload);
      FillWellFormed(p, index, payload);
      RebuiltWellFormed(code, q);
      var r := Absorb(code, p, a).pending;
      FilledCount(p.slots, r.slots);
      assert index in FilledBetween(p.slots, r.slots);
      assert |FilledBetween(p.slots, r.slots) - {index}| == |FilledBetween(p.slots, r.slots)| - 1;
      CountExtends(q.slots, r.slots);
    case Shard(prefix, shard) =>
      StoreWellFormed(p, prefix, shard);
      RebuiltWellFormed(code, Store(p, prefix, shard));
      var r := Absorb(code, p, a).pending;
      FilledCount(p.slots, r.slots);
      CountExtends(p.slots, r.slots);
      assert FilledBetween(p.slots, r.slots) - {} == FilledBetween(p.slots, r.slots);
  }
}
