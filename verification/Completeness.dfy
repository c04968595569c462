/**
 When a lone frame is delivered: exactly at the first packet after which every
 block of k data fragments has k different shards.
 */
module Completeness {
  import opened Wrappers
  import opened Words
  import opened Headers
  import opened Blocks
  import opened Slots
  import opened Erasure
  import opened Parity
  import opened Fragments
  import opened Pendings
  import opened Reassembly
  import opened StreamOrder
  import opened Runs
  import opened Soundness

  // ---- The shards that have come ----

  datatype Key = DataKey(index: nat) | ParityKey(block: nat, index: nat)

  function KeyOf(a: Arrival): Key {
    match a
    case Data(index, _) => DataKey(index)
    case Shard(prefix, _) => ParityKey(prefix.block, prefix.index)
  }

  // How many of the fragments from `lo` to `hi` have come.
  function DataHeld(got: set<Key>, lo: nat, hi: nat): nat
    requires lo <= hi
  {
    if lo == hi then 0 else DataHeld(got, lo, hi - 1) + if DataKey(hi - 1) in got then 1 else 0
  }

  // How many of the first `m` parity shards of block `b` have.
  function ParityHeld(got: set<Key>, b: nat, m: nat): nat {
    if m == 0 then 0 else ParityHeld(got, b, m - 1) + if ParityKey(b, m - 1) in got then 1 else 0
  }

  function ParityOf(sent: SentFrame, b: nat): nat
    requires b < BlockCount(sent.Count())
  {
    BlockBounds(sent.Count(), b);
    ParityCount(sent.policy, BlockSize(sent.Count(), b))
  }

  // The different shards of block `b` that have come.
  function Held(sent: SentFrame, got: set<Key>, b: nat): nat
    requires b < BlockCount(sent.Count())
  {
    BlockBounds(sent.Count(), b);
    DataHeld(got, BlockStart(sent.Count(), b), BlockStart(sent.Count(), b + 1)) + ParityHeld(got, b, ParityOf(sent, b))
  }

  predicate Enough(sent: SentFrame, got: set<Key>, b: nat)
    requires b < BlockCount(sent.Count())
  {
    Held(sent, got, b) >= BlockSize(sent.Count(), b)
  }

  predicate EnoughForAll(sent: SentFrame, got: set<Key>) {
    forall b :: 0 <= b < BlockCount(sent.Count()) ==> Enough(sent, got, b)
  }

  function ParityTotal(sent: SentFrame, c: nat): nat
    requires c <= BlockCount(sent.Count())
  {
    if c == 0 then 0 else ParityTotal(sent, c - 1) + ParityOf(sent, c - 1)
  }

  // When the store is full and lacks a shard of a block, the block has as many there as it has data: all the parity of
  // the other blocks with all but the last shard this one needs does not fill the store.
  predicate Room(sent: SentFrame) {
    forall b :: 0 <= b < BlockCount(sent.Count()) && ParityOf(sent, b) > 0 ==>
      ParityTotal(sent, BlockCount(sent.Count())) - ParityOf(sent, b) + Needed(sent, b) <= Max(sent.Count(), 8)
  }

  // How many parity shards block `b` can put to use.
  function Needed(sent: SentFrame, b: nat): nat
    requires b < BlockCount(sent.Count())
  {
    Min(ParityOf(sent, b), BlockSize(sent.Count(), b))
  }

  // No block with more parity than data is enough for that.
  lemma RoomWhenParityFits(sent: SentFrame)
    requires forall b :: 0 <= b < BlockCount(sent.Count()) ==> ParityOf(sent, b) <= BlockSize(sent.Count(), b)
    ensures Room(sent)
  {
    hide BlockCount, BlockStart, FragmentCount, ParityOf;
    var n := sent.Count();
    BlockBounds(n, 0);
    ParityTotalBound(sent, BlockCount(n));
  }

  // So is a single block, with any parity.
  lemma RoomInOneBlock(sent: SentFrame)
    requires BlockCount(sent.Count()) == 1
    ensures Room(sent)
  {
    hide BlockCount, BlockStart, FragmentCount, ParityOf;
    BlockBounds(sent.Count(), 0);
    assert ParityTotal(sent, 0) == 0;
    assert ParityTotal(sent, 1) == ParityOf(sent, 0);
  }

  // Without parity, and with as much as the adaptive policy gives, there is room.
  lemma RoomForThePolicies(sent: SentFrame, loss: real, safety: real, maxOverhead: real)
    requires 0.0 <= loss <= 1.0 && 0.0 <= safety && 0.0 <= maxOverhead <= 1.0
    requires
      || (forall k :: sent.policy(k) == 0)
      || (forall k :: sent.policy(k) == AdaptiveCount(loss, safety, maxOverhead, k))
    ensures Room(sent)
  {
    hide BlockCount, BlockStart, FragmentCount, AdaptiveCount, Room;
    forall b | 0 <= b < BlockCount(sent.Count())
      ensures ParityOf(sent, b) <= BlockSize(sent.Count(), b)
    {
      BlockBounds(sent.Count(), b);
      AdaptiveBounded(loss, safety, maxOverhead, BlockSize(sent.Count(), b));
    }
    RoomWhenParityFits(sent);
  }

  lemma {:induction false} ParityTotalBound(sent: SentFrame, c: nat)
    requires c <= BlockCount(sent.Count())
    requires forall b :: 0 <= b < BlockCount(sent.Count()) ==> ParityOf(sent, b) <= BlockSize(sent.Count(), b)
    ensures ParityTotal(sent, c) <= BlockStart(sent.Count(), c)
  {
    hide BlockCount, BlockStart, FragmentCount, ParityOf;
    if c > 0 {
      ParityTotalBound(sent, c - 1);
    }
  }

  // ---- Counting shards in slots ----

  lemma {:induction false} DataCounts(slots: seq<Slot>, got: set<Key>, lo: nat, hi: nat)
    requires lo <= hi <= |slots|
    requires forall i :: lo <= i < hi && DataKey(i) in got ==> slots[i].Some?
    ensures DataHeld(got, lo, hi) <= CountSome(slots[lo..hi])
    ensures (forall i :: lo <= i < hi && slots[i].Some? ==> DataKey(i) in got) ==>
              DataHeld(got, lo, hi) == CountSome(slots[lo..hi])
  {
    if lo < hi {
      DataCounts(slots, got, lo, hi - 1);
      assert slots[lo..hi][..hi - lo - 1] == slots[lo..hi - 1];
    }
  }

  lemma {:induction false} ParityCounts(shards: seq<Slot>, got: set<Key>, b: nat, m: nat)
    requires m <= |shards|
    requires forall j :: 0 <= j < m ==> (ParityKey(b, j) in got <==> shards[j].Some?)
    ensures ParityHeld(got, b, m) == CountSome(shards[..m])
  {
    if m > 0 {
      ParityCounts(shards, got, b, m - 1);
      assert shards[..m][..m - 1] == shards[..m - 1];
    }
  }

  lemma {:induction false} NoParityHeld(got: set<Key>, b: nat, m: nat)
    requires forall j :: 0 <= j < m ==> ParityKey(b, j) !in got
    ensures ParityHeld(got, b, m) == 0
  {
    if m > 0 {
      NoParityHeld(got, b, m - 1);
    }
  }

  lemma {:induction false} DataHeldGrows(a: set<Key>, b: set<Key>, lo: nat, hi: nat)
    requires a <= b && lo <= hi
    ensures DataHeld(a, lo, hi) <= DataHeld(b, lo, hi) <= hi - lo
  {
    if lo < hi {
      DataHeldGrows(a, b, lo, hi - 1);
    }
  }

  lemma {:induction false} ParityHeldGrows(a: set<Key>, b: set<Key>, block: nat, m: nat)
    requires a <= b
    ensures ParityHeld(a, block, m) <= ParityHeld(b, block, m)
  {
    if m > 0 {
      ParityHeldGrows(a, b, block, m - 1);
    }
  }

  lemma HeldGrows(sent: SentFrame, got: set<Key>, more: set<Key>, b: nat)
    requires got <= more && b < BlockCount(sent.Count())
    ensures Held(sent, got, b) <= Held(sent, more, b)
  {
    hide BlockCount, BlockStart, FragmentCount;
    BlockBounds(sent.Count(), b);
    DataHeldGrows(got, more, BlockStart(sent.Count(), b), BlockStart(sent.Count(), b + 1));
    ParityHeldGrows(got, more, b, ParityOf(sent, b));
  }

  // ---- What a waiting frame holds of what has come ----

  ghost predicate Stores(p: Pending, b: nat, j: nat) {
    b in p.parity && j < |p.parity[b]| && p.parity[b][j].Some?
  }

  ghost predicate WholeIn(p: Pending, b: nat)
    requires |p.slots| > 0
  {
    forall i :: 0 <= i < |p.slots| && BlockOf(|p.slots|, i) == b ==> p.slots[i].Some?
  }

  // Everything that came is there, but for parity of blocks that are whole, and what was rebuilt is in blocks that had
  // enough.
  ghost predicate Follows(sent: SentFrame, p: Pending, got: set<Key>)
    requires |p.slots| == sent.Count()
  {
    && (forall i :: 0 <= i < |p.slots| && DataKey(i) in got ==> p.slots[i].Some?)
    && (forall i :: 0 <= i < |p.slots| && p.slots[i].Some? && DataKey(i) !in got ==>
          Enough(sent, got, BlockOf(|p.slots|, i)))
    && (forall b: nat, j: nat :: Stores(p, b, j) ==> ParityKey(b, j) in got)
    && (forall b: nat, j: nat :: ParityKey(b, j) in got && !Stores(p, b, j) ==>
          b < BlockCount(sent.Count()) && Enough(sent, got, b) && WholeIn(p, b))
  }

  // And every block that has enough is whole.
  ghost predicate CaughtUp(sent: SentFrame, p: Pending, got: set<Key>)
    requires |p.slots| == sent.Count()
  {
    forall i :: 0 <= i < |p.slots| && Enough(sent, got, BlockOf(|p.slots|, i)) ==> p.slots[i].Some?
  }

  // What the counts of a block's slots say about the shards that came.
  lemma BlockCounts(code: Code, sent: SentFrame, p: Pending, got: set<Key>, b: nat)
    requires |sent.data| <= MAX_FRAME && Genuine(code, sent, p) && Follows(sent, p, got)
    requires b < BlockCount(|p.slots|)
    ensures var count := CountSome(BlockSlots(p, b)) + if b in p.parity then CountSome(p.parity[b]) else 0;
      && (Enough(sent, got, b) ==> count >= BlockSize(|p.slots|, b))
      && (!Enough(sent, got, b) ==> count == Held(sent, got, b))
  {
    hide BlockCount, BlockStart, FragmentCount, CountSome, DataHeld, ParityHeld, Piece, ParityShards, BlockOf;
    var n := |p.slots|;
    BlockBounds(n, b);
    var lo, hi := BlockStart(n, b), BlockStart(n, b + 1);
    assert BlockSlots(p, b) == p.slots[lo..hi];
    DataCounts(p.slots, got, lo, hi);
    if !Enough(sent, got, b) {
      forall i | lo <= i < hi && p.slots[i].Some?
        ensures DataKey(i) in got
      {
        BlockUnique(n, i, b);
      }
    }
    if j: nat :| ParityKey(b, j) in got && !Stores(p, b, j) {
      forall i | lo <= i < hi ensures p.slots[i].Some? {
        BlockUnique(n, i, b);
      }
      CountFull(BlockSlots(p, b));
    } else if b in p.parity {
      assert |p.parity[b]| == ParityOf(sent, b) by { ParityLength(code, sent, b); }
      ParityCounts(p.parity[b], got, b, |p.parity[b]|);
      assert p.parity[b][..|p.parity[b]|] == p.parity[b];
    } else {
      NoParityHeld(got, b, ParityOf(sent, b));
    }
  }

  lemma ParityLength(code: Code, sent: SentFrame, b: nat)
    requires |sent.data| <= MAX_FRAME && b < BlockCount(sent.Count())
    ensures |ParityShards(code, sent.policy, sent.DataPackets(), b)| == ParityOf(sent, b)
  {
    hide BlockCount, BlockStart, FragmentCount;
  }

  lemma WholeBlock(p: Pending, b: nat, i: nat)
    requires |p.slots| > 0 && b < BlockCount(|p.slots|) && AllSome(BlockSlots(p, b))
    requires BlockStart(|p.slots|, b) <= i < BlockStart(|p.slots|, b + 1) <= |p.slots|
    ensures p.slots[i].Some?
  {
    hide BlockCount, BlockStart;
    assert BlockSlots(p, b)[i - BlockStart(|p.slots|, b)] == p.slots[i];
  }

  // One block with enough shards is whole after rebuilding; one without is left alone.
  lemma RebuildsSlot(code: Code, sent: SentFrame, p: Pending, got: set<Key>, i: nat)
    requires Sendable(code, sent) && WellFormed(p) && Genuine(code, sent, p) && Follows(sent, p, got)
    requires i < |p.slots|
    ensures Enough(sent, got, BlockOf(|p.slots|, i)) ==> RebuiltSlot(code, p, i).Some?
    ensures !Enough(sent, got, BlockOf(|p.slots|, i)) ==> RebuiltSlot(code, p, i) == p.slots[i]
  {
    hide BlockCount, BlockStart, FragmentCount, CountSome, DataHeld, ParityHeld, Held, Piece, ParityShards,
      Recoverable, RebuiltBlock, RebuiltSlot, BlockSlots, Follows;
    var n := |p.slots|;
    var b := BlockOf(n, i);
    BlockBounds(n, b);
    BlockCounts(code, sent, p, got, b);
    RebuiltBlockGenuine(code, sent, p, b);
    SlotInBlock(code, p, b, i);
    SlotsStep(code, p, i);
    if Enough(sent, got, b) && p.slots[i].None? {
      if AllSome(BlockSlots(p, b)) {
        WholeBlock(p, b, i);
      } else if b !in p.parity {
        CountFull(BlockSlots(p, b));
      }
    }
  }

  lemma RebuiltFollows(code: Code, sent: SentFrame, p: Pending, got: set<Key>)
    requires Sendable(code, sent) && WellFormed(p) && Genuine(code, sent, p) && Follows(sent, p, got)
    ensures |Rebuilt(code, p).slots| == sent.Count()
    ensures Follows(sent, Rebuilt(code, p), got) && CaughtUp(sent, Rebuilt(code, p), got)
  {
    hide BlockCount, FragmentCount, CountSome, TotalBytes, Enough, Piece, ParityShards, Recoverable, RebuiltSlot,
      BlockOf;
    var n := |p.slots|;
    var r := Rebuilt(code, p);
    forall i | 0 <= i < n
      ensures r.slots[i] == RebuiltSlot(code, p, i)
      ensures Enough(sent, got, BlockOf(n, i)) ==> r.slots[i].Some?
      ensures !Enough(sent, got, BlockOf(n, i)) ==> r.slots[i] == p.slots[i]
      ensures p.slots[i].Some? ==> r.slots[i] == p.slots[i]
    {
      RebuildsSlot(code, sent, p, got, i);
      SlotsStep(code, p, i);
    }
  }

  // Without parity there is nothing to rebuild: a block has enough only when all its data came.
  lemma NoParityCaughtUp(code: Code, sent: SentFrame, p: Pending, got: set<Key>)
    requires Sendable(code, sent) && WellFormed(p) && Genuine(code, sent, p) && Follows(sent, p, got)
    requires p.parity == map[]
    ensures CaughtUp(sent, p, got)
  {
    hide FragmentCount, BlockCount, BlockOf, CountSome, TotalBytes, Enough, Piece, ParityShards, Recoverable,
      RebuiltSlot, Follows;
    forall i | 0 <= i < |p.slots| && Enough(sent, got, BlockOf(|p.slots|, i))
      ensures p.slots[i].Some?
    {
      RebuildsSlot(code, sent, p, got, i);
      NoParityNoSlot(code, p, i);
    }
  }

  lemma NoParityNoSlot(code: Code, p: Pending, i: nat)
    requires ParityShaped(p.parity, |p.slots|) && i < |p.slots| && p.parity == map[]
    ensures RebuiltSlot(code, p, i) == p.slots[i]
  {
    hide BlockCount, BlockOf, BlockStart;
  }

  // ---- One packet ----

  // What holds of a lone frame from its first packet until it is delivered.
  ghost predicate Tracks(code: Code, sent: SentFrame, p: Pending, got: set<Key>)
    requires |sent.data| <= MAX_FRAME
  {
    WellFormed(p) && Genuine(code, sent, p) && Follows(sent, p, got) && CaughtUp(sent, p, got)
  }

  lemma FillFollows(sent: SentFrame, p: Pending, got: set<Key>, index: nat, payload: Bytes)
    requires |p.slots| == sent.Count() && Follows(sent, p, got) && index < |p.slots|
    ensures Follows(sent, Fill(p, index, payload), got + {DataKey(index)})
  {
    hide BlockCount, FragmentCount, BlockOf, Held;
    var more := got + {DataKey(index)};
    forall b | 0 <= b < BlockCount(sent.Count())
      ensures Held(sent, got, b) <= Held(sent, more, b)
    {
      HeldGrows(sent, got, more, b);
    }
  }

  lemma StoreFollows(sent: SentFrame, p: Pending, got: set<Key>, prefix: Prefix, shard: Bytes)
    requires |p.slots| == sent.Count() && Follows(sent, p, got) && prefix.index < |BlockEntry(p, prefix)|
    ensures Follows(sent, Store(p, prefix, shard), got + {ParityKey(prefix.block, prefix.index)})
  {
    hide BlockCount, FragmentCount, BlockOf, Held;
    var more := got + {ParityKey(prefix.block, prefix.index)};
    forall b | 0 <= b < BlockCount(sent.Count())
      ensures Held(sent, got, b) <= Held(sent, more, b)
    {
      HeldGrows(sent, got, more, b);
    }
    var q := Store(p, prefix, shard);
    forall b: nat, j: nat
      ensures Stores(q, b, j) <==> Stores(p, b, j) || (b == prefix.block && j == prefix.index)
    {}
  }

  // ---- A shard the full store refuses ----

  // What the first `c` blocks have stored, when block `b` lacks some of its parity.
  lemma {:induction false} StoredBelowTotal(code: Code, sent: SentFrame, p: Pending, b: nat, c: nat)
    requires |sent.data| <= MAX_FRAME && Genuine(code, sent, p)
    requires b < BlockCount(sent.Count()) && c <= BlockCount(sent.Count())
    ensures var s := if b in p.parity then CountSome(p.parity[b]) else 0;
            && s <= ParityOf(sent, b)
            && Stored(p.parity, c) + (if b < c then ParityOf(sent, b) - s else 0) <= ParityTotal(sent, c)
  {
    hide BlockCount, FragmentCount, CountSome, Piece, ParityShards, ParityOf;
    ParityLength(code, sent, b);
    if c > 0 {
      StoredBelowTotal(code, sent, p, b, c - 1);
      ParityLength(code, sent, c - 1);
    }
  }

  lemma {:induction false} ParityAtLeast(shards: seq<Slot>, got: set<Key>, b: nat, m: nat)
    requires m <= |shards|
    requires forall j :: 0 <= j < m && shards[j].Some? ==> ParityKey(b, j) in got
    ensures CountSome(shards[..m]) <= ParityHeld(got, b, m)
  {
    if m > 0 {
      ParityAtLeast(shards, got, b, m - 1);
      assert shards[..m][..m - 1] == shards[..m - 1];
    }
  }

  // A block whose shard finds the store full has enough.
  lemma RefusedHasEnough(code: Code, sent: SentFrame, p: Pending, got: set<Key>, b: nat, j: nat)
    requires |sent.data| <= MAX_FRAME && Room(sent) && WellFormed(p) && Genuine(code, sent, p) && Follows(sent, p, got)
    requires b < BlockCount(sent.Count()) && j < ParityOf(sent, b) && !Stores(p, b, j)
    requires p.parityStored >= Max(|p.slots|, 8)
    ensures Enough(sent, got, b)
  {
    hide BlockCount, FragmentCount, CountSome, Piece, ParityShards, ParityOf, Stored, BlockStart, DataHeld,
      ParityHeld, ParityTotal, Genuine, TotalBytes;
    assert |p.slots| == sent.Count() by { GenuineStampOf(code, sent, p); }
    BlockBounds(sent.Count(), b);
    StoredBelowTotal(code, sent, p, b, BlockCount(sent.Count()));
    assert b in p.parity;
    var shards := p.parity[b];
    assert |shards| == ParityOf(sent, b) by { ParityOfLength(code, sent, p, b); }
    CountFull(shards);
    assert shards[..|shards|] == shards;
    forall i | 0 <= i < |shards| && shards[i].Some? ensures ParityKey(b, i) in got {
      assert Stores(p, b, i);
    }
    ParityAtLeast(shards, got, b, |shards|);
    assert CountSome(shards) < |shards|;
  }

  lemma GenuineStampOf(code: Code, sent: SentFrame, p: Pending)
    requires |sent.data| <= MAX_FRAME && Genuine(code, sent, p)
    ensures |p.slots| == sent.Count()
  {}

  lemma ParityOfLength(code: Code, sent: SentFrame, p: Pending, b: nat)
    requires |sent.data| <= MAX_FRAME && Genuine(code, sent, p) && b in p.parity
    ensures b < BlockCount(sent.Count()) && |p.parity[b]| == ParityOf(sent, b)
  {
    hide FragmentCount, BlockCount, Piece, ParityShards;
    ParityLength(code, sent, b);
  }

  // Refusing a shard of a block that has enough costs nothing.
  lemma RefusedFollows(sent: SentFrame, p: Pending, got: set<Key>, b: nat, j: nat)
    requires |p.slots| == sent.Count() && Follows(sent, p, got) && CaughtUp(sent, p, got)
    requires b < BlockCount(sent.Count()) && Enough(sent, got, b)
    ensures Follows(sent, p, got + {ParityKey(b, j)}) && CaughtUp(sent, p, got + {ParityKey(b, j)})
  {
    hide FragmentCount, BlockCount, BlockOf, Held;
    var more := got + {ParityKey(b, j)};
    forall c | 0 <= c < BlockCount(sent.Count())
      ensures Held(sent, got, c) <= Held(sent, more, c)
      ensures c != b ==> Held(sent, got, c) == Held(sent, more, c)
    {
      HeldGrows(sent, got, more, c);
      if c != b {
        HeldOtherParity(sent, got, b, j, c);
      }
    }
    forall i | 0 <= i < |p.slots| ensures BlockOf(|p.slots|, i) < BlockCount(|p.slots|) {}
  }

  lemma HeldOtherParity(sent: SentFrame, got: set<Key>, b: nat, j: nat, c: nat)
    requires c < BlockCount(sent.Count()) && c != b
    ensures Held(sent, got + {ParityKey(b, j)}, c) == Held(sent, got, c)
  {
    hide FragmentCount, BlockCount, BlockStart;
    BlockBounds(sent.Count(), c);
    DataHeldParity(got, b, j, BlockStart(sent.Count(), c), BlockStart(sent.Count(), c + 1));
    ParityHeldElsewhere(got, b, j, c, ParityOf(sent, c));
  }

  lemma {:induction false} DataHeldParity(got: set<Key>, b: nat, j: nat, lo: nat, hi: nat)
    requires lo <= hi
    ensures DataHeld(got + {ParityKey(b, j)}, lo, hi) == DataHeld(got, lo, hi)
  {
    if lo < hi {
      DataHeldParity(got, b, j, lo, hi - 1);
    }
  }

  lemma {:induction false} ParityHeldElsewhere(got: set<Key>, b: nat, j: nat, c: nat, m: nat)
    requires b != c
    ensures ParityHeld(got + {ParityKey(b, j)}, c, m) == ParityHeld(got, c, m)
  {
    if m > 0 {
      ParityHeldElsewhere(got, b, j, c, m - 1);
    }
  }

  // What an unfinished lone frame is after one more of its packets.
  function After(code: Code, p: Pending, a: Arrival): Pending
    requires WellFormed(p) && Fits(a, |p.slots|)
  {
    match Absorb(code, p, a)
    case Grown(q, _) => q
    case _ => p
  }

  lemma FillTracks(code: Code, sent: SentFrame, p: Pending, got: set<Key>, index: nat, payload: Bytes)
    requires Sendable(code, sent) && Tracks(code, sent, p, got)
    requires ShardOf(code, sent, Data(index, payload)) && Fits(Data(index, payload), |p.slots|) && p.slots[index].None?
    ensures var q := Fill(p, index, payload);
      && WellFormed(q) && Genuine(code, sent, q)
      && Tracks(code, sent, if q.parity == map[] then q else Rebuilt(code, q), got + {DataKey(index)})
  {
    hide FragmentCount, BlockCount, CountSome, Piece, ParityShards, Recoverable, Stored, BlockOf, Held, Rebuilt,
      TotalBytes;
    var q := Fill(p, index, payload);
    FillFollows(sent, p, got, index, payload);
    FillWellFormed(p, index, payload);
    assert Genuine(code, sent, q);
    if q.parity == map[] {
      NoParityCaughtUp(code, sent, q, got + {DataKey(index)});
    } else {
      RebuiltFollows(code, sent, q, got + {DataKey(index)});
      RebuiltGenuine(code, sent, q);
      RebuiltWellFormed(code, q);
    }
  }

  lemma StoreTracks(code: Code, sent: SentFrame, p: Pending, got: set<Key>, prefix: Prefix, shard: Bytes)
    requires Sendable(code, sent) && Tracks(code, sent, p, got)
    requires ShardOf(code, sent, Shard(prefix, shard)) && Fits(Shard(prefix, shard), |p.slots|)
    requires p.parityStored < Max(|p.slots|, 8) && !Stores(p, prefix.block, prefix.index)
    ensures |BlockEntry(p, prefix)| == prefix.count
    ensures BlockEntry(p, prefix)[prefix.index].None? && WellFormed(Store(p, prefix, shard))
    ensures Tracks(code, sent, Rebuilt(code, Store(p, prefix, shard)), got + {ParityKey(prefix.block, prefix.index)})
  {
    hide FragmentCount, BlockCount, CountSome, Piece, ParityShards, Recoverable, Stored, BlockOf, Held, Rebuilt,
      TotalBytes;
    assert |BlockEntry(p, prefix)| == prefix.count;
    var q := Store(p, prefix, shard);
    StoreFollows(sent, p, got, prefix, shard);
    StoreWellFormed(p, prefix, shard);
    assert Genuine(code, sent, q);
    RebuiltFollows(code, sent, q, got + {ParityKey(prefix.block, prefix.index)});
    RebuiltGenuine(code, sent, q);
    RebuiltWellFormed(code, q);
  }

  // A parity shard that changes nothing: the store has it, or is full.
  lemma KeptParityTracks(code: Code, sent: SentFrame, p: Pending, got: set<Key>, b: nat, j: nat)
    requires Sendable(code, sent) && Room(sent) && Tracks(code, sent, p, got)
    requires b < BlockCount(sent.Count()) && j < ParityOf(sent, b)
    requires Stores(p, b, j) || p.parityStored >= Max(|p.slots|, 8)
    ensures Tracks(code, sent, p, got + {ParityKey(b, j)})
  {
    hide FragmentCount, BlockCount, WellFormed, Genuine, ParityOf, BlockOf, Enough, Recoverable;
    GenuineStampOf(code, sent, p);
    if Stores(p, b, j) {
      assert got + {ParityKey(b, j)} == got;
    } else {
      RefusedHasEnough(code, sent, p, got, b, j);
      RefusedFollows(sent, p, got, b, j);
    }
  }

  lemma AbsorbTracks(code: Code, sent: SentFrame, p: Pending, got: set<Key>, a: Arrival)
    requires Sendable(code, sent) && Room(sent) && Tracks(code, sent, p, got)
    requires ShardOf(code, sent, a) && Fits(a, |p.slots|)
    ensures !Absorb(code, p, a).Discarded?
    ensures Tracks(code, sent, After(code, p, a), got + {KeyOf(a)})
  {
    hide FragmentCount, BlockCount, CountSome, Piece, ParityShards, Recoverable, Stored, BlockOf, Held, Rebuilt,
      TotalBytes, WellFormed, Genuine, Room;
    AbsorbGenuine(code, sent, p, a);
    match a
    case Data(index, payload) =>
      if p.slots[index].Some? {
        GenuineStamp(code, sent, p);
        KeptTracks(sent, p, got, a);
      } else {
        FillTracks(code, sent, p, got, index, payload);
      }
    case Shard(prefix, shard) =>
      ParityLength(code, sent, prefix.block);
      if p.parityStored >= Max(|p.slots|, 8) || Stores(p, prefix.block, prefix.index) {
        KeptParityTracks(code, sent, p, got, prefix.block, prefix.index);
      } else {
        StoreTracks(code, sent, p, got, prefix, shard);
      }
  }

  // A repeated or already rebuilt fragment changes nothing.
  lemma KeptTracks(sent: SentFrame, p: Pending, got: set<Key>, a: Arrival)
    requires |p.slots| == sent.Count() && Follows(sent, p, got) && CaughtUp(sent, p, got)
    requires a.Data? && a.index < |p.slots| && p.slots[a.index].Some?
    ensures Follows(sent, p, got + {KeyOf(a)}) && CaughtUp(sent, p, got + {KeyOf(a)})
  {
    hide FragmentCount, BlockCount, BlockOf, Held;
    var more := got + {KeyOf(a)};
    if KeyOf(a) in got {
      assert more == got;
    } else {
      forall b | 0 <= b < BlockCount(sent.Count())
        ensures Held(sent, got, b) <= Held(sent, more, b)
        ensures b != BlockOf(|p.slots|, a.index) ==> Held(sent, got, b) == Held(sent, more, b)
      {
        HeldGrows(sent, got, more, b);
        if b != BlockOf(|p.slots|, a.index) {
          HeldElsewhere(sent, got, a.index, b);
        }
      }
    }
  }

  lemma HeldElsewhere(sent: SentFrame, got: set<Key>, i: nat, b: nat)
    requires i < sent.Count() && b < BlockCount(sent.Count()) && b != BlockOf(sent.Count(), i)
    ensures Held(sent, got + {DataKey(i)}, b) == Held(sent, got, b)
  {
    hide FragmentCount, BlockCount, BlockStart;
    var n := sent.Count();
    BlockBounds(n, b);
    if BlockStart(n, b) <= i < BlockStart(n, b + 1) {
      BlockUnique(n, i, b);
    }
    DataHeldElsewhere(got, i, BlockStart(n, b), BlockStart(n, b + 1));
    ParityHeldData(got, i, b, ParityOf(sent, b));
  }

  lemma {:induction false} DataHeldElsewhere(got: set<Key>, i: nat, lo: nat, hi: nat)
    requires lo <= hi && !(lo <= i < hi)
    ensures DataHeld(got + {DataKey(i)}, lo, hi) == DataHeld(got, lo, hi)
  {
    if lo < hi {
      DataHeldElsewhere(got, i, lo, hi - 1);
    }
  }

  lemma {:induction false} ParityHeldData(got: set<Key>, i: nat, b: nat, m: nat)
    ensures ParityHeld(got + {DataKey(i)}, b, m) == ParityHeld(got, b, m)
  {
    if m > 0 {
      ParityHeldData(got, i, b, m - 1);
    }
  }

  // A frame that keeps up has all its slots exactly when every block has enough.
  lemma WholeWhenEnough(code: Code, sent: SentFrame, p: Pending, got: set<Key>)
    requires Sendable(code, sent) && Tracks(code, sent, p, got)
    ensures p.received == |p.slots| <==> EnoughForAll(sent, got)
  {
    hide FragmentCount, BlockCount, BlockStart, CountSome, Piece, ParityShards, Recoverable, Held, TotalBytes,
      BlockSlots;
    CountFull(p.slots);
    if p.received == |p.slots| {
      forall b | 0 <= b < BlockCount(sent.Count())
        ensures Enough(sent, got, b)
      {
        BlockBounds(|p.slots|, b);
        BlockCounts(code, sent, p, got, b);
        WholeSlots(p, b);
        CountFull(BlockSlots(p, b));
      }
    }
  }

  lemma WholeSlots(p: Pending, b: nat)
    requires |p.slots| > 0 && b < BlockCount(|p.slots|) && AllSome(p.slots)
    ensures AllSome(BlockSlots(p, b))
  {
    hide BlockCount, BlockStart;
    BlockBounds(|p.slots|, b);
  }

  // ---- Runs of a lone frame ----

  // The packets of the frame are the only ones on its stream, and nobody gives up on that stream.
  ghost predicate Lone(code: Code, sent: SentFrame, ops: seq<Op>)
    requires |sent.data| <= MAX_FRAME
  {
    forall op :: op in ops ==>
      && Readable(op)
      && (op.GiveUp? ==> op.stream != sent.stream)
      && (op.Arrive? && op.header.stream == sent.stream ==> PacketOf(code, sent, op.header, op.payload))
  }

  // The shards of the frame among what arrived.
  function Got(sent: SentFrame, ops: seq<Op>): set<Key>
    requires forall op :: op in ops ==> Readable(op)
  {
    if ops == [] then {}
    else
      var op := ops[|ops| - 1];
      assert Readable(op);
      Got(sent, ops[..|ops| - 1])
      + if op.Arrive? && op.header.stream == sent.stream && Read(op.header, op.payload).Good?
        then {KeyOf(Read(op.header, op.payload).arrival)} else {}
  }

  // What was delivered on a stream.
  function On(delivered: seq<Frame>, stream: u16): seq<Frame> {
    if delivered == [] then []
    else
      On(delivered[..|delivered| - 1], stream)
      + if delivered[|delivered| - 1].stream == stream then [delivered[|delivered| - 1]] else []
  }

  function Whole(sent: SentFrame): Frame {
    Frame(sent.stream, sent.frame, sent.sentUs, sent.data)
  }

  // The stream of a lone frame: nothing of it came, or it waits and keeps up, or it was delivered.
  ghost predicate LoneStream(code: Code, sent: SentFrame, st: StreamState, got: set<Key>)
    requires |sent.data| <= MAX_FRAME
  {
    if EnoughForAll(sent, got) then st.lastDelivered == Some(sent.frame) && st.pending == []
    else if got == {} then st.pending == [] && Ahead(st, sent.frame)
    else |st.pending| == 1 && Tracks(code, sent, st.pending[0], got) && Ahead(st, sent.frame)
  }

  lemma NoneIsNotEnough(sent: SentFrame)
    ensures !EnoughForAll(sent, {})
  {
    hide BlockCount, BlockStart, FragmentCount;
    BlockBounds(sent.Count(), 0);
    NoParityHeld({}, 0, ParityOf(sent, 0));
    NoDataHeld(BlockStart(sent.Count(), 0), BlockStart(sent.Count(), 1));
    assert !Enough(sent, {}, 0);
  }

  lemma {:induction false} NoDataHeld(lo: nat, hi: nat)
    requires lo <= hi
    ensures DataHeld({}, lo, hi) == 0
  {
    if lo < hi {
      NoDataHeld(lo, hi - 1);
    }
  }

  lemma EnoughStays(sent: SentFrame, got: set<Key>, more: set<Key>)
    requires got <= more && EnoughForAll(sent, got)
    ensures EnoughForAll(sent, more)
  {
    hide FragmentCount, BlockCount, Held;
    forall b | 0 <= b < BlockCount(sent.Count()) ensures Enough(sent, more, b) {
      HeldGrows(sent, got, more, b);
      assert Enough(sent, got, b);
    }
  }

  lemma NewTracks(code: Code, sent: SentFrame)
    requires Sendable(code, sent)
    ensures var p := NewPending(sent.frame, sent.sentUs, sent.Count());
      Tracks(code, sent, p, {}) && p.received < |p.slots|
  {
    hide FragmentCount, Piece, ParityShards, Recoverable, Enough;
    NewGenuine(code, sent);
    var p := NewPending(sent.frame, sent.sentUs, sent.Count());
    GenuineStamp(code, sent, p);
    NewWellFormed(sent.frame, sent.sentUs, sent.Count());
    EmptyCounts(sent.Count());
    NoParityCaughtUp(code, sent, p, {});
  }

  // One more packet grows the frame at index 0 and delivers it exactly when every block has enough.
  lemma UpdateLone(code: Code, sent: SentFrame, st: StreamState, got: set<Key>, a: Arrival)
    requires Sendable(code, sent) && Room(sent) && |st.pending| == 1 && Ahead(st, sent.frame)
    requires Tracks(code, sent, st.pending[0], got) && st.pending[0].received < |st.pending[0].slots|
    requires ShardOf(code, sent, a) && Fits(a, |st.pending[0].slots|)
    ensures var e := Update(code, st, 0, sent.stream, a);
      && LoneStream(code, sent, e.stream, got + {KeyOf(a)})
      && e.reply == if EnoughForAll(sent, got + {KeyOf(a)}) then Ok(Some(Whole(sent))) else Ok(None)
  {
    hide WellFormed, Absorb, Fits, Genuine, ShardOf, Recoverable, Newer, Tracks, EnoughForAll, Room, FragmentCount;
    var p := st.pending[0];
    assert WellFormed(p) && Genuine(code, sent, p) by { TracksFacts(code, sent, p, got); }
    AbsorbTracks(code, sent, p, got, a);
    var q := After(code, p, a);
    TracksFacts(code, sent, q, got + {KeyOf(a)});
    WholeWhenEnough(code, sent, q, got + {KeyOf(a)});
    if Absorb(code, p, a).Grown? && q.received >= |q.slots| {
      CompleteIsSent(code, sent, q);
      GenuineStamp(code, sent, q);
    }
  }

  lemma TracksFacts(code: Code, sent: SentFrame, p: Pending, got: set<Key>)
    requires |sent.data| <= MAX_FRAME && Tracks(code, sent, p, got)
    ensures WellFormed(p) && Genuine(code, sent, p) && p.received <= |p.slots| == sent.Count() && p.frame == sent.frame
  {}

  lemma PushLone(code: Code, sent: SentFrame, st: StreamState, got: set<Key>, header: Header, payload: Bytes)
    requires Sendable(code, sent) && Room(sent) && PacketOf(code, sent, header, payload)
    requires AllWellFormed(st.pending) && LoneStream(code, sent, st, got)
    ensures header.Decodable() && Read(header, payload).Good?
    ensures var a := Read(header, payload).arrival;
      var e := PushStream(code, st, header, a);
      && LoneStream(code, sent, e.stream, got + {KeyOf(a)})
      && e.reply == (if EnoughForAll(sent, got + {KeyOf(a)}) && !EnoughForAll(sent, got)
                     then Ok(Some(Whole(sent))) else Ok(None))
      && (!Delivers(e.reply) ==> e.stream.lastDelivered == st.lastDelivered)
  {
    hide WellFormed, Fits, Update, Genuine, ShardOf, Recoverable, PacketOf, Oldest, Read, FragmentCount, Tracks,
      EnoughForAll, Room, Newer;
    PacketReads(code, sent, header, payload);
    var a := Read(header, payload).arrival;
    LastStays(code, st, header, a);
    if EnoughForAll(sent, got) {
      EnoughStays(sent, got, got + {KeyOf(a)});
      assert !Newer(sent.frame, sent.frame) by {
        NewerOneWay(sent.frame, sent.frame);
        NewerIsPast(sent.frame, sent.frame);
      }
    } else if got == {} {
      NewTracks(code, sent);
      var p := NewPending(sent.frame, sent.sentUs, sent.Count());
      TracksFacts(code, sent, p, {});
      assert IndexOf(st.pending, sent.frame) == None;
      assert st.pending + [p] == [p];
      UpdateLone(code, sent, st.(pending := [p]), {}, a);
    } else {
      TracksFacts(code, sent, st.pending[0], got);
      assert IndexOf(st.pending, sent.frame) == Some(0);
      UpdateLone(code, sent, st, got, a);
    }
  }

  // Only a delivery changes what was delivered last.
  lemma LastStays(code: Code, st: StreamState, header: Header, a: Arrival)
    requires AllWellFormed(st.pending) && header.fragments > 0 && Fits(a, header.fragments)
    ensures var e := PushStream(code, st, header, a);
      !Delivers(e.reply) ==> e.stream.lastDelivered == st.lastDelivered
  {
    hide WellFormed, Absorb, Fits;
  }

  // An operation on another stream leaves this one alone.
  lemma OtherStream(code: Code, log: Log, op: Op, stream: u16)
    requires Sound(log.state) && Readable(op)
    requires if op.Arrive? then op.header.stream != stream else op.stream != stream
    ensures Step(code, log, op).state.Stream(stream) == log.state.Stream(stream)
    ensures On(Step(code, log, op).delivered, stream) == On(log.delivered, stream)
  {
    hide WellFormed, PushStream, Read;
    match op
    case GiveUp(_, _) =>
    case Arrive(header, payload) =>
      var reading := Read(header, payload);
      if reading.Good? {
        var st := log.state.Stream(header.stream);
        var e := PushStream(code, st, header, reading.arrival);
        if Delivers(e.reply) {
          DeliversOwnStream(code, st, header, reading.arrival);
          assert (log.delivered + [e.reply.value.value])[..|log.delivered|] == log.delivered;
        }
      }
      assert log.delivered + [] == log.delivered;
  }

  lemma DeliversOwnStream(code: Code, st: StreamState, header: Header, a: Arrival)
    requires AllWellFormed(st.pending) && header.fragments > 0 && Fits(a, header.fragments)
    requires Delivers(PushStream(code, st, header, a).reply)
    ensures PushStream(code, st, header, a).reply.value.value.stream == header.stream
  {
    hide WellFormed, Absorb, Fits;
  }

  // A lone frame is delivered once, whole, at the first packet after which every block has enough shards, whatever
  // the order and repetition of its packets and whatever happens on other streams in between.
  lemma {:induction false} DeliveredWhenEnough(code: Code, sent: SentFrame, start: Log, ops: seq<Op>)
    requires Sendable(code, sent) && Room(sent) && Lone(code, sent, ops)
    requires Sound(start.state)
    requires start.state.Stream(sent.stream).pending == [] && Ahead(start.state.Stream(sent.stream), sent.frame)
    ensures var log := RunFrom(code, start, ops);
      && LoneStream(code, sent, log.state.Stream(sent.stream), Got(sent, ops))
      && On(log.delivered, sent.stream)
         == On(start.delivered, sent.stream) + (if EnoughForAll(sent, Got(sent, ops)) then [Whole(sent)] else [])
      && (!EnoughForAll(sent, Got(sent, ops)) ==>
            log.state.Stream(sent.stream).lastDelivered == start.state.Stream(sent.stream).lastDelivered)
  {
    hide WellFormed, PushStream, Read, PacketOf, Recoverable, Room, EnoughForAll, FragmentCount, LoneStream, Step;
    if ops == [] {
      NoneIsNotEnough(sent);
      assert LoneStream(code, sent, start.state.Stream(sent.stream), {}) by {
        LoneAtStart(code, sent, start.state.Stream(sent.stream));
      }
    } else {
      var init, op := ops[..|ops| - 1], ops[|ops| - 1];
      assert op in ops;
      DeliveredWhenEnough(code, sent, start, init);
      var log, got := RunFrom(code, start, init), Got(sent, init);
      if op.Arrive? && op.header.stream == sent.stream {
        ArriveLone(code, sent, log, got, op.header, op.payload);
        EnoughStaysIf(sent, got, Got(sent, ops));
      } else {
        OtherStream(code, log, op, sent.stream);
        assert Got(sent, ops) == got;
      }
    }
  }

  lemma LoneAtStart(code: Code, sent: SentFrame, st: StreamState)
    requires |sent.data| <= MAX_FRAME && st.pending == [] && Ahead(st, sent.frame)
    ensures LoneStream(code, sent, st, {})
  {
    hide EnoughForAll;
    NoneIsNotEnough(sent);
  }

  lemma EnoughStaysIf(sent: SentFrame, got: set<Key>, more: set<Key>)
    requires got <= more
    ensures EnoughForAll(sent, got) ==> EnoughForAll(sent, more)
  {
    hide EnoughForAll;
    if EnoughForAll(sent, got) {
      EnoughStays(sent, got, more);
    }
  }

  lemma ArriveLone(code: Code, sent: SentFrame, log: Log, got: set<Key>, header: Header, payload: Bytes)
    requires Sendable(code, sent) && Room(sent) && PacketOf(code, sent, header, payload) && header.Decodable()
    requires Sound(log.state) && LoneStream(code, sent, log.state.Stream(sent.stream), got)
    requires header.stream == sent.stream
    ensures Read(header, payload).Good?
    ensures var more := got + {KeyOf(Read(header, payload).arrival)};
      var after := Step(code, log, Arrive(header, payload));
      && LoneStream(code, sent, after.state.Stream(sent.stream), more)
      && On(after.delivered, sent.stream)
         == On(log.delivered, sent.stream)
            + (if EnoughForAll(sent, more) && !EnoughForAll(sent, got) then [Whole(sent)] else [])
      && (!EnoughForAll(sent, more) ==>
            after.state.Stream(sent.stream).lastDelivered == log.state.Stream(sent.stream).lastDelivered)
  {
    hide WellFormed, PushStream, Read, PacketOf, Recoverable, Room, EnoughForAll, FragmentCount, LoneStream;
    PushLone(code, sent, log.state.Stream(sent.stream), got, header, payload);
    assert (log.delivered + [Whole(sent)])[..|log.delivered|] == log.delivered;
    assert log.delivered + [] == log.delivered;
  }
}
