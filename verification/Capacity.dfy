/**
 Why a lone frame needs room in the store for parity: without it, a run that
 brings every block enough shards can still fail to deliver the frame.
 */
module Capacity {
  import opened Wrappers
  import opened Words
  import opened Headers
  import opened Blocks
  import opened Slots
  import opened Erasure
  import opened Parity
  import opened Fragments
  import opened Pendings
  import opened Reassembly
  import opened Runs
  import opened Soundness
  import opened Completeness

  // ---- Packets by their shards ----

  predicate Valid(sent: SentFrame, key: Key) {
    match key
    case DataKey(i) => i < sent.Count()
    case ParityKey(b, j) => b < BlockCount(sent.Count()) && j < ParityOf(sent, b)
  }

  ghost predicate Carries(code: Code, sent: SentFrame, key: Key, op: Op)
    requires |sent.data| <= MAX_FRAME
  {
    && op.Arrive? && op.header.Decodable() && op.header.stream == sent.stream
    && PacketOf(code, sent, op.header, op.payload)
    && Read(op.header, op.payload).Good?
    && KeyOf(Read(op.header, op.payload).arrival) == key
  }

  lemma {:induction false} ParityThere(code: Code, sent: SentFrame, b: nat, j: nat, count: nat) returns (number: nat)
    requires |sent.data| <= MAX_FRAME && b < count <= BlockCount(sent.Count())
    requires j < |ParityShards(code, sent.policy, sent.DataPackets(), b)|
    ensures ParityPacket(code, sent.policy, sent.DataPackets(), b, j, number)
            in ParityBefore(code, sent.policy, sent.DataPackets(), count)
  {
    hide BlockCount, FragmentCount, ParityPacket, ParityShards, Piece;
    var data := sent.DataPackets();
    var earlier := ParityBefore(code, sent.policy, data, count - 1);
    if b < count - 1 {
      number := ParityThere(code, sent, b, j, count - 1);
    } else {
      number := |earlier| + j;
      var s := ParityOfBlock(code, sent.policy, data, b, |earlier|);
      assert s[j] == ParityPacket(code, sent.policy, data, b, j, number);
      assert s[j] in s;
    }
  }

  lemma CarrierExists(code: Code, sent: SentFrame, key: Key)
    requires Sendable(code, sent) && Valid(sent, key)
    ensures exists op :: Carries(code, sent, key, op)
  {
    hide BlockCount, FragmentCount, ParityShards, Piece, Recoverable, Parse, ParityPayload, ParityOf;
    var q;
    match key {
      case DataKey(i) =>
        q := sent.DataPackets()[i];
        assert q in sent.DataPackets();
      case ParityKey(b, j) =>
        ParityLength(code, sent, b);
        var number := ParityThere(code, sent, b, j, BlockCount(sent.Count()));
        ParityPacketReads(code, sent, b, j, number);
        q := ParityPacket(code, sent.policy, sent.DataPackets(), b, j, number);
    }
    assert q in sent.Packets(code);
    assert q.header.(packet := 0) == q.header;
    assert PacketOf(code, sent, q.header, q.payload);
    PacketReads(code, sent, q.header, q.payload);
    assert Carries(code, sent, key, Arrive(q.header, q.payload));
  }

  ghost function PacketFor(code: Code, sent: SentFrame, key: Key): (op: Op)
    requires Sendable(code, sent) && Valid(sent, key)
    ensures Carries(code, sent, key, op)
  {
    hide Recoverable, Valid, Carries;
    CarrierExists(code, sent, key);
    var op :| Carries(code, sent, key, op);
    op
  }

  // One packet for each key, in order.
  ghost function Feed(code: Code, sent: SentFrame, keys: seq<Key>): (ops: seq<Op>)
    requires Sendable(code, sent) && forall key :: key in keys ==> Valid(sent, key)
    ensures |ops| == |keys| && forall i :: 0 <= i < |keys| ==> Carries(code, sent, keys[i], ops[i])
  {
    hide Recoverable, Valid, Carries;
    assert forall i :: 0 <= i < |keys| ==> keys[i] in keys;
    seq(|keys|, i requires 0 <= i < |keys| => PacketFor(code, sent, keys[i]))
  }

  lemma FeedLone(code: Code, sent: SentFrame, keys: seq<Key>)
    requires Sendable(code, sent) && forall key :: key in keys ==> Valid(sent, key)
    ensures Lone(code, sent, Feed(code, sent, keys))
  {
    hide PacketOf, Read, Feed, Recoverable, Valid;
  }

  lemma {:induction false} FeedGot(code: Code, sent: SentFrame, keys: seq<Key>)
    requires Sendable(code, sent) && forall key :: key in keys ==> Valid(sent, key)
    ensures forall op :: op in Feed(code, sent, keys) ==> Readable(op)
    ensures forall key :: key in keys ==> key in Got(sent, Feed(code, sent, keys))
  {
    hide PacketOf, Read, Recoverable, Valid;
    FeedLone(code, sent, keys);
    if keys != [] {
      var init, last := keys[..|keys| - 1], keys[|keys| - 1];
      assert keys == init + [last];
      FeedGot(code, sent, init);
      var ops := Feed(code, sent, keys);
      assert ops[..|ops| - 1] == Feed(code, sent, init);
      assert Carries(code, sent, last, ops[|ops| - 1]);
    }
  }

  // ---- A block that is kept short ----

  // The shards of block `b` that are let through: all but the last parity it can use, and data to match.
  predicate Lean(sent: SentFrame, b: nat, key: Key)
    requires b < BlockCount(sent.Count())
  {
    match key
    case DataKey(i) =>
      !(BlockStart(sent.Count(), b + 1) - Needed(sent, b) <= i < BlockStart(sent.Count(), b + 1))
    case ParityKey(c, j) => c == b ==> j < Needed(sent, b) - 1
  }

  ghost predicate Starved(code: Code, sent: SentFrame, b: nat, p: Pending)
    requires |sent.data| <= MAX_FRAME && b < BlockCount(sent.Count())
  {
    && WellFormed(p) && Genuine(code, sent, p)
    && (forall i :: 0 <= i < |p.slots| && p.slots[i].Some? ==> Lean(sent, b, DataKey(i)))
    && (forall j: nat :: Stores(p, b, j) ==> Lean(sent, b, ParityKey(b, j)))
  }

  lemma {:induction false} CountMost(s: seq<Slot>, m: nat)
    requires forall i :: m <= i < |s| ==> s[i].None?
    ensures CountSome(s) <= m
  {
    if |s| > m {
      CountMost(s[..|s| - 1], m);
    }
  }

  lemma {:induction false} CountLeast(s: seq<Slot>, m: nat)
    requires m <= |s| && forall i :: 0 <= i < m ==> s[i].Some?
    ensures CountSome(s) >= m
  {
    if m > 0 {
      if |s| > m {
        CountLeast(s[..|s| - 1], m);
      } else {
        CountLeast(s[..|s| - 1], m - 1);
      }
    }
  }

  // The block never has shards enough, so it stays as it is.
  lemma StarvedBlock(code: Code, sent: SentFrame, b: nat, p: Pending)
    requires Sendable(code, sent) && b < BlockCount(sent.Count()) && Needed(sent, b) > 0 && Starved(code, sent, b, p)
    ensures |p.slots| == sent.Count() && RebuiltBlock(code, p, b).None? && p.received < |p.slots|
  {
    hide BlockCount, BlockStart, FragmentCount, CountSome, ParityShards, Recoverable, ParityOf, RebuiltBlock,
      BlockShards, TotalBytes;
    GenuineStampOf(code, sent, p);
    var n := sent.Count();
    BlockBounds(n, b);
    var lo, hi := BlockStart(n, b), BlockStart(n, b + 1);
    var slots := BlockSlots(p, b);
    assert slots == p.slots[lo..hi];
    forall i | hi - lo - Needed(sent, b) <= i < |slots| ensures slots[i].None? {
      assert slots[i] == p.slots[lo + i];
    }
    CountMost(slots, hi - lo - Needed(sent, b));
    if b in p.parity {
      forall j | Needed(sent, b) - 1 <= j < |p.parity[b]| ensures p.parity[b][j].None? {
        assert Stores(p, b, j) ==> Lean(sent, b, ParityKey(b, j));
      }
      CountMost(p.parity[b], Needed(sent, b) - 1);
    }
    RebuiltBlockGenuine(code, sent, p, b);
    CountFull(p.slots);
    assert p.slots[hi - 1].None?;
  }

  lemma StarvedRebuilt(code: Code, sent: SentFrame, b: nat, p: Pending)
    requires Sendable(code, sent) && b < BlockCount(sent.Count()) && Needed(sent, b) > 0 && Starved(code, sent, b, p)
    ensures Starved(code, sent, b, Rebuilt(code, p)) && Rebuilt(code, p).received < |Rebuilt(code, p).slots|
  {
    hide BlockCount, BlockStart, FragmentCount, CountSome, TotalBytes, Recoverable, RebuiltBlock, RebuiltSlot,
      SlotsSized, Stored, Genuine, Needed;
    StarvedBlock(code, sent, b, p);
    RebuiltWellFormed(code, p);
    RebuiltGenuine(code, sent, p);
    var r := Rebuilt(code, p);
    forall i | 0 <= i < |r.slots| && r.slots[i].Some?
      ensures Lean(sent, b, DataKey(i))
    {
      RebuiltHere(code, sent, b, p, i);
    }
    assert forall j: nat :: Stores(r, b, j) <==> Stores(p, b, j);
    StarvedBlock(code, sent, b, r);
  }

  lemma RebuiltHere(code: Code, sent: SentFrame, b: nat, p: Pending, i: nat)
    requires WellFormed(p) && |p.slots| == sent.Count() && b < BlockCount(sent.Count()) && i < |p.slots|
    requires RebuiltBlock(code, p, b).None? && Needed(sent, b) > 0
    ensures |Rebuilt(code, p).slots| == |p.slots|
    ensures Rebuilt(code, p).slots[i] == p.slots[i] || Lean(sent, b, DataKey(i))
  {
    hide BlockCount, BlockStart, FragmentCount, CountSome, TotalBytes, RebuiltBlock, RebuiltSlot, ParityOf;
    BlockBounds(sent.Count(), b);
    if BlockStart(sent.Count(), b) <= i < BlockStart(sent.Count(), b + 1) {
      SlotInBlock(code, p, b, i);
    }
  }

  predicate FullStore(p: Pending) {
    p.parityStored >= Max(|p.slots|, 8)
  }

  // The shard is in the store, or the store is full.
  ghost predicate StoredOrFull(p: Pending, key: Key) {
    key.ParityKey? ==> FullStore(p) || Stores(p, key.block, key.index)
  }

  // One packet that is let through, or finds the store full.
  lemma AbsorbStarves(code: Code, sent: SentFrame, b: nat, p: Pending, a: Arrival)
    requires Sendable(code, sent) && b < BlockCount(sent.Count()) && Needed(sent, b) > 0 && Starved(code, sent, b, p)
    requires ShardOf(code, sent, a) && Fits(a, |p.slots|)
    requires Lean(sent, b, KeyOf(a)) || (a.Shard? && FullStore(p))
    ensures !Absorb(code, p, a).Discarded?
    ensures var q := After(code, p, a);
            && Starved(code, sent, b, q) && q.received < |q.slots| && StoredOrFull(q, KeyOf(a))
            && (FullStore(p) ==> FullStore(q))
            && forall key :: StoredOrFull(p, key) ==> StoredOrFull(q, key)
  {
    hide BlockCount, BlockStart, FragmentCount, Recoverable, Rebuilt, Needed, Lean, Starved, Store, WellFormed,
      Genuine, ShardOf;
    StarvedForms(code, sent, b, p);
    AbsorbGenuine(code, sent, p, a);
    StarvedBlock(code, sent, b, p);
    match a
    case Data(index, payload) =>
      if p.slots[index].None? {
        FillStarves(code, sent, b, p, index, payload);
      }
    case Shard(prefix, shard) =>
      ShardEntry(code, sent, p, prefix, shard);
      if !FullStore(p) && !Stores(p, prefix.block, prefix.index) {
        StoreStarves(code, sent, b, p, prefix, shard);
      }
  }

  lemma ShardEntry(code: Code, sent: SentFrame, p: Pending, prefix: Prefix, shard: Bytes)
    requires |sent.data| <= MAX_FRAME && Genuine(code, sent, p) && ShardOf(code, sent, Shard(prefix, shard))
    ensures |BlockEntry(p, prefix)| == prefix.count && prefix.index < prefix.count
    ensures BlockEntry(p, prefix)[prefix.index].None? <==> !Stores(p, prefix.block, prefix.index)
  {
    hide BlockCount, FragmentCount, ParityShards, Piece;
  }

  lemma FillStarves(code: Code, sent: SentFrame, b: nat, p: Pending, index: nat, payload: Bytes)
    requires Sendable(code, sent) && b < BlockCount(sent.Count()) && Needed(sent, b) > 0 && Starved(code, sent, b, p)
    requires ShardOf(code, sent, Data(index, payload)) && Fits(Data(index, payload), |p.slots|)
    requires p.slots[index].None? && Lean(sent, b, DataKey(index))
    ensures var q := Fill(p, index, payload);
            && WellFormed(q) && q.received < |q.slots| && Starved(code, sent, b, q)
            && Starved(code, sent, b, Rebuilt(code, q)) && Rebuilt(code, q).received < |Rebuilt(code, q).slots|
            && Rebuilt(code, q).parity == p.parity && Rebuilt(code, q).parityStored == p.parityStored
            && |Rebuilt(code, q).slots| == |p.slots|
  {
    hide BlockCount, BlockStart, FragmentCount, CountSome, TotalBytes, Recoverable, ParityShards, Piece, Rebuilt,
      Needed, Lean, Stored, BlockShards;
    var q := Fill(p, index, payload);
    FillGenuine(code, sent, p, index, payload);
    assert forall j: nat :: Stores(q, b, j) <==> Stores(p, b, j);
    StarvedBlock(code, sent, b, q);
    StarvedRebuilt(code, sent, b, q);
    RebuiltWellFormed(code, q);
  }

  lemma StoreStarves(code: Code, sent: SentFrame, b: nat, p: Pending, prefix: Prefix, shard: Bytes)
    requires Sendable(code, sent) && b < BlockCount(sent.Count()) && Needed(sent, b) > 0 && Starved(code, sent, b, p)
    requires ShardOf(code, sent, Shard(prefix, shard)) && Fits(Shard(prefix, shard), |p.slots|)
    requires Lean(sent, b, ParityKey(prefix.block, prefix.index))
    requires !FullStore(p) && !Stores(p, prefix.block, prefix.index)
    ensures |BlockEntry(p, prefix)| == prefix.count && WellFormed(Store(p, prefix, shard))
    ensures var r := Rebuilt(code, Store(p, prefix, shard));
            && Starved(code, sent, b, r) && r.received < |r.slots| == |p.slots|
            && (forall c: nat, j: nat ::
                  Stores(r, c, j) <==> Stores(p, c, j) || (c == prefix.block && j == prefix.index))
  {
    hide BlockCount, BlockStart, FragmentCount, CountSome, TotalBytes, Recoverable, ParityShards, Piece, Rebuilt,
      Needed, Stored, BlockShards;
    StoreGenuine(code, sent, p, prefix, shard);
    var q := Store(p, prefix, shard);
    assert forall c: nat, j: nat ::
      Stores(q, c, j) <==> Stores(p, c, j) || (c == prefix.block && j == prefix.index);
    assert Starved(code, sent, b, q) by { assert Genuine(code, sent, q); }
    StarvedRebuilt(code, sent, b, q);
    RebuiltWellFormed(code, q);
    assert forall c: nat, j: nat :: Stores(Rebuilt(code, q), c, j) <==> Stores(q, c, j);
  }

  // ---- The run ----

  // The stream after the packets for `keys`.
  ghost predicate Fed(code: Code, sent: SentFrame, b: nat, st: StreamState, keys: seq<Key>)
    requires |sent.data| <= MAX_FRAME && b < BlockCount(sent.Count())
  {
    && st.lastDelivered.None?
    && if keys == [] then st.pending == []
       else
         && |st.pending| == 1
         && Starved(code, sent, b, st.pending[0]) && st.pending[0].received < |st.pending[0].slots|
         && forall key :: key in keys ==> StoredOrFull(st.pending[0], key)
  }

  ghost predicate FedFull(st: StreamState) {
    |st.pending| == 1 && FullStore(st.pending[0])
  }

  lemma NewStarved(code: Code, sent: SentFrame, b: nat)
    requires Sendable(code, sent) && b < BlockCount(sent.Count())
    ensures var p := NewPending(sent.frame, sent.sentUs, sent.Count());
            Starved(code, sent, b, p) && p.received < |p.slots| && |p.slots| == sent.Count() && p.frame == sent.frame
  {
    hide BlockCount, BlockStart, Needed, Recoverable, Piece;
    NewGenuine(code, sent);
    GenuineStamp(code, sent, NewPending(sent.frame, sent.sentUs, sent.Count()));
    NewWellFormed(sent.frame, sent.sentUs, sent.Count());
  }

  lemma UpdateStarves(code: Code, sent: SentFrame, b: nat, st: StreamState, keys: seq<Key>, a: Arrival)
    requires Sendable(code, sent) && b < BlockCount(sent.Count()) && Needed(sent, b) > 0
    requires st.lastDelivered.None? && |st.pending| == 1 && Starved(code, sent, b, st.pending[0])
    requires st.pending[0].received < |st.pending[0].slots|
    requires forall key :: key in keys ==> StoredOrFull(st.pending[0], key)
    requires ShardOf(code, sent, a) && Fits(a, |st.pending[0].slots|)
    requires Lean(sent, b, KeyOf(a)) || (a.Shard? && FullStore(st.pending[0]))
    ensures var e := Update(code, st, 0, sent.stream, a);
            && Fed(code, sent, b, e.stream, keys + [KeyOf(a)]) && e.reply == Ok(None)
            && (FedFull(st) ==> FedFull(e.stream))
  {
    hide Absorb, Starved, Fits, ShardOf, Lean, Needed, BlockCount, FragmentCount, FullStore, StoredOrFull, Recoverable;
    assert WellFormed(st.pending[0]) by { StarvedForms(code, sent, b, st.pending[0]); }
    AbsorbStarves(code, sent, b, st.pending[0], a);
  }

  lemma StarvedForms(code: Code, sent: SentFrame, b: nat, p: Pending)
    requires |sent.data| <= MAX_FRAME && b < BlockCount(sent.Count()) && Starved(code, sent, b, p)
    ensures WellFormed(p) && Genuine(code, sent, p) && |p.slots| == sent.Count() && p.frame == sent.frame
  {
    hide WellFormed, BlockCount;
    GenuineStamp(code, sent, p);
  }

  lemma PushStarves(
    code: Code, sent: SentFrame, b: nat, st: StreamState, keys: seq<Key>, header: Header, payload: Bytes)
    requires Sendable(code, sent) && b < BlockCount(sent.Count()) && Needed(sent, b) > 0
    requires PacketOf(code, sent, header, payload) && AllWellFormed(st.pending) && Fed(code, sent, b, st, keys)
    ensures header.Decodable() && Read(header, payload).Good?
    ensures var a := Read(header, payload).arrival;
            var e := PushStream(code, st, header, a);
            Lean(sent, b, KeyOf(a)) || (a.Shard? && FedFull(st)) ==>
              && Fed(code, sent, b, e.stream, keys + [KeyOf(a)]) && e.reply == Ok(None)
              && (FedFull(st) ==> FedFull(e.stream))
  {
    hide WellFormed, Fits, Update, Starved, ShardOf, Recoverable, PacketOf, Oldest, Read, FragmentCount, BlockCount,
      Lean, Needed, Newer, FullStore, StoredOrFull;
    PacketReads(code, sent, header, payload);
    var a := Read(header, payload).arrival;
    if Lean(sent, b, KeyOf(a)) || (a.Shard? && FedFull(st)) {
      if keys == [] {
        NewStarved(code, sent, b);
        var p := NewPending(sent.frame, sent.sentUs, sent.Count());
        assert IndexOf(st.pending, sent.frame) == None;
        assert st.pending + [p] == [p];
        FitsFrame(sent);
        UpdateStarves(code, sent, b, st.(pending := [p]), [], a);
      } else {
        StarvedForms(code, sent, b, st.pending[0]);
        assert IndexOf(st.pending, sent.frame) == Some(0);
        UpdateStarves(code, sent, b, st, keys, a);
      }
    }
  }

  lemma FitsFrame(sent: SentFrame)
    requires |sent.data| <= MAX_FRAME
    ensures sent.Count() * FRAGMENT_SIZE <= MAX_FRAME + FRAGMENT_SIZE
  {}

  // The log after the packets for `keys`: the frame waits, short of a block.
  ghost predicate Short(code: Code, sent: SentFrame, b: nat, log: Log, keys: seq<Key>)
    requires |sent.data| <= MAX_FRAME && b < BlockCount(sent.Count())
  {
    Sound(log.state) && Fed(code, sent, b, log.state.Stream(sent.stream), keys) && On(log.delivered, sent.stream) == []
  }

  lemma FeedOne(code: Code, sent: SentFrame, b: nat, log: Log, keys: seq<Key>, key: Key, op: Op)
    requires Sendable(code, sent) && b < BlockCount(sent.Count()) && Needed(sent, b) > 0
    requires Short(code, sent, b, log, keys) && Carries(code, sent, key, op)
    requires Lean(sent, b, key) || (key.ParityKey? && FedFull(log.state.Stream(sent.stream)))
    ensures Short(code, sent, b, Step(code, log, op), keys + [key])
    ensures FedFull(log.state.Stream(sent.stream)) ==> FedFull(Step(code, log, op).state.Stream(sent.stream))
  {
    hide WellFormed, PushStream, Read, PacketOf, Recoverable, FragmentCount, BlockCount, Lean, Needed, Fed, FedFull;
    PushStarves(code, sent, b, log.state.Stream(sent.stream), keys, op.header, op.payload);
    assert log.delivered + [] == log.delivered;
  }

  // Keys to feed: at first those let through, and once those make the store full, parity of any kind too.
  ghost predicate Feedable(code: Code, sent: SentFrame, b: nat, keys: seq<Key>, lead: nat)
    requires |sent.data| <= MAX_FRAME && b < BlockCount(sent.Count())
  {
    && lead <= |keys|
    && (forall key :: key in keys ==> Valid(sent, key))
    && (forall i :: 0 <= i < |keys| ==> Lean(sent, b, keys[i]) || (i >= lead && keys[i].ParityKey?))
    && (forall st :: Fed(code, sent, b, st, keys[..lead]) ==> FedFull(st))
  }

  lemma {:induction false} FeedStarves(code: Code, sent: SentFrame, b: nat, keys: seq<Key>, lead: nat, c: nat)
    requires Sendable(code, sent) && b < BlockCount(sent.Count()) && Needed(sent, b) > 0
    requires Feedable(code, sent, b, keys, lead) && c <= |keys|
    ensures forall key :: key in keys[..c] ==> Valid(sent, key)
    ensures forall op :: op in Feed(code, sent, keys[..c]) ==> Readable(op)
    ensures var log := Run(code, Feed(code, sent, keys[..c]));
            Short(code, sent, b, log, keys[..c]) && (c >= lead ==> FedFull(log.state.Stream(sent.stream)))
  {
    hide Recoverable, Valid, Lean, Needed, Fed, FedFull, Step, BlockCount, FragmentCount, Carries, Readable;
    forall key | key in keys[..c] ensures Valid(sent, key) {
      assert key in keys;
    }
    FeedReads(code, sent, keys[..c]);
    if c == 0 {
      FedAtStart(code, sent, b);
      assert keys[..0] == [];
    } else {
      FeedStarves(code, sent, b, keys, lead, c - 1);
      var ops := Feed(code, sent, keys[..c]);
      assert keys[..c][..c - 1] == keys[..c - 1];
      assert ops[..c - 1] == Feed(code, sent, keys[..c - 1]) && Carries(code, sent, keys[..c][c - 1], ops[c - 1]);
      assert keys[..c - 1] + [keys[c - 1]] == keys[..c];
      FeedOne(code, sent, b, Run(code, ops[..c - 1]), keys[..c - 1], keys[c - 1], ops[c - 1]);
      if c == lead {
        assert Fed(code, sent, b, Run(code, ops).state.Stream(sent.stream), keys[..lead]);
      }
    }
  }

  lemma FeedReads(code: Code, sent: SentFrame, keys: seq<Key>)
    requires Sendable(code, sent) && forall key :: key in keys ==> Valid(sent, key)
    ensures forall op :: op in Feed(code, sent, keys) ==> Readable(op)
  {
    hide Recoverable, Valid, Feed, PacketOf, Read;
    var ops := Feed(code, sent, keys);
    forall op | op in ops ensures Readable(op) {
      var i :| 0 <= i < |ops| && ops[i] == op;
      assert Carries(code, sent, keys[i], op);
    }
  }

  lemma FedAtStart(code: Code, sent: SentFrame, b: nat)
    requires |sent.data| <= MAX_FRAME && b < BlockCount(sent.Count())
    ensures Short(code, sent, b, START, [])
  {}

  // ---- The keys ----

  // How many parity shards of block `c` come first.
  function FirstOf(sent: SentFrame, b: nat, c: nat): nat
    requires b < BlockCount(sent.Count()) && c < BlockCount(sent.Count()) && Needed(sent, b) > 0
  {
    if c == b then Needed(sent, b) - 1 else ParityOf(sent, c)
  }

  function BlockKeys(c: nat, m: nat): (s: seq<Key>)
    ensures forall key :: key in s <==> key.ParityKey? && key.block == c && key.index < m
  {
    if m == 0 then [] else BlockKeys(c, m - 1) + [ParityKey(c, m - 1)]
  }

  function ParityKeys(sent: SentFrame, b: nat, c: nat): (s: seq<Key>)
    requires b < BlockCount(sent.Count()) && c <= BlockCount(sent.Count()) && Needed(sent, b) > 0
    ensures forall key :: key in s <==> key.ParityKey? && key.block < c && key.index < FirstOf(sent, b, key.block)
  {
    if c == 0 then [] else ParityKeys(sent, b, c - 1) + BlockKeys(c - 1, FirstOf(sent, b, c - 1))
  }

  function DataKeys(sent: SentFrame, b: nat, n: nat): (s: seq<Key>)
    requires b < BlockCount(sent.Count())
    ensures forall key :: key in s <==> key.DataKey? && key.index < n && Lean(sent, b, key)
  {
    if n == 0 then [] else DataKeys(sent, b, n - 1) + if Lean(sent, b, DataKey(n - 1)) then [DataKey(n - 1)] else []
  }

  function LosingKeys(sent: SentFrame, b: nat): seq<Key>
    requires b < BlockCount(sent.Count()) && Needed(sent, b) > 0
  {
    ParityKeys(sent, b, BlockCount(sent.Count()))
    + [ParityKey(b, Needed(sent, b) - 1)]
    + DataKeys(sent, b, sent.Count())
  }

  // The store of a frame that was fed the first keys is full.
  lemma {:induction false} StoredAtLeast(sent: SentFrame, b: nat, p: Pending, c: nat)
    requires b < BlockCount(sent.Count()) && c <= BlockCount(sent.Count()) && Needed(sent, b) > 0
    requires forall d: nat, j: nat :: d < c && j < FirstOf(sent, b, d) ==> Stores(p, d, j)
    ensures Stored(p.parity, c)
            >= ParityTotal(sent, c) - if b < c then ParityOf(sent, b) - (Needed(sent, b) - 1) else 0
  {
    hide BlockCount, FragmentCount, CountSome, ParityOf, Stores, Needed;
    if c > 0 {
      StoredAtLeast(sent, b, p, c - 1);
      StoresCount(p, c - 1, FirstOf(sent, b, c - 1));
    }
  }

  lemma StoresCount(p: Pending, b: nat, m: nat)
    requires forall j: nat :: j < m ==> Stores(p, b, j)
    ensures m <= if b in p.parity then CountSome(p.parity[b]) else 0
  {
    if m > 0 {
      assert Stores(p, b, m - 1);
      forall j: nat | j < m ensures p.parity[b][j].Some? {
        assert Stores(p, b, j);
      }
      CountLeast(p.parity[b], m);
    }
  }

  lemma FirstKeysFill(code: Code, sent: SentFrame, b: nat, st: StreamState)
    requires |sent.data| <= MAX_FRAME && b < BlockCount(sent.Count()) && Needed(sent, b) > 0
    requires ParityTotal(sent, BlockCount(sent.Count())) - ParityOf(sent, b) + Needed(sent, b) > Max(sent.Count(), 8)
    requires Fed(code, sent, b, st, ParityKeys(sent, b, BlockCount(sent.Count())))
    ensures FedFull(st)
  {
    hide BlockCount, FragmentCount, ParityOf, Lean, Stored, CountSome, TotalBytes;
    var keys := ParityKeys(sent, b, BlockCount(sent.Count()));
    if keys == [] {
      NoFirstKeys(sent, b, BlockCount(sent.Count()));
    } else {
      var p := st.pending[0];
      StarvedForms(code, sent, b, p);
      if !FullStore(p) {
        forall d: nat, j: nat | d < BlockCount(sent.Count()) && j < FirstOf(sent, b, d) ensures Stores(p, d, j) {
          assert ParityKey(d, j) in keys;
          assert StoredOrFull(p, ParityKey(d, j));
        }
        StoredAtLeast(sent, b, p, BlockCount(sent.Count()));
      }
    }
  }

  lemma {:induction false} NoFirstKeys(sent: SentFrame, b: nat, c: nat)
    requires b < BlockCount(sent.Count()) && c <= BlockCount(sent.Count()) && Needed(sent, b) > 0
    requires ParityKeys(sent, b, c) == []
    ensures ParityTotal(sent, c) - (if b < c then ParityOf(sent, b) - (Needed(sent, b) - 1) else 0) <= 0
  {
    hide BlockCount, FragmentCount, ParityOf;
    if c > 0 {
      NoFirstKeys(sent, b, c - 1);
      assert ParityKey(c - 1, 0) !in ParityKeys(sent, b, c);
    }
  }

  // ---- They are enough ----

  lemma {:induction false} DataHeldLeast(got: set<Key>, lo: nat, mid: nat, hi: nat)
    requires lo <= mid <= hi && forall i :: lo <= i < mid ==> DataKey(i) in got
    ensures DataHeld(got, lo, hi) >= mid - lo
  {
    if lo < hi {
      DataHeldLeast(got, lo, if mid < hi then mid else hi - 1, hi - 1);
    }
  }

  lemma {:induction false} ParityHeldLeast(got: set<Key>, b: nat, m: nat, most: nat)
    requires m <= most && forall j :: 0 <= j < m ==> ParityKey(b, j) in got
    ensures ParityHeld(got, b, most) >= m
  {
    if most > 0 {
      ParityHeldLeast(got, b, if m < most then m else most - 1, most - 1);
    }
  }

  // The data the keys bring of block `c`: all of it, or for block `b` what parity leaves to be made up.
  lemma LosingKeysData(sent: SentFrame, b: nat, c: nat, i: nat)
    requires b < BlockCount(sent.Count()) && c < BlockCount(sent.Count()) && Needed(sent, b) > 0
    requires BlockStart(sent.Count(), c) <= i
    requires i < BlockStart(sent.Count(), c + 1) - if c == b then Needed(sent, b) else 0
    ensures DataKey(i) in LosingKeys(sent, b)
  {
    hide BlockCount, BlockStart, FragmentCount, ParityOf, Needed;
    var n := sent.Count();
    BlockBounds(n, c);
    if c != b && BlockStart(n, b) <= i < BlockStart(n, b + 1) {
      BlockUnique(n, i, b) by { BlockBounds(n, b); }
      BlockUnique(n, i, c);
    }
    NeededFits(sent, b);
    assert DataKey(i) in DataKeys(sent, b, n);
  }

  lemma NeededFits(sent: SentFrame, b: nat)
    requires b < BlockCount(sent.Count())
    ensures Needed(sent, b) <= BlockSize(sent.Count(), b) && Needed(sent, b) <= ParityOf(sent, b)
  {
    hide BlockCount, BlockStart, FragmentCount, ParityOf;
  }

  lemma LosingKeysParity(sent: SentFrame, b: nat, j: nat)
    requires b < BlockCount(sent.Count()) && j < Needed(sent, b)
    ensures ParityKey(b, j) in LosingKeys(sent, b)
  {
    hide BlockCount, BlockStart, FragmentCount, ParityOf, Needed;
    if j < Needed(sent, b) - 1 {
      assert ParityKey(b, j) in ParityKeys(sent, b, BlockCount(sent.Count()));
    }
  }

  lemma LosingKeysEnough(sent: SentFrame, b: nat, got: set<Key>)
    requires b < BlockCount(sent.Count()) && Needed(sent, b) > 0
    requires forall key :: key in LosingKeys(sent, b) ==> key in got
    ensures EnoughForAll(sent, got)
  {
    hide BlockCount, BlockStart, FragmentCount, ParityOf, DataHeld, ParityHeld, LosingKeys, Needed;
    var n := sent.Count();
    NeededFits(sent, b);
    forall c | 0 <= c < BlockCount(n) ensures Enough(sent, got, c) {
      BlockBounds(n, c);
      var lo, hi := BlockStart(n, c), BlockStart(n, c + 1);
      var mid := if c == b then hi - Needed(sent, b) else hi;
      forall i | lo <= i < mid ensures DataKey(i) in got {
        LosingKeysData(sent, b, c, i);
      }
      DataHeldLeast(got, lo, mid, hi);
      if c == b {
        forall j | 0 <= j < Needed(sent, b) ensures ParityKey(b, j) in got {
          LosingKeysParity(sent, b, j);
        }
        ParityHeldLeast(got, b, Needed(sent, b), ParityOf(sent, b));
      }
    }
  }

  lemma LosingKeysValid(sent: SentFrame, b: nat)
    requires b < BlockCount(sent.Count()) && Needed(sent, b) > 0
    ensures forall key :: key in LosingKeys(sent, b) ==> Valid(sent, key)
  {
    hide BlockCount, BlockStart, FragmentCount, ParityOf, Lean;
  }

  lemma LosingKeysLean(sent: SentFrame, b: nat, i: nat)
    requires b < BlockCount(sent.Count()) && Needed(sent, b) > 0 && i < |LosingKeys(sent, b)|
    ensures var key, lead := LosingKeys(sent, b)[i], |ParityKeys(sent, b, BlockCount(sent.Count()))|;
            Lean(sent, b, key) || (i >= lead && key.ParityKey?)
  {
    hide BlockCount, BlockStart, FragmentCount, ParityOf, Needed;
    var first, data := ParityKeys(sent, b, BlockCount(sent.Count())), DataKeys(sent, b, sent.Count());
    var keys, lead := LosingKeys(sent, b), |first|;
    if i < lead {
      assert keys[i] == first[i] && first[i] in first;
    } else if i > lead {
      assert keys[i] == data[i - lead - 1] && data[i - lead - 1] in data;
    }
  }

  lemma LosingKeysFeedable(code: Code, sent: SentFrame, b: nat)
    requires |sent.data| <= MAX_FRAME && b < BlockCount(sent.Count()) && Needed(sent, b) > 0
    requires ParityTotal(sent, BlockCount(sent.Count())) - ParityOf(sent, b) + Needed(sent, b) > Max(sent.Count(), 8)
    ensures Feedable(code, sent, b, LosingKeys(sent, b), |ParityKeys(sent, b, BlockCount(sent.Count()))|)
  {
    hide BlockCount, BlockStart, FragmentCount, ParityOf, Fed, FedFull, Needed, Valid, Lean;
    var first := ParityKeys(sent, b, BlockCount(sent.Count()));
    var keys, lead := LosingKeys(sent, b), |first|;
    LosingKeysValid(sent, b);
    assert keys[..lead] == first;
    forall i | 0 <= i < |keys|
      ensures Lean(sent, b, keys[i]) || (i >= lead && keys[i].ParityKey?)
    {
      LosingKeysLean(sent, b, i);
    }
    forall st | Fed(code, sent, b, st, keys[..lead]) ensures FedFull(st) {
      FirstKeysFill(code, sent, b, st);
    }
  }

  // ---- The boundary ----

  // Without room, packets of the frame alone can bring every block enough shards and the frame not be delivered.
  lemma NoRoomLoses(code: Code, sent: SentFrame)
    requires Sendable(code, sent) && !Room(sent)
    ensures exists ops :: Lone(code, sent, ops) && EnoughForAll(sent, Got(sent, ops))
              && On(Run(code, ops).delivered, sent.stream) == []
  {
    hide BlockCount, BlockStart, FragmentCount, ParityOf, Recoverable, EnoughForAll, LosingKeys, Feedable, Fed, Feed,
      Lone;
    var b :| 0 <= b < BlockCount(sent.Count()) && ParityOf(sent, b) > 0
      && ParityTotal(sent, BlockCount(sent.Count())) - ParityOf(sent, b) + Needed(sent, b) > Max(sent.Count(), 8);
    BlockBounds(sent.Count(), b);
    var keys := LosingKeys(sent, b);
    var lead := |ParityKeys(sent, b, BlockCount(sent.Count()))|;
    LosingKeysFeedable(code, sent, b);
    FeedStarves(code, sent, b, keys, lead, |keys|);
    assert keys[..|keys|] == keys;
    var ops := Feed(code, sent, keys);
    FeedLone(code, sent, keys);
    FeedGot(code, sent, keys);
    LosingKeysEnough(sent, b, Got(sent, ops));
  }

  // A lone frame is delivered by every run that brings every block enough shards exactly when it has room.
  lemma RoomIsExact(code: Code, sent: SentFrame)
    requires Sendable(code, sent)
    ensures Room(sent) <==>
              forall ops :: Lone(code, sent, ops) && EnoughForAll(sent, Got(sent, ops)) ==>
                On(Run(code, ops).delivered, sent.stream) == [Whole(sent)]
  {
    hide Room, Recoverable, EnoughForAll, Run, PacketOf, Got;
    if Room(sent) {
      forall ops | Lone(code, sent, ops) && EnoughForAll(sent, Got(sent, ops))
        ensures On(Run(code, ops).delivered, sent.stream) == [Whole(sent)]
      {
        DeliveredFromStart(code, sent, ops);
      }
    } else {
      NoRoomLoses(code, sent);
    }
  }

  lemma DeliveredFromStart(code: Code, sent: SentFrame, ops: seq<Op>)
    requires Sendable(code, sent) && Room(sent) && Lone(code, sent, ops) && EnoughForAll(sent, Got(sent, ops))
    ensures On(Run(code, ops).delivered, sent.stream) == [Whole(sent)]
  {
    hide Room, Recoverable, EnoughForAll, Got;
    DeliveredWhenEnough(code, sent, START, ops);
  }

  // Two blocks, of 65 and 64 fragments, the first with three times the parity it can use: there is room exactly when
  // the second has no parity to be refused.
  lemma RoomOfTwoBlocks(sent: SentFrame)
    requires sent.Count() == 129 && sent.policy(65) == 191
    ensures Room(sent) <==> sent.policy(64) == 0
  {
    hide FragmentCount;
    assert BlockCount(129) == 2 && BlockSize(129, 0) == 65 && BlockSize(129, 1) == 64;
    assert ParityOf(sent, 0) == 191;
    assert ParityTotal(sent, 0) == 0;
    assert ParityTotal(sent, 1) == 191;
    assert ParityTotal(sent, 2) == 191 + ParityOf(sent, 1);
  }
}
