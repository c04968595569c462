/** Whatever the network does to sent packets, a delivered frame is the frame that was sent. */
module Soundness {
  import opened Wrappers
  import opened Words
  import opened Headers
  import opened Blocks
  import opened Slots
  import opened Erasure
  import opened Parity
  import opened Fragments
  import opened Pendings
  import opened Reassembly
  import opened StreamOrder
  import opened Runs

  // ---- What was sent ----

  // The codes of the frame's blocks recover what the hypothesis says.
  ghost predicate Recoverable(code: Code, sent: SentFrame) {
    forall b | 0 <= b < BlockCount(sent.Count()) ::
      var k := BlockSize(sent.Count(), b);
      0 < k <= MAX_BLOCK_DATA && (ParityCount(sent.policy, k) > 0 ==> Mds(code, k, ParityCount(sent.policy, k)))
  }

  // A frame the sender accepts.
  ghost predicate Sendable(code: Code, sent: SentFrame) {
    |sent.data| <= MAX_FRAME && Recoverable(code, sent)
  }

  // Each (stream, frame) number names one sent frame.
  type World = map<(u16, u32), SentFrame>

  ghost predicate SentWorld(code: Code, world: World) {
    forall key :: key in world ==>
      world[key].stream == key.0 && world[key].frame == key.1 && Sendable(code, world[key])
  }

  // A packet of the frame as it arrives: what was sent, under whatever number the sealer gave it.
  ghost predicate PacketOf(code: Code, sent: SentFrame, header: Header, payload: Bytes)
    requires |sent.data| <= MAX_FRAME
  {
    exists q :: q in sent.Packets(code) && header.(packet := 0) == q.header && payload == q.payload
  }

  ghost predicate SentPacket(code: Code, world: World, header: Header, payload: Bytes)
    requires SentWorld(code, world)
  {
    (header.stream, header.frame) in world && PacketOf(code, world[(header.stream, header.frame)], header, payload)
  }

  // What a packet of the frame holds once it is read.
  ghost predicate ShardOf(code: Code, sent: SentFrame, a: Arrival)
    requires |sent.data| <= MAX_FRAME
  {
    match a
    case Data(index, payload) => index < sent.Count() && payload == Piece(sent.data, index)
    case Shard(prefix, shard) =>
      && prefix.block < BlockCount(sent.Count())
      && var shards := ParityShards(code, sent.policy, sent.DataPackets(), prefix.block);
         prefix.index < |shards| && shard == shards[prefix.index]
         && prefix == Prefix(prefix.block, prefix.index, |shards|, LastLen(sent.DataPackets()))
  }

  lemma PacketReads(code: Code, sent: SentFrame, header: Header, payload: Bytes)
    requires Sendable(code, sent) && PacketOf(code, sent, header, payload)
    ensures header.stream == sent.stream && header.frame == sent.frame && header.sentUs == sent.sentUs
    ensures header.fragments == sent.Count() && header.Decodable()
    ensures Read(header, payload).Good? && ShardOf(code, sent, Read(header, payload).arrival)
  {
    hide BlockCount, BlockSize, Piece, ParityShards, Parse, ParityPayload, FragmentCount;
    var q :| q in sent.Packets(code) && header.(packet := 0) == q.header && payload == q.payload;
    if q in sent.DataPackets() {
      var i :| 0 <= i < sent.Count() && sent.DataPackets()[i] == q;
    } else {
      var data := sent.DataPackets();
      ParityBeforeHas(code, sent.policy, data, BlockCount(sent.Count()), q);
      var b, j, number :| 0 <= b < BlockCount(|data|) && 0 <= j < |ParityShards(code, sent.policy, data, b)|
        && 0 <= number && q == ParityPacket(code, sent.policy, data, b, j, number);
      ParityPacketReads(code, sent, b, j, number);
    }
  }

  lemma ParityPacketReads(code: Code, sent: SentFrame, b: nat, j: nat, number: nat)
    requires |sent.data| <= MAX_FRAME && b < BlockCount(sent.Count())
    requires j < |ParityShards(code, sent.policy, sent.DataPackets(), b)|
    ensures var data := sent.DataPackets();
            var shards := ParityShards(code, sent.policy, data, b);
            Parse(ParityPacket(code, sent.policy, data, b, j, number).payload)
            == Some((Prefix(b, j, |shards|, LastLen(data)), shards[j]))
  {
    hide BlockSize, Piece, Parse, ParityPayload, BlockStart;
    var data := sent.DataPackets();
    var shards := ParityShards(code, sent.policy, data, b);
    BlockBounds(|data|, b);
    ParseParityPayload(Prefix(b, j, |shards|, LastLen(data)), shards[j]);
  }

  // ---- What a waiting frame holds ----

  ghost predicate Genuine(code: Code, sent: SentFrame, p: Pending)
    requires |sent.data| <= MAX_FRAME
  {
    && p.frame == sent.frame
    && p.sentUs == sent.sentUs
    && Extends(p.slots, Pieces(sent.data))
    && (forall b :: b in p.parity ==>
          b < BlockCount(sent.Count())
          && ShardsOf(p.parity[b], ParityShards(code, sent.policy, sent.DataPackets(), b)))
    && (p.lastLen.Some? ==> p.lastLen.value == LastLen(sent.DataPackets()))
  }

  lemma NewGenuine(code: Code, sent: SentFrame)
    requires |sent.data| <= MAX_FRAME
    ensures Genuine(code, sent, NewPending(sent.frame, sent.sentUs, sent.Count()))
  {}

  // The shards a block holds are the block's own, in their places.
  lemma BlockShardsOf(code: Code, sent: SentFrame, p: Pending, b: nat)
    requires |sent.data| <= MAX_FRAME && Genuine(code, sent, p) && b in p.parity
    ensures b < BlockCount(|p.slots|) && |p.slots| == sent.Count()
    ensures ShardsOf(Shards(BlockSlots(p, b)) + p.parity[b],
                     BlockShards(sent.DataPackets(), b) + ParityShards(code, sent.policy, sent.DataPackets(), b))
  {
    hide BlockCount, BlockStart, Piece, ParityShards, Resize, FragmentCount;
    var n := sent.Count();
    BlockBounds(n, b);
    var data := sent.DataPackets();
    var slots := BlockSlots(p, b);
    forall o | 0 <= o < |slots| && slots[o].Some?
      ensures slots[o].value == data[BlockStart(n, b) + o].payload
    {
      assert slots[o] == p.slots[BlockStart(n, b) + o];
      assert p.slots[BlockStart(n, b) + o] == Pieces(sent.data)[BlockStart(n, b) + o];
    }
    assert BlockShards(data, b) == Padded(data[BlockStart(n, b)..BlockStart(n, b + 1)]);
  }

  lemma CountShards(slots: seq<Slot>, parity: seq<Slot>)
    ensures CountSome(Shards(slots) + parity) == CountSome(slots) + CountSome(parity)
  {
    CountAppend(Shards(slots), parity);
    CountSame(slots, Shards(slots));
  }

  lemma {:induction false} CountSame(a: seq<Slot>, b: seq<Slot>)
    requires |a| == |b| && forall i :: 0 <= i < |a| ==> (a[i].Some? <==> b[i].Some?)
    ensures CountSome(a) == CountSome(b)
  {
    if a != [] {
      CountSame(a[..|a| - 1], b[..|b| - 1]);
    }
  }

  // A block with shards enough is rebuilt as it was sent; any other is left alone.
  lemma RebuiltBlockGenuine(code: Code, sent: SentFrame, p: Pending, b: nat)
    requires Sendable(code, sent) && WellFormed(p) && Genuine(code, sent, p) && b < BlockCount(|p.slots|)
    ensures |p.slots| == sent.Count()
    ensures RebuiltBlock(code, p, b)
            == if b !in p.parity || AllSome(BlockSlots(p, b))
                  || CountSome(BlockSlots(p, b)) + CountSome(p.parity[b]) < BlockSize(|p.slots|, b)
               then None else Some(BlockShards(sent.DataPackets(), b))
  {
    hide BlockCount, BlockStart, BlockSize, BlockShards, ParityShards, FragmentCount, Shards, BlockSlots, CountSome,
      AllSome;
    BlockBounds(|p.slots|, b);
    if b in p.parity {
      BlockDecision(code, p, b);
      BlockShardsOf(code, sent, p, b);
      CountShards(BlockSlots(p, b), p.parity[b]);
      var k := BlockSize(|p.slots|, b);
      var m := ParityCount(sent.policy, k);
      assert |p.parity[b]| == m;
      var data := sent.DataPackets();
      assert ParityShards(code, sent.policy, data, b) == code.encode(m, BlockShards(data, b)) by {
        ParityIsEncoded(code, sent.policy, sent.DataPackets(), b);
      }
      if CountSome(BlockSlots(p, b)) + CountSome(p.parity[b]) >= k {
        MdsRecovers(code, k, m, BlockShards(sent.DataPackets(), b), Shards(BlockSlots(p, b)) + p.parity[b]);
      }
    }
  }

  lemma ParityIsEncoded(code: Code, policy: Policy, data: seq<Packet>, b: nat)
    requires |data| > 0 && b < BlockCount(|data|) && 0 < BlockSize(|data|, b) <= MAX_BLOCK_DATA
    ensures ParityShards(code, policy, data, b)
            == code.encode(ParityCount(policy, BlockSize(|data|, b)), BlockShards(data, b))
  {
    hide BlockCount, BlockStart, BlockSize, BlockShards;
  }

  lemma RebuiltSlotGenuine(code: Code, sent: SentFrame, p: Pending, i: nat)
    requires Sendable(code, sent) && WellFormed(p) && Genuine(code, sent, p) && i < |p.slots|
    ensures RebuiltSlot(code, p, i).None? || RebuiltSlot(code, p, i) == Some(Piece(sent.data, i))
  {
    hide BlockCount, BlockStart, BlockShards, ParityShards, FragmentCount, CountSome, TotalBytes, Piece, RebuiltBlock,
      Resize, Recoverable, RebuiltSlot;
    var data := sent.DataPackets();
    SlotGenuine(code, sent, p, i);
    var b := BlockOf(|p.slots|, i);
    RebuiltBlockGenuine(code, sent, p, b);
    BlockBounds(|p.slots|, b);
    SlotInBlock(code, p, b, i);
    if p.slots[i].Some? {
      SlotsStep(code, p, i);
    } else if RebuiltBlock(code, p, b).Some? {
      BlockShardAt(data, b, i);
      TruncateResize(Piece(sent.data, i));
    }
  }

  lemma SlotGenuine(code: Code, sent: SentFrame, p: Pending, i: nat)
    requires |sent.data| <= MAX_FRAME && Genuine(code, sent, p) && i < |p.slots|
    ensures |p.slots| == sent.Count() && (p.slots[i].Some? ==> p.slots[i] == Some(Piece(sent.data, i)))
  {
    hide FragmentCount, Piece;
    assert p.slots[i].Some? ==> p.slots[i] == Pieces(sent.data)[i];
  }

  lemma RebuiltGenuine(code: Code, sent: SentFrame, p: Pending)
    requires Sendable(code, sent) && WellFormed(p) && Genuine(code, sent, p)
    ensures Genuine(code, sent, Rebuilt(code, p))
  {
    hide BlockCount, ParityShards, FragmentCount, CountSome, TotalBytes, Piece, RebuiltSlot, Recoverable;
    var r := Rebuilt(code, p);
    forall i | 0 <= i < |p.slots| && r.slots[i].Some?
      ensures r.slots[i] == Pieces(sent.data)[i]
    {
      RebuiltSlotGenuine(code, sent, p, i);
    }
  }

  lemma BlockShardAt(data: seq<Packet>, b: nat, i: nat)
    requires |data| > 0 && b < BlockCount(|data|)
    requires BlockStart(|data|, b) <= i < BlockStart(|data|, b + 1) <= |data|
    ensures BlockShards(data, b)[i - BlockStart(|data|, b)] == Resize(data[i].payload)
  {
    hide BlockCount, BlockStart, Resize;
  }

  // ---- One packet ----

  lemma FillGenuine(code: Code, sent: SentFrame, p: Pending, index: nat, payload: Bytes)
    requires Sendable(code, sent) && WellFormed(p) && Genuine(code, sent, p)
    requires ShardOf(code, sent, Data(index, payload)) && Fits(Data(index, payload), |p.slots|) && p.slots[index].None?
    ensures var q := Fill(p, index, payload);
            WellFormed(q) && Genuine(code, sent, q) && q.bytes <= MAX_FRAME && Genuine(code, sent, Rebuilt(code, q))
  {
    hide BlockCount, BlockShards, ParityShards, FragmentCount, CountSome, TotalBytes, Piece, Rebuilt, Recoverable;
    var q := Fill(p, index, payload);
    FillWellFormed(p, index, payload);
    assert Genuine(code, sent, q);
    CountExtends(q.slots, Pieces(sent.data));
    PiecesJoin(sent.data);
    RebuiltGenuine(code, sent, q);
  }

  lemma StoreGenuine(code: Code, sent: SentFrame, p: Pending, prefix: Prefix, shard: Bytes)
    requires Sendable(code, sent) && WellFormed(p) && Genuine(code, sent, p)
    requires ShardOf(code, sent, Shard(prefix, shard)) && Fits(Shard(prefix, shard), |p.slots|)
    ensures |BlockEntry(p, prefix)| == prefix.count
    ensures p.parityStored < Max(|p.slots|, 8) && BlockEntry(p, prefix)[prefix.index].None? ==>
              WellFormed(Store(p, prefix, shard)) && Genuine(code, sent, Rebuilt(code, Store(p, prefix, shard)))
  {
    hide BlockCount, BlockShards, ParityShards, FragmentCount, CountSome, TotalBytes, Piece, Rebuilt, Recoverable;
    assert |BlockEntry(p, prefix)| == prefix.count;
    if p.parityStored < Max(|p.slots|, 8) && BlockEntry(p, prefix)[prefix.index].None? {
      var q := Store(p, prefix, shard);
      StoreWellFormed(p, prefix, shard);
      assert Genuine(code, sent, q);
      RebuiltGenuine(code, sent, q);
    }
  }

  // A packet of its frame is never refused, and leaves the frame holding nothing but what was sent.
  lemma AbsorbGenuine(code: Code, sent: SentFrame, p: Pending, a: Arrival)
    requires Sendable(code, sent) && WellFormed(p) && Genuine(code, sent, p)
    requires ShardOf(code, sent, a) && Fits(a, |p.slots|)
    ensures !Absorb(code, p, a).Discarded?
    ensures Absorb(code, p, a).Grown? ==> Genuine(code, sent, Absorb(code, p, a).pending)
  {
    hide WellFormed, Genuine, ShardOf, Rebuilt, Recoverable, Store, BlockCount, FragmentCount;
    match a
    case Data(index, payload) =>
      if p.slots[index].None? {
        FillGenuine(code, sent, p, index, payload);
      }
    case Shard(prefix, shard) =>
      StoreGenuine(code, sent, p, prefix, shard);
  }

  // A frame with every slot filled is the frame that was sent.
  lemma CompleteIsSent(code: Code, sent: SentFrame, p: Pending)
    requires |sent.data| <= MAX_FRAME && WellFormed(p) && Genuine(code, sent, p) && p.received >= |p.slots|
    ensures Join(p.slots) == sent.data
  {
    hide FragmentCount, Piece, TotalBytes;
    CountFull(p.slots);
    assert p.slots == Pieces(sent.data);
    PiecesJoin(sent.data);
  }

  ghost predicate StreamGenuine(code: Code, world: World, stream: u16, pending: seq<Pending>)
    requires SentWorld(code, world)
  {
    forall p :: p in pending ==> (stream, p.frame) in world && Genuine(code, world[(stream, p.frame)], p)
  }

  ghost predicate StateGenuine(code: Code, world: World, s: State)
    requires SentWorld(code, world)
  {
    forall stream :: stream in s.streams ==> StreamGenuine(code, world, stream, s.streams[stream].pending)
  }

  ghost predicate WasSent(code: Code, world: World, f: Frame)
    requires SentWorld(code, world)
  {
    && (f.stream, f.frame) in world
    && f.data == world[(f.stream, f.frame)].data
    && f.sentUs == world[(f.stream, f.frame)].sentUs
  }

  lemma SettledGenuine(code: Code, world: World, st: StreamState, index: nat, stream: u16, p: Pending, rebuilt: nat)
    requires SentWorld(code, world) && StreamGenuine(code, world, stream, st.pending) && index < |st.pending|
    requires (stream, p.frame) in world && WellFormed(p) && Genuine(code, world[(stream, p.frame)], p)
    ensures var e := Settled(st, index, stream, p, rebuilt);
            && StreamGenuine(code, world, stream, e.stream.pending)
            && e.reply.Ok?
            && (Delivers(e.reply) ==> WasSent(code, world, e.reply.value.value))
  {
    hide WellFormed, Genuine, Recoverable, Newer;
    if p.received >= |p.slots| {
      var sent := world[(stream, p.frame)];
      CompleteIsSent(code, sent, p);
      GenuineStamp(code, sent, p);
    }
  }

  lemma UpdateGenuine(code: Code, world: World, st: StreamState, index: nat, stream: u16, a: Arrival)
    requires SentWorld(code, world) && StreamGenuine(code, world, stream, st.pending)
    requires index < |st.pending| && WellFormed(st.pending[index]) && Fits(a, |st.pending[index].slots|)
    requires ShardOf(code, world[(stream, st.pending[index].frame)], a)
    ensures var e := Update(code, st, index, stream, a);
            && StreamGenuine(code, world, stream, e.stream.pending)
            && e.reply.Ok?
            && (Delivers(e.reply) ==> WasSent(code, world, e.reply.value.value))
  {
    hide WellFormed, Absorb, Fits, Genuine, ShardOf, Recoverable, Newer, Settled, WasSent;
    var p := st.pending[index];
    assert p in st.pending;
    var sent := world[(stream, p.frame)];
    AbsorbGenuine(code, sent, p, a);
    if Absorb(code, p, a).Grown? {
      AbsorbKeeps(code, p, a);
      GenuineStamp(code, sent, Absorb(code, p, a).pending);
      SettledGenuine(code, world, st, index, stream, Absorb(code, p, a).pending, Absorb(code, p, a).rebuilt);
    }
  }

  lemma GenuineStamp(code: Code, sent: SentFrame, p: Pending)
    requires |sent.data| <= MAX_FRAME && Genuine(code, sent, p)
    ensures p.frame == sent.frame && p.sentUs == sent.sentUs && |p.slots| == sent.Count() <= MAX_FRAGMENTS
  {}

  lemma PushStreamGenuine(code: Code, world: World, st: StreamState, header: Header, payload: Bytes)
    requires SentWorld(code, world) && SentPacket(code, world, header, payload) && AllWellFormed(st.pending)
    requires StreamGenuine(code, world, header.stream, st.pending)
    ensures header.Decodable() && Read(header, payload).Good?
    ensures var e := PushStream(code, st, header, Read(header, payload).arrival);
            && StreamGenuine(code, world, header.stream, e.stream.pending)
            && e.reply.Ok?
            && (Delivers(e.reply) ==> WasSent(code, world, e.reply.value.value))
  {
    hide WellFormed, Fits, Update, Genuine, ShardOf, Recoverable, Newer, PacketOf, Oldest, Read, FragmentCount;
    var sent := world[(header.stream, header.frame)];
    PacketReads(code, sent, header, payload);
    var a := Read(header, payload).arrival;
    if !Late(st, header.frame) {
      match Find(st.pending, header)
      case TooBig =>
        NewGenuine(code, sent);
        GenuineStamp(code, sent, NewPending(sent.frame, sent.sentUs, sent.Count()));
      case Known(i) =>
        assert st.pending[i] in st.pending;
        GenuineStamp(code, sent, st.pending[i]);
        UpdateGenuine(code, world, st, i, header.stream, a);
      case Fresh(pending, _) =>
        NewGenuine(code, sent);
        FreshSound(st.pending, header);
        UpdateGenuine(code, world, st.(pending := pending), |pending| - 1, header.stream, a);
    }
  }

  // ---- Every run ----

  ghost predicate SentOps(code: Code, world: World, ops: seq<Op>)
    requires SentWorld(code, world)
  {
    forall op :: op in ops ==> Readable(op) && (op.Arrive? ==> SentPacket(code, world, op.header, op.payload))
  }

  ghost predicate LogGenuine(code: Code, world: World, log: Log)
    requires SentWorld(code, world)
  {
    StateGenuine(code, world, log.state) && forall f :: f in log.delivered ==> WasSent(code, world, f)
  }

  lemma StepGenuine(code: Code, world: World, log: Log, op: Op)
    requires SentWorld(code, world) && Sound(log.state) && LogGenuine(code, world, log)
    requires Readable(op) && (op.Arrive? ==> SentPacket(code, world, op.header, op.payload))
    ensures LogGenuine(code, world, Step(code, log, op))
    ensures op.Arrive? ==> AfterPush(code, log.state, op.header, op.payload).1.Ok?
  {
    hide WellFormed, PushStream, StreamGenuine, SentPacket, Read, WasSent;
    match op
    case Arrive(header, payload) =>
      var st := log.state.Stream(header.stream);
      assert StreamGenuine(code, world, header.stream, st.pending) by { NoneGenuine(code, world, header.stream); }
      PushStreamGenuine(code, world, st, header, payload);
    case GiveUp(stream, frame) =>
      if stream in log.state.streams {
        var pending := log.state.streams[stream].pending;
        var i := IndexOf(pending, frame);
        if i.Some? {
          RemoveGenuine(code, world, stream, pending, i.value);
        }
      }
  }

  lemma NoneGenuine(code: Code, world: World, stream: u16)
    requires SentWorld(code, world)
    ensures StreamGenuine(code, world, stream, [])
  {}

  lemma RemoveGenuine(code: Code, world: World, stream: u16, pending: seq<Pending>, i: nat)
    requires SentWorld(code, world) && StreamGenuine(code, world, stream, pending) && i < |pending|
    ensures StreamGenuine(code, world, stream, RemoveAt(pending, i))
  {
    hide Genuine;
  }

  // For any loss, order, repetition, mix of data, parity and resends, and any frames given up in between: no packet
  // of a sent frame is refused, and every frame delivered is, byte for byte, a frame that was sent.
  lemma {:induction false} DeliversWhatWasSent(code: Code, world: World, ops: seq<Op>)
    requires SentWorld(code, world) && SentOps(code, world, ops)
    ensures LogGenuine(code, world, Run(code, ops))
    ensures forall header: Header, payload: Bytes :: header.Decodable() && SentPacket(code, world, header, payload) ==>
              AfterPush(code, Run(code, ops).state, header, payload).1.Ok?
  {
    hide Step, SentPacket, StateGenuine, WasSent;
    if ops != [] {
      var init, op := ops[..|ops| - 1], ops[|ops| - 1];
      DeliversWhatWasSent(code, world, init);
      assert op in ops;
      StepGenuine(code, world, Run(code, init), op);
    } else {
      assert StateGenuine(code, world, START.state) by { StartGenuine(code, world); }
    }
    forall header: Header, payload: Bytes | header.Decodable() && SentPacket(code, world, header, payload)
      ensures AfterPush(code, Run(code, ops).state, header, payload).1.Ok?
    {
      StepGenuine(code, world, Run(code, ops), Arrive(header, payload));
    }
  }

  lemma StartGenuine(code: Code, world: World)
    requires SentWorld(code, world)
    ensures StateGenuine(code, world, START.state)
  {}
}
