/**
 The layers together: frames cut, coded with the Cauchy code and sealed on one
 side; whatever the network makes of the datagrams opened and reassembled on
 the other.
 */
module EndToEnd {
  import opened Wrappers
  import opened Words
  import opened Headers
  import opened Blocks
  import opened Erasure
  import opened CauchyErasure
  import opened Parity
  import opened Fragments
  import opened Reassembly
  import opened Soundness
  import opened Completeness
  import P = Packets
  import R = Runs

  // ---- The code is good enough ----

  // With the Cauchy code every frame of an acceptable size can be sent, under any policy.
  lemma EveryFrameSendable(sent: SentFrame)
    requires |sent.data| <= MAX_FRAME
    ensures Sendable(CauchyCode(), sent)
  {
    hide CauchyCode, BlockCount, BlockStart, FragmentCount, Mds, ParityCount;
    forall b | 0 <= b < BlockCount(sent.Count())
      ensures var k := BlockSize(sent.Count(), b);
        0 < k <= MAX_BLOCK_DATA
        && (ParityCount(sent.policy, k) > 0 ==> Mds(CauchyCode(), k, ParityCount(sent.policy, k)))
    {
      BlockBounds(sent.Count(), b);
      var k := BlockSize(sent.Count(), b);
      CauchyMds(k, ParityCount(sent.policy, k));
    }
  }

  // Each (stream, frame) number names one frame of an acceptable size.
  predicate Frames(world: World) {
    forall key :: key in world ==>
      world[key].stream == key.0 && world[key].frame == key.1 && |world[key].data| <= MAX_FRAME
  }

  lemma FramesAreSendable(world: World)
    ensures Frames(world) <==> SentWorld(CauchyCode(), world)
  {
    hide CauchyCode, Recoverable;
    if Frames(world) {
      forall key | key in world ensures Sendable(CauchyCode(), world[key]) {
        EveryFrameSendable(world[key]);
      }
    }
  }

  // ---- Runs of both sides ----

  // The sender seals, the network delivers bytes, the receiver gives up on a frame.
  datatype Happening =
    | Channel(event: P.Event)
    | GiveUp(stream: u16, frame: u32)

  function Events(happenings: seq<Happening>): seq<P.Event> {
    if happenings == [] then []
    else
      var last := happenings[|happenings| - 1];
      Events(happenings[..|happenings| - 1]) + if last.Channel? then [last.event] else []
  }

  function ChannelAfter(cipher: P.Cipher, happenings: seq<Happening>): P.Channel {
    P.Run(cipher, Events(happenings))
  }

  // What one happening means to the reassembler, given the channel before it.
  function OpsOf(cipher: P.Cipher, c: P.Channel, h: Happening): seq<R.Op> {
    match h
    case GiveUp(stream, frame) => [R.GiveUp(stream, frame)]
    case Channel(Seal(_, _)) => []
    case Channel(Deliver(datagram)) =>
      match P.OpenResult(P.Produced(cipher, c.log), c.taken, datagram)
      case Err(_) => []
      case Ok(sent) => [R.Arrive(sent.header, sent.payload)]
  }

  function Ops(cipher: P.Cipher, happenings: seq<Happening>): seq<R.Op> {
    if happenings == [] then []
    else
      var init := happenings[..|happenings| - 1];
      Ops(cipher, init) + OpsOf(cipher, ChannelAfter(cipher, init), happenings[|happenings| - 1])
  }

  // Something that can be said of a packet whatever its number is.
  type Kind = (Header, Bytes) -> bool

  ghost predicate Numberless(kind: Kind) {
    forall header: Header, payload: Bytes, packet: u64 ::
      kind(header, payload) ==> kind(header.(packet := packet), payload)
  }

  ghost predicate SealsOnly(kind: Kind, happenings: seq<Happening>) {
    forall h :: h in happenings && h.Channel? && h.event.Seal? ==> kind(h.event.header, h.event.payload)
  }

  ghost predicate ArriveOnly(kind: Kind, ops: seq<R.Op>) {
    forall op :: op in ops ==> R.Readable(op) && (op.Arrive? ==> kind(op.header, op.payload))
  }

  ghost predicate LogOnly(kind: Kind, log: seq<P.Sent>) {
    forall s :: s in log ==> kind(s.header, s.payload)
  }

  lemma StepKeepsKind(kind: Kind, cipher: P.Cipher, c: P.Channel, e: P.Event)
    requires Numberless(kind) && LogOnly(kind, c.log) && (e.Seal? ==> kind(e.header, e.payload))
    ensures LogOnly(kind, P.Step(cipher, c, e).log)
  {
    hide P.OpenResult;
  }

  lemma ChannelStep(cipher: P.Cipher, happenings: seq<Happening>)
    ensures ChannelAfter(cipher, happenings)
            == if happenings == [] then P.Channel([], [], [])
               else
                 var c, h := ChannelAfter(cipher, happenings[..|happenings| - 1]), happenings[|happenings| - 1];
                 if h.Channel? then P.Step(cipher, c, h.event) else c
  {
    hide P.Step;
    if happenings != [] {
      var events := Events(happenings[..|happenings| - 1]);
      assert events + [] == events;
      assert Events(happenings)[..|events|] == events;
    }
  }

  lemma ChannelIsSafe(cipher: P.Cipher, happenings: seq<Happening>)
    ensures P.Safe(ChannelAfter(cipher, happenings))
  {
    hide P.Safe;
    P.RunSafe(cipher, Events(happenings));
  }

  // What reaches the reassembler is of the kind that is sealed, whatever the network makes up.
  lemma {:induction false} OnlySealedArrive(kind: Kind, cipher: P.Cipher, happenings: seq<Happening>)
    requires Numberless(kind) && SealsOnly(kind, happenings)
    ensures LogOnly(kind, ChannelAfter(cipher, happenings).log)
    ensures ArriveOnly(kind, Ops(cipher, happenings))
  {
    hide P.OpenResult, P.Step, ChannelAfter, P.Produced;
    ChannelStep(cipher, happenings);
    if happenings != [] {
      var init, h := happenings[..|happenings| - 1], happenings[|happenings| - 1];
      OnlySealedArrive(kind, cipher, init);
      var c := ChannelAfter(cipher, init);
      assert h in happenings;
      if h.Channel? {
        StepKeepsKind(kind, cipher, c, h.event);
        if h.event.Deliver? && P.OpenResult(P.Produced(cipher, c.log), c.taken, h.event.datagram).Ok? {
          ChannelIsSafe(cipher, init);
          P.OpensOnlySealed(cipher, c.log, c.taken, h.event.datagram);
        }
      }
    }
  }

  // ---- Safety ----

  ghost predicate SealsFrames(code: Code, world: World, happenings: seq<Happening>)
    requires SentWorld(code, world)
  {
    SealsOnly((header, payload) => SentPacket(code, world, header, payload), happenings)
  }

  // Every packet that reached the reassembler was taken without an error.
  ghost predicate NoneRefused(code: Code, ops: seq<R.Op>)
    requires forall op :: op in ops ==> R.Readable(op)
  {
    forall i :: 0 <= i < |ops| && ops[i].Arrive? ==>
      assert ops[i] in ops && R.Readable(ops[i]);
      AfterPush(code, R.Run(code, ops[..i]).state, ops[i].header, ops[i].payload).1.Ok?
  }

  // Whatever the network drops, repeats, reorders or injects: every frame delivered is, byte for byte, one that was
  // sent, no packet that gets through is refused, and on each stream every frame delivered is newer than the one
  // before it.
  lemma FramesArriveAsSent(world: World, cipher: P.Cipher, happenings: seq<Happening>)
    requires Frames(world) && (FramesAreSendable(world); SealsFrames(CauchyCode(), world, happenings))
    ensures SentWorld(CauchyCode(), world)
    ensures var ops := Ops(cipher, happenings);
            && SentOps(CauchyCode(), world, ops)
            && LogGenuine(CauchyCode(), world, R.Run(CauchyCode(), ops))
            && NoneRefused(CauchyCode(), ops)
            && R.Increasing(R.Run(CauchyCode(), ops).delivered)
  {
    hide CauchyCode, LogGenuine, Ops;
    FramesAreSendable(world);
    var code := CauchyCode();
    var ops := Ops(cipher, happenings);
    SentPacketsNumberless(code, world);
    OnlySealedArrive((header, payload) => SentPacket(code, world, header, payload), cipher, happenings);
    assert SentOps(code, world, ops);
    DeliversWhatWasSent(code, world, ops);
    SentNotRefused(code, world, ops);
    R.RunKeepsInvariant(code, ops);
  }

  lemma SentNotRefused(code: Code, world: World, ops: seq<R.Op>)
    requires SentWorld(code, world) && SentOps(code, world, ops)
    ensures NoneRefused(code, ops)
  {
    hide SentPacket, LogGenuine, AfterPush;
    assert forall i :: 0 <= i < |ops| ==> ops[i] in ops;
    forall i | 0 <= i < |ops| && ops[i].Arrive?
      ensures AfterPush(code, R.Run(code, ops[..i]).state, ops[i].header, ops[i].payload).1.Ok?
    {
      assert forall op :: op in ops[..i] ==> op in ops;
      DeliversWhatWasSent(code, world, ops[..i]);
    }
  }

  lemma SentPacketsNumberless(code: Code, world: World)
    requires SentWorld(code, world)
    ensures Numberless((header, payload) => SentPacket(code, world, header, payload))
  {
    forall header: Header, payload: Bytes, packet: u64 | SentPacket(code, world, header, payload)
      ensures SentPacket(code, world, header.(packet := packet), payload)
    {
      assert header.(packet := packet).(packet := 0) == header.(packet := 0);
    }
  }

  // ---- Delivery ----

  // The shards of a frame that is alone on its stream, among the packets opened.
  function Opened(sent: SentFrame, received: seq<P.Sent>): set<Key>
    requires forall s :: s in received ==> s.header.Decodable()
  {
    if received == [] then {}
    else
      var s := received[|received| - 1];
      assert s in received;
      Opened(sent, received[..|received| - 1])
      + if s.header.stream == sent.stream && Read(s.header, s.payload).Good?
        then {KeyOf(Read(s.header, s.payload).arrival)} else {}
  }

  // Packets of the frame, if on its stream at all.
  ghost function OnStream(code: Code, sent: SentFrame): Kind
    requires |sent.data| <= MAX_FRAME
  {
    (header: Header, payload) => header.stream == sent.stream ==> PacketOf(code, sent, header, payload)
  }

  // Only packets of the frame are sealed for its stream, and nobody gives up on that stream.
  ghost predicate Alone(code: Code, sent: SentFrame, happenings: seq<Happening>)
    requires |sent.data| <= MAX_FRAME
  {
    && SealsOnly(OnStream(code, sent), happenings)
    && forall h :: h in happenings && h.GiveUp? ==> h.stream != sent.stream
  }

  lemma PacketsNumberless(code: Code, sent: SentFrame)
    requires |sent.data| <= MAX_FRAME
    ensures Numberless(OnStream(code, sent))
  {
    forall header: Header, payload: Bytes, packet: u64 | PacketOf(code, sent, header, payload)
      ensures PacketOf(code, sent, header.(packet := packet), payload)
    {
      assert header.(packet := packet).(packet := 0) == header.(packet := 0);
    }
  }

  lemma {:induction false} OpenedIsGot(sent: SentFrame, cipher: P.Cipher, happenings: seq<Happening>)
    requires forall op :: op in Ops(cipher, happenings) ==> R.Readable(op)
    ensures forall s :: s in ChannelAfter(cipher, happenings).received ==> s.header.Decodable()
    ensures Got(sent, Ops(cipher, happenings)) == Opened(sent, ChannelAfter(cipher, happenings).received)
  {
    hide P.OpenResult, ChannelAfter, P.Produced, Read;
    ChannelStep(cipher, happenings);
    if happenings != [] {
      var init, h := happenings[..|happenings| - 1], happenings[|happenings| - 1];
      var ops := Ops(cipher, init);
      var c := ChannelAfter(cipher, init);
      var last := OpsOf(cipher, c, h);
      assert Ops(cipher, happenings) == ops + last;
      forall op | op in ops ensures R.Readable(op) {
        assert op in ops + last;
      }
      OpenedIsGot(sent, cipher, init);
      if last == [] {
        assert ops + last == ops;
      } else {
        assert last == [last[0]] && last[0] in ops + last;
        OneMoreGot(sent, ops, last[0]);
        if h.Channel? {
          OneMoreOpened(sent, c.received, P.Sent(last[0].header, last[0].payload));
        }
      }
    }
  }

  lemma OneMoreGot(sent: SentFrame, ops: seq<R.Op>, op: R.Op)
    requires (forall o :: o in ops ==> R.Readable(o)) && R.Readable(op)
    ensures Got(sent, ops + [op])
            == Got(sent, ops)
               + if op.Arrive? && op.header.stream == sent.stream && Read(op.header, op.payload).Good?
                 then {KeyOf(Read(op.header, op.payload).arrival)} else {}
  {
    hide Read;
    assert (ops + [op])[..|ops|] == ops;
  }

  lemma OneMoreOpened(sent: SentFrame, received: seq<P.Sent>, s: P.Sent)
    requires (forall r :: r in received ==> r.header.Decodable()) && s.header.Decodable()
    ensures Opened(sent, received + [s])
            == Opened(sent, received)
               + if s.header.stream == sent.stream && Read(s.header, s.payload).Good?
                 then {KeyOf(Read(s.header, s.payload).arrival)} else {}
  {
    hide Read;
    assert (received + [s])[..|received|] == received;
  }

  // A frame alone on its stream is delivered once, whole, if the packets that opened hold shards enough for every
  // block, and otherwise nothing is delivered there.
  lemma FrameArrives(sent: SentFrame, cipher: P.Cipher, happenings: seq<Happening>)
    requires |sent.data| <= MAX_FRAME && Room(sent) && Alone(CauchyCode(), sent, happenings)
    ensures forall op :: op in Ops(cipher, happenings) ==> R.Readable(op)
    ensures forall s :: s in ChannelAfter(cipher, happenings).received ==> s.header.Decodable()
    ensures On(R.Run(CauchyCode(), Ops(cipher, happenings)).delivered, sent.stream)
            == if EnoughForAll(sent, Opened(sent, ChannelAfter(cipher, happenings).received)) then [Whole(sent)] else []
  {
    hide CauchyCode, Ops, Room, EnoughForAll, Opened, PacketOf;
    var code := CauchyCode();
    var ops := Ops(cipher, happenings);
    PacketsNumberless(code, sent);
    OnlySealedArrive(OnStream(code, sent), cipher, happenings);
    OpenedIsGot(sent, cipher, happenings);
    EveryFrameSendable(sent);
    GivenUp(cipher, happenings, sent.stream);
    DeliveredWhenEnough(code, sent, R.START, ops);
  }

  // So it is under every policy the program has.
  lemma FrameArrivesUnderPolicies(
    sent: SentFrame, loss: real, safety: real, maxOverhead: real, cipher: P.Cipher, happenings: seq<Happening>)
    requires 0.0 <= loss <= 1.0 && 0.0 <= safety && 0.0 <= maxOverhead <= 1.0
    requires
      || (forall k :: sent.policy(k) == 0)
      || (forall k :: sent.policy(k) == AdaptiveCount(loss, safety, maxOverhead, k))
    requires |sent.data| <= MAX_FRAME && Alone(CauchyCode(), sent, happenings)
    ensures forall op :: op in Ops(cipher, happenings) ==> R.Readable(op)
    ensures forall s :: s in ChannelAfter(cipher, happenings).received ==> s.header.Decodable()
    ensures On(R.Run(CauchyCode(), Ops(cipher, happenings)).delivered, sent.stream)
            == if EnoughForAll(sent, Opened(sent, ChannelAfter(cipher, happenings).received)) then [Whole(sent)] else []
  {
    hide CauchyCode, Ops, Room, EnoughForAll, Opened, Alone, AdaptiveCount;
    RoomForThePolicies(sent, loss, safety, maxOverhead);
    FrameArrives(sent, cipher, happenings);
  }

  lemma {:induction false} GivenUp(cipher: P.Cipher, happenings: seq<Happening>, stream: u16)
    requires forall h :: h in happenings && h.GiveUp? ==> h.stream != stream
    ensures forall op :: op in Ops(cipher, happenings) && op.GiveUp? ==> op.stream != stream
  {
    hide P.OpenResult, ChannelAfter, P.Produced;
    if happenings != [] {
      var init, h := happenings[..|happenings| - 1], happenings[|happenings| - 1];
      GivenUp(cipher, init, stream);
      assert h in happenings;
    }
  }
}
