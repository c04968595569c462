/** The NACK loop: what the receiver misses, the sender resends, and resending it delivers the frame. */
module NackLoop {
  import opened Wrappers
  import opened Words
  import opened Headers
  import opened Blocks
  import opened Slots
  import opened Erasure
  import opened Parity
  import opened Fragments
  import opened Pendings
  import opened Reassembly
  import opened StreamOrder
  import opened Runs
  import opened Soundness
  import opened Completeness
  import F = Feedbacks
  import R = Resends
  import D = LossDetection

  // ---- What the sender answers ----

  // The fragment is there and was sent again less than twice.
  predicate Left(stored: R.Stored, f: u16)
    requires R.Counted(stored)
  {
    f < |stored.parts| && stored.resends[f] < 2
  }

  lemma {:induction false} AnswersAll(stored: R.Stored, fragments: seq<u16>)
    requires R.Counted(stored) && F.Ascending(fragments)
    requires forall f :: f in fragments ==> Left(stored, f)
    ensures R.Answer(stored, fragments).1 == fragments
    ensures forall j :: 0 <= j < |stored.parts| && (j > U16_MAX || j !in fragments) ==>
              R.Answer(stored, fragments).0.resends[j] == stored.resends[j]
  {
    if fragments != [] {
      var init, last := fragments[..|fragments| - 1], fragments[|fragments| - 1];
      assert fragments == init + [last];
      assert last in fragments && last !in init;
      AnswersAll(stored, init);
    }
  }

  // The memory keeps a frame's data packets and nothing else.
  lemma {:induction false} DataPartsOf(data: seq<Packet>, parity: seq<Packet>)
    requires forall i :: 0 <= i < |data| ==> !data[i].header.IsParity()
    requires forall i :: 0 <= i < |parity| ==> parity[i].header.IsParity()
    ensures R.DataParts(data + parity) == data
  {
    if parity != [] {
      DataPartsOf(data, parity[..|parity| - 1]);
      assert (data + parity)[..|data + parity| - 1] == data + parity[..|parity| - 1];
    } else {
      assert data + parity == data;
      if data != [] {
        var init := data[..|data| - 1];
        DataPartsOf(init, []);
        assert init + [] == init;
        assert data == init + [data[|data| - 1]];
      }
    }
  }

  lemma RemembersData(code: Code, sent: SentFrame)
    requires |sent.data| <= MAX_FRAME
    ensures R.DataParts(sent.Packets(code)) == sent.DataPackets()
  {
    hide FragmentCount, BlockCount, Piece, ParityShards, R.DataParts;
    var data := sent.DataPackets();
    var parity := ParityBefore(code, sent.policy, data, BlockCount(sent.Count()));
    forall i | 0 <= i < |parity| ensures parity[i].header.IsParity() {
      var p := parity[i];
      ParityBeforeHas(code, sent.policy, data, BlockCount(sent.Count()), p);
      var b, j, number :| 0 <= b < BlockCount(|data|) && 0 <= j < |ParityShards(code, sent.policy, data, b)|
        && 0 <= number && p == ParityPacket(code, sent.policy, data, b, j, number);
    }
    DataPartsOf(data, parity);
  }

  // The store holds the frame's data packets, with resends left for all of these fragments.
  ghost predicate Holds(s: R.Store, sent: SentFrame, fragments: seq<u16>)
    requires |sent.data| <= MAX_FRAME
  {
    && R.AllCounted(s.frames)
    && R.FindFrame(s.frames, sent.stream, sent.frame).Some?
    && var stored := s.frames[R.FindFrame(s.frames, sent.stream, sent.frame).value];
       stored.parts == sent.DataPackets() && forall f :: f in fragments ==> Left(stored, f)
  }

  // A frame just remembered is held whole, with all its resends left, unless it is larger than the store.
  lemma JustRemembered(code: Code, sent: SentFrame, s: R.Store, fragments: seq<u16>)
    requires |sent.data| <= MAX_FRAME && R.AllCounted(s.frames)
    requires R.FindFrame(s.frames, sent.stream, sent.frame).None?
    requires forall f :: f in fragments ==> f < sent.Count()
    ensures var after := R.AfterRemember(s, sent.stream, sent.frame, sent.Packets(code));
            if |sent.data| <= R.MAX_STORED_BYTES then Holds(after, sent, fragments) else after == s
  {
    hide FragmentCount, Piece, R.AfterRemember, R.Size, R.DataParts, R.FindFrame, R.AllCounted;
    RemembersData(code, sent);
    DataSize(sent);
    Stored(s, sent.stream, sent.frame, sent.Packets(code));
    assert |sent.DataPackets()| == sent.Count();
  }

  lemma DataSize(sent: SentFrame)
    requires |sent.data| <= MAX_FRAME
    ensures R.Size(sent.DataPackets()) == |sent.data|
  {
    hide FragmentCount, Piece, TotalBytes, R.Size;
    PiecesJoin(sent.data);
    SizeOfParts(sent.DataPackets(), Pieces(sent.data));
  }

  lemma Stored(s: R.Store, stream: u16, frame: u32, packets: seq<Packet>)
    requires R.AllCounted(s.frames) && R.FindFrame(s.frames, stream, frame).None?
    ensures var after := R.AfterRemember(s, stream, frame, packets);
            if R.Size(R.DataParts(packets)) > R.MAX_STORED_BYTES then after == s
            else
              var i := R.FindFrame(after.frames, stream, frame);
              && R.AllCounted(after.frames)
              && i.Some? && after.frames[i.value] == R.NewStored(stream, frame, R.DataParts(packets))
  {
    hide R.Overflow, R.Total, R.Size, R.DataParts, R.FindFrame;
    if R.Size(R.DataParts(packets)) <= R.MAX_STORED_BYTES {
      var x := R.NewStored(stream, frame, R.DataParts(packets));
      LastStays(s.frames, x);
      FindLast(s.frames, x, R.Overflow(s.frames + [x]));
    }
  }

  lemma {:induction false} SizeOfParts(parts: seq<Packet>, slots: seq<Slot>)
    requires |parts| == |slots| && forall i :: 0 <= i < |parts| ==> slots[i] == Some(parts[i].payload)
    ensures R.Size(parts) == TotalBytes(slots)
  {
    if parts != [] {
      SizeOfParts(parts[..|parts| - 1], slots[..|slots| - 1]);
    }
  }

  lemma LastStays(frames: seq<R.Stored>, x: R.Stored)
    requires R.Size(x.parts) <= R.MAX_STORED_BYTES
    ensures R.Overflow(frames + [x]) <= |frames|
  {
    R.KeepsLongestSuffix(frames + [x]);
    assert (frames + [x])[|frames|..] == [x];
    assert R.Total([x]) == R.Size(x.parts) + R.Total([]);
  }

  lemma {:induction false} FindLast(frames: seq<R.Stored>, x: R.Stored, d: nat)
    requires d <= |frames| && R.FindFrame(frames, x.stream, x.frame).None?
    ensures R.FindFrame((frames + [x])[d..], x.stream, x.frame) == Some(|frames| - d)
    decreases |frames| - d
  {
    if d < |frames| {
      FindLast(frames, x, d + 1);
      assert (frames + [x])[d..][1..] == (frames + [x])[d + 1..];
    }
  }

  // Asked for fragments it holds, the sender returns exactly those, in order.
  lemma RespondsWithThose(s: R.Store, sent: SentFrame, fragments: seq<u16>)
    requires |sent.data| <= MAX_FRAME && Holds(s, sent, fragments) && F.Ascending(fragments)
    ensures forall f :: f in fragments ==> f < sent.Count()
    ensures |R.AfterRespond(s, sent.stream, sent.frame, fragments).1| == |fragments|
    ensures forall i :: 0 <= i < |fragments| ==>
              fragments[i] in fragments
              && R.AfterRespond(s, sent.stream, sent.frame, fragments).1[i] == sent.DataPackets()[fragments[i]]
  {
    hide FragmentCount, Piece, R.Answer;
    var stored := s.frames[R.FindFrame(s.frames, sent.stream, sent.frame).value];
    AnswersAll(stored, fragments);
  }

  // ---- What the receiver makes of it ----

  // The frame waits on its stream, holding what was sent and at least what `had` and the packets since hold; or it
  // was delivered.
  ghost predicate Waits(code: Code, sent: SentFrame, st: StreamState, had: seq<Slot>, got: set<Key>)
    requires |sent.data| <= MAX_FRAME && |had| == sent.Count()
  {
    && Ahead(st, sent.frame)
    && AllWellFormed(st.pending)
    && IndexOf(st.pending, sent.frame).Some?
    && var p := st.pending[IndexOf(st.pending, sent.frame).value];
       && Genuine(code, sent, p)
       && forall i :: 0 <= i < |had| && (had[i].Some? || DataKey(i) in got) ==> p.slots[i].Some?
  }

  lemma OwnSlotFilled(code: Code, p: Pending, a: Arrival)
    requires WellFormed(p) && Fits(a, |p.slots|) && a.Data? && Absorb(code, p, a).Grown?
    ensures |Absorb(code, p, a).pending.slots| == |p.slots| && Absorb(code, p, a).pending.slots[a.index].Some?
  {
    hide Rebuilt, ParityShaped;
    var q := Fill(p, a.index, a.payload);
    FillWellFormed(p, a.index, a.payload);
    RebuiltWellFormed(code, q);
    assert q.slots[a.index].Some?;
  }

  lemma IndexStays(pending: seq<Pending>, frame: u32, q: Pending)
    requires IndexOf(pending, frame).Some? && q.frame == frame
    ensures IndexOf(pending[IndexOf(pending, frame).value := q], frame) == IndexOf(pending, frame)
  {
    if pending[0].frame != frame {
      IndexStays(pending[1..], frame, q);
      var i := IndexOf(pending, frame).value;
      assert pending[i := q][1..] == pending[1..][i - 1 := q];
    }
  }

  lemma PushWaiting(
    code: Code, sent: SentFrame, st: StreamState, had: seq<Slot>, got: set<Key>, header: Header, payload: Bytes)
    requires Sendable(code, sent) && |had| == sent.Count() && PacketOf(code, sent, header, payload)
    requires Waits(code, sent, st, had, got)
    ensures header.Decodable() && Read(header, payload).Good?
    ensures var a := Read(header, payload).arrival;
      var e := PushStream(code, st, header, a);
      if Delivers(e.reply) then
        e.reply == Ok(Some(Whole(sent))) && e.stream.lastDelivered == Some(sent.frame)
      else
        Waits(code, sent, e.stream, had, got + {KeyOf(a)})
  {
    hide WellFormed, Fits, Absorb, ShardOf, Recoverable, PacketOf, Read, FragmentCount, Genuine, Newer, Piece;
    PacketReads(code, sent, header, payload);
    var a := Read(header, payload).arrival;
    var i := IndexOf(st.pending, sent.frame).value;
    var p := st.pending[i];
    GenuineStamp(code, sent, p);
    AbsorbGenuine(code, sent, p, a);
    PushStreamSound(code, st, header, a);
    if Absorb(code, p, a).Grown? {
      var q := Absorb(code, p, a).pending;
      AbsorbKeeps(code, p, a);
      GenuineStamp(code, sent, q);
      if a.Data? {
        OwnSlotFilled(code, p, a);
      }
      if q.received >= |q.slots| {
        CompleteIsSent(code, sent, q);
      } else {
        IndexStays(st.pending, sent.frame, q);
      }
    } else if a.Data? {
      IgnoredIsFilled(code, p, a);
    }
  }

  lemma IgnoredIsFilled(code: Code, p: Pending, a: Arrival)
    requires WellFormed(p) && Fits(a, |p.slots|) && a.Data? && Absorb(code, p, a).Ignored?
    ensures p.slots[a.index].Some?
  {
    hide Rebuilt, ParityShaped;
  }

  // The state of the frame's stream after some of its packets.
  ghost predicate Progress(code: Code, sent: SentFrame, start: Log, log: Log, had: seq<Slot>, got: set<Key>)
    requires |sent.data| <= MAX_FRAME && |had| == sent.Count()
  {
    var st := log.state.Stream(sent.stream);
    var before, after := On(start.delivered, sent.stream), On(log.delivered, sent.stream);
    || (Waits(code, sent, st, had, got) && after == before)
    || (st.lastDelivered == Some(sent.frame) && after == before + [Whole(sent)])
  }

  lemma ArriveProgress(
    code: Code, sent: SentFrame, start: Log, log: Log, had: seq<Slot>, got: set<Key>, header: Header, payload: Bytes)
    requires Sendable(code, sent) && |had| == sent.Count() && PacketOf(code, sent, header, payload)
    requires Sound(log.state) && header.Decodable() && header.stream == sent.stream
    requires Progress(code, sent, start, log, had, got)
    ensures Read(header, payload).Good?
    ensures Progress(code, sent, start, Step(code, log, Arrive(header, payload)), had,
                     got + {KeyOf(Read(header, payload).arrival)})
  {
    hide WellFormed, PushStream, Read, PacketOf, Recoverable, FragmentCount, Waits;
    PacketReads(code, sent, header, payload);
    var st := log.state.Stream(sent.stream);
    assert (log.delivered + [Whole(sent)])[..|log.delivered|] == log.delivered;
    assert log.delivered + [] == log.delivered;
    if st.lastDelivered == Some(sent.frame)
      && On(log.delivered, sent.stream) == On(start.delivered, sent.stream) + [Whole(sent)]
    {
      LateIsIgnored(code, st, header, Read(header, payload).arrival);
    } else {
      PushWaiting(code, sent, st, had, got, header, payload);
    }
  }

  lemma LateIsIgnored(code: Code, st: StreamState, header: Header, a: Arrival)
    requires AllWellFormed(st.pending) && header.fragments > 0 && Fits(a, header.fragments)
    requires st.lastDelivered == Some(header.frame)
    ensures PushStream(code, st, header, a) == Effect(st, Ok(None), 0, 0, false)
  {
    hide WellFormed, Fits;
  }

  lemma {:induction false} RunProgress(code: Code, sent: SentFrame, start: Log, had: seq<Slot>, ops: seq<Op>)
    requires Sendable(code, sent) && |had| == sent.Count() && Lone(code, sent, ops)
    requires Sound(start.state) && Waits(code, sent, start.state.Stream(sent.stream), had, {})
    ensures Progress(code, sent, start, RunFrom(code, start, ops), had, Got(sent, ops))
  {
    hide WellFormed, Read, PacketOf, Recoverable, FragmentCount, Waits, Step, Progress;
    if ops == [] {
      assert Progress(code, sent, start, start, had, {}) by { StartProgress(code, sent, start, had); }
    } else {
      var init, op := ops[..|ops| - 1], ops[|ops| - 1];
      assert op in ops;
      RunProgress(code, sent, start, had, init);
      var log, got := RunFrom(code, start, init), Got(sent, init);
      if op.Arrive? && op.header.stream == sent.stream {
        ArriveProgress(code, sent, start, log, had, got, op.header, op.payload);
      } else {
        OtherStream(code, log, op, sent.stream);
        OtherProgress(code, sent, start, log, op, had, got);
        assert Got(sent, ops) == got;
      }
    }
  }

  lemma StartProgress(code: Code, sent: SentFrame, start: Log, had: seq<Slot>)
    requires |sent.data| <= MAX_FRAME && |had| == sent.Count()
    requires Waits(code, sent, start.state.Stream(sent.stream), had, {})
    ensures Progress(code, sent, start, start, had, {})
  {
    hide Waits;
  }

  lemma OtherProgress(code: Code, sent: SentFrame, start: Log, log: Log, op: Op, had: seq<Slot>, got: set<Key>)
    requires |sent.data| <= MAX_FRAME && |had| == sent.Count() && Sound(log.state) && Readable(op)
    requires Progress(code, sent, start, log, had, got)
    requires Step(code, log, op).state.Stream(sent.stream) == log.state.Stream(sent.stream)
    requires On(Step(code, log, op).delivered, sent.stream) == On(log.delivered, sent.stream)
    ensures Progress(code, sent, start, Step(code, log, op), had, got)
  {
    hide Waits, Step;
  }

  // The frame waits on its stream, holding only what was sent.
  ghost predicate Waiting(code: Code, sent: SentFrame, st: StreamState)
    requires |sent.data| <= MAX_FRAME
  {
    && Ahead(st, sent.frame)
    && AllWellFormed(st.pending)
    && IndexOf(st.pending, sent.frame).Some?
    && Genuine(code, sent, st.pending[IndexOf(st.pending, sent.frame).value])
  }

  // What the receiver reports missing of it.
  function Missing(code: Code, sent: SentFrame, st: StreamState): seq<u16>
    requires |sent.data| <= MAX_FRAME && Waiting(code, sent, st)
  {
    var p := st.pending[IndexOf(st.pending, sent.frame).value];
    MissingFrom(p.slots, 0)
  }

  // Every packet of the answer is among what arrives, under whatever number.
  ghost predicate Resent(answer: seq<Packet>, ops: seq<Op>) {
    forall q :: q in answer ==>
      exists op :: op in ops && op.Arrive? && op.header.(packet := 0) == q.header && op.payload == q.payload
  }

  lemma {:induction false} GotHas(sent: SentFrame, ops: seq<Op>, op: Op)
    requires (forall o :: o in ops ==> Readable(o)) && op in ops
    requires Readable(op) && op.Arrive? && op.header.stream == sent.stream && Read(op.header, op.payload).Good?
    ensures KeyOf(Read(op.header, op.payload).arrival) in Got(sent, ops)
  {
    hide Read;
    var init, last := ops[..|ops| - 1], ops[|ops| - 1];
    assert ops == init + [last];
    if op in init {
      GotHas(sent, init, op);
    }
  }

  lemma DataPacketReads(sent: SentFrame, header: Header, payload: Bytes, m: nat)
    requires |sent.data| <= MAX_FRAME && m < sent.Count()
    requires header.(packet := 0) == sent.DataPackets()[m].header && payload == sent.DataPackets()[m].payload
    ensures header.Decodable() && Read(header, payload) == Good(Data(m, payload)) && header.stream == sent.stream
  {
    hide FragmentCount, Piece;
  }

  // Once every missing fragment has arrived, nothing is missing.
  lemma NothingMissing(code: Code, sent: SentFrame, st: StreamState, had: seq<Slot>, got: set<Key>)
    requires |sent.data| <= MAX_FRAME && |had| == sent.Count()
    requires forall i :: 0 <= i < |had| && had[i].None? ==> DataKey(i) in got
    ensures !Waits(code, sent, st, had, got)
  {
    hide FragmentCount, Piece, ParityShaped, Newer;
    if Waits(code, sent, st, had, got) {
      var p := st.pending[IndexOf(st.pending, sent.frame).value];
      CountFull(p.slots);
    }
  }

  // The loop closes. The sender answers with what a waiting frame misses; and once the answers arrive, in any order and
  // repeated, with any other packets of the frame and of other streams between, the frame is delivered, once, as it was
  // sent.
  lemma LoopCloses(code: Code, sent: SentFrame, store: R.Store, start: Log, ops: seq<Op>)
    requires Sendable(code, sent) && Sound(start.state) && Lone(code, sent, ops)
    requires Waiting(code, sent, start.state.Stream(sent.stream))
    requires var missing := Missing(code, sent, start.state.Stream(sent.stream));
      && Holds(store, sent, missing)
      && Resent(R.AfterRespond(store, sent.stream, sent.frame, missing).1, ops)
    ensures On(RunFrom(code, start, ops).delivered, sent.stream) == On(start.delivered, sent.stream) + [Whole(sent)]
    ensures RunFrom(code, start, ops).state.Stream(sent.stream).lastDelivered == Some(sent.frame)
  {
    hide WellFormed, Read, PacketOf, Recoverable, FragmentCount, Waits, Step, Genuine, Newer, RunFrom, R.AfterRespond,
      Piece;
    var st := start.state.Stream(sent.stream);
    var p := st.pending[IndexOf(st.pending, sent.frame).value];
    GenuineStamp(code, sent, p);
    var missing := Missing(code, sent, st);
    var answer := R.AfterRespond(store, sent.stream, sent.frame, missing).1;
    RespondsWithThose(store, sent, missing);
    assert Waits(code, sent, st, p.slots, {}) by { WaitsFirst(code, sent, st); }
    RunProgress(code, sent, start, p.slots, ops);
    forall m | 0 <= m < |p.slots| && p.slots[m].None?
      ensures DataKey(m) in Got(sent, ops)
    {
      assert m in missing;
      var x :| 0 <= x < |missing| && missing[x] == m;
      assert answer[x] in answer;
      var op :| op in ops && op.Arrive?
        && op.header.(packet := 0) == answer[x].header && op.payload == answer[x].payload;
      DataPacketReads(sent, op.header, op.payload, m);
      GotHas(sent, ops, op);
    }
    NothingMissing(code, sent, RunFrom(code, start, ops).state.Stream(sent.stream), p.slots, Got(sent, ops));
  }

  lemma WaitsFirst(code: Code, sent: SentFrame, st: StreamState)
    requires |sent.data| <= MAX_FRAME && Waiting(code, sent, st)
    ensures |st.pending[IndexOf(st.pending, sent.frame).value].slots| == sent.Count()
    ensures Waits(code, sent, st, st.pending[IndexOf(st.pending, sent.frame).value].slots, {})
  {
    hide WellFormed, FragmentCount, Piece;
  }

  // What the receiver lists of the frame when it looks for losses.
  function Listed(code: Code, sent: SentFrame, st: StreamState): Reassembly.Waiting
    requires |sent.data| <= MAX_FRAME && Waiting(code, sent, st)
  {
    WaitingOf(sent.stream, st.pending[IndexOf(st.pending, sent.frame).value])
  }

  // The request made for it arrives whole when the missing fragments are few enough in few enough runs.
  lemma RequestArrives(code: Code, sent: SentFrame, st: StreamState)
    requires |sent.data| <= MAX_FRAME && Waiting(code, sent, st)
    requires |Missing(code, sent, st)| <= F.MAX_NACK_FRAGMENTS
    requires |F.RunsOf(Missing(code, sent, st))| <= F.MAX_RANGES
    ensures |F.Distinct(Missing(code, sent, st))| <= U16_MAX
    ensures var request := F.Nack(sent.stream, sent.frame, Missing(code, sent, st));
            && D.Say(Listed(code, sent, st), D.Asks) == [request]
            && F.Decode(F.Encode(request)) == Some(request)
  {
    hide F.Distinct, F.RunsOf, F.Encode, F.Decode;
    F.NackArrives(sent.stream, sent.frame, Missing(code, sent, st));
  }

  // The loop closes over the wire: the sender answers the request as it decodes it from what the receiver encoded.
  lemma RequestCloses(code: Code, sent: SentFrame, store: R.Store, start: Log, request: F.Feedback, ops: seq<Op>)
    requires Sendable(code, sent) && Sound(start.state) && Lone(code, sent, ops)
    requires var st := start.state.Stream(sent.stream);
      && Waiting(code, sent, st)
      && |Missing(code, sent, st)| <= F.MAX_NACK_FRAGMENTS && |F.RunsOf(Missing(code, sent, st))| <= F.MAX_RANGES
      && D.Say(Listed(code, sent, st), D.Asks) == [request]
      && Holds(store, sent, Missing(code, sent, st))
    ensures request.Nack? && |F.Distinct(request.fragments)| <= U16_MAX
    ensures F.Decode(F.Encode(request)).Some? && F.Decode(F.Encode(request)).value.Nack?
    ensures var asked := F.Decode(F.Encode(request)).value;
            Resent(R.AfterRespond(store, asked.stream, asked.frame, asked.fragments).1, ops) ==>
              && On(RunFrom(code, start, ops).delivered, sent.stream)
                 == On(start.delivered, sent.stream) + [Whole(sent)]
              && RunFrom(code, start, ops).state.Stream(sent.stream).lastDelivered == Some(sent.frame)
  {
    hide F.Distinct, F.RunsOf, F.Encode, F.Decode, R.AfterRespond, Waiting, R.AllCounted, RunFrom, Resent, Missing,
      Recoverable, Lone, D.Say;
    var st := start.state.Stream(sent.stream);
    RequestArrives(code, sent, st);
    assert request == F.Nack(sent.stream, sent.frame, Missing(code, sent, st));
    var asked := F.Decode(F.Encode(request)).value;
    if Resent(R.AfterRespond(store, asked.stream, asked.frame, asked.fragments).1, ops) {
      LoopCloses(code, sent, store, start, ops);
    }
  }

  // ---- From a poll ----

  lemma {:induction false} ListedFrom(s: State, order: seq<u16>, i: nat)
    requires Sound(s) && forall stream :: stream in order ==> stream in s.streams
    requires i < |WaitingAll(s, order)|
    ensures var w := WaitingAll(s, order)[i];
            && w.stream in s.streams
            && var pending := s.streams[w.stream].pending;
               exists j :: 0 <= j < |pending| && w == WaitingOf(w.stream, pending[j])
  {
    hide WellFormed, WaitingOf;
    var init, stream := order[..|order| - 1], order[|order| - 1];
    assert stream in order && forall o :: o in init ==> o in order;
    var before := WaitingAll(s, init);
    if i < |before| {
      ListedFrom(s, init, i);
    } else {
      var j := i - |before|;
      assert WaitingAll(s, order)[i] == WaitingIn(stream, s.streams[stream].pending)[j];
      StreamOf(stream, s.streams[stream].pending[j]);
    }
  }

  lemma StreamOf(stream: u16, p: Pending)
    requires WellFormed(p)
    ensures |p.slots| < 0x1_0000
    ensures WaitingOf(stream, p).stream == stream && WaitingOf(stream, p).frame == p.frame
  {}

  lemma OneIndex(pending: seq<Pending>, j: nat)
    requires j < |pending| && DistinctFrames(pending)
    ensures IndexOf(pending, pending[j].frame) == Some(j)
  {}

  // The waiting frame is listed, as what it misses.
  lemma IsListed(code: Code, sent: SentFrame, s: State, order: seq<u16>) returns (i: nat)
    requires |sent.data| <= MAX_FRAME && Sound(s) && D.StreamsDistinct(s) && Enumerates(order, s.streams)
    requires Waiting(code, sent, s.Stream(sent.stream))
    ensures i < |WaitingAll(s, order)| && WaitingAll(s, order)[i] == Listed(code, sent, s.Stream(sent.stream))
    ensures D.DistinctKeys(WaitingAll(s, order))
    ensures WaitingAll(s, order)[i]
            == Reassembly.Waiting(sent.stream, sent.frame, Missing(code, sent, s.Stream(sent.stream)))
  {
    hide WellFormed, WaitingAll, Genuine, Newer;
    D.WaitingAllKeys(s, order);
    var st := s.Stream(sent.stream);
    var k := IndexOf(st.pending, sent.frame).value;
    assert sent.stream in s.streams;
    assert D.Waits'(s, (sent.stream, sent.frame));
    assert (sent.stream, sent.frame) in D.Keys(WaitingAll(s, order));
    i :| 0 <= i < |WaitingAll(s, order)| && D.KeyOf(WaitingAll(s, order)[i]) == (sent.stream, sent.frame);
    ListedFrom(s, order, i);
    var w := WaitingAll(s, order)[i];
    forall p | p in st.pending ensures |p.slots| < 0x1_0000 {
      StreamOf(sent.stream, p);
    }
    var j :| 0 <= j < |st.pending| && w == WaitingOf(w.stream, st.pending[j]);
    OneIndex(st.pending, j);
  }

  // A poll asks for a waiting frame that is due: with one request, for exactly what it misses.
  lemma PollRequests(
    code: Code, sent: SentFrame, core: D.Core, order: seq<u16>, now: nat, timing: D.Timing)
    requires |sent.data| <= MAX_FRAME && Sound(core.state) && D.StreamsDistinct(core.state)
    requires Enumerates(order, core.state.streams)
    requires Waiting(code, sent, core.state.Stream(sent.stream))
    requires (forall key :: key in core.seen ==> core.seen[key].nacks <= 2)
    requires D.Due(core, now, timing, (sent.stream, sent.frame))
    ensures D.NacksFor(D.PollAll(now, timing, core, WaitingAll(core.state, order)).1, (sent.stream, sent.frame))
            == [F.Nack(sent.stream, sent.frame, Missing(code, sent, core.state.Stream(sent.stream)))]
  {
    hide WaitingAll, D.PollAll, D.Due, D.NacksFor, Waiting, Missing, D.DistinctKeys;
    var i := IsListed(code, sent, core.state, order);
    D.PollAsks(now, timing, core, WaitingAll(core.state, order), i);
  }
}
