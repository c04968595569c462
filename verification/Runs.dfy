/** Every run of the reassembler, whatever the packets are and whenever frames are given up. */
module Runs {
  import opened Wrappers
  import opened Words
  import opened Headers
  import opened Slots
  import opened Erasure
  import opened Fragments
  import opened Pendings
  import opened Reassembly
  import opened StreamOrder

  datatype Op =
    | Arrive(header: Header, payload: Bytes)
    | GiveUp(stream: u16, frame: u32)

  predicate Readable(op: Op) {
    op.Arrive? ==> op.header.Decodable()
  }

  // The state, with how many frames were started, every frame delivered, in order, and how many slots were ever filled
  // by something other than their own packet.
  datatype Log = Log(state: State, started: nat, delivered: seq<Frame>, rebuilt: nat)

  // The slots a packet filled, but for its own.
  function FilledByOthers(code: Code, p: Pending, a: Arrival): nat
    requires WellFormed(p) && Fits(a, |p.slots|)
  {
    match Absorb(code, p, a)
    case Grown(q, _) =>
      AbsorbKeeps(code, p, a);
      |FilledBetween(p.slots, q.slots) - Own(a)|
    case _ => 0
  }

  // The same for the frame on whose slots a packet lands.
  function SlotsRebuilt(code: Code, s: State, header: Header, payload: Bytes): nat
    requires Sound(s) && header.Decodable()
  {
    var st := s.Stream(header.stream);
    match Read(header, payload)
    case Good(a) =>
      if Late(st, header.frame) then 0
      else (
        match Find(st.pending, header)
        case TooBig => 0
        case Known(i) => if |st.pending[i].slots| == header.fragments then FilledByOthers(code, st.pending[i], a) else 0
        case Fresh(pending, _) =>
          FreshSound(st.pending, header);
          FilledByOthers(code, pending[|pending| - 1], a)
      )
    case _ => 0
  }

  lemma UpdateRebuilds(code: Code, st: StreamState, index: nat, stream: u16, a: Arrival)
    requires index < |st.pending| && WellFormed(st.pending[index]) && Fits(a, |st.pending[index].slots|)
    ensures Update(code, st, index, stream, a).rebuilt == FilledByOthers(code, st.pending[index], a)
  {
    hide WellFormed, Absorb, Fits, FilledBetween, Own;
    if Absorb(code, st.pending[index], a).Grown? {
      AbsorbKeeps(code, st.pending[index], a);
    }
  }

  // What the reassembler adds to its count of recovered fragments is the slots rebuilt.
  lemma PushRebuilds(code: Code, s: State, header: Header, payload: Bytes)
    requires Sound(s) && header.Decodable()
    ensures AfterPush(code, s, header, payload).0.recovered == s.recovered + SlotsRebuilt(code, s, header, payload)
  {
    hide WellFormed, Fits, Update, FilledByOthers, Find, Read;
    var reading := Read(header, payload);
    if reading.Good? {
      var st := s.Stream(header.stream);
      if !Late(st, header.frame) {
        match Find(st.pending, header)
        case TooBig =>
        case Known(i) =>
          if |st.pending[i].slots| == header.fragments {
            UpdateRebuilds(code, st, i, header.stream, reading.arrival);
          }
        case Fresh(pending, _) =>
          FreshSound(st.pending, header);
          UpdateRebuilds(code, st.(pending := pending), |pending| - 1, header.stream, reading.arrival);
      }
    }
  }

  function Step(code: Code, log: Log, op: Op): (r: Log)
    requires Sound(log.state) && Readable(op)
    ensures Sound(r.state)
  {
    match op
    case Arrive(header, payload) =>
      PushSound(code, log.state, header, payload);
      var (state, reply, started) := AfterPush(code, log.state, header, payload);
      Log(state, log.started + (if started then 1 else 0),
          log.delivered + (if Delivers(reply) then [reply.value.value] else []),
          log.rebuilt + SlotsRebuilt(code, log.state, header, payload))
    case GiveUp(stream, frame) =>
      AbandonSound(log.state, stream, frame);
      log.(state := AfterAbandon(log.state, stream, frame).0)
  }

  const START: Log := Log(State(map[], 0, 0), 0, [], 0)

  function RunFrom(code: Code, log: Log, ops: seq<Op>): (r: Log)
    requires Sound(log.state) && forall op :: op in ops ==> Readable(op)
    ensures Sound(r.state)
  {
    if ops == [] then log
    else Step(code, RunFrom(code, log, ops[..|ops| - 1]), ops[|ops| - 1])
  }

  function Run(code: Code, ops: seq<Op>): (r: Log)
    requires forall op :: op in ops ==> Readable(op)
    ensures Sound(r.state)
  {
    RunFrom(code, START, ops)
  }

  lemma AbandonSound(s: State, stream: u16, frame: u32)
    requires Sound(s)
    ensures Sound(AfterAbandon(s, stream, frame).0)
  {
    hide WellFormed;
    if stream in s.streams {
      var i := IndexOf(s.streams[stream].pending, frame);
      if i.Some? {
        RestWellFormed(s.streams[stream].pending, i.value, 0);
      }
    }
  }

  // ---- What is counted ----

  // How many frames wait on the first `c` stream numbers.
  function WaitingBelow(streams: map<u16, StreamState>, c: nat): nat {
    if c == 0 then 0
    else WaitingBelow(streams, c - 1) + if c - 1 < 0x1_0000 && c - 1 in streams then |streams[c - 1].pending| else 0
  }

  function WaitingCount(streams: map<u16, StreamState>): nat {
    WaitingBelow(streams, 0x1_0000)
  }

  lemma {:induction false} WaitingUpdate(streams: map<u16, StreamState>, c: nat, stream: u16, st: StreamState)
    ensures WaitingBelow(streams[stream := st], c)
            == WaitingBelow(streams, c)
               + if stream < c then |st.pending| - (if stream in streams then |streams[stream].pending| else 0) else 0
  {
    if c > 0 {
      WaitingUpdate(streams, c - 1, stream, st);
    }
  }

  lemma {:induction false} WaitingNone(c: nat)
    ensures WaitingBelow(map[], c) == 0
  {
    if c > 0 {
      WaitingNone(c - 1);
    }
  }

  // The last frame delivered on a stream.
  function LastOn(delivered: seq<Frame>, stream: u16): Option<u32> {
    if delivered == [] then None
    else if delivered[|delivered| - 1].stream == stream then Some(delivered[|delivered| - 1].frame)
    else LastOn(delivered[..|delivered| - 1], stream)
  }

  // Each frame delivered on a stream is newer than the one delivered on it before.
  ghost predicate Increasing(delivered: seq<Frame>) {
    delivered != [] ==>
      var init, f := delivered[..|delivered| - 1], delivered[|delivered| - 1];
      && Increasing(init)
      && (LastOn(init, f.stream).Some? ==> Newer(f.frame, LastOn(init, f.stream).value))
  }

  ghost predicate StreamsOrdered(streams: map<u16, StreamState>) {
    forall stream :: stream in streams ==> Ordered(streams[stream])
  }

  ghost predicate StreamsWithinFrame(streams: map<u16, StreamState>) {
    forall stream :: stream in streams ==> WithinFrame(streams[stream].pending)
  }

  // The streams know what was delivered last.
  ghost predicate Remembered(log: Log) {
    forall stream: u16 :: LastOn(log.delivered, stream) == log.state.Stream(stream).lastDelivered
  }

  ghost predicate Sized(delivered: seq<Frame>, bound: nat) {
    forall f :: f in delivered ==> |f.data| <= bound
  }

  ghost predicate Invariant(log: Log) {
    && StreamsOrdered(log.state.streams)
    && log.started == |log.delivered| + log.state.dropped + WaitingCount(log.state.streams)
    && log.state.recovered == log.rebuilt
    && Increasing(log.delivered)
    && Remembered(log)
    && Sized(log.delivered, MAX_FRAME + FRAGMENT_SIZE)
    && (log.state.recovered == 0 ==> Sized(log.delivered, MAX_FRAME) && StreamsWithinFrame(log.state.streams))
  }

  lemma LastOnAppend(delivered: seq<Frame>, f: Frame)
    ensures forall stream: u16 ::
              LastOn(delivered + [f], stream) == if stream == f.stream then Some(f.frame) else LastOn(delivered, stream)
    ensures Increasing(delivered + [f]) <==>
              Increasing(delivered)
              && (LastOn(delivered, f.stream).Some? ==> Newer(f.frame, LastOn(delivered, f.stream).value))
  {
    assert (delivered + [f])[..|delivered|] == delivered;
  }

  // Putting a stream that kept its promises back into the log.
  lemma EffectKeeps(log: Log, stream: u16, e: Effect)
    requires Invariant(log) && Kept(log.state.Stream(stream), e, stream)
    ensures Invariant(
      Log(State(log.state.streams[stream := e.stream], log.state.dropped + e.dropped, log.state.recovered + e.rebuilt),
          log.started + (if e.started then 1 else 0),
          log.delivered + (if Delivers(e.reply) then [e.reply.value.value] else []), log.rebuilt + e.rebuilt))
  {
    hide Ordered, Newer, WithinFrame, WaitingBelow;
    WaitingUpdate(log.state.streams, 0x1_0000, stream, e.stream);
    NewStreamOrdered();
    if Delivers(e.reply) {
      LastOnAppend(log.delivered, e.reply.value.value);
    } else {
      assert log.delivered + [] == log.delivered;
    }
  }

  lemma ArriveKeeps(code: Code, log: Log, header: Header, payload: Bytes)
    requires Sound(log.state) && Invariant(log) && header.Decodable()
    ensures Invariant(Step(code, log, Arrive(header, payload)))
  {
    hide WellFormed, Read, PushStream, Ordered, Invariant, SlotsRebuilt;
    PushRebuilds(code, log.state, header, payload);
    var reading := Read(header, payload);
    if reading.Good? {
      var st := log.state.Stream(header.stream);
      assert Ordered(st) by {
        assert StreamsOrdered(log.state.streams) by { InvariantStreams(log); }
        NewStreamOrdered();
      }
      PushStreamKeeps(code, st, header, reading.arrival);
      EffectKeeps(log, header.stream, PushStream(code, st, header, reading.arrival));
    } else {
      assert Step(code, log, Arrive(header, payload)) == log;
    }
  }

  lemma InvariantStreams(log: Log)
    requires Invariant(log)
    ensures StreamsOrdered(log.state.streams)
  {
    hide Ordered, WaitingBelow;
  }

  lemma NewStreamOrdered()
    ensures Ordered(NEW_STREAM) && WithinFrame(NEW_STREAM.pending)
  {}

  lemma GiveUpKeeps(code: Code, log: Log, stream: u16, frame: u32)
    requires Sound(log.state) && Invariant(log)
    ensures Invariant(Step(code, log, GiveUp(stream, frame)))
  {
    hide WellFormed, Newer, WaitingBelow, Invariant, RemoveAt;
    InvariantStreams(log);
    var s := log.state;
    if stream in s.streams && IndexOf(s.streams[stream].pending, frame).Some? {
      var st := s.streams[stream];
      var i := IndexOf(st.pending, frame).value;
      RemoveKeepsOrder(st.pending, i, st.lastDelivered);
      RestWellFormed(st.pending, i, 0);
      EffectKeeps(log, stream, Effect(st.(pending := RemoveAt(st.pending, i)), Ok(None), 1, 0, false));
      assert log.delivered + [] == log.delivered;
    }
  }

  // Whatever arrives and whatever is given up: every frame started is delivered, dropped or waiting; the count of
  // recovered fragments is that of the slots ever rebuilt; deliveries on a stream are strictly newer one after the
  // other; a stream keeps at most MAX_IN_FLIGHT frames, newer than the last delivered and within their bounds; and no
  // frame delivered is larger than a frame plus one fragment, nor than a frame while nothing was rebuilt.
  lemma {:induction false} RunKeepsInvariant(code: Code, ops: seq<Op>)
    requires forall op :: op in ops ==> Readable(op)
    ensures Invariant(Run(code, ops))
  {
    hide Invariant, Step;
    if ops == [] {
      StartKeepsInvariant();
    } else {
      var init, op := ops[..|ops| - 1], ops[|ops| - 1];
      RunKeepsInvariant(code, init);
      assert Readable(op);
      match op
      case Arrive(header, payload) => ArriveKeeps(code, Run(code, init), header, payload);
      case GiveUp(stream, frame) => GiveUpKeeps(code, Run(code, init), stream, frame);
    }
  }

  lemma StartKeepsInvariant()
    ensures Invariant(START)
  {
    WaitingNone(0x1_0000);
  }
}
