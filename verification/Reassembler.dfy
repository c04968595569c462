/** Collecting packets per frame, per stream: the state machine and what every packet does to it. */
module Reassembly {
  import opened Wrappers
  import opened Words
  import opened Headers
  import opened Blocks
  import opened Slots
  import opened Erasure
  import opened Parity
  import opened Fragments
  import opened Pendings

  const MAX_IN_FLIGHT: nat := 4

  datatype Frame = Frame(stream: u16, frame: u32, sentUs: u32, data: Bytes)

  // A waiting frame and its missing fragments.
  datatype Waiting = Waiting(stream: u16, frame: u32, missing: seq<u16>)

  datatype StreamState = StreamState(lastDelivered: Option<u32>, pending: seq<Pending>)

  const NEW_STREAM: StreamState := StreamState(None, [])

  datatype State = State(streams: map<u16, StreamState>, dropped: nat, recovered: nat)
  {
    function Stream(stream: u16): StreamState {
      if stream in streams then streams[stream] else NEW_STREAM
    }
  }

  type Reply = Result<Option<Frame>, ReassembleError>

  // ---- Frame numbers ----

  // Less than half the range ahead, going round.
  predicate Newer(a: u32, b: u32) {
    a != b && (a - b) % 0x1_0000_0000 < 0x8000_0000
  }

  // ---- Reading a packet ----

  // Noise is skipped, a badly cut data fragment refused.
  datatype Reading = Noise | Bad | Good(arrival: Arrival)

  function Read(header: Header, payload: Bytes): (r: Reading)
    requires header.Decodable()
    ensures r.Good? ==> Fits(r.arrival, header.fragments)
  {
    if header.IsParity() then
      match Parse(payload)
      case None => Noise
      case Some((prefix, shard)) =>
        if prefix.block >= BlockCount(header.fragments) then Noise else Good(Shard(prefix, shard))
    else if |payload| > FRAGMENT_SIZE then Bad
    else if header.fragment + 1 != header.fragments && |payload| != FRAGMENT_SIZE then Bad
    else Good(Data(header.fragment, payload))
  }

  // ---- The waiting frames of one stream ----

  function IndexOf(pending: seq<Pending>, frame: u32): (r: Option<nat>)
    ensures r.Some? ==> r.value < |pending| && pending[r.value].frame == frame
    ensures r.None? ==> forall i :: 0 <= i < |pending| ==> pending[i].frame != frame
  {
    if pending == [] then None
    else if pending[0].frame == frame then Some(0)
    else
      match IndexOf(pending[1..], frame)
      case None => None
      case Some(i) => Some(i + 1)
  }

  function RemoveAt<T>(s: seq<T>, i: nat): (r: seq<T>)
    requires i < |s|
    ensures |r| == |s| - 1
  {
    s[..i] + s[i + 1..]
  }

  // Walks the frames from `i` on, keeping the older of the one held and the next.
  function OldestFrom(pending: seq<Pending>, a: nat, i: nat): (r: nat)
    requires a < |pending| && i <= |pending|
    ensures r < |pending|
    decreases |pending| - i
  {
    if i == |pending| then a
    else OldestFrom(pending, if Newer(pending[a].frame, pending[i].frame) then i else a, i + 1)
  }

  function Oldest(pending: seq<Pending>): (r: nat)
    requires pending != []
    ensures r < |pending|
  {
    OldestFrom(pending, 0, 1)
  }

  function KeepNewer(pending: seq<Pending>, frame: u32): (r: seq<Pending>)
    ensures |r| <= |pending|
    ensures forall p :: p in r <==> p in pending && Newer(p.frame, frame)
  {
    if pending == [] then []
    else
      var init, last := pending[..|pending| - 1], pending[|pending| - 1];
      assert pending == init + [last];
      KeepNewer(init, frame) + if Newer(last.frame, frame) then [last] else []
  }

  // ---- One packet on its stream ----

  // What a packet did: the stream after it, the reply, how many frames were given up, how many slots were rebuilt,
  // and whether it started a frame.
  datatype Effect = Effect(stream: StreamState, reply: Reply, dropped: nat, rebuilt: nat, started: bool)

  // Where a packet's frame waits, after making room for it if it is new.
  datatype Place =
    | Known(index: nat)
    | Fresh(pending: seq<Pending>, dropped: nat)
    | TooBig

  function Find(pending: seq<Pending>, header: Header): (r: Place)
    ensures r.Known? ==> r.index < |pending| && pending[r.index].frame == header.frame
    ensures r.Fresh? ==> r.pending != [] && r.pending[|r.pending| - 1]
                         == NewPending(header.frame, header.sentUs, header.fragments)
  {
    match IndexOf(pending, header.frame)
    case Some(i) => Known(i)
    case None =>
      var started := NewPending(header.frame, header.sentUs, header.fragments);
      if header.fragments * FRAGMENT_SIZE > MAX_FRAME + FRAGMENT_SIZE then TooBig
      else if |pending| >= MAX_IN_FLIGHT then Fresh(RemoveAt(pending, Oldest(pending)) + [started], 1)
      else Fresh(pending + [started], 0)
  }

  ghost predicate AllWellFormed(pending: seq<Pending>) {
    forall i :: 0 <= i < |pending| ==> WellFormed(pending[i]) && pending[i].received < |pending[i].slots|
  }

  // The frame at `index` has grown to `p`: it waits on, or is delivered and what is older dropped.
  function Settled(st: StreamState, index: nat, stream: u16, p: Pending, rebuilt: nat): Effect
    requires index < |st.pending|
  {
    if p.received < |p.slots| then Effect(st.(pending := st.pending[index := p]), Ok(None), 0, rebuilt, false)
    else
      var rest := RemoveAt(st.pending, index);
      var kept := KeepNewer(rest, p.frame);
      Effect(StreamState(Some(p.frame), kept), Ok(Some(Frame(stream, p.frame, p.sentUs, Join(p.slots)))),
             |rest| - |kept|, rebuilt, false)
  }

  function Update(code: Code, st: StreamState, index: nat, stream: u16, a: Arrival): Effect
    requires index < |st.pending| && WellFormed(st.pending[index]) && Fits(a, |st.pending[index].slots|)
  {
    match Absorb(code, st.pending[index], a)
    case Ignored => Effect(st, Ok(None), 0, 0, false)
    case Discarded(error) => Effect(st.(pending := RemoveAt(st.pending, index)), Err(error), 1, 0, false)
    case Grown(p, rebuilt) => Settled(st, index, stream, p, rebuilt)
  }

  lemma SettledRebuilt(st: StreamState, index: nat, stream: u16, p: Pending, rebuilt: nat)
    requires index < |st.pending|
    ensures Settled(st, index, stream, p, rebuilt) == Settled(st, index, stream, p, 0).(rebuilt := rebuilt)
  {}

  predicate Late(st: StreamState, frame: u32) {
    st.lastDelivered.Some? && !Newer(frame, st.lastDelivered.value)
  }

  function PushStream(code: Code, st: StreamState, header: Header, a: Arrival): Effect
    requires AllWellFormed(st.pending) && header.fragments > 0 && Fits(a, header.fragments)
  {
    if Late(st, header.frame) then Effect(st, Ok(None), 0, 0, false)
    else
      match Find(st.pending, header)
      case TooBig => Effect(st, Err(ReassembleError.TooLarge), 0, 0, false)
      case Known(i) =>
        if |st.pending[i].slots| != header.fragments then
          Effect(st.(pending := RemoveAt(st.pending, i)), Err(Inconsistent), 1, 0, false)
        else
          Update(code, st, i, header.stream, a)
      case Fresh(pending, dropped) =>
        NewWellFormed(header.frame, header.sentUs, header.fragments);
        var e := Update(code, st.(pending := pending), |pending| - 1, header.stream, a);
        e.(dropped := e.dropped + dropped, started := true)
  }

  // ---- One packet on the whole state ----

  ghost predicate Sound(s: State) {
    forall stream :: stream in s.streams ==> AllWellFormed(s.streams[stream].pending)
  }

  function AfterPush(code: Code, s: State, header: Header, payload: Bytes): (State, Reply, bool)
    requires Sound(s) && header.Decodable()
  {
    match Read(header, payload)
    case Noise => (s, Ok(None), false)
    case Bad => (s, Err(BadFragment), false)
    case Good(a) =>
      var e := PushStream(code, s.Stream(header.stream), header, a);
      (State(s.streams[header.stream := e.stream], s.dropped + e.dropped, s.recovered + e.rebuilt), e.reply, e.started)
  }

  function AfterAbandon(s: State, stream: u16, frame: u32): (State, bool) {
    if stream !in s.streams then (s, false)
    else
      var st := s.streams[stream];
      match IndexOf(st.pending, frame)
      case None => (s, false)
      case Some(i) =>
        (State(s.streams[stream := st.(pending := RemoveAt(st.pending, i))], s.dropped + 1, s.recovered), true)
  }

  // The empty slots of a frame from slot `i` on, in order.
  function MissingFrom(slots: seq<Slot>, i: nat): (m: seq<u16>)
    requires i <= |slots| < 0x1_0000
    ensures forall k :: k in m <==> i <= k < |slots| && slots[k].None?
    ensures forall x, y :: 0 <= x < y < |m| ==> m[x] < m[y]
    decreases |slots| - i
  {
    if i == |slots| then []
    else
      var rest := MissingFrom(slots, i + 1);
      assert forall y :: 0 <= y < |rest| ==> rest[y] in rest;
      if slots[i].None? then [i] + rest else rest
  }

  function WaitingOf(stream: u16, p: Pending): Waiting
    requires |p.slots| < 0x1_0000
  {
    Waiting(stream, p.frame, MissingFrom(p.slots, 0))
  }

  // The waiting frames of one stream, in the order they started.
  function WaitingIn(stream: u16, pending: seq<Pending>): (w: seq<Waiting>)
    requires AllWellFormed(pending)
    ensures |w| == |pending|
  {
    seq(|pending|, i requires 0 <= i < |pending| => WaitingOf(stream, pending[i]))
  }

  // The waiting frames, the streams taken in the order `order` lists them.
  function WaitingAll(s: State, order: seq<u16>): seq<Waiting>
    requires Sound(s) && forall stream :: stream in order ==> stream in s.streams
  {
    if order == [] then []
    else
      WaitingAll(s, order[..|order| - 1])
      + WaitingIn(order[|order| - 1], s.streams[order[|order| - 1]].pending)
  }

  // An order that lists each stream once.
  ghost predicate Enumerates(order: seq<u16>, streams: map<u16, StreamState>) {
    && (forall stream :: stream in order <==> stream in streams)
    && (forall i, j :: 0 <= i < j < |order| ==> order[i] != order[j])
  }

  // ---- The reassembler ----

  class Reassembler {
    const code: Code
    var streams: map<u16, StreamState>
    var dropped: nat
    var recovered: nat

    ghost function Model(): State
      reads this
    {
      State(streams, dropped, recovered)
    }

    ghost predicate Valid()
      reads this
    {
      Sound(Model())
    }

    constructor (code: Code)
      ensures Valid() && Model() == State(map[], 0, 0) && this.code == code
    {
      this.code := code;
      streams := map[];
      dropped, recovered := 0, 0;
    }

    // Hash maps have no order: the streams may be listed in any.
    method Incomplete() returns (out: seq<Waiting>, ghost order: seq<u16>)
      requires Valid()
      ensures Enumerates(order, streams)
      ensures out == WaitingAll(Model(), order)
    {
      out, order := [], [];
      var left := streams.Keys;
      while left != {}
        invariant left <= streams.Keys
        invariant forall stream :: stream in order <==> stream in streams && stream !in left
        invariant forall i, j :: 0 <= i < j < |order| ==> order[i] != order[j]
        invariant out == WaitingAll(Model(), order)
        decreases left
      {
        var stream: u16 :| stream in left;
        left := left - {stream};
        out := out + WaitingIn(stream, streams[stream].pending);
        order := order + [stream];
        assert order[..|order| - 1] + [stream] == order;
      }
    }

    method Abandon(stream: u16, frame: u32) returns (found: bool)
      requires Valid()
      modifies this
      ensures Valid()
      ensures (Model(), found) == AfterAbandon(old(Model()), stream, frame)
    {
      if stream !in streams {
        return false;
      }
      var state := streams[stream];
      var index := IndexOf(state.pending, frame);
      if index.None? {
        return false;
      }
      streams := streams[stream := state.(pending := RemoveAt(state.pending, index.value))];
      dropped := dropped + 1;
      return true;
    }

    // One authenticated packet, data or parity.
    method Push(header: Header, payload: Bytes) returns (reply: Reply)
      requires Valid() && header.Decodable()
      modifies this
      ensures Valid()
      ensures Model() == AfterPush(code, old(Model()), header, payload).0
      ensures reply == AfterPush(code, old(Model()), header, payload).1
    {
      hide WellFormed, Read, PushStream;
      PushSound(code, Model(), header, payload);
      match Read(header, payload) {
        case Noise =>
          return Ok(None);
        case Bad =>
          return Err(BadFragment);
        case Good(arrival) =>
          reply := Place(header, arrival);
      }
    }

    // What the packet says of its frame: the frame it belongs to, started if need be.
    method Place(header: Header, arrival: Arrival) returns (reply: Reply)
      requires Valid() && header.Decodable() && Fits(arrival, header.fragments)
      modifies this
      ensures var e := PushStream(code, old(Model().Stream(header.stream)), header, arrival);
        && streams == old(streams)[header.stream := e.stream]
        && dropped == old(dropped) + e.dropped
        && recovered == old(recovered) + e.rebuilt
        && reply == e.reply
    {
      hide WellFormed, Absorb, Fits, Update, Oldest, Late, RemoveAt, NewPending;
      var state := if header.stream in streams then streams[header.stream] else NEW_STREAM;
      streams := streams[header.stream := state];
      if Late(state, header.frame) {
        return Ok(None);
      }
      var pending := state.pending;
      match IndexOf(pending, header.frame) {
        case Some(index) =>
          if |pending[index].slots| != header.fragments {
            SetTwice(old(streams), header.stream, state, state.(pending := RemoveAt(pending, index)));
            streams := streams[header.stream := state.(pending := RemoveAt(pending, index))];
            dropped := dropped + 1;
            return Err(Inconsistent);
          }
          reply := Add(state, index, header.stream, arrival);
          SetTwice(old(streams), header.stream, state, streams[header.stream]);
        case None =>
          if header.fragments * FRAGMENT_SIZE > MAX_FRAME + FRAGMENT_SIZE {
            return Err(ReassembleError.TooLarge);
          }
          pending := Start(pending, header);
          reply := Add(state.(pending := pending), |pending| - 1, header.stream, arrival);
          SetTwice(old(streams), header.stream, state, streams[header.stream]);
      }
    }

    // Starts a frame, giving up on the oldest that waits if there are too many.
    method Start(waiting: seq<Pending>, header: Header) returns (pending: seq<Pending>)
      requires IndexOf(waiting, header.frame).None? && header.fragments > 0
      requires header.fragments * FRAGMENT_SIZE <= MAX_FRAME + FRAGMENT_SIZE
      modifies this`dropped
      ensures dropped >= old(dropped) && Find(waiting, header) == Fresh(pending, dropped - old(dropped))
      ensures pending != [] && pending[|pending| - 1] == NewPending(header.frame, header.sentUs, header.fragments)
      ensures WellFormed(pending[|pending| - 1]) && |pending[|pending| - 1].slots| == header.fragments
    {
      hide WellFormed, Oldest, RemoveAt;
      pending := waiting;
      if |pending| >= MAX_IN_FLIGHT {
        pending := RemoveAt(pending, Oldest(pending));
        dropped := dropped + 1;
      }
      NewWellFormed(header.frame, header.sentUs, header.fragments);
      pending := pending + [NewPending(header.frame, header.sentUs, header.fragments)];
    }

    // The packet's own part: it grows the frame at `index` of its stream, which may finish it.
    method Add(state: StreamState, index: nat, stream: u16, arrival: Arrival) returns (reply: Reply)
      requires index < |state.pending| && WellFormed(state.pending[index])
      requires Fits(arrival, |state.pending[index].slots|)
      modifies this
      ensures var e := Update(code, state, index, stream, arrival);
        && streams == old(streams)[stream := e.stream]
        && dropped == old(dropped) + e.dropped
        && recovered == old(recovered) + e.rebuilt
        && reply == e.reply
    {
      hide WellFormed, Rebuilt, BlockCount, Settled, KeepNewer;
      var pending := state.pending;
      var waiting := pending[index];
      streams := streams[stream := state];
      var grown;
      match arrival {
        case Data(at, payload) =>
          if waiting.slots[at].Some? {
            return Ok(None);
          }
          if waiting.bytes + |payload| > MAX_FRAME {
            streams := streams[stream := state.(pending := RemoveAt(pending, index))];
            dropped := dropped + 1;
            return Err(ReassembleError.TooLarge);
          }
          grown := Fill(waiting, at, payload);
          FillWellFormed(waiting, at, payload);
          if grown.parity != map[] {
            var arrived := grown.received;
            RebuiltWellFormed(code, grown);
            grown := Recover(code, grown);
            recovered := recovered + (grown.received - arrived);
          }
        case Shard(prefix, shard) =>
          if waiting.parityStored >= Max(|waiting.slots|, 8) {
            return Ok(None);
          }
          var entry := BlockEntry(waiting, prefix);
          if |entry| != prefix.count {
            streams := streams[stream := state.(pending := RemoveAt(pending, index))];
            dropped := dropped + 1;
            return Err(Inconsistent);
          }
          if entry[prefix.index].Some? {
            return Ok(None);
          }
          grown := Store(waiting, prefix, shard);
          StoreWellFormed(waiting, prefix, shard);
          RebuiltWellFormed(code, grown);
          grown := Recover(code, grown);
          recovered := recovered + (grown.received - waiting.received);
      }
      reply := Settle(state, index, stream, grown);
      SettledRebuilt(state, index, stream, grown, Absorb(code, waiting, arrival).rebuilt);
      assert streams == old(streams)[stream := streams[stream]];
    }

    // Puts the grown frame back, or delivers it.
    method Settle(state: StreamState, index: nat, stream: u16, grown: Pending) returns (reply: Reply)
      requires index < |state.pending|
      modifies this`streams, this`dropped
      ensures var e := Settled(state, index, stream, grown, 0);
        && streams == old(streams)[stream := e.stream]
        && dropped == old(dropped) + e.dropped
        && reply == e.reply
    {
      if grown.received < |grown.slots| {
        streams := streams[stream := state.(pending := state.pending[index := grown])];
        return Ok(None);
      }
      var rest := RemoveAt(state.pending, index);
      var kept := KeepNewer(rest, grown.frame);
      streams := streams[stream := StreamState(Some(grown.frame), kept)];
      dropped := dropped + (|rest| - |kept|);
      return Ok(Some(Frame(stream, grown.frame, grown.sentUs, Join(grown.slots))));
    }
  }

  lemma SetTwice(streams: map<u16, StreamState>, stream: u16, st: StreamState, st': StreamState)
    ensures streams[stream := st][stream := st'] == streams[stream := st']
  {}

  // ---- Every stream stays well formed ----

  // Well formed but for the frame at `index`, which may be complete.
  ghost predicate OthersWellFormed(pending: seq<Pending>, index: nat) {
    forall i :: 0 <= i < |pending| && i != index ==>
      WellFormed(pending[i]) && pending[i].received < |pending[i].slots|
  }

  lemma RestWellFormed(pending: seq<Pending>, index: nat, frame: u32)
    requires index < |pending| && OthersWellFormed(pending, index)
    ensures AllWellFormed(RemoveAt(pending, index))
    ensures AllWellFormed(KeepNewer(RemoveAt(pending, index), frame))
  {
    hide WellFormed;
    var rest := RemoveAt(pending, index);
    var kept := KeepNewer(rest, frame);
    forall i | 0 <= i < |kept|
      ensures WellFormed(kept[i]) && kept[i].received < |kept[i].slots|
    {
      assert kept[i] in kept;
      var j :| 0 <= j < |rest| && rest[j] == kept[i];
    }
  }

  lemma UpdateSound(code: Code, st: StreamState, index: nat, stream: u16, a: Arrival)
    requires index < |st.pending| && WellFormed(st.pending[index]) && Fits(a, |st.pending[index].slots|)
    requires OthersWellFormed(st.pending, index) && st.pending[index].received < |st.pending[index].slots|
    ensures AllWellFormed(Update(code, st, index, stream, a).stream.pending)
  {
    hide WellFormed, Absorb, Fits;
    match Absorb(code, st.pending[index], a)
    case Ignored =>
    case Discarded(_) =>
      RestWellFormed(st.pending, index, 0);
    case Grown(p, _) =>
      AbsorbKeeps(code, st.pending[index], a);
      RestWellFormed(st.pending, index, p.frame);
  }

  lemma PushStreamSound(code: Code, st: StreamState, header: Header, a: Arrival)
    requires AllWellFormed(st.pending) && header.fragments > 0 && Fits(a, header.fragments)
    ensures AllWellFormed(PushStream(code, st, header, a).stream.pending)
  {
    hide WellFormed, Absorb, Fits, Update, Find;
    if !Late(st, header.frame) {
      match Find(st.pending, header)
      case TooBig =>
      case Known(i) =>
        if |st.pending[i].slots| == header.fragments {
          UpdateSound(code, st, i, header.stream, a);
        }
      case Fresh(pending, _) =>
        FreshSound(st.pending, header);
        UpdateSound(code, st.(pending := pending), |pending| - 1, header.stream, a);
    }
  }

  lemma FreshSound(pending: seq<Pending>, header: Header)
    requires AllWellFormed(pending) && header.fragments > 0 && Find(pending, header).Fresh?
    ensures AllWellFormed(Find(pending, header).pending)
  {
    hide WellFormed;
    NewWellFormed(header.frame, header.sentUs, header.fragments);
    EmptyCounts(header.fragments);
  }

  lemma PushSound(code: Code, s: State, header: Header, payload: Bytes)
    requires Sound(s) && header.Decodable()
    ensures Sound(AfterPush(code, s, header, payload).0)
  {
    hide WellFormed, PushStream, Read;
    var reading := Read(header, payload);
    if reading.Good? {
      PushStreamSound(code, s.Stream(header.stream), header, reading.arrival);
    }
  }
}
