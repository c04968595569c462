/** Frames of one stream sent one after the other: each is delivered, in that order. */
module Turns {
  import opened Wrappers
  import opened Words
  import opened Headers
  import opened Erasure
  import opened Fragments
  import opened Pendings
  import opened Reassembly
  import opened StreamOrder
  import opened Runs
  import opened Soundness
  import opened Completeness

  // While a frame has its turn, the packets on its stream are its own, or late ones of frames newer than neither it nor
  // the one delivered before it; and nobody gives up on the stream.
  ghost predicate Turn(code: Code, sent: SentFrame, before: Option<u32>, ops: seq<Op>)
    requires |sent.data| <= MAX_FRAME
  {
    forall op :: op in ops ==>
      && Readable(op)
      && (op.GiveUp? ==> op.stream != sent.stream)
      && (op.Arrive? && op.header.stream == sent.stream ==>
            if op.header.frame == sent.frame then PacketOf(code, sent, op.header, op.payload)
            else before.Some? && !Newer(op.header.frame, before.value) && !Newer(op.header.frame, sent.frame))
  }

  predicate OthersOnStream(sent: SentFrame, op: Op) {
    op.Arrive? && op.header.stream == sent.stream && op.header.frame != sent.frame
  }

  // What arrives without the late packets of other frames.
  function Own(sent: SentFrame, ops: seq<Op>): (own: seq<Op>)
    ensures forall op :: op in own ==> op in ops && !OthersOnStream(sent, op)
  {
    if ops == [] then []
    else
      var last := ops[|ops| - 1];
      assert ops == ops[..|ops| - 1] + [last];
      Own(sent, ops[..|ops| - 1]) + if OthersOnStream(sent, last) then [] else [last]
  }

  // A packet of a frame that is not newer than the last delivered changes nothing.
  lemma LateChangesNothing(code: Code, log: Log, header: Header, payload: Bytes)
    requires Sound(log.state) && header.Decodable() && header.stream in log.state.streams
    requires var last := log.state.Stream(header.stream).lastDelivered;
             last.Some? && !Newer(header.frame, last.value)
    ensures Step(code, log, Arrive(header, payload)) == log
  {
    hide WellFormed, Read, Newer;
    var s := log.state;
    assert s.streams[header.stream := s.streams[header.stream]] == s.streams;
    assert log.delivered + [] == log.delivered;
  }

  lemma LateInTurn(code: Code, sent: SentFrame, start: Log, own: seq<Op>, op: Op)
    requires Sendable(code, sent) && Room(sent) && Sound(start.state)
    requires start.state.Stream(sent.stream).pending == [] && Ahead(start.state.Stream(sent.stream), sent.frame)
    requires Turn(code, sent, start.state.Stream(sent.stream).lastDelivered, [op]) && OthersOnStream(sent, op)
    requires Lone(code, sent, own)
    ensures Readable(op) && Step(code, RunFrom(code, start, own), op) == RunFrom(code, start, own)
  {
    hide PacketOf, Recoverable, Room, EnoughForAll, FragmentCount, LoneStream, Newer, Got, RunFrom, Step;
    assert op in [op];
    DeliveredWhenEnough(code, sent, start, own);
    var log := RunFrom(code, start, own);
    LoneDoneIf(code, sent, log.state.Stream(sent.stream), Got(sent, own));
    LateChangesNothing(code, log, op.header, op.payload);
  }

  lemma LoneDoneIf(code: Code, sent: SentFrame, st: StreamState, got: set<Key>)
    requires |sent.data| <= MAX_FRAME && LoneStream(code, sent, st, got)
    ensures EnoughForAll(sent, got) ==> st.lastDelivered == Some(sent.frame)
  {
    hide EnoughForAll;
  }

  lemma OwnStep(sent: SentFrame, ops: seq<Op>)
    requires ops != []
    ensures Own(sent, ops)
            == Own(sent, ops[..|ops| - 1]) + if OthersOnStream(sent, ops[|ops| - 1]) then [] else [ops[|ops| - 1]]
  {}

  lemma OwnLone(code: Code, sent: SentFrame, before: Option<u32>, ops: seq<Op>)
    requires |sent.data| <= MAX_FRAME && Turn(code, sent, before, ops)
    ensures Lone(code, sent, Own(sent, ops)) && forall op :: op in ops ==> Readable(op)
    ensures forall op :: op in ops ==> Turn(code, sent, before, [op])
    ensures ops != [] ==> Turn(code, sent, before, ops[..|ops| - 1])
  {
    hide PacketOf, Newer;
  }

  // Late packets might as well not have come.
  lemma {:induction false} OwnIsAll(code: Code, sent: SentFrame, start: Log, ops: seq<Op>)
    requires Sendable(code, sent) && Room(sent) && Sound(start.state)
    requires start.state.Stream(sent.stream).pending == [] && Ahead(start.state.Stream(sent.stream), sent.frame)
    requires Turn(code, sent, start.state.Stream(sent.stream).lastDelivered, ops)
    ensures Lone(code, sent, Own(sent, ops)) && forall op :: op in ops ==> Readable(op)
    ensures forall op :: op in Own(sent, ops) ==> Readable(op)
    ensures RunFrom(code, start, ops) == RunFrom(code, start, Own(sent, ops))
  {
    hide PacketOf, Recoverable, Room, FragmentCount, Step, Newer, Turn, OthersOnStream, Lone, Own, Readable, Ahead;
    OwnLone(code, sent, start.state.Stream(sent.stream).lastDelivered, ops);
    if ops != [] {
      var init, op := ops[..|ops| - 1], ops[|ops| - 1];
      OwnIsAll(code, sent, start, init);
      var own := Own(sent, init);
      OwnStep(sent, ops);
      assert op in ops;
      if OthersOnStream(sent, op) {
        assert own + [] == own;
        LateInTurn(code, sent, start, own, op);
      } else {
        assert Own(sent, ops)[..|own|] == own && Own(sent, ops)[|own|] == op;
      }
    } else {
      assert Own(sent, ops) == [] by { OwnNone(sent); }
    }
  }

  lemma OwnNone(sent: SentFrame)
    ensures Own(sent, []) == []
  {}

  lemma LoneDone(code: Code, sent: SentFrame, st: StreamState, got: set<Key>)
    requires |sent.data| <= MAX_FRAME && LoneStream(code, sent, st, got) && EnoughForAll(sent, got)
    ensures st.lastDelivered == Some(sent.frame) && st.pending == []
  {
    hide EnoughForAll;
  }

  function Wholes(frames: seq<SentFrame>): seq<Frame> {
    seq(|frames|, i requires 0 <= i < |frames| => Whole(frames[i]))
  }

  function Concat(runs: seq<seq<Op>>): seq<Op> {
    if runs == [] then [] else Concat(runs[..|runs| - 1]) + runs[|runs| - 1]
  }

  lemma {:induction false} RunConcat(code: Code, start: Log, a: seq<Op>, b: seq<Op>)
    requires Sound(start.state) && forall op :: op in a + b ==> Readable(op)
    ensures (forall op :: op in a ==> Readable(op)) && forall op :: op in b ==> Readable(op)
    ensures RunFrom(code, start, a + b) == RunFrom(code, RunFrom(code, start, a), b)
  {
    hide Step;
    forall op | op in a || op in b ensures Readable(op) {
      assert op in a + b;
    }
    if b == [] {
      assert a + b == a;
    } else {
      var init := b[..|b| - 1];
      assert (a + b)[..|a + b| - 1] == a + init;
      assert forall op :: op in a + init ==> op in a + b;
      RunConcat(code, start, a, init);
    }
  }

  // The i-th of frames of one stream: newer than the one before, and with enough of it arriving in its turn.
  ghost predicate TakesTurn(code: Code, stream: u16, frames: seq<SentFrame>, runs: seq<seq<Op>>, i: nat)
    requires i < |frames| == |runs|
  {
    var sent, ops := frames[i], runs[i];
    && sent.stream == stream && Sendable(code, sent) && Room(sent)
    && (i > 0 ==> Newer(sent.frame, frames[i - 1].frame))
    && Turn(code, sent, if i == 0 then None else Some(frames[i - 1].frame), ops)
    && (forall op :: op in Own(sent, ops) ==> Readable(op))
    && EnoughForAll(sent, Got(sent, Own(sent, ops)))
  }

  ghost predicate InTurns(code: Code, stream: u16, frames: seq<SentFrame>, runs: seq<seq<Op>>) {
    |frames| == |runs| && forall i :: 0 <= i < |frames| ==> TakesTurn(code, stream, frames, runs, i)
  }

  lemma TurnsBefore(code: Code, stream: u16, frames: seq<SentFrame>, runs: seq<seq<Op>>, n: nat)
    requires InTurns(code, stream, frames, runs) && n <= |frames|
    ensures InTurns(code, stream, frames[..n], runs[..n])
  {
    hide Recoverable, Room, EnoughForAll, Got, Newer, Turn, PacketOf, Own, Readable;
    forall i | 0 <= i < n ensures TakesTurn(code, stream, frames[..n], runs[..n], i) {
      assert TakesTurn(code, stream, frames, runs, i);
      assert frames[..n][i] == frames[i] && runs[..n][i] == runs[i];
      assert i > 0 ==> frames[..n][i - 1] == frames[i - 1];
    }
  }

  // One more turn, from where the frames before left the stream.
  lemma OneTurn(code: Code, sent: SentFrame, log: Log, ops: seq<Op>)
    requires Sendable(code, sent) && Room(sent) && Sound(log.state)
    requires log.state.Stream(sent.stream).pending == [] && Ahead(log.state.Stream(sent.stream), sent.frame)
    requires Turn(code, sent, log.state.Stream(sent.stream).lastDelivered, ops)
    requires (forall op :: op in Own(sent, ops) ==> Readable(op)) && EnoughForAll(sent, Got(sent, Own(sent, ops)))
    ensures forall op :: op in ops ==> Readable(op)
    ensures var after := RunFrom(code, log, ops);
            && On(after.delivered, sent.stream) == On(log.delivered, sent.stream) + [Whole(sent)]
            && after.state.Stream(sent.stream).pending == []
            && after.state.Stream(sent.stream).lastDelivered == Some(sent.frame)
  {
    hide Recoverable, Room, EnoughForAll, Got, Step, Newer, LoneStream, Turn, PacketOf, Own, RunFrom, Ahead;
    OwnIsAll(code, sent, log, ops);
    DeliveredWhenEnough(code, sent, log, Own(sent, ops));
    LoneDone(code, sent, RunFrom(code, log, Own(sent, ops)).state.Stream(sent.stream), Got(sent, Own(sent, ops)));
  }

  // Every one of them is delivered, whole and once, in the order they were sent, whatever arrives late or repeated, and
  // whatever happens on other streams.
  lemma {:induction false} DeliveredInTurn(code: Code, stream: u16, frames: seq<SentFrame>, runs: seq<seq<Op>>)
    requires InTurns(code, stream, frames, runs)
    ensures forall op :: op in Concat(runs) ==> Readable(op)
    ensures var log := Run(code, Concat(runs));
            var st := log.state.Stream(stream);
            && On(log.delivered, stream) == Wholes(frames)
            && st.pending == []
            && st.lastDelivered == if frames == [] then None else Some(frames[|frames| - 1].frame)
  {
    hide Recoverable, Room, EnoughForAll, Got, Step, Newer, Turn, PacketOf, Own, RunFrom, InTurns;
    if frames == [] {
      assert runs == [] && Run(code, []) == START by { NoTurns(code, stream, runs); }
    } else {
      var n := |frames| - 1;
      assert |runs| == |frames| && TakesTurn(code, stream, frames, runs, n) by { LastTurn(code, stream, frames, runs); }
      var sent, ops := frames[n], runs[n];
      TurnsBefore(code, stream, frames, runs, n);
      DeliveredInTurn(code, stream, frames[..n], runs[..n]);
      var log := Run(code, Concat(runs[..n]));
      OneTurn(code, sent, log, ops);
      assert Concat(runs) == Concat(runs[..n]) + ops;
      RunConcat(code, START, Concat(runs[..n]), ops);
      assert Wholes(frames) == Wholes(frames[..n]) + [Whole(sent)];
    }
  }

  lemma NoTurns(code: Code, stream: u16, runs: seq<seq<Op>>)
    requires InTurns(code, stream, [], runs)
    ensures runs == [] && Run(code, []) == START
  {}

  lemma LastTurn(code: Code, stream: u16, frames: seq<SentFrame>, runs: seq<seq<Op>>)
    requires InTurns(code, stream, frames, runs) && frames != []
    ensures |runs| == |frames| && TakesTurn(code, stream, frames, runs, |frames| - 1)
  {
    hide TakesTurn;
  }
}
