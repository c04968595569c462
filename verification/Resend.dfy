/** The sender's memory of recent frames, and its answers to NACKs. */
module Resends {
  import opened Wrappers
  import opened Words
  import opened Headers
  import opened Parity

  const MAX_RESENDS: nat := 2
  const MAX_STORED_BYTES: nat := 8 * 1024 * 1024

  datatype Stored = Stored(stream: u16, frame: u32, parts: seq<Packet>, resends: seq<nat>)

  datatype Store = Store(frames: seq<Stored>, bytes: nat)

  function DataParts(packets: seq<Packet>): seq<Packet> {
    if packets == [] then []
    else
      var last := packets[|packets| - 1];
      DataParts(packets[..|packets| - 1]) + if last.header.IsParity() then [] else [last]
  }

  // Exactly the packets that are not parity.
  lemma {:induction false} DataPartsHas(packets: seq<Packet>)
    ensures forall p :: p in DataParts(packets) <==> p in packets && !p.header.IsParity()
  {
    if packets != [] {
      DataPartsHas(packets[..|packets| - 1]);
      assert packets == packets[..|packets| - 1] + [packets[|packets| - 1]];
    }
  }

  function Size(parts: seq<Packet>): nat {
    if parts == [] then 0 else Size(parts[..|parts| - 1]) + |parts[|parts| - 1].payload|
  }

  function Total(frames: seq<Stored>): nat {
    if frames == [] then 0 else Size(frames[0].parts) + Total(frames[1..])
  }

  // ---- What is kept ----

  // How many of the oldest frames go, so that the rest fits.
  function Overflow(frames: seq<Stored>): (d: nat)
    ensures d <= |frames|
  {
    if Total(frames) <= MAX_STORED_BYTES then 0 else 1 + Overflow(frames[1..])
  }

  // What goes is the least that makes the rest fit: the rest is the longest suffix that does.
  lemma {:induction false} KeepsLongestSuffix(frames: seq<Stored>)
    ensures Total(frames[Overflow(frames)..]) <= MAX_STORED_BYTES
    ensures forall d :: 0 <= d < Overflow(frames) ==> Total(frames[d..]) > MAX_STORED_BYTES
  {
    if Total(frames) <= MAX_STORED_BYTES {
      assert frames[0..] == frames;
    } else {
      KeepsLongestSuffix(frames[1..]);
      assert frames[1..][Overflow(frames[1..])..] == frames[Overflow(frames)..];
      forall d | 0 <= d < Overflow(frames)
        ensures Total(frames[d..]) > MAX_STORED_BYTES
      {
        if d > 0 {
          assert frames[1..][d - 1..] == frames[d..];
        } else {
          assert frames[0..] == frames;
        }
      }
    }
  }

  function NewStored(stream: u16, frame: u32, parts: seq<Packet>): Stored {
    Stored(stream, frame, parts, seq(|parts|, _ => 0))
  }

  function AfterRemember(s: Store, stream: u16, frame: u32, packets: seq<Packet>): Store {
    var parts := DataParts(packets);
    if Size(parts) > MAX_STORED_BYTES then s
    else
      var all := s.frames + [NewStored(stream, frame, parts)];
      Store(all[Overflow(all)..], Total(all[Overflow(all)..]))
  }

  // ---- Answering ----

  predicate Counted(stored: Stored) {
    |stored.resends| == |stored.parts|
  }

  predicate Answerable(stored: Stored, index: nat)
    requires Counted(stored)
  {
    index < |stored.parts| && stored.resends[index] < MAX_RESENDS
  }

  // The entry after answering for the fragments in turn, and which were answered.
  function Answer(stored: Stored, fragments: seq<u16>): (r: (Stored, seq<u16>))
    requires Counted(stored)
    ensures r.0 == stored.(resends := r.0.resends) && Counted(r.0)
    ensures forall i :: 0 <= i < |r.1| ==> r.1[i] < |stored.parts|
  {
    if fragments == [] then (stored, [])
    else
      var (after, answered) := Answer(stored, fragments[..|fragments| - 1]);
      var index := fragments[|fragments| - 1];
      if Answerable(after, index) then
        (after.(resends := after.resends[index := after.resends[index] + 1]), answered + [index])
      else (after, answered)
  }

  function PartsAt(stored: Stored, indices: seq<u16>): (s: seq<Packet>)
    requires forall i :: 0 <= i < |indices| ==> indices[i] < |stored.parts|
    ensures |s| == |indices|
  {
    seq(|indices|, i requires 0 <= i < |indices| => stored.parts[indices[i]])
  }

  function FindFrame(frames: seq<Stored>, stream: u16, frame: u32): (r: Option<nat>)
    ensures r.Some? ==> r.value < |frames| && frames[r.value].stream == stream && frames[r.value].frame == frame
    ensures r.Some? ==> forall i :: 0 <= i < r.value ==> !(frames[i].stream == stream && frames[i].frame == frame)
    ensures r.None? ==> forall i :: 0 <= i < |frames| ==> !(frames[i].stream == stream && frames[i].frame == frame)
  {
    if frames == [] then None
    else if frames[0].stream == stream && frames[0].frame == frame then Some(0)
    else
      match FindFrame(frames[1..], stream, frame)
      case None => None
      case Some(i) => Some(i + 1)
  }

  predicate AllCounted(frames: seq<Stored>) {
    forall i :: 0 <= i < |frames| ==> Counted(frames[i])
  }

  function AfterRespond(s: Store, stream: u16, frame: u32, fragments: seq<u16>): (Store, seq<Packet>)
    requires AllCounted(s.frames)
  {
    match FindFrame(s.frames, stream, frame)
    case None => (s, [])
    case Some(i) =>
      var (after, answered) := Answer(s.frames[i], fragments);
      (s.(frames := s.frames[i := after]), PartsAt(s.frames[i], answered))
  }

  class Retransmitter {
    var frames: seq<Stored>
    var bytes: nat

    ghost function Model(): Store
      reads this
    {
      Store(frames, bytes)
    }

    ghost predicate Valid()
      reads this
    {
      AllCounted(frames) && bytes == Total(frames)
    }

    constructor ()
      ensures Valid() && Model() == Store([], 0)
    {
      frames := [];
      bytes := 0;
    }

    method Remember(stream: u16, frame: u32, packets: seq<Packet>)
      requires Valid()
      modifies this
      ensures Valid()
      ensures Model() == AfterRemember(old(Model()), stream, frame, packets)
    {
      hide Size, DataParts;
      var parts := DataParts(packets);
      var size := Size(parts);
      if size > MAX_STORED_BYTES {
        return;
      }
      bytes := bytes + size;
      TotalAppend(frames, NewStored(stream, frame, parts));
      frames := frames + [NewStored(stream, frame, parts)];
      ghost var all := frames;
      ghost var gone := 0;
      assert all[0..] == all;
      while bytes > MAX_STORED_BYTES
        invariant AllCounted(frames)
        invariant gone <= |all| && frames == all[gone..] && bytes == Total(frames)
        invariant gone + Overflow(frames) == Overflow(all)
        decreases |frames|
      {
        if frames == [] {
          break;
        }
        bytes := bytes - Size(frames[0].parts);
        frames := frames[1..];
        gone := gone + 1;
      }
    }

    method Respond(stream: u16, frame: u32, fragments: seq<u16>) returns (out: seq<Packet>)
      requires Valid()
      modifies this
      ensures Valid()
      ensures (Model(), out) == AfterRespond(old(Model()), stream, frame, fragments)
    {
      hide Total, Size;
      var found := FindFrame(frames, stream, frame);
      if found.None? {
        return [];
      }
      var at := found.value;
      var stored := frames[at];
      ghost var was := stored;
      out := [];
      for i := 0 to |fragments|
        invariant stored == Answer(was, fragments[..i]).0
        invariant out == PartsAt(was, Answer(was, fragments[..i]).1)
      {
        assert fragments[..i + 1][..i] == fragments[..i];
        var index := fragments[i];
        if index < |stored.parts| && stored.resends[index] < MAX_RESENDS {
          stored := stored.(resends := stored.resends[index := stored.resends[index] + 1]);
          out := out + [stored.parts[index]];
        }
      }
      assert fragments[..|fragments|] == fragments;
      TotalSame(frames, frames[at := stored]);
      frames := frames[at := stored];
    }
  }

  lemma {:induction false} TotalAppend(frames: seq<Stored>, x: Stored)
    ensures Total(frames + [x]) == Total(frames) + Size(x.parts)
  {
    if frames == [] {
      assert frames + [x] == [x];
      assert [x][1..] == [];
    } else {
      TotalAppend(frames[1..], x);
      assert (frames + [x])[1..] == frames[1..] + [x];
    }
  }

  lemma {:induction false} TotalSame(a: seq<Stored>, b: seq<Stored>)
    requires |a| == |b| && forall i :: 0 <= i < |a| ==> a[i].parts == b[i].parts
    ensures Total(a) == Total(b)
    ensures Overflow(a) == Overflow(b)
  {
    if a != [] {
      TotalSame(a[1..], b[1..]);
    }
  }

  // ---- Every run ----

  datatype Op =
    | Remembered(stream: u16, frame: u32, packets: seq<Packet>)
    | Asked(stream: u16, frame: u32, fragments: seq<u16>)

  // Every frame accepted so far, oldest first; how many are gone; and how often each fragment of each was returned.
  datatype Log = Log(store: Store, accepted: seq<Stored>, gone: nat, returned: multiset<(nat, u16)>)

  function Step(log: Log, op: Op): Log
    requires AllCounted(log.store.frames)
  {
    match op
    case Remembered(stream, frame, packets) =>
      var store := AfterRemember(log.store, stream, frame, packets);
      if Size(DataParts(packets)) > MAX_STORED_BYTES then log.(store := store)
      else
        log.(store := store,
             accepted := log.accepted + [NewStored(stream, frame, DataParts(packets))],
             gone := log.gone + Overflow(log.store.frames + [NewStored(stream, frame, DataParts(packets))]))
    case Asked(stream, frame, fragments) =>
      match FindFrame(log.store.frames, stream, frame)
      case None => log
      case Some(i) =>
        log.(store := AfterRespond(log.store, stream, frame, fragments).0,
             returned := log.returned + Tagged(log.gone + i, Answer(log.store.frames[i], fragments).1))
  }

  function Tagged(entry: nat, indices: seq<u16>): multiset<(nat, u16)> {
    if indices == [] then multiset{}
    else Tagged(entry, indices[..|indices| - 1]) + multiset{(entry, indices[|indices| - 1])}
  }

  // The frame at one place is the frame at the other, whatever was resent of it.
  predicate SameFrame(a: Stored, b: Stored) {
    a.stream == b.stream && a.frame == b.frame && a.parts == b.parts
  }

  ghost predicate SuffixOf(frames: seq<Stored>, accepted: seq<Stored>, gone: nat) {
    && gone + |frames| == |accepted|
    && forall i :: 0 <= i < |frames| ==> SameFrame(frames[i], accepted[gone + i])
  }

  // The queue is the longest suffix of what was accepted that fits, and `bytes` is its size.
  ghost predicate QueueInvariant(log: Log) {
    && AllCounted(log.store.frames)
    && log.store.bytes == Total(log.store.frames)
    && SuffixOf(log.store.frames, log.accepted, log.gone)
    && Total(log.accepted[log.gone..]) <= MAX_STORED_BYTES
    && forall d :: 0 <= d < log.gone ==> Total(log.accepted[d..]) > MAX_STORED_BYTES
  }

  // The counters are what was returned, and nothing is returned more often than it may be.
  ghost predicate CountInvariant(log: Log)
    requires AllCounted(log.store.frames)
  {
    var frames := log.store.frames;
    && (forall i: nat, j: u16 :: i < |frames| && j < |frames[i].resends| ==>
          log.returned[(log.gone + i, j)] == frames[i].resends[j])
    && (forall i: nat, j: u16 :: i >= |log.accepted| ==> log.returned[(i, j)] == 0)
    && (forall x :: log.returned[x] <= MAX_RESENDS)
    && (forall i :: 0 <= i < |frames| ==> WithinLimit(frames[i]))
  }

  ghost predicate WithinLimit(stored: Stored) {
    forall j :: 0 <= j < |stored.resends| ==> stored.resends[j] <= MAX_RESENDS
  }

  ghost predicate NoParityKept(accepted: seq<Stored>) {
    forall i, p :: 0 <= i < |accepted| && p in accepted[i].parts ==> !p.header.IsParity()
  }

  ghost predicate Invariant(log: Log) {
    AllCounted(log.store.frames) && QueueInvariant(log) && CountInvariant(log) && NoParityKept(log.accepted)
  }

  lemma {:induction false} TotalMonotone(frames: seq<Stored>, x: Stored, d: nat)
    requires d <= |frames|
    ensures Total((frames + [x])[d..]) == Total(frames[d..]) + Size(x.parts)
  {
    assert (frames + [x])[d..] == frames[d..] + [x];
    TotalAppend(frames[d..], x);
  }

  // How much is left of what was accepted, before and after one more.
  lemma AcceptedTotals(frames: seq<Stored>, accepted: seq<Stored>, gone: nat, x: Stored, d: nat)
    requires SuffixOf(frames, accepted, gone) && d <= |accepted| + 1
    ensures SuffixOf(frames + [x], accepted + [x], gone)
    ensures d >= gone ==> Total((accepted + [x])[d..]) == Total((frames + [x])[d - gone..])
    ensures d < gone ==> Total((accepted + [x])[d..]) >= Total(accepted[d..])
  {
    hide Total;
    var all, more := frames + [x], accepted + [x];
    forall i | 0 <= i < |all| ensures SameFrame(all[i], more[gone + i]) {
      if i < |frames| {
        assert all[i] == frames[i] && more[gone + i] == accepted[gone + i];
      }
    }
    if d >= gone {
      TotalSame(more[d..], all[d - gone..]);
    } else {
      TotalMonotone(accepted, x, d);
    }
  }

  lemma RememberedKeepsQueue(log: Log, stream: u16, frame: u32, packets: seq<Packet>)
    requires QueueInvariant(log)
    ensures QueueInvariant(Step(log, Remembered(stream, frame, packets)))
  {
    hide Size, DataParts, Total, Overflow;
    var parts := DataParts(packets);
    if Size(parts) <= MAX_STORED_BYTES {
      var x := NewStored(stream, frame, parts);
      var all, accepted := log.store.frames + [x], log.accepted + [x];
      var k := Overflow(all);
      KeepsLongestSuffix(all);
      AcceptedTotals(log.store.frames, log.accepted, log.gone, x, log.gone + k);
      forall d | 0 <= d < log.gone + k
        ensures Total(accepted[d..]) > MAX_STORED_BYTES
      {
        AcceptedTotals(log.store.frames, log.accepted, log.gone, x, d);
      }
      SuffixDrop(all, accepted, log.gone, k);
    }
  }

  lemma SuffixDrop(frames: seq<Stored>, accepted: seq<Stored>, gone: nat, k: nat)
    requires SuffixOf(frames, accepted, gone) && k <= |frames|
    ensures SuffixOf(frames[k..], accepted, gone + k)
  {}

  lemma RememberedKeepsCounts(log: Log, stream: u16, frame: u32, packets: seq<Packet>)
    requires QueueInvariant(log) && CountInvariant(log)
    requires QueueInvariant(Step(log, Remembered(stream, frame, packets)))
    ensures CountInvariant(Step(log, Remembered(stream, frame, packets)))
  {
    hide Size, DataParts, Total, Overflow;
    var parts := DataParts(packets);
    if Size(parts) <= MAX_STORED_BYTES {
      var all := log.store.frames + [NewStored(stream, frame, parts)];
      var after := Step(log, Remembered(stream, frame, packets));
      var k := Overflow(all);
      forall i: nat, j: u16 | i < |after.store.frames| && j < |after.store.frames[i].resends|
        ensures after.returned[(after.gone + i, j)] == after.store.frames[i].resends[j]
      {
        assert after.store.frames[i] == all[k + i];
        if k + i < |log.store.frames| {
          assert all[k + i] == log.store.frames[k + i];
          assert log.returned[(log.gone + (k + i), j)] == log.store.frames[k + i].resends[j];
        }
      }
    }
  }

  // A request is answered in turn: each fragment that is there and was sent again less than twice so far, even in
  // answer to this request.
  lemma AnswersInTurn(stored: Stored, fragments: seq<u16>, f: u16)
    requires Counted(stored)
    ensures Answer(stored, []) == (stored, [])
    ensures var (after, answered) := Answer(stored, fragments);
            Answer(stored, fragments + [f])
            == if f < |stored.parts| && after.resends[f] < 2 then
                 (after.(resends := after.resends[f := after.resends[f] + 1]), answered + [f])
               else (after, answered)
  {
    assert (fragments + [f])[..|fragments|] == fragments;
  }

  // The counters go up by what is answered, and no further than they may.
  lemma {:induction false} AnswerCounts(stored: Stored, fragments: seq<u16>, entry: nat)
    requires Counted(stored) && WithinLimit(stored)
    ensures var (after, answered) := Answer(stored, fragments);
      && WithinLimit(after)
      && (forall j: u16 :: j < |stored.resends| ==>
            after.resends[j] == stored.resends[j] + Tagged(entry, answered)[(entry, j)])
      && (forall i: nat, j: u16 :: i != entry || j >= |stored.resends| ==> Tagged(entry, answered)[(i, j)] == 0)
  {
    if fragments != [] {
      AnswerCounts(stored, fragments[..|fragments| - 1], entry);
      var (before, answered) := Answer(stored, fragments[..|fragments| - 1]);
      var index := fragments[|fragments| - 1];
      assert (answered + [index])[..|answered|] == answered;
    }
  }

  lemma AskedKeepsQueue(log: Log, stream: u16, frame: u32, fragments: seq<u16>)
    requires QueueInvariant(log)
    ensures QueueInvariant(Step(log, Asked(stream, frame, fragments)))
  {
    hide Answer, Total, Size, Tagged;
    var frames := log.store.frames;
    var found := FindFrame(frames, stream, frame);
    if found.Some? {
      TotalSame(frames, frames[found.value := Answer(frames[found.value], fragments).0]);
    }
  }

  lemma AskedKeepsCounts(log: Log, stream: u16, frame: u32, fragments: seq<u16>)
    requires QueueInvariant(log) && CountInvariant(log)
    requires QueueInvariant(Step(log, Asked(stream, frame, fragments)))
    ensures CountInvariant(Step(log, Asked(stream, frame, fragments)))
  {
    hide Answer, Total, Size, Tagged, WithinLimit;
    var frames := log.store.frames;
    var found := FindFrame(frames, stream, frame);
    if found.Some? {
      var at, entry := found.value, log.gone + found.value;
      AnswerCounts(frames[at], fragments, entry);
      var after := Step(log, Asked(stream, frame, fragments));
      var more := Tagged(entry, Answer(frames[at], fragments).1);
      forall x: (nat, u16)
        ensures after.returned[x] <= MAX_RESENDS
      {
        if x.0 == entry && x.1 < |frames[at].resends| {
          assert log.returned[(log.gone + at, x.1)] == frames[at].resends[x.1];
          LimitAt(after.store.frames[at], x.1);
        }
        assert x == (x.0, x.1);
      }
    }
  }

  lemma LimitAt(stored: Stored, j: nat)
    requires WithinLimit(stored) && j < |stored.resends|
    ensures stored.resends[j] <= MAX_RESENDS
  {}

  lemma StepKeeps(log: Log, op: Op)
    requires Invariant(log)
    ensures Invariant(Step(log, op))
  {
    hide QueueInvariant, CountInvariant, Total;
    StepCounted(log, op);
    match op
    case Remembered(stream, frame, packets) =>
      DataPartsHas(packets);
      RememberedKeepsQueue(log, stream, frame, packets);
      RememberedKeepsCounts(log, stream, frame, packets);
    case Asked(stream, frame, fragments) =>
      AskedKeepsQueue(log, stream, frame, fragments);
      AskedKeepsCounts(log, stream, frame, fragments);
  }

  const START: Log := Log(Store([], 0), [], 0, multiset{})

  // Whatever is remembered and asked for, in any order: the store holds the longest run of the latest frames accepted
  // that fits, knows its size, holds no parity, and has returned no fragment more often than it may.
  lemma {:induction false} RunKeeps(ops: seq<Op>)
    ensures Invariant(Run(ops))
  {
    hide Invariant, Step;
    if ops == [] {
      StartKeeps();
    } else {
      RunKeeps(ops[..|ops| - 1]);
      StepKeeps(Run(ops[..|ops| - 1]), ops[|ops| - 1]);
    }
  }

  lemma StartKeeps()
    ensures Invariant(START)
  {}

  function Run(ops: seq<Op>): (r: Log)
    ensures AllCounted(r.store.frames)
  {
    if ops == [] then START
    else
      var log := Run(ops[..|ops| - 1]);
      StepCounted(log, ops[|ops| - 1]);
      Step(log, ops[|ops| - 1])
  }

  lemma StepCounted(log: Log, op: Op)
    requires AllCounted(log.store.frames)
    ensures AllCounted(Step(log, op).store.frames)
  {
    hide Total, Overflow, Size, Tagged;
  }
}
