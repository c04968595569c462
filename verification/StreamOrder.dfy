/** Frame numbers across the wrap, and what every packet keeps about the frames of a stream. */
module StreamOrder {
  import opened Wrappers
  import opened Words
  import opened Headers
  import opened Slots
  import opened Erasure
  import opened Parity
  import opened Fragments
  import opened Pendings
  import opened Reassembly

  // ---- Frame numbers ----

  // How far `a` is past `base`, counting up with wrap-around.
  function Past(a: u32, base: u32): nat {
    (a - base) % 0x1_0000_0000
  }

  lemma NewerIsPast(a: u32, base: u32)
    ensures Newer(a, base) <==> 0 < Past(a, base) < 0x8000_0000
  {}

  lemma NewerByDistance(a: u32, b: u32, base: u32)
    requires Newer(a, base) && Newer(b, base)
    ensures Newer(a, b) <==> Past(a, base) > Past(b, base)
    ensures a == b <==> Past(a, base) == Past(b, base)
  {}

  // Among numbers newer than one base, `Newer` is a strict total order, wherever the wrap falls.
  lemma NewerIsTotal(a: u32, b: u32, c: u32, base: u32)
    requires Newer(a, base) && Newer(b, base) && Newer(c, base)
    ensures !Newer(a, a)
    ensures a != b ==> (Newer(a, b) <==> !Newer(b, a))
    ensures Newer(a, b) && Newer(b, c) ==> Newer(a, c)
  {
    NewerByDistance(a, b, base);
    NewerByDistance(b, a, base);
    NewerByDistance(b, c, base);
    NewerByDistance(a, c, base);
  }

  // Any two numbers are ordered one way or the other unless they are equal or exactly half the range apart.
  lemma NewerOneWay(a: u32, b: u32)
    ensures (Newer(a, b) <==> !Newer(b, a)) <==> a != b && Past(a, b) != 0x8000_0000
  {}

  // ---- The invariant of a stream ----

  // Nothing was delivered yet, or something older.
  predicate Ahead(st: StreamState, frame: u32) {
    st.lastDelivered.None? || Newer(frame, st.lastDelivered.value)
  }

  ghost predicate DistinctFrames(pending: seq<Pending>) {
    forall i, j :: 0 <= i < j < |pending| ==> pending[i].frame != pending[j].frame
  }

  ghost predicate AllNewer(pending: seq<Pending>, last: Option<u32>) {
    last.Some? ==> forall p :: p in pending ==> Newer(p.frame, last.value)
  }

  ghost predicate Ordered(st: StreamState) {
    && AllWellFormed(st.pending)
    && |st.pending| <= MAX_IN_FLIGHT
    && DistinctFrames(st.pending)
    && AllNewer(st.pending, st.lastDelivered)
  }

  // Nothing holds more than a frame may.
  ghost predicate WithinFrame(pending: seq<Pending>) {
    forall p :: p in pending ==> p.bytes <= MAX_FRAME
  }

  // ---- Eviction ----

  lemma {:induction false} OldestFromIsMinimum(pending: seq<Pending>, base: u32, a: nat, i: nat)
    requires a < i <= |pending| && AllNewer(pending, Some(base))
    requires forall k :: 0 <= k < i && pending[k].frame != pending[a].frame ==>
               Newer(pending[k].frame, pending[a].frame)
    ensures var o := pending[OldestFrom(pending, a, i)].frame;
            forall k :: 0 <= k < |pending| && pending[k].frame != o ==> Newer(pending[k].frame, o)
    decreases |pending| - i
  {
    if i < |pending| {
      var b := if Newer(pending[a].frame, pending[i].frame) then i else a;
      forall k | 0 <= k < i + 1 && pending[k].frame != pending[b].frame
        ensures Newer(pending[k].frame, pending[b].frame)
      {
        NewerIsTotal(pending[k].frame, pending[a].frame, pending[i].frame, base);
        NewerIsTotal(pending[i].frame, pending[a].frame, pending[i].frame, base);
      }
      OldestFromIsMinimum(pending, base, b, i + 1);
    }
  }

  // Once something was delivered, the frame evicted is the oldest: every other waiting frame is newer.
  lemma EvictsOldest(st: StreamState)
    requires Ordered(st) && st.lastDelivered.Some? && st.pending != []
    ensures var o := Oldest(st.pending);
            forall k :: 0 <= k < |st.pending| && k != o ==> Newer(st.pending[k].frame, st.pending[o].frame)
  {
    OldestFromIsMinimum(st.pending, st.lastDelivered.value, 0, 1);
  }

  // ---- What one packet keeps ----

  // The frames left after one is removed.
  lemma RemoveKeepsOrder(pending: seq<Pending>, index: nat, last: Option<u32>)
    requires index < |pending| && DistinctFrames(pending) && AllNewer(pending, last)
    ensures DistinctFrames(RemoveAt(pending, index)) && AllNewer(RemoveAt(pending, index), last)
    ensures forall p :: p in RemoveAt(pending, index) ==> p in pending && p.frame != pending[index].frame
  {}

  lemma {:induction false} KeepNewerDistinct(pending: seq<Pending>, frame: u32)
    requires DistinctFrames(pending)
    ensures DistinctFrames(KeepNewer(pending, frame))
    ensures AllNewer(KeepNewer(pending, frame), Some(frame))
  {
    if pending != [] {
      var init, last := pending[..|pending| - 1], pending[|pending| - 1];
      KeepNewerDistinct(init, frame);
      var kept := KeepNewer(init, frame);
      forall i | 0 <= i < |kept| ensures kept[i].frame != last.frame {
        assert kept[i] in kept;
        var j :| 0 <= j < |init| && init[j] == kept[i];
        assert pending[j].frame != last.frame;
      }
    }
  }

  lemma FindKeepsOrder(st: StreamState, header: Header)
    requires Ordered(st) && !Late(st, header.frame) && header.fragments > 0 && Find(st.pending, header).Fresh?
    ensures var f := Find(st.pending, header);
      && Ordered(st.(pending := f.pending))
      && |f.pending| + f.dropped == |st.pending| + 1
      && (WithinFrame(st.pending) ==> WithinFrame(f.pending))
  {
    hide WellFormed, Oldest;
    FreshSound(st.pending, header);
    if |st.pending| >= MAX_IN_FLIGHT {
      RemoveKeepsOrder(st.pending, Oldest(st.pending), st.lastDelivered);
    }
  }

  // A delivered frame is as long as its slots allow.
  lemma DeliveredSize(p: Pending)
    requires WellFormed(p)
    ensures |Join(p.slots)| == p.bytes <= |p.slots| * FRAGMENT_SIZE <= MAX_FRAME + FRAGMENT_SIZE
  {
    BytesBound(p.slots, FRAGMENT_SIZE);
  }

  // What one packet may do to a stream.
  ghost predicate Kept(st: StreamState, e: Effect, stream: u16) {
    && Ordered(e.stream)
    && |st.pending| + (if e.started then 1 else 0)
       == |e.stream.pending| + e.dropped + (if Delivers(e.reply) then 1 else 0)
    && (if Delivers(e.reply) then
          var f := e.reply.value.value;
          && f.stream == stream
          && e.stream.lastDelivered == Some(f.frame)
          && (st.lastDelivered.Some? ==> Newer(f.frame, st.lastDelivered.value))
          && |f.data| <= MAX_FRAME + FRAGMENT_SIZE
        else e.stream.lastDelivered == st.lastDelivered)
    && (WithinFrame(st.pending) && e.rebuilt == 0 ==>
          WithinFrame(e.stream.pending) && (Delivers(e.reply) ==> |e.reply.value.value.data| <= MAX_FRAME))
  }

  predicate Delivers(reply: Reply) {
    reply.Ok? && reply.value.Some?
  }

  lemma SettledKeeps(st: StreamState, index: nat, stream: u16, p: Pending, rebuilt: nat)
    requires Ordered(st) && index < |st.pending| && WellFormed(p) && p.frame == st.pending[index].frame
    requires WithinFrame(st.pending) && rebuilt == 0 ==> p.bytes <= MAX_FRAME
    ensures Kept(st, Settled(st, index, stream, p, rebuilt), stream) && !Settled(st, index, stream, p, rebuilt).started
  {
    hide WellFormed, Newer;
    assert st.pending[index] in st.pending;
    if p.received >= |p.slots| {
      DeliveredSize(p);
      RemoveKeepsOrder(st.pending, index, st.lastDelivered);
      RestWellFormed(st.pending, index, p.frame);
      KeepNewerDistinct(RemoveAt(st.pending, index), p.frame);
    }
  }

  lemma UpdateKeeps(code: Code, st: StreamState, index: nat, stream: u16, a: Arrival)
    requires Ordered(st) && index < |st.pending| && Fits(a, |st.pending[index].slots|)
    ensures Kept(st, Update(code, st, index, stream, a), stream) && !Update(code, st, index, stream, a).started
  {
    hide WellFormed, Newer, Absorb, Settled, Fits;
    var p := st.pending[index];
    assert p in st.pending;
    match Absorb(code, p, a)
    case Ignored =>
    case Discarded(_) =>
      RemoveKeepsOrder(st.pending, index, st.lastDelivered);
      RestWellFormed(st.pending, index, p.frame);
    case Grown(q, rebuilt) =>
      AbsorbKeeps(code, p, a);
      SettledKeeps(st, index, stream, q, rebuilt);
  }

  // Whatever the packet, a stream keeps at most MAX_IN_FLIGHT different frames, all newer than the last delivered;
  // no frame is lost count of; and what is delivered is newer than what was, and no larger than a frame may be.
  lemma PushStreamKeeps(code: Code, st: StreamState, header: Header, a: Arrival)
    requires Ordered(st) && header.fragments > 0 && Fits(a, header.fragments)
    ensures Kept(st, PushStream(code, st, header, a), header.stream)
  {
    hide WellFormed, Newer, Absorb, Update, Fits, Find;
    if !Late(st, header.frame) {
      match Find(st.pending, header)
      case TooBig =>
      case Known(i) =>
        if |st.pending[i].slots| == header.fragments {
          UpdateKeeps(code, st, i, header.stream, a);
        } else {
          RemoveKeepsOrder(st.pending, i, st.lastDelivered);
          RestWellFormed(st.pending, i, 0);
        }
      case Fresh(pending, dropped) =>
        FindKeepsOrder(st, header);
        UpdateKeeps(code, st.(pending := pending), |pending| - 1, header.stream, a);
    }
  }
}
