/** What every packet is answered with, and what becomes of the frames that wait beside its own. */
module Replies {
  import opened Wrappers
  import opened Words
  import opened Headers
  import opened Blocks
  import opened Slots
  import opened Erasure
  import opened Parity
  import opened Fragments
  import opened Pendings
  import opened Reassembly
  import opened StreamOrder

  // ---- Making room ----

  // A new frame joins those that wait while they are fewer than 4. Otherwise one goes, and once something was
  // delivered it is the one that every other is newer than.
  lemma MakesRoom(st: StreamState, header: Header)
    requires Ordered(st) && forall k :: 0 <= k < |st.pending| ==> st.pending[k].frame != header.frame
    requires header.fragments * FRAGMENT_SIZE <= MAX_FRAME + FRAGMENT_SIZE
    ensures var waiting, started := st.pending, NewPending(header.frame, header.sentUs, header.fragments);
            if |waiting| < 4 then Find(waiting, header) == Fresh(waiting + [started], 0)
            else
              exists o :: 0 <= o < |waiting|
                && Find(waiting, header) == Fresh(waiting[..o] + waiting[o + 1..] + [started], 1)
                && (st.lastDelivered.Some? ==>
                      forall k :: 0 <= k < |waiting| && k != o ==> Newer(waiting[k].frame, waiting[o].frame))
  {
    hide WellFormed, Newer, Oldest;
    if |st.pending| >= 4 {
      var o := Oldest(st.pending);
      var started := NewPending(header.frame, header.sentUs, header.fragments);
      assert Find(st.pending, header) == Fresh(st.pending[..o] + st.pending[o + 1..] + [started], 1);
      if st.lastDelivered.Some? {
        EvictsOldest(st);
      }
    }
  }

  // ---- Replies ----

  // A data fragment of the wrong size is refused and changes nothing; parity that is not shaped like it is skipped; and
  // so is a packet of a frame not newer than the last delivered.
  lemma Unread(code: Code, s: State, header: Header, payload: Bytes)
    requires Sound(s) && header.Decodable()
    ensures var (after, reply, started) := AfterPush(code, s, header, payload);
            if header.flags % 2 == 0 then
              |payload| > FRAGMENT_SIZE || (header.fragment + 1 != header.fragments && |payload| != FRAGMENT_SIZE)
              <==> reply == Err(BadFragment)
            else
              Parse(payload).None? || Parse(payload).value.0.block >= BlockCount(header.fragments) ==> reply == Ok(None)
    ensures !Read(header, payload).Good? ==>
              AfterPush(code, s, header, payload).0 == s && !AfterPush(code, s, header, payload).2
    ensures var last := s.Stream(header.stream).lastDelivered;
            Read(header, payload).Good? && last.Some? && !Newer(header.frame, last.value) ==>
              var (after, reply, started) := AfterPush(code, s, header, payload);
              reply == Ok(None) && after.Stream(header.stream) == s.Stream(header.stream) && !started
              && after.dropped == s.dropped && after.recovered == s.recovered
  {
    hide WellFormed, Parse, BlockCount, Newer;
    var reading := Read(header, payload);
    if reading.Good? {
      NotBad(code, s.Stream(header.stream), header, reading.arrival);
    }
  }

  lemma NotBad(code: Code, st: StreamState, header: Header, a: Arrival)
    requires AllWellFormed(st.pending) && header.fragments > 0 && Fits(a, header.fragments)
    ensures PushStream(code, st, header, a).reply != Err(BadFragment)
  {
    hide WellFormed, Fits, Newer, Absorb, Oldest, Find;
    if !Late(st, header.frame) {
      match Find(st.pending, header)
      case TooBig =>
      case Known(i) =>
        if |st.pending[i].slots| == header.fragments {
          AbsorbErrors(code, st.pending[i], a);
        }
      case Fresh(pending, _) =>
        FreshSound(st.pending, header);
        AbsorbErrors(code, pending[|pending| - 1], a);
    }
  }

  lemma AbsorbErrors(code: Code, p: Pending, a: Arrival)
    requires WellFormed(p) && Fits(a, |p.slots|)
    ensures Absorb(code, p, a).Discarded? ==> Absorb(code, p, a).error != BadFragment
  {
    hide WellFormed, Rebuilt;
  }

  // The packet's own frame waits as the i-th of its stream: when it is given up and refused, and as what.
  lemma KnownFrame(code: Code, st: StreamState, header: Header, a: Arrival, i: nat)
    requires Ordered(st) && Ahead(st, header.frame) && header.fragments > 0 && Fits(a, header.fragments)
    requires i < |st.pending| && st.pending[i].frame == header.frame
    ensures var e, p := PushStream(code, st, header, a), st.pending[i];
            var contradicts :=
              || |p.slots| != header.fragments
              || (a.Shard? && p.parityStored < Max(|p.slots|, 8) && a.prefix.block in p.parity
                  && |p.parity[a.prefix.block]| != a.prefix.count);
            var tooLarge := !contradicts && a.Data? && p.slots[a.index].None? && p.bytes + |a.payload| > MAX_FRAME;
            if contradicts then e == GivenUp(st, i, Inconsistent)
            else if tooLarge then e == GivenUp(st, i, ReassembleError.TooLarge)
            else e.reply.Ok?
  {
    hide WellFormed, Newer, Oldest, Absorb;
    assert IndexOf(st.pending, header.frame) == Some(i);
    assert AllWellFormed(st.pending);
    if |st.pending[i].slots| == header.fragments {
      AbsorbRefuses(code, st.pending[i], a);
    }
  }

  lemma AbsorbRefuses(code: Code, p: Pending, a: Arrival)
    requires WellFormed(p) && Fits(a, |p.slots|)
    ensures var contradicts := a.Shard? && p.parityStored < Max(|p.slots|, 8) && a.prefix.block in p.parity
              && |p.parity[a.prefix.block]| != a.prefix.count;
            var tooLarge := a.Data? && p.slots[a.index].None? && p.bytes + |a.payload| > MAX_FRAME;
            if contradicts then Absorb(code, p, a) == Discarded(Inconsistent)
            else if tooLarge then Absorb(code, p, a) == Discarded(ReassembleError.TooLarge)
            else !Absorb(code, p, a).Discarded?
  {
    hide WellFormed, Rebuilt;
  }

  // What a packet that is taken leaves in its frame besides what is rebuilt: its payload in its slot, or its shard in
  // its place, and then the last fragment's length as this packet has it.
  lemma Taken(code: Code, p: Pending, a: Arrival)
    requires WellFormed(p) && Fits(a, |p.slots|) && Absorb(code, p, a).Grown?
    ensures var q := Absorb(code, p, a).pending;
            match a
            case Data(index, payload) =>
              && |q.slots| == |p.slots| && p.slots[index].None? && q.slots[index] == Some(payload)
              && q.parity == p.parity && q.parityStored == p.parityStored && q.lastLen == p.lastLen
            case Shard(prefix, shard) =>
              && q.parityStored == p.parityStored + 1 && q.lastLen == Some(prefix.lastLen)
              && q.parity.Keys == p.parity.Keys + {prefix.block}
              && |q.parity[prefix.block]| == prefix.count && q.parity[prefix.block][prefix.index] == Some(shard)
              && (forall j :: 0 <= j < prefix.count && j != prefix.index ==>
                    q.parity[prefix.block][j] == if prefix.block in p.parity then p.parity[prefix.block][j] else None)
              && (forall b :: b in p.parity && b != prefix.block ==> q.parity[b] == p.parity[b])
  {
    hide Rebuilt, SlotsSized, Stored, CountSome, TotalBytes;
    match a
    case Data(index, payload) =>
      FillWellFormed(p, index, payload);
      RebuiltWellFormed(code, Fill(p, index, payload));
      assert Fill(p, index, payload).slots[index] == Some(payload);
    case Shard(prefix, shard) =>
      StoreWellFormed(p, prefix, shard);
      RebuiltWellFormed(code, Store(p, prefix, shard));
  }

  function GivenUp(st: StreamState, i: nat, error: ReassembleError): Effect
    requires i < |st.pending|
  {
    Effect(StreamState(st.lastDelivered, st.pending[..i] + st.pending[i + 1..]), Err(error), 1, 0, false)
  }

  // It does not wait: it is started unless it claims to be too large.
  lemma NewFrame(code: Code, st: StreamState, header: Header, a: Arrival)
    requires Ordered(st) && Ahead(st, header.frame) && header.fragments > 0 && Fits(a, header.fragments)
    requires forall k :: 0 <= k < |st.pending| ==> st.pending[k].frame != header.frame
    ensures var e := PushStream(code, st, header, a);
            if header.fragments * FRAGMENT_SIZE > MAX_FRAME + FRAGMENT_SIZE then
              e == Effect(st, Err(ReassembleError.TooLarge), 0, 0, false)
            else e.reply.Ok? && e.started
  {
    hide WellFormed, Newer, Oldest, Rebuilt;
    if header.fragments * FRAGMENT_SIZE <= MAX_FRAME + FRAGMENT_SIZE {
      assert IndexOf(st.pending, header.frame).None?;
      NewAbsorbs(code, header, a);
    }
  }

  lemma NewAbsorbs(code: Code, header: Header, a: Arrival)
    requires header.fragments > 0 && Fits(a, header.fragments)
    requires header.fragments * FRAGMENT_SIZE <= MAX_FRAME + FRAGMENT_SIZE
    ensures var p := NewPending(header.frame, header.sentUs, header.fragments);
            WellFormed(p) && Fits(a, |p.slots|) && Absorb(code, p, a).Grown?
  {
    hide WellFormed, Rebuilt;
    NewWellFormed(header.frame, header.sentUs, header.fragments);
  }

  // ---- The others ----

  // Whether a frame goes to make room for a new one.
  predicate Evicted(st: StreamState, header: Header, p: Pending) {
    && Find(st.pending, header).Fresh? && |st.pending| >= 4
    && p == st.pending[Oldest(st.pending)]
  }

  // A packet touches no waiting frame but its own, save that it may need the place of one, and that delivering its
  // frame does away with those that are not newer.
  lemma OthersStay(code: Code, st: StreamState, header: Header, a: Arrival, p: Pending)
    requires Ordered(st) && Ahead(st, header.frame) && header.fragments > 0 && Fits(a, header.fragments)
    requires p in st.pending && p.frame != header.frame
    ensures var e := PushStream(code, st, header, a);
            p in e.stream.pending
            <==> !Evicted(st, header, p) && !(Delivers(e.reply) && !Newer(p.frame, header.frame))
  {
    hide WellFormed, Fits, Newer, Oldest, Absorb, Settled, Find;
    assert AllWellFormed(st.pending);
    match Find(st.pending, header)
    case TooBig =>
    case Known(i) =>
      if |st.pending[i].slots| == header.fragments {
        UpdateOthers(code, st, i, header.stream, a, p);
      } else {
        RemoveOthers(st.pending, i, p);
      }
    case Fresh(pending, _) =>
      FreshSound(st.pending, header);
      FreshOthers(st, header, p);
      UpdateOthers(code, st.(pending := pending), |pending| - 1, header.stream, a, p);
  }

  lemma RemoveOthers(pending: seq<Pending>, i: nat, p: Pending)
    requires i < |pending|
    ensures p in RemoveAt(pending, i) ==> p in pending
    ensures p in pending && p != pending[i] ==> p in RemoveAt(pending, i)
  {
    if p in pending && p != pending[i] {
      var k :| 0 <= k < |pending| && pending[k] == p;
      assert RemoveAt(pending, i)[if k < i then k else k - 1] == p;
    }
  }

  lemma FreshOthers(st: StreamState, header: Header, p: Pending)
    requires Ordered(st) && Find(st.pending, header).Fresh? && p in st.pending && p.frame != header.frame
    ensures p in Find(st.pending, header).pending <==> !Evicted(st, header, p)
    ensures Find(st.pending, header).pending[|Find(st.pending, header).pending| - 1].frame == header.frame
  {
    hide WellFormed, Newer, Oldest;
    if |st.pending| >= 4 {
      var o := Oldest(st.pending);
      RemoveOthers(st.pending, o, p);
      RemoveKeepsOrder(st.pending, o, None);
    }
  }

  lemma UpdateOthers(code: Code, st: StreamState, index: nat, stream: u16, a: Arrival, p: Pending)
    requires index < |st.pending| && WellFormed(st.pending[index]) && Fits(a, |st.pending[index].slots|)
    requires p.frame != st.pending[index].frame
    ensures var e := Update(code, st, index, stream, a);
            p in e.stream.pending
            <==> p in st.pending && !(Delivers(e.reply) && !Newer(p.frame, st.pending[index].frame))
  {
    hide WellFormed, Fits, Newer, Absorb, Settled;
    var own := st.pending[index];
    RemoveOthers(st.pending, index, p);
    if Absorb(code, own, a).Grown? {
      AbsorbKeeps(code, own, a);
      SettledOthers(st, index, stream, Absorb(code, own, a).pending, Absorb(code, own, a).rebuilt, p);
    }
  }

  lemma SettledOthers(st: StreamState, index: nat, stream: u16, q: Pending, rebuilt: nat, p: Pending)
    requires index < |st.pending| && q.frame == st.pending[index].frame != p.frame
    ensures var e := Settled(st, index, stream, q, rebuilt);
            p in e.stream.pending
            <==> p in st.pending && !(Delivers(e.reply) && !Newer(p.frame, q.frame))
  {
    hide Newer, RemoveAt;
    RemoveOthers(st.pending, index, p);
    if p in st.pending {
      var k :| 0 <= k < |st.pending| && st.pending[k] == p;
      assert st.pending[index := q][k] == p;
    }
  }

  // ---- Giving up ----

  // Giving up says whether the frame waited, and counts it only then.
  lemma AbandonTells(s: State, stream: u16, frame: u32)
    ensures var (after, found) := AfterAbandon(s, stream, frame);
            && (found <==>
                  var pending := s.Stream(stream).pending;
                  exists i :: 0 <= i < |pending| && pending[i].frame == frame)
            && after.dropped == s.dropped + (if found then 1 else 0) && after.recovered == s.recovered
            && (!found ==> after == s)
            && (forall other: u16 :: other != stream ==> after.Stream(other) == s.Stream(other))
            && after.Stream(stream).lastDelivered == s.Stream(stream).lastDelivered
  {}
}
