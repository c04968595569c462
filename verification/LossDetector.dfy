/** The receiver's decisions about waiting frames: what to ask for again, what to give up, when to ask for a refresh. */
module LossDetection {
  import opened Wrappers
  import opened Words
  import opened Pendings
  import opened Reassembly
  import opened StreamOrder
  import opened Feedbacks

  const MAX_NACKS: nat := 2

  // Times in microseconds.
  datatype Timing = Timing(rtt: nat, hold: nat, deadline: nat, refreshGap: nat)

  datatype Seen = Seen(first: nat, nacks: nat, lastNack: nat)

  type Key = (u16, u32)

  function KeyOf(w: Waiting): Key {
    (w.stream, w.frame)
  }

  // What a poll reads and writes: the frames tracked, the last refresh asked for on each stream, the reassembler.
  datatype Core = Core(seen: map<Key, Seen>, lastRefresh: map<u16, nat>, state: State)

  // ---- One waiting frame ----

  datatype Decision = GivesUp(refresh: bool) | Asks | Waits

  function Tracked(core: Core, now: nat, key: Key): Seen {
    if key in core.seen then core.seen[key] else Seen(now, 0, 0)
  }

  function Decide(now: nat, timing: Timing, core: Core, w: Waiting): Decision {
    var seen := Tracked(core, now, KeyOf(w));
    var age := SatSub(now, seen.first);
    if age >= timing.deadline then
      GivesUp(w.stream !in core.lastRefresh || SatSub(now, core.lastRefresh[w.stream]) >= timing.refreshGap)
    else if age >= timing.hold && seen.nacks < MAX_NACKS
            && (seen.nacks == 0 || SatSub(now, seen.lastNack) >= timing.rtt * 3 / 2)
            && age + timing.rtt <= timing.deadline then Asks
    else Waits
  }

  function Apply(now: nat, core: Core, w: Waiting, d: Decision): Core {
    var key := KeyOf(w);
    var seen := Tracked(core, now, key);
    match d
    case GivesUp(refresh) =>
      Core(core.seen - {key},
           if refresh then core.lastRefresh[w.stream := now] else core.lastRefresh,
           AfterAbandon(core.state, w.stream, w.frame).0)
    case Asks => core.(seen := core.seen[key := Seen(seen.first, seen.nacks + 1, now)])
    case Waits => core.(seen := core.seen[key := seen])
  }

  function Say(w: Waiting, d: Decision): seq<Feedback> {
    match d
    case GivesUp(refresh) => if refresh then [Refresh(w.stream, w.frame)] else []
    case Asks => [Nack(w.stream, w.frame, w.missing)]
    case Waits => []
  }

  // ---- One poll ----

  function Keys(waiting: seq<Waiting>): (s: set<Key>)
    ensures forall k :: k in s <==> exists i :: 0 <= i < |waiting| && KeyOf(waiting[i]) == k
  {
    set i | 0 <= i < |waiting| :: KeyOf(waiting[i])
  }

  // Forgets the frames that no longer wait.
  function Forget(core: Core, waiting: seq<Waiting>): Core {
    core.(seen := map k | k in core.seen && k in Keys(waiting) :: core.seen[k])
  }

  function PollAll(now: nat, timing: Timing, core: Core, waiting: seq<Waiting>): (r: (Core, seq<Feedback>))
  {
    if waiting == [] then (core, [])
    else
      var (before, said) := PollAll(now, timing, core, waiting[..|waiting| - 1]);
      var w := waiting[|waiting| - 1];
      var d := Decide(now, timing, before, w);
      (Apply(now, before, w, d), said + Say(w, d))
  }

  class LossDetector {
    var seen: map<Key, Seen>
    var lastRefresh: map<u16, nat>

    constructor ()
      ensures seen == map[] && lastRefresh == map[]
    {
      seen, lastRefresh := map[], map[];
    }

    // The reassembler's waiting frames come in some order of its streams.
    method Poll(now: nat, timing: Timing, reassembler: Reassembler) returns (out: seq<Feedback>, ghost order: seq<u16>)
      requires reassembler.Valid()
      modifies this, reassembler
      ensures reassembler.Valid()
      ensures Enumerates(order, old(reassembler.streams))
      ensures var waiting := WaitingAll(old(reassembler.Model()), order);
        (Core(seen, lastRefresh, reassembler.Model()), out)
        == PollAll(now, timing, Forget(Core(old(seen), old(lastRefresh), old(reassembler.Model())), waiting), waiting)
    {
      hide WaitingAll, Sound;
      var waiting;
      waiting, order := reassembler.Incomplete();
      ghost var start := Forget(Core(seen, lastRefresh, reassembler.Model()), waiting);
      seen := map k | k in seen && k in Keys(waiting) :: seen[k];
      out := [];
      for i := 0 to |waiting|
        invariant reassembler.Valid()
        invariant (Core(seen, lastRefresh, reassembler.Model()), out) == PollAll(now, timing, start, waiting[..i])
      {
        hide Decide, Apply, Say;
        assert waiting[..i + 1][..i] == waiting[..i];
        var said := Judge(now, timing, reassembler, waiting[i]);
        out := out + said;
      }
      assert waiting[..|waiting|] == waiting;
    }

    // One waiting frame: given up on, asked for, or left to wait.
    method Judge(now: nat, timing: Timing, reassembler: Reassembler, w: Waiting) returns (out: seq<Feedback>)
      requires reassembler.Valid()
      modifies this, reassembler
      ensures reassembler.Valid()
      ensures var core := Core(old(seen), old(lastRefresh), old(reassembler.Model()));
        var d := Decide(now, timing, core, w);
        Core(seen, lastRefresh, reassembler.Model()) == Apply(now, core, w, d) && out == Say(w, d)
    {
      hide AfterAbandon, Sound;
      out := [];
      var key := (w.stream, w.frame);
      var tracked := if key in seen then seen[key] else Seen(now, 0, 0);
      seen := seen[key := tracked];
      var age := SatSub(now, tracked.first);
      if age >= timing.deadline {
        var found := reassembler.Abandon(w.stream, w.frame);
        seen := seen - {key};
        assert seen == old(seen) - {key};
        var due := w.stream !in lastRefresh || SatSub(now, lastRefresh[w.stream]) >= timing.refreshGap;
        if due {
          lastRefresh := lastRefresh[w.stream := now];
          out := [Refresh(w.stream, w.frame)];
        }
        return;
      }
      var spaced := tracked.nacks == 0 || SatSub(now, tracked.lastNack) >= timing.rtt * 3 / 2;
      var inTime := age + timing.rtt <= timing.deadline;
      if age >= timing.hold && tracked.nacks < MAX_NACKS && spaced && inTime {
        seen := seen[key := Seen(tracked.first, tracked.nacks + 1, now)];
        assert seen == old(seen)[key := Seen(tracked.first, tracked.nacks + 1, now)];
        out := [Nack(w.stream, w.frame, w.missing)];
      }
    }
  }

  // ---- The waiting frames ----

  ghost predicate StreamsDistinct(s: State) {
    forall stream :: stream in s.streams ==> DistinctFrames(s.streams[stream].pending)
  }

  ghost predicate Waits'(s: State, key: Key) {
    key.0 in s.streams && exists i :: 0 <= i < |s.streams[key.0].pending| && s.streams[key.0].pending[i].frame == key.1
  }

  ghost predicate DistinctKeys(waiting: seq<Waiting>) {
    forall i, j :: 0 <= i < j < |waiting| ==> KeyOf(waiting[i]) != KeyOf(waiting[j])
  }

  lemma WaitingInKeys(s: State, stream: u16)
    requires Sound(s) && StreamsDistinct(s) && stream in s.streams
    ensures var w := WaitingIn(stream, s.streams[stream].pending);
      && DistinctKeys(w)
      && (forall i :: 0 <= i < |w| ==> w[i].stream == stream && Waits'(s, KeyOf(w[i])))
      && (forall frame: u32 :: Waits'(s, (stream, frame)) ==> (stream, frame) in Keys(w))
  {
    hide WellFormed;
    var pending := s.streams[stream].pending;
    var w := WaitingIn(stream, pending);
    forall frame: u32 | Waits'(s, (stream, frame))
      ensures (stream, frame) in Keys(w)
    {
      var i :| 0 <= i < |pending| && pending[i].frame == frame;
      assert KeyOf(w[i]) == (stream, frame);
    }
    forall i | 0 <= i < |w|
      ensures w[i].stream == stream && w[i].frame == pending[i].frame
    {}
  }

  // Whatever the order of the streams, each waiting frame is listed once, and nothing else is.
  lemma {:induction false} WaitingAllKeys(s: State, order: seq<u16>)
    requires Sound(s) && StreamsDistinct(s)
    requires forall stream :: stream in order ==> stream in s.streams
    requires forall i, j :: 0 <= i < j < |order| ==> order[i] != order[j]
    ensures DistinctKeys(WaitingAll(s, order))
    ensures forall key: Key :: key in Keys(WaitingAll(s, order)) <==> key.0 in order && Waits'(s, key)
  {
    hide WellFormed, WaitingIn, Waits';
    if order != [] {
      var init, stream := order[..|order| - 1], order[|order| - 1];
      assert order == init + [stream];
      WaitingAllKeys(s, init);
      WaitingInKeys(s, stream);
      var a, b := WaitingAll(s, init), WaitingIn(stream, s.streams[stream].pending);
      KeysAppend(a, b);
      forall i, j | 0 <= i < |a| && 0 <= j < |b|
        ensures KeyOf(a[i]) != KeyOf(b[j])
      {
        assert KeyOf(a[i]) in Keys(a);
      }
      forall key: Key | key.0 in order && Waits'(s, key)
        ensures key in Keys(a + b)
      {
        if key.0 == stream {
          assert key == (stream, key.1);
        }
      }
      forall key: Key | key in Keys(b)
        ensures key.0 == stream && Waits'(s, key)
      {
        var i :| 0 <= i < |b| && KeyOf(b[i]) == key;
      }
    }
  }

  lemma KeysAppend(a: seq<Waiting>, b: seq<Waiting>)
    ensures Keys(a + b) == Keys(a) + Keys(b)
  {
    forall k
      ensures k in Keys(a + b) <==> k in Keys(a) || k in Keys(b)
    {
      if k in Keys(a) {
        var i :| 0 <= i < |a| && KeyOf(a[i]) == k;
        assert KeyOf((a + b)[i]) == k;
      }
      if k in Keys(b) {
        var i :| 0 <= i < |b| && KeyOf(b[i]) == k;
        assert KeyOf((a + b)[|a| + i]) == k;
      }
    }
  }

  lemma AbandonWaits(s: State, key: Key, other: Key)
    requires StreamsDistinct(s)
    ensures StreamsDistinct(AfterAbandon(s, key.0, key.1).0)
    ensures Waits'(AfterAbandon(s, key.0, key.1).0, other) <==> Waits'(s, other) && other != key
  {
    if key.0 in s.streams {
      var pending := s.streams[key.0].pending;
      var i := IndexOf(pending, key.1);
      if i.Some? {
        var rest := RemoveAt(pending, i.value);
        if other.0 == key.0 && other != key && Waits'(s, other) {
          var j :| 0 <= j < |pending| && pending[j].frame == other.1;
          assert rest[if j < i.value then j else j - 1].frame == other.1;
        }
      }
    }
  }

  // ---- Every run of polls ----

  // A message and when it was sent.
  datatype Sent = Sent(time: nat, message: Feedback)

  function Stamped(now: nat, messages: seq<Feedback>): (s: seq<Sent>)
    ensures |s| == |messages|
  {
    seq(|messages|, i requires 0 <= i < |messages| => Sent(now, messages[i]))
  }

  // When a frame was asked for, and when a refresh was asked for on a stream.
  function NackTimes(said: seq<Sent>, key: Key): seq<nat> {
    if said == [] then []
    else
      var last := said[|said| - 1];
      NackTimes(said[..|said| - 1], key)
      + if last.message.Nack? && (last.message.stream, last.message.frame) == key then [last.time] else []
  }

  function RefreshTimes(said: seq<Sent>, stream: u16): seq<nat> {
    if said == [] then []
    else
      var last := said[|said| - 1];
      RefreshTimes(said[..|said| - 1], stream)
      + if last.message.Refresh? && last.message.stream == stream then [last.time] else []
  }

  // What the detector did: every message it sent, how many it had sent when it began to track each frame it now
  // tracks, and what it gave up.
  datatype Log = Log(core: Core, said: seq<Sent>, began: map<Key, nat>, givenUp: seq<(u16, nat)>)

  // What was sent since a frame is tracked.
  function Since(log: Log, key: Key): seq<Sent> {
    if key in log.began && log.began[key] <= |log.said| then log.said[log.began[key]..] else []
  }

  function LogOne(now: nat, timing: Timing, log: Log, w: Waiting): Log {
    var key := KeyOf(w);
    var d := Decide(now, timing, log.core, w);
    Log(Apply(now, log.core, w, d), log.said + Stamped(now, Say(w, d)),
        if d.GivesUp? then log.began - {key}
        else if key in log.began then log.began
        else log.began[key := |log.said|],
        log.givenUp + if d.GivesUp? then [(w.stream, now)] else [])
  }

  function LogAll(now: nat, timing: Timing, log: Log, waiting: seq<Waiting>): Log {
    if waiting == [] then log
    else LogOne(now, timing, LogAll(now, timing, log, waiting[..|waiting| - 1]), waiting[|waiting| - 1])
  }

  // A poll at `now`, whatever the reassembler has come to hold since the last one.
  datatype Poll = Poll(now: nat, state: State, order: seq<u16>)

  ghost predicate Possible(p: Poll) {
    Sound(p.state) && StreamsDistinct(p.state) && Enumerates(p.order, p.state.streams)
  }

  // The log with only the frames `core` tracks.
  function Forgotten(log: Log, core: Core): Log {
    log.(core := core, began := map k | k in log.began && k in core.seen :: log.began[k])
  }

  function LogPoll(timing: Timing, log: Log, p: Poll): Log
    requires Possible(p)
  {
    var waiting := WaitingAll(p.state, p.order);
    var core := Forget(log.core.(state := p.state), waiting);
    LogAll(p.now, timing, Forgotten(log, core), waiting)
  }

  const START: Log := Log(Core(map[], map[], State(map[], 0, 0)), [], map[], [])

  function Run(timing: Timing, polls: seq<Poll>): Log
    requires forall p :: p in polls ==> Possible(p)
  {
    if polls == [] then START
    else LogPoll(timing, Run(timing, polls[..|polls| - 1]), polls[|polls| - 1])
  }

  ghost predicate InOrder(polls: seq<Poll>) {
    forall i, j :: 0 <= i < j < |polls| ==> polls[i].now <= polls[j].now
  }

  // The log's decisions are the poll's, and its messages are those the poll returns.
  lemma {:induction false} LogFollowsPoll(now: nat, timing: Timing, log: Log, waiting: seq<Waiting>)
    ensures var after := LogAll(now, timing, log, waiting);
            var (core, said) := PollAll(now, timing, log.core, waiting);
            after.core == core && after.said == log.said + Stamped(now, said)
  {
    hide Decide, Apply, Say;
    if waiting != [] {
      LogFollowsPoll(now, timing, log, waiting[..|waiting| - 1]);
    }
  }

  // Each poll of the class adds to the log what it returns.
  lemma PollIsLogged(timing: Timing, log: Log, p: Poll)
    requires Possible(p)
    ensures var waiting := WaitingAll(p.state, p.order);
            var (core, said) := PollAll(p.now, timing, Forget(log.core.(state := p.state), waiting), waiting);
            LogPoll(timing, log, p).core == core && LogPoll(timing, log, p).said == log.said + Stamped(p.now, said)
  {
    hide PollAll, LogAll, WaitingAll, Forget;
    var waiting := WaitingAll(p.state, p.order);
    var core := Forget(log.core.(state := p.state), waiting);
    var start := Forgotten(log, core);
    LogFollowsPoll(p.now, timing, start, waiting);
  }

  // Each at least `gap` after the one before.
  ghost predicate Spaced(times: seq<nat>, gap: nat) {
    forall i :: 0 <= i < |times| - 1 ==> times[i] + gap <= times[i + 1]
  }

  // What is known of one tracked frame: when the NACKs for it were sent.
  ghost predicate AskedWell(timing: Timing, seen: Seen, times: seq<nat>, now: nat) {
    && seen.first <= now
    && |times| == seen.nacks <= MAX_NACKS
    && (times != [] ==> times[|times| - 1] == seen.lastNack <= now)
    && Spaced(times, timing.rtt * 3 / 2)
    && (forall i :: 0 <= i < |times| ==>
          seen.first + timing.hold <= times[i] && times[i] + timing.rtt <= seen.first + timing.deadline)
  }

  // What is known of the refreshes sent for one stream.
  ghost predicate RefreshedWell(timing: Timing, log: Log, stream: u16, now: nat) {
    var times := RefreshTimes(log.said, stream);
    && (stream in log.core.lastRefresh <==> times != [])
    && (times != [] ==> times[|times| - 1] == log.core.lastRefresh[stream] <= now)
    && Spaced(times, timing.refreshGap)
  }

  // A give-up sent a refresh, or one was sent less than the gap before.
  ghost predicate Covered(timing: Timing, log: Log, g: (u16, nat)) {
    exists i :: 0 <= i < |RefreshTimes(log.said, g.0)|
      && RefreshTimes(log.said, g.0)[i] <= g.1
      && (g.1 == RefreshTimes(log.said, g.0)[i] || g.1 < RefreshTimes(log.said, g.0)[i] + timing.refreshGap)
  }

  ghost predicate Invariant(timing: Timing, log: Log, now: nat) {
    && log.began.Keys == log.core.seen.Keys
    && (forall k :: k in log.began ==> log.began[k] <= |log.said|)
    && (forall k :: k in log.core.seen ==> AskedWell(timing, log.core.seen[k], NackTimes(Since(log, k), k), now))
    && (forall stream: u16 :: RefreshedWell(timing, log, stream, now))
    && (forall i :: 0 <= i < |log.givenUp| ==> Covered(timing, log, log.givenUp[i]))
  }

  lemma {:induction false} TimesAppend(a: seq<Sent>, b: seq<Sent>, key: Key)
    ensures NackTimes(a + b, key) == NackTimes(a, key) + NackTimes(b, key)
    ensures RefreshTimes(a + b, key.0) == RefreshTimes(a, key.0) + RefreshTimes(b, key.0)
  {
    if b == [] {
      assert a + b == a;
    } else {
      TimesAppend(a, b[..|b| - 1], key);
      assert (a + b)[..|a + b| - 1] == a + b[..|b| - 1];
    }
  }

  // What one decision says, and to whom.
  lemma SaidTimes(now: nat, w: Waiting, d: Decision, key: Key)
    ensures var said := Stamped(now, Say(w, d));
            && NackTimes(said, key) == (if d.Asks? && key == KeyOf(w) then [now] else [])
            && RefreshTimes(said, key.0) == (if d.GivesUp? && d.refresh && key.0 == w.stream then [now] else [])
  {
    var said := Stamped(now, Say(w, d));
    if said != [] {
      assert said[..|said| - 1] == [];
    }
  }

  // What one decision adds to what is known of each frame and each stream.
  lemma OneMoreSaid(now: nat, timing: Timing, log: Log, w: Waiting, key: Key)
    requires forall k :: k in log.began ==> log.began[k] <= |log.said|
    ensures var d := Decide(now, timing, log.core, w);
            var after := LogOne(now, timing, log, w);
            && (forall k :: k in after.began ==> after.began[k] <= |after.said|)
            && (key in after.began ==>
                  NackTimes(Since(after, key), key)
                  == NackTimes(Since(log, key), key) + if d.Asks? && key == KeyOf(w) then [now] else [])
            && RefreshTimes(after.said, key.0)
               == RefreshTimes(log.said, key.0) + if d.GivesUp? && d.refresh && key.0 == w.stream then [now] else []
  {
    hide Decide, Apply, Say, NackTimes, RefreshTimes;
    var d := Decide(now, timing, log.core, w);
    var after := LogOne(now, timing, log, w);
    var more := Stamped(now, Say(w, d));
    SaidTimes(now, w, d, key);
    TimesAppend(log.said, more, key);
    if key in after.began {
      assert Since(after, key) == Since(log, key) + more;
      TimesAppend(Since(log, key), more, key);
    }
  }

  lemma SpacedAppend(times: seq<nat>, gap: nat, t: nat)
    requires Spaced(times, gap) && (times != [] ==> times[|times| - 1] + gap <= t)
    ensures Spaced(times + [t], gap)
  {
    var more := times + [t];
    forall i | 0 <= i < |more| - 1 ensures more[i] + gap <= more[i + 1] {
      if i < |times| - 1 {
        assert more[i] == times[i] && more[i + 1] == times[i + 1];
      }
    }
  }

  lemma RefreshStays(timing: Timing, before: Log, after: Log, g: (u16, nat))
    requires Covered(timing, before, g)
    requires RefreshTimes(before.said, g.0) <= RefreshTimes(after.said, g.0)
    ensures Covered(timing, after, g)
  {
    hide RefreshTimes;
    var i :| 0 <= i < |RefreshTimes(before.said, g.0)|
      && RefreshTimes(before.said, g.0)[i] <= g.1
      && (g.1 == RefreshTimes(before.said, g.0)[i] || g.1 < RefreshTimes(before.said, g.0)[i] + timing.refreshGap);
    assert RefreshTimes(after.said, g.0)[i] == RefreshTimes(before.said, g.0)[i];
  }

  // The streams after one decision.
  lemma RefreshesKeep(now: nat, timing: Timing, log: Log, w: Waiting, stream: u16)
    requires Invariant(timing, log, now)
    ensures RefreshedWell(timing, LogOne(now, timing, log, w), stream, now)
    ensures RefreshTimes(log.said, stream) <= RefreshTimes(LogOne(now, timing, log, w).said, stream)
  {
    hide AskedWell, Decide, Say, Since, Covered, RefreshTimes, NackTimes;
    OneMoreSaid(now, timing, log, w, (stream, 0));
    assert RefreshedWell(timing, log, stream, now);
    var d := Decide(now, timing, log.core, w);
    if d.GivesUp? && d.refresh && stream == w.stream {
      RefreshIsDue(now, timing, log.core, w);
      SpacedAppend(RefreshTimes(log.said, stream), timing.refreshGap, now);
    }
  }

  lemma CoveredNow(now: nat, timing: Timing, log: Log, w: Waiting)
    requires Invariant(timing, log, now) && Decide(now, timing, log.core, w).GivesUp?
    ensures Covered(timing, LogOne(now, timing, log, w), (w.stream, now))
  {
    hide AskedWell, Decide, Say, Since, RefreshTimes, NackTimes, Spaced;
    OneMoreSaid(now, timing, log, w, KeyOf(w));
    RefreshesKeep(now, timing, log, w, w.stream);
    RefreshIsDue(now, timing, log.core, w);
    assert RefreshedWell(timing, log, w.stream, now);
    var times := RefreshTimes(LogOne(now, timing, log, w).said, w.stream);
    assert times != [] && times[|times| - 1] <= now;
  }

  // The frames tracked after one decision.
  lemma AsksKeep(now: nat, timing: Timing, log: Log, w: Waiting, key: Key)
    requires Invariant(timing, log, now)
    ensures var after := LogOne(now, timing, log, w);
            && (key in after.began <==> key in after.core.seen)
            && (key in after.core.seen ==>
                  AskedWell(timing, after.core.seen[key], NackTimes(Since(after, key), key), now))
  {
    hide AskedWell, Decide, Say, RefreshedWell, Covered, RefreshTimes, NackTimes, Since;
    var d := Decide(now, timing, log.core, w);
    OneMoreSaid(now, timing, log, w, key);
    var times := NackTimes(Since(log, key), key);
    NoneSince(log, key);
    if key == KeyOf(w) && !d.GivesUp? {
      assert AskedWell(timing, Tracked(log.core, now, key), times, now) by { NewAskedWell(timing, now); }
      JudgedWell(now, timing, log.core, w, times);
      assert times + [] == times;
    } else if key in log.core.seen {
      assert times + [] == times;
    }
  }

  lemma NoneSince(log: Log, key: Key)
    ensures key !in log.began ==> NackTimes(Since(log, key), key) == []
  {}

  lemma OneKeeps(now: nat, timing: Timing, log: Log, w: Waiting)
    requires Invariant(timing, log, now)
    ensures Invariant(timing, LogOne(now, timing, log, w), now)
  {
    hide AskedWell, RefreshedWell, Covered, Decide, Apply, Since, NackTimes, RefreshTimes, Say;
    var after := LogOne(now, timing, log, w);
    OneMoreSaid(now, timing, log, w, KeyOf(w));
    forall key: Key
      ensures key in after.began <==> key in after.core.seen
      ensures key in after.core.seen ==>
                AskedWell(timing, after.core.seen[key], NackTimes(Since(after, key), key), now)
    {
      AsksKeep(now, timing, log, w, key);
    }
    forall stream: u16 ensures RefreshedWell(timing, after, stream, now) {
      RefreshesKeep(now, timing, log, w, stream);
    }
    forall i | 0 <= i < |after.givenUp|
      ensures Covered(timing, after, after.givenUp[i])
    {
      if i < |log.givenUp| {
        RefreshesKeep(now, timing, log, w, log.givenUp[i].0);
        RefreshStays(timing, log, after, log.givenUp[i]);
      } else {
        CoveredNow(now, timing, log, w);
      }
    }
  }

  lemma RefreshIsDue(now: nat, timing: Timing, core: Core, w: Waiting)
    requires Decide(now, timing, core, w).GivesUp?
    ensures Decide(now, timing, core, w).refresh
            <==> w.stream !in core.lastRefresh || SatSub(now, core.lastRefresh[w.stream]) >= timing.refreshGap
  {}

  lemma AskedOnceMore(timing: Timing, seen: Seen, times: seq<nat>, now: nat)
    requires AskedWell(timing, seen, times, now) && seen.nacks < MAX_NACKS
    requires seen.first + timing.hold <= now && now + timing.rtt <= seen.first + timing.deadline
    requires seen.nacks == 0 || seen.lastNack + timing.rtt * 3 / 2 <= now
    ensures AskedWell(timing, Seen(seen.first, seen.nacks + 1, now), times + [now], now)
  {
    SpacedAppend(times, timing.rtt * 3 / 2, now);
  }

  // The tracked frame as it is after a decision not to give it up.
  lemma JudgedWell(now: nat, timing: Timing, core: Core, w: Waiting, times: seq<nat>)
    requires AskedWell(timing, Tracked(core, now, KeyOf(w)), times, now) && !Decide(now, timing, core, w).GivesUp?
    ensures var d := Decide(now, timing, core, w);
      var after := Apply(now, core, w, d).seen;
      && KeyOf(w) in after && after[KeyOf(w)].first == Tracked(core, now, KeyOf(w)).first
      && AskedWell(timing, after[KeyOf(w)], if d.Asks? then times + [now] else times, now)
      && now < after[KeyOf(w)].first + timing.deadline
  {
    hide Spaced;
    var seen := Tracked(core, now, KeyOf(w));
    if Decide(now, timing, core, w).Asks? {
      AskedOnceMore(timing, seen, times, now);
    }
  }

  lemma NewAskedWell(timing: Timing, now: nat)
    ensures AskedWell(timing, Seen(now, 0, 0), [], now)
  {}

  // A frame not given up is young, and the others are as they were.
  lemma NotGivenUp(now: nat, timing: Timing, log: Log, w: Waiting)
    requires Invariant(timing, log, now) && !Decide(now, timing, log.core, w).GivesUp?
    ensures var after := LogOne(now, timing, log, w).core;
      && KeyOf(w) in after.seen && now < after.seen[KeyOf(w)].first + timing.deadline
      && after.state == log.core.state && after.seen.Keys == log.core.seen.Keys + {KeyOf(w)}
      && forall k :: k in log.core.seen && k != KeyOf(w) ==> after.seen[k] == log.core.seen[k]
  {
    hide RefreshedWell, Covered, AskedWell, Decide, Since, NackTimes;
    var key := KeyOf(w);
    var times := NackTimes(Since(log, key), key);
    NoneSince(log, key);
    assert AskedWell(timing, Tracked(log.core, now, key), times, now) by { NewAskedWell(timing, now); }
    JudgedWell(now, timing, log.core, w, times);
  }

  // Of the frames dealt with so far, the tracked are those that still wait, and they are young.
  ghost predicate Partway(now: nat, timing: Timing, log: Log, waiting: seq<Waiting>, done: nat)
    requires done <= |waiting|
  {
    && StreamsDistinct(log.core.state)
    && (forall k :: k in log.core.seen ==> k in Keys(waiting))
    && (forall k :: Waits'(log.core.state, k) <==>
          k in Keys(waiting) && (k in Keys(waiting[..done]) ==> k in log.core.seen))
    && (forall k :: k in log.core.seen && k in Keys(waiting[..done]) ==> now < log.core.seen[k].first + timing.deadline)
  }

  lemma KeysOneMore(waiting: seq<Waiting>, done: nat)
    requires done < |waiting| && DistinctKeys(waiting)
    ensures Keys(waiting[..done + 1]) == Keys(waiting[..done]) + {KeyOf(waiting[done])}
    ensures KeyOf(waiting[done]) in Keys(waiting) && KeyOf(waiting[done]) !in Keys(waiting[..done])
  {
    var w := waiting[done];
    assert waiting[..done + 1] == waiting[..done] + [w];
    KeysAppend(waiting[..done], [w]);
    assert Keys([w]) == {KeyOf(w)} by { assert KeyOf([w][0]) == KeyOf(w); }
  }

  lemma GiveUpPartway(now: nat, timing: Timing, log: Log, waiting: seq<Waiting>, done: nat)
    requires done < |waiting| && DistinctKeys(waiting) && Partway(now, timing, log, waiting, done)
    requires Decide(now, timing, log.core, waiting[done]).GivesUp?
    ensures Partway(now, timing, LogOne(now, timing, log, waiting[done]), waiting, done + 1)
  {
    hide Waits', Decide, Keys;
    var w := waiting[done];
    KeysOneMore(waiting, done);
    var after := LogOne(now, timing, log, w);
    assert after.core.seen == log.core.seen - {KeyOf(w)};
    assert after.core.state == AfterAbandon(log.core.state, w.stream, w.frame).0;
    hide LogOne, AfterAbandon;
    AbandonWaits(log.core.state, KeyOf(w), KeyOf(w));
    forall k: Key
      ensures Waits'(after.core.state, k) <==> Waits'(log.core.state, k) && k != KeyOf(w)
    {
      AbandonWaits(log.core.state, KeyOf(w), k);
    }
  }

  lemma AskPartway(now: nat, timing: Timing, log: Log, waiting: seq<Waiting>, done: nat)
    requires done < |waiting| && DistinctKeys(waiting) && Partway(now, timing, log, waiting, done)
    requires Invariant(timing, log, now) && !Decide(now, timing, log.core, waiting[done]).GivesUp?
    ensures Partway(now, timing, LogOne(now, timing, log, waiting[done]), waiting, done + 1)
  {
    hide Waits', Decide, Keys, LogOne, StreamsDistinct, Invariant;
    KeysOneMore(waiting, done);
    NotGivenUp(now, timing, log, waiting[done]);
  }

  lemma OneKeepsPartway(now: nat, timing: Timing, log: Log, waiting: seq<Waiting>, done: nat)
    requires done < |waiting| && DistinctKeys(waiting)
    requires Invariant(timing, log, now) && Partway(now, timing, log, waiting, done)
    ensures Invariant(timing, LogOne(now, timing, log, waiting[done]), now)
    ensures Partway(now, timing, LogOne(now, timing, log, waiting[done]), waiting, done + 1)
  {
    hide Invariant, Decide, Partway, LogOne;
    OneKeeps(now, timing, log, waiting[done]);
    if Decide(now, timing, log.core, waiting[done]).GivesUp? {
      GiveUpPartway(now, timing, log, waiting, done);
    } else {
      AskPartway(now, timing, log, waiting, done);
    }
  }

  lemma {:induction false} AllKeepPartway(now: nat, timing: Timing, log: Log, waiting: seq<Waiting>, done: nat)
    requires done <= |waiting| && DistinctKeys(waiting)
    requires Invariant(timing, log, now) && Partway(now, timing, log, waiting, 0)
    ensures var after := LogAll(now, timing, log, waiting[..done]);
            Invariant(timing, after, now) && Partway(now, timing, after, waiting, done)
  {
    hide Invariant, Partway, LogOne;
    if done > 0 {
      AllKeepPartway(now, timing, log, waiting, done - 1);
      assert waiting[..done][..done - 1] == waiting[..done - 1];
      OneKeepsPartway(now, timing, LogAll(now, timing, log, waiting[..done - 1]), waiting, done - 1);
    }
  }

  // After a poll the tracked frames are the waiting ones, all younger than the deadline.
  ghost predicate InStep(timing: Timing, log: Log, now: nat) {
    && (forall k :: k in log.core.seen <==> Waits'(log.core.state, k))
    && (forall k :: k in log.core.seen ==> now < log.core.seen[k].first + timing.deadline)
  }

  lemma InvariantLater(timing: Timing, log: Log, now: nat, later: nat)
    requires Invariant(timing, log, now) && now <= later
    ensures Invariant(timing, log, later)
  {
    forall k | k in log.core.seen
      ensures AskedWell(timing, log.core.seen[k], NackTimes(Since(log, k), k), later)
    {
      assert AskedWell(timing, log.core.seen[k], NackTimes(Since(log, k), k), now);
    }
    forall stream: u16
      ensures RefreshedWell(timing, log, stream, later)
    {
      assert RefreshedWell(timing, log, stream, now);
    }
  }

  lemma PollKeeps(timing: Timing, log: Log, now: nat, p: Poll)
    requires Possible(p) && Invariant(timing, log, now) && now <= p.now
    ensures Invariant(timing, LogPoll(timing, log, p), p.now) && InStep(timing, LogPoll(timing, log, p), p.now)
  {
    hide WellFormed, Waits', StreamsDistinct, WaitingAll, LogOne, AskedWell, Since, NackTimes, RefreshTimes, Covered,
      RefreshedWell;
    var waiting := WaitingAll(p.state, p.order);
    WaitingAllKeys(p.state, p.order);
    InvariantLater(timing, log, now, p.now);
    var core := Forget(log.core.(state := p.state), waiting);
    var start := Forgotten(log, core);
    assert Invariant(timing, start, p.now) by { ForgetKeeps(timing, log, p, waiting); }
    assert waiting[..0] == [] && Keys([]) == {};
    forall key: Key
      ensures Waits'(p.state, key) <==> key in Keys(waiting)
    {
      if Waits'(p.state, key) {
        WaitsOnStream(p.state, key);
      }
    }
    assert Partway(p.now, timing, start, waiting, 0);
    AllKeepPartway(p.now, timing, start, waiting, |waiting|);
    assert waiting[..|waiting|] == waiting;
  }

  lemma ForgetKeeps(timing: Timing, log: Log, p: Poll, waiting: seq<Waiting>)
    requires Invariant(timing, log, p.now)
    ensures var core := Forget(log.core.(state := p.state), waiting);
            Invariant(timing, Forgotten(log, core), p.now)
  {
    hide AskedWell, NackTimes, RefreshTimes, Spaced;
    var core := Forget(log.core.(state := p.state), waiting);
    var start := Forgotten(log, core);
    forall k | k in start.began ensures Since(start, k) == Since(log, k) {}
    forall stream: u16 ensures RefreshedWell(timing, start, stream, p.now) {
      assert RefreshedWell(timing, log, stream, p.now);
    }
    forall i | 0 <= i < |start.givenUp| ensures Covered(timing, start, start.givenUp[i]) {
      RefreshStays(timing, log, start, log.givenUp[i]);
    }
  }

  lemma WaitsOnStream(s: State, key: Key)
    requires Waits'(s, key)
    ensures key.0 in s.streams
  {}

  // At fixed timing and with time never going back, whatever the packets did between polls: for every tracked frame at
  // most MAX_NACKS NACKs were sent since it was first seen, only after the hold and while a resend could come in
  // time, one and a half round trips apart; refreshes on a stream are at least the gap apart; every frame given up
  // is covered by one; and after each poll the frames tracked are those that wait, none as old as the deadline.
  lemma {:induction false} RunKeeps(timing: Timing, polls: seq<Poll>)
    requires (forall p :: p in polls ==> Possible(p)) && InOrder(polls)
    ensures Invariant(timing, Run(timing, polls), if polls == [] then 0 else polls[|polls| - 1].now)
    ensures polls != [] ==> InStep(timing, Run(timing, polls), polls[|polls| - 1].now)
  {
    hide Invariant, InStep, LogPoll, Possible;
    if polls == [] {
      StartKeeps(timing);
    } else {
      var init, p := polls[..|polls| - 1], polls[|polls| - 1];
      assert p in polls;
      RunKeeps(timing, init);
      PollKeeps(timing, Run(timing, init), if init == [] then 0 else init[|init| - 1].now, p);
    }
  }

  lemma StartKeeps(timing: Timing)
    ensures Invariant(timing, START, 0)
  {}

  // ---- What a poll does to each waiting frame ----

  // The NACKs for one frame, and the refresh requests for one stream, among the messages of a poll.
  function NacksFor(said: seq<Feedback>, key: Key): seq<Feedback> {
    if said == [] then []
    else
      var last := said[|said| - 1];
      NacksFor(said[..|said| - 1], key) + if last.Nack? && (last.stream, last.frame) == key then [last] else []
  }

  lemma {:induction false} NacksAppend(a: seq<Feedback>, b: seq<Feedback>, key: Key)
    ensures NacksFor(a + b, key) == NacksFor(a, key) + NacksFor(b, key)
  {
    if b == [] {
      assert a + b == a;
    } else {
      NacksAppend(a, b[..|b| - 1], key);
      assert (a + b)[..|a + b| - 1] == a + b[..|b| - 1];
    }
  }

  // How old a frame is, from when it was first seen.
  function Age(core: Core, now: nat, key: Key): int {
    if key in core.seen && core.seen[key].first <= now then now - core.seen[key].first else 0
  }

  // Worth asking for: the hold is over, the deadline is not, a resend can still come in time, and of at most two NACKs
  // none was sent yet, or the last a round trip and a half ago.
  ghost predicate Due(core: Core, now: nat, timing: Timing, key: Key) {
    && timing.hold <= Age(core, now, key) < timing.deadline
    && Age(core, now, key) + timing.rtt <= timing.deadline
    && (key in core.seen && core.seen[key].nacks > 0 ==>
          core.seen[key].nacks == 1
          && (core.seen[key].lastNack + timing.rtt * 3 / 2 <= now || timing.rtt * 3 / 2 == 0))
  }

  lemma {:induction false} SeenUntouched(now: nat, timing: Timing, core: Core, waiting: seq<Waiting>, key: Key)
    requires key !in Keys(waiting)
    ensures var (after, said) := PollAll(now, timing, core, waiting);
            && (key in after.seen <==> key in core.seen)
            && (key in core.seen ==> after.seen[key] == core.seen[key])
            && NacksFor(said, key) == []
  {
    hide Decide, NacksFor, AfterAbandon;
    if waiting != [] {
      var init, w := waiting[..|waiting| - 1], waiting[|waiting| - 1];
      assert KeyOf(waiting[|waiting| - 1]) in Keys(waiting);
      assert forall k :: k in Keys(init) ==> k in Keys(waiting) by {
        KeysAppend(init, [w]);
        assert init + [w] == waiting;
      }
      SeenUntouched(now, timing, core, init, key);
      var (before, said) := PollAll(now, timing, core, init);
      NacksAppend(said, Say(w, Decide(now, timing, before, w)), key);
      OtherNacks(w, Decide(now, timing, before, w), key);
    } else {
      assert NacksFor([], key) == [] by { NoNacks(key); }
    }
  }

  lemma NoNacks(key: Key)
    ensures NacksFor([], key) == []
  {}

  lemma OtherNacks(w: Waiting, d: Decision, key: Key)
    ensures NacksFor(Say(w, d), key)
            == if d.Asks? && key == KeyOf(w) then [Nack(w.stream, w.frame, w.missing)] else []
  {
    var said := Say(w, d);
    if said != [] {
      assert said[..|said| - 1] == [];
    }
  }

  // A poll sends exactly one NACK, for all that is missing, for each waiting frame that is due one, and none for any
  // other; and it goes on tracking exactly those that are younger than the deadline.
  lemma {:induction false} PollAsks(now: nat, timing: Timing, core: Core, waiting: seq<Waiting>, i: nat)
    requires DistinctKeys(waiting) && i < |waiting|
    requires forall key :: key in core.seen ==> core.seen[key].nacks <= 2
    ensures var (after, said) := PollAll(now, timing, core, waiting);
            var key := (waiting[i].stream, waiting[i].frame);
            && NacksFor(said, key)
               == (if Due(core, now, timing, key) then [Nack(key.0, key.1, waiting[i].missing)] else [])
            && (key in after.seen <==> Age(core, now, key) < timing.deadline)
            && (key in after.seen ==>
                  after.seen[key].first == if key in core.seen then core.seen[key].first else now)
  {
    hide NacksFor, AfterAbandon, DistinctKeys;
    var init, w := waiting[..|waiting| - 1], waiting[|waiting| - 1];
    var key := KeyOf(waiting[i]);
    var (before, said) := PollAll(now, timing, core, init);
    assert DistinctKeys(init) && (i < |init| ==> KeyOf(w) != key) by { LastDiffers(waiting, i); }
    NacksAppend(said, Say(w, Decide(now, timing, before, w)), key);
    OtherNacks(w, Decide(now, timing, before, w), key);
    if i < |init| {
      PollAsks(now, timing, core, init, i);
      assert key in Apply(now, before, w, Decide(now, timing, before, w)).seen <==> key in before.seen;
    } else {
      assert key !in Keys(init) by { LastIsNew(waiting); }
      SeenUntouched(now, timing, core, init, key);
    }
  }

  lemma LastDiffers(waiting: seq<Waiting>, i: nat)
    requires DistinctKeys(waiting) && i < |waiting|
    ensures DistinctKeys(waiting[..|waiting| - 1])
    ensures i < |waiting| - 1 ==> KeyOf(waiting[i]) != KeyOf(waiting[|waiting| - 1])
  {}

  lemma LastIsNew(waiting: seq<Waiting>)
    requires DistinctKeys(waiting) && waiting != []
    ensures KeyOf(waiting[|waiting| - 1]) !in Keys(waiting[..|waiting| - 1])
  {
    var init := waiting[..|waiting| - 1];
    forall j | 0 <= j < |init| ensures KeyOf(init[j]) != KeyOf(waiting[|waiting| - 1]) {
      assert init[j] == waiting[j];
    }
  }

  // A refresh request names a waiting frame that is as old as the deadline.
  lemma {:induction false} RefreshNames(
    now: nat, timing: Timing, core: Core, waiting: seq<Waiting>, stream: u16, frame: u32)
    requires DistinctKeys(waiting) && Refresh(stream, frame) in PollAll(now, timing, core, waiting).1
    ensures (stream, frame) in Keys(waiting) && Age(core, now, (stream, frame)) >= timing.deadline
  {
    hide DistinctKeys, Keys, Apply, Decide;
    var init, w := waiting[..|waiting| - 1], waiting[|waiting| - 1];
    assert DistinctKeys(init) by { LastDiffers(waiting, |waiting| - 1); }
    KeysAppend(init, [w]);
    assert init + [w] == waiting;
    OneKey(w);
    if Refresh(stream, frame) in PollAll(now, timing, core, init).1 {
      RefreshNames(now, timing, core, init, stream, frame);
    } else {
      assert KeyOf(w) !in Keys(init) by { LastIsNew(waiting); }
      SeenUntouched(now, timing, core, init, KeyOf(w));
      SaysRefresh(now, timing, PollAll(now, timing, core, init).0, w, stream, frame);
    }
  }

  lemma SaysRefresh(now: nat, timing: Timing, core: Core, w: Waiting, stream: u16, frame: u32)
    requires Refresh(stream, frame) in Say(w, Decide(now, timing, core, w))
    ensures (stream, frame) == KeyOf(w) && Age(core, now, KeyOf(w)) >= timing.deadline
  {}

  // And the reassembler is rid of exactly the frames that are as old as the deadline.
  lemma {:induction false} PollGivesUp(now: nat, timing: Timing, core: Core, waiting: seq<Waiting>, key: Key)
    requires DistinctKeys(waiting) && StreamsDistinct(core.state)
    ensures var after := PollAll(now, timing, core, waiting).0;
            && StreamsDistinct(after.state)
            && (Waits'(after.state, key) <==>
                  Waits'(core.state, key) && !(key in Keys(waiting) && Age(core, now, key) >= timing.deadline))
  {
    hide DistinctKeys, AfterAbandon, StreamsDistinct, Waits', Keys;
    if waiting == [] {
      assert Keys([]) == {} by { NoKeys(); }
    } else {
      var init, w := waiting[..|waiting| - 1], waiting[|waiting| - 1];
      assert DistinctKeys(init) by { LastDiffers(waiting, |waiting| - 1); }
      KeysAppend(init, [w]);
      assert init + [w] == waiting;
      OneKey(w);
      PollGivesUp(now, timing, core, init, key);
      var before := PollAll(now, timing, core, init).0;
      assert KeyOf(w) !in Keys(init) by { LastIsNew(waiting); }
      SeenUntouched(now, timing, core, init, KeyOf(w));
      AbandonWaits(before.state, KeyOf(w), key);
    }
  }

  lemma NoKeys()
    ensures Keys([]) == {}
  {}

  lemma OneKey(w: Waiting)
    ensures Keys([w]) == {KeyOf(w)}
  {
    assert KeyOf([w][0]) == KeyOf(w);
  }

  // What is known of the frames that wait is kept from one poll to the next, and of no others.
  lemma ForgetsOthers(core: Core, waiting: seq<Waiting>, key: Key)
    ensures var after := Forget(core, waiting);
            && (key in after.seen <==> key in core.seen && key in Keys(waiting))
            && (key in after.seen ==> after.seen[key] == core.seen[key])
            && after.lastRefresh == core.lastRefresh && after.state == core.state
  {}

  // In a run, of every poll and each frame that waits at it, whatever came before: it is asked for exactly when it is
  // due, by its age and the NACKs since it was first seen; it is given up exactly when it is as old as the deadline;
  // and otherwise it goes on being tracked from when it was first seen.
  lemma PolledFrames(timing: Timing, polls: seq<Poll>, p: Poll, i: nat)
    requires (forall q :: q in polls ==> Possible(q)) && Possible(p) && InOrder(polls + [p])
    requires i < |WaitingAll(p.state, p.order)|
    ensures var waiting := WaitingAll(p.state, p.order);
            var key := (waiting[i].stream, waiting[i].frame);
            var before := Run(timing, polls).core;
            var (after, said) := PollAll(p.now, timing, Forget(before.(state := p.state), waiting), waiting);
            && NacksFor(said, key)
               == (if Due(before, p.now, timing, key) then [Nack(key.0, key.1, waiting[i].missing)] else [])
            && (Waits'(after.state, key) <==> Age(before, p.now, key) < timing.deadline)
            && (key in after.seen <==> Age(before, p.now, key) < timing.deadline)
            && (key in after.seen ==>
                  after.seen[key].first == if key in before.seen then before.seen[key].first else p.now)
            && LogPoll(timing, Run(timing, polls), p).core == after
            && LogPoll(timing, Run(timing, polls), p).said == Run(timing, polls).said + Stamped(p.now, said)
  {
    hide Waits', WaitingAll, Invariant, WellFormed, Run, StreamsDistinct, DistinctKeys, PollAll, NacksFor, Forget,
      LogPoll;
    var waiting := WaitingAll(p.state, p.order);
    var key := KeyOf(waiting[i]);
    WaitingAllKeys(p.state, p.order);
    assert key in Keys(waiting);
    OrderedBefore(polls, p);
    RunKeeps(timing, polls);
    var before := Run(timing, polls).core;
    FewNacks(timing, Run(timing, polls), if polls == [] then 0 else polls[|polls| - 1].now);
    var core := Forget(before.(state := p.state), waiting);
    forall k ensures k in core.seen ==> k in before.seen && core.seen[k] == before.seen[k] {
      ForgetsOthers(before.(state := p.state), waiting, k);
    }
    ForgetsOthers(before.(state := p.state), waiting, key);
    PollAsks(p.now, timing, core, waiting, i);
    PollGivesUp(p.now, timing, core, waiting, key);
    PollIsLogged(timing, Run(timing, polls), p);
  }

  lemma OrderedBefore(polls: seq<Poll>, p: Poll)
    requires InOrder(polls + [p])
    ensures InOrder(polls)
  {
    forall i, j | 0 <= i < j < |polls| ensures polls[i].now <= polls[j].now {
      assert (polls + [p])[i] == polls[i] && (polls + [p])[j] == polls[j];
    }
  }

  lemma FewNacks(timing: Timing, log: Log, now: nat)
    requires Invariant(timing, log, now)
    ensures forall k :: k in log.core.seen ==> log.core.seen[k].nacks <= 2
  {
    hide RefreshedWell, Covered, NackTimes, Since;
  }
}
