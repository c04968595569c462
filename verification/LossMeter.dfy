/** Loss reports from the counts of an opener, and what they add up to. */
module LossMeters {
  import opened Wrappers
  import opened Words
  import opened Replay
  import opened Packets
  import opened Feedbacks

  datatype Meter = Meter(lastHighest: Option<u64>, lastAccepted: nat)

  // Packets numbered since the last sample.
  function Numbered(m: Meter, highest: u64): nat {
    match m.lastHighest
    case Some(last) => SatSub(highest, last)
    case None => highest + 1
  }

  function Clamp(sent: nat): u32 {
    if sent < U32_MAX then sent else U32_MAX
  }

  function AfterSample(m: Meter, highest: Option<u64>, accepted: nat): (r: (Meter, Option<Feedback>))
    ensures r.1.Some? ==> r.1.value.Report?
  {
    match highest
    case None => (m, None)
    case Some(h) =>
      var after := Meter(highest, accepted);
      if Numbered(m, h) == 0 then (after, None)
      else
        var sent := Clamp(Numbered(m, h));
        (after, Some(Report(sent, SatSub(sent, SatSub(accepted, m.lastAccepted)))))
  }

  class LossMeter {
    var lastHighest: Option<u64>
    var lastAccepted: nat

    ghost function Model(): Meter
      reads this
    {
      Meter(lastHighest, lastAccepted)
    }

    constructor ()
      ensures Model() == Meter(None, 0)
    {
      lastHighest := None;
      lastAccepted := 0;
    }

    method Sample(opener: Opener) returns (report: Option<Feedback>)
      requires opener.Valid()
      // The sealer never uses the last number, so a first count of what it numbered fits.
      requires lastHighest.None? ==> Highest(opener.replay.taken) != Some(U64_MAX)
      modifies this
      ensures (Model(), report) == AfterSample(old(Model()), Highest(opener.replay.taken), |opener.replay.taken|)
    {
      var (top, accepted) := opener.Stats();
      if top.None? {
        return None;
      }
      var highest := top.value;
      var sent := match lastHighest
                  case Some(last) => SatSub(highest, last)
                  case None => highest + 1;
      var received := SatSub(accepted, lastAccepted);
      lastHighest := Some(highest);
      lastAccepted := accepted;
      if sent == 0 {
        return None;
      }
      var clamped := Clamp(sent);
      var lost := SatSub(clamped, received);
      return Some(Report(clamped, lost));
    }
  }

  // ---- Every run of samples ----

  // The reports of samples taken after so many packets each, of the packets accepted in one run.
  function Reports(taken: seq<u64>, points: seq<nat>): (r: (Meter, seq<Feedback>))
    requires forall i :: 0 <= i < |points| ==> points[i] <= |taken|
    ensures forall i :: 0 <= i < |r.1| ==> r.1[i].Report?
  {
    if points == [] then (Meter(None, 0), [])
    else
      var (m, reports) := Reports(taken, points[..|points| - 1]);
      var n := points[|points| - 1];
      var (after, report) := AfterSample(m, Highest(taken[..n]), n);
      (after, reports + match report case None => [] case Some(f) => [f])
  }

  // How many packets were numbered when `n` of `taken` had been accepted, as far as the receiver can tell.
  function Known(taken: seq<u64>, n: nat): nat
    requires n <= |taken|
  {
    Count(Highest(taken[..n]))
  }

  function SumSent(reports: seq<Feedback>): nat
    requires forall i :: 0 <= i < |reports| ==> reports[i].Report?
  {
    if reports == [] then 0 else SumSent(reports[..|reports| - 1]) + reports[|reports| - 1].sent
  }

  function SumLost(reports: seq<Feedback>): nat
    requires forall i :: 0 <= i < |reports| ==> reports[i].Report?
  {
    if reports == [] then 0 else SumLost(reports[..|reports| - 1]) + reports[|reports| - 1].lost
  }

  function Last(points: seq<nat>): nat {
    if points == [] then 0 else points[|points| - 1]
  }

  predicate Ordered(points: seq<nat>) {
    forall i, j :: 0 <= i < j < |points| ==> points[i] <= points[j]
  }

  // Fewer than 2^32 packets are numbered between samples.
  predicate ShortPeriods(taken: seq<u64>, points: seq<nat>)
    requires forall i :: 0 <= i < |points| ==> points[i] <= |taken|
  {
    points != [] ==>
      && ShortPeriods(taken, points[..|points| - 1])
      && Known(taken, Last(points)) - Known(taken, Last(points[..|points| - 1])) <= U32_MAX
  }

  lemma {:induction false} KnownGrows(taken: seq<u64>, a: nat, b: nat)
    requires a <= b <= |taken|
    ensures Known(taken, a) <= Known(taken, b)
    ensures a < b ==> Highest(taken[..b]).Some?
  {
    if a < b {
      KnownGrows(taken, a, b - 1);
      assert taken[..b][..b - 1] == taken[..b - 1];
    }
  }

  lemma SumAppend(reports: seq<Feedback>, f: Feedback)
    requires (forall i :: 0 <= i < |reports| ==> reports[i].Report?) && f.Report?
    ensures SumSent(reports + [f]) == SumSent(reports) + f.sent
    ensures SumLost(reports + [f]) == SumLost(reports) + f.lost
  {
    assert (reports + [f])[..|reports|] == reports;
  }

  function Count(highest: Option<u64>): nat {
    match highest
    case None => 0
    case Some(h) => h + 1
  }

  // One sample: it says what was numbered since the last, or that it was too much to count, and how much of that was
  // not made up for by packets accepted since.
  lemma SampleStep(m: Meter, highest: Option<u64>, accepted: nat)
    requires Count(m.lastHighest) <= Count(highest) && m.lastAccepted <= accepted
    requires highest.None? ==> m.lastAccepted == accepted
    ensures var (after, report) := AfterSample(m, highest, accepted);
      var (sent, lost) := match report case Some(f) => (f.sent as nat, f.lost as nat) case None => (0, 0);
      var numbered := Count(highest) - Count(m.lastHighest);
      && after == Meter(highest, accepted)
      && (report.None? <==> numbered == 0)
      && sent == (if numbered <= U32_MAX then numbered else U32_MAX)
      && lost == (if accepted - m.lastAccepted >= sent then 0 else sent - (accepted - m.lastAccepted))
  {}

  // Each report says what was numbered in its period, as far as it can count, and as lost what is more than was
  // accepted in it. A period in which nothing was numbered has no report.
  ghost predicate EachExact(taken: seq<u64>, points: seq<nat>, reports: seq<Feedback>)
    requires forall i :: 0 <= i < |points| ==> points[i] <= |taken|
    requires forall i :: 0 <= i < |reports| ==> reports[i].Report?
    decreases |points|
  {
    if points == [] then reports == []
    else
      var init := points[..|points| - 1];
      var numbered := Known(taken, Last(points)) - Known(taken, Last(init));
      var accepted := Last(points) - Last(init);
      if numbered == 0 then EachExact(taken, init, reports)
      else
        && reports != []
        && EachExact(taken, init, reports[..|reports| - 1])
        && var r := reports[|reports| - 1];
           && r.sent == (if numbered < 0x1_0000_0000 then numbered else 0xffff_ffff)
           && r.lost == (if accepted >= r.sent then 0 else r.sent - accepted)
  }

  // In no period are more packets accepted than its report says were sent.
  ghost predicate NoneLate(taken: seq<u64>, points: seq<nat>)
    requires forall i :: 0 <= i < |points| ==> points[i] <= |taken|
  {
    points != [] ==>
      var init := points[..|points| - 1];
      var numbered := Known(taken, Last(points)) - Known(taken, Last(init));
      var accepted := Last(points) - Last(init);
      NoneLate(taken, init) && accepted <= numbered && accepted < 0x1_0000_0000
  }

  // What the reports say was sent adds up to what is known to be numbered exactly when no period was too long to
  // count, and to less otherwise. No report says more was lost than sent, and together they say at least as much was
  // lost as they say was sent and never came: exactly as much when no packet came too late for its period's report.
  ghost predicate AddUp(taken: seq<u64>, points: seq<nat>, m: Meter, reports: seq<Feedback>)
    requires forall i :: 0 <= i < |points| ==> points[i] <= |taken|
    requires forall i :: 0 <= i < |reports| ==> reports[i].Report?
  {
    && m.lastHighest == Highest(taken[..Last(points)])
    && m.lastAccepted == Last(points)
    && SumSent(reports) <= Known(taken, Last(points))
    && (SumSent(reports) == Known(taken, Last(points)) <==> ShortPeriods(taken, points))
    && (forall i :: 0 <= i < |reports| ==> 0 < reports[i].sent && reports[i].lost <= reports[i].sent)
    && EachExact(taken, points, reports)
    && SumLost(reports) >= SumSent(reports) - Last(points)
    && (SumLost(reports) == SumSent(reports) - Last(points) <==> NoneLate(taken, points))
  }

  lemma {:induction false} ReportsAddUp(taken: seq<u64>, points: seq<nat>)
    requires Ordered(points) && forall i :: 0 <= i < |points| ==> points[i] <= |taken|
    ensures AddUp(taken, points, Reports(taken, points).0, Reports(taken, points).1)
  {
    hide AfterSample;
    if points == [] {
      assert taken[..0] == [];
    } else {
      hide AddUp;
      var init, n := points[..|points| - 1], points[|points| - 1];
      ReportsAddUp(taken, init);
      assert init != [] ==> Last(init) == points[|points| - 2];
      var (m, reports) := Reports(taken, init);
      OneMoreReport(taken, init, n, m, reports);
      assert init + [n] == points;
    }
  }

  lemma OneMoreReport(taken: seq<u64>, init: seq<nat>, n: nat, m: Meter, reports: seq<Feedback>)
    requires forall i :: 0 <= i < |init| ==> init[i] <= |taken|
    requires Last(init) <= n <= |taken|
    requires forall i :: 0 <= i < |reports| ==> reports[i].Report?
    requires AddUp(taken, init, m, reports)
    ensures var (after, report) := AfterSample(m, Highest(taken[..n]), n);
            AddUp(taken, init + [n], after, reports + match report case None => [] case Some(f) => [f])
  {
    hide Highest, ShortPeriods, SumSent, SumLost, AfterSample, NoneLate, EachExact;
    KnownGrows(taken, Last(init), n);
    var report := AfterSample(m, Highest(taken[..n]), n).1;
    SampleStep(m, Highest(taken[..n]), n);
    if report.Some? {
      SumAppend(reports, report.value);
    } else {
      assert reports + [] == reports;
    }
    assert (init + [n])[..|init + [n]| - 1] == init;
    ShortStep(taken, init + [n]);
    ExactStep(taken, init, n, reports, report);
  }

  lemma ExactStep(taken: seq<u64>, init: seq<nat>, n: nat, reports: seq<Feedback>, report: Option<Feedback>)
    requires forall i :: 0 <= i < |init| ==> init[i] <= |taken|
    requires Last(init) <= n <= |taken| && Known(taken, Last(init)) <= Known(taken, n)
    requires (forall i :: 0 <= i < |reports| ==> reports[i].Report?) && (report.Some? ==> report.value.Report?)
    requires EachExact(taken, init, reports)
    requires var numbered, accepted := Known(taken, n) - Known(taken, Last(init)), n - Last(init);
             && (report.None? <==> numbered == 0)
             && (report.Some? ==>
                   && report.value.sent == (if numbered <= U32_MAX then numbered else U32_MAX)
                   && report.value.lost == if accepted >= report.value.sent then 0 else report.value.sent - accepted)
    ensures EachExact(taken, init + [n], reports + match report case None => [] case Some(f) => [f])
    ensures var numbered, accepted := Known(taken, n) - Known(taken, Last(init)), n - Last(init);
            NoneLate(taken, init + [n]) <==> NoneLate(taken, init) && accepted <= numbered && accepted < 0x1_0000_0000
  {
    hide Known;
    assert (init + [n])[..|init + [n]| - 1] == init;
    if report.Some? {
      assert (reports + [report.value])[..|reports|] == reports;
    } else {
      assert reports + [] == reports;
    }
  }

  lemma ShortStep(taken: seq<u64>, points: seq<nat>)
    requires points != [] && forall i :: 0 <= i < |points| ==> points[i] <= |taken|
    ensures ShortPeriods(taken, points) <==>
              ShortPeriods(taken, points[..|points| - 1])
              && Known(taken, Last(points)) - Known(taken, Last(points[..|points| - 1])) <= U32_MAX
  {}

  // For the packets any run of a channel accepted: the loss reported is at least what was numbered and never opened.
  lemma ChannelLossReported(cipher: Cipher, events: seq<Event>, points: seq<nat>)
    requires var taken := Packets.Run(cipher, events).taken;
      && Ordered(points) && (forall i :: 0 <= i < |points| ==> points[i] <= |taken|)
      && Last(points) == |taken| && ShortPeriods(taken, points)
    ensures var c := Packets.Run(cipher, events);
      var reports := Reports(c.taken, points).1;
      && |c.taken| <= SumSent(reports) <= |c.log|
      && (c.taken != [] ==> SumSent(reports) == Highest(c.taken).value + 1)
      && EachExact(c.taken, points, reports)
      && SumLost(reports) >= SumSent(reports) - |c.taken|
      && (SumLost(reports) == SumSent(reports) - |c.taken| <==> NoneLate(c.taken, points))
  {
    var c := Packets.Run(cipher, events);
    ReportsAddUp(c.taken, points);
    OpenedCount(cipher, events);
    ChannelSafe(cipher, events);
    assert c.taken[..|c.taken|] == c.taken;
  }
}
