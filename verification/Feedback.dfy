/** Feedback messages on the wire: NACKs as runs of fragments, refresh requests and loss reports. */
module Feedbacks {
  import opened Wrappers
  import opened Words

  const MAX_NACK_FRAGMENTS: nat := 4096
  const MAX_RANGES: nat := 64

  const NACK: u8 := 1
  const REFRESH: u8 := 2
  const REPORT: u8 := 3

  datatype Feedback =
    | Nack(stream: u16, frame: u32, fragments: seq<u16>)
    | Refresh(stream: u16, frame: u32)
    | Report(sent: u32, lost: u32)

  // ---- The fragments as a set ----

  ghost predicate Ascending(s: seq<u16>) {
    forall i, j :: 0 <= i < j < |s| ==> s[i] < s[j]
  }

  // The different values of `s` from `lo` up, in order: sorted, and repeats dropped.
  function SortedFrom(s: seq<u16>, lo: nat): (r: seq<u16>)
    requires lo <= 0x1_0000
    ensures forall v :: v in r <==> v in s && v >= lo
    ensures Ascending(r)
    decreases 0x1_0000 - lo
  {
    if lo == 0x1_0000 then []
    else
      var rest := SortedFrom(s, lo + 1);
      assert forall i :: 0 <= i < |rest| ==> rest[i] in rest;
      if lo in s then [lo] + rest else rest
  }

  function Distinct(s: seq<u16>): seq<u16> {
    SortedFrom(s, 0)
  }

  lemma FirstMember(s: seq<u16>)
    ensures s == [] || s[0] in s
  {}

  // An ascending list is determined by its values.
  lemma {:induction false} AscendingUnique(a: seq<u16>, b: seq<u16>)
    requires Ascending(a) && Ascending(b) && forall v: u16 :: v in a <==> v in b
    ensures a == b
  {
    if a == [] {
      FirstMember(b);
    } else {
      var m, n := |a| - 1, |b| - 1;
      assert a[m] in a && a[m] in b;
      assert b[n] in b && b[n] in a;
      assert a[m] == b[n];
      assert a == a[..m] + [a[m]] && b == b[..n] + [b[n]];
      forall v: u16 ensures v in a[..m] <==> v in b[..n] {
        if v in a[..m] {
          assert v in a && v != a[m];
        }
        if v in b[..n] {
          assert v in b && v != b[n];
        }
      }
      AscendingUnique(a[..m], b[..n]);
    }
  }

  // ---- Runs ----

  datatype Run = Run(start: u16, len: u16)

  predicate InRange(r: Run) {
    r.len >= 1 && r.start + r.len <= 0x1_0000
  }

  function Span(r: Run): (s: seq<u16>)
    requires r.start + r.len <= 0x1_0000
    ensures |s| == r.len && forall i :: 0 <= i < r.len ==> s[i] == r.start + i
  {
    seq(r.len, i requires 0 <= i < r.len => r.start + i)
  }

  predicate AllInRange(runs: seq<Run>) {
    forall i :: 0 <= i < |runs| ==> InRange(runs[i])
  }

  function Flatten(runs: seq<Run>): seq<u16>
    requires AllInRange(runs)
  {
    if runs == [] then [] else Flatten(runs[..|runs| - 1]) + Span(runs[|runs| - 1])
  }

  // No two runs touch, so none can be longer.
  ghost predicate Separated(runs: seq<Run>) {
    forall i, j :: 0 <= i < j < |runs| ==> runs[i].start + runs[i].len < runs[j].start
  }

  function Extend(runs: seq<Run>, f: u16): seq<Run>
    requires runs != [] ==> runs[|runs| - 1].len < U16_MAX
  {
    if runs != [] && runs[|runs| - 1].start + runs[|runs| - 1].len == f then
      var last := runs[|runs| - 1];
      runs[..|runs| - 1] + [Run(last.start, last.len + 1)]
    else runs + [Run(f, 1)]
  }

  function RunsOf(sorted: seq<u16>): (runs: seq<Run>)
    requires |sorted| <= U16_MAX
    ensures forall r :: r in runs ==> r.len <= |sorted|
  {
    if sorted == [] then []
    else
      var runs := RunsOf(sorted[..|sorted| - 1]);
      assert runs != [] ==> runs[|runs| - 1] in runs;
      Extend(runs, sorted[|sorted| - 1])
  }

  lemma FlattenAppend(runs: seq<Run>, r: Run)
    requires AllInRange(runs) && InRange(r)
    ensures AllInRange(runs + [r]) && Flatten(runs + [r]) == Flatten(runs) + Span(r)
  {
    assert (runs + [r])[..|runs|] == runs;
  }

  // Every run ends at or before `end`.
  ghost predicate EndBy(runs: seq<Run>, end: int) {
    forall i :: 0 <= i < |runs| ==> runs[i].start as int + runs[i].len <= end
  }

  // The last run grows by one.
  lemma GrowLast(init: seq<Run>, last: Run, f: u16)
    requires AllInRange(init + [last]) && Separated(init + [last]) && last.len < U16_MAX && last.start + last.len == f
    ensures var runs := init + [Run(last.start, last.len + 1)];
      && AllInRange(runs) && Separated(runs) && EndBy(runs, f as int + 1)
      && Flatten(runs) == Flatten(init + [last]) + [f]
  {
    hide Flatten;
    var grown := Run(last.start, last.len + 1);
    var before, runs := init + [last], init + [grown];
    forall i | 0 <= i < |init|
      ensures InRange(init[i]) && init[i] == before[i] == runs[i]
      ensures init[i].start as int + init[i].len < last.start
    {
      assert before[i] == init[i] && before[|init|] == last;
    }
    assert InRange(before[|init|]);
    FlattenAppend(init, last);
    FlattenAppend(init, grown);
    assert Span(grown) == Span(last) + [f];
    assert Flatten(init) + (Span(last) + [f]) == (Flatten(init) + Span(last)) + [f];
  }

  // A run of one is added.
  lemma AddRun(runs: seq<Run>, f: u16)
    requires AllInRange(runs) && Separated(runs) && EndBy(runs, f)
    requires runs != [] ==> runs[|runs| - 1].start + runs[|runs| - 1].len != f
    ensures var more := runs + [Run(f, 1)];
      && AllInRange(more) && Separated(more) && EndBy(more, f as int + 1)
      && Flatten(more) == Flatten(runs) + [f]
  {
    hide Flatten;
    FlattenAppend(runs, Run(f, 1));
    assert Span(Run(f, 1)) == [f];
    if runs != [] {
      var last := runs[|runs| - 1];
      forall i | 0 <= i < |runs|
        ensures runs[i].start as int + runs[i].len < f
      {
        assert i < |runs| - 1 ==> runs[i].start + runs[i].len < last.start;
      }
    }
  }

  lemma ExtendAdds(runs: seq<Run>, f: u16)
    requires AllInRange(runs) && Separated(runs) && EndBy(runs, f)
    requires runs != [] ==> runs[|runs| - 1].len < U16_MAX
    ensures AllInRange(Extend(runs, f)) && Separated(Extend(runs, f)) && EndBy(Extend(runs, f), f as int + 1)
    ensures Flatten(Extend(runs, f)) == Flatten(runs) + [f]
  {
    hide Flatten, AllInRange, Separated, EndBy;
    if runs != [] && runs[|runs| - 1].start + runs[|runs| - 1].len == f {
      assert runs == runs[..|runs| - 1] + [runs[|runs| - 1]];
      GrowLast(runs[..|runs| - 1], runs[|runs| - 1], f);
    } else {
      AddRun(runs, f);
    }
  }

  // What the loop over the sorted values builds are their maximal runs: they give the values back, and do not touch.
  lemma {:induction false} RunsAreMaximal(sorted: seq<u16>)
    requires |sorted| <= U16_MAX && Ascending(sorted)
    ensures AllInRange(RunsOf(sorted)) && Separated(RunsOf(sorted)) && Flatten(RunsOf(sorted)) == sorted
    ensures EndBy(RunsOf(sorted), if sorted == [] then 0 else sorted[|sorted| - 1] as int + 1)
  {
    hide Extend, Flatten, Separated, AllInRange, EndBy, RunsOf;
    if sorted == [] {
      NoRunsYet();
    } else {
      var init, f := sorted[..|sorted| - 1], sorted[|sorted| - 1];
      RunsAreMaximal(init);
      LastRun(init);
      EndByLater(RunsOf(init), if init == [] then 0 else init[|init| - 1] as int + 1, f);
      ExtendAdds(RunsOf(init), f);
      RunsStep(sorted);
      assert sorted == init + [f];
    }
  }

  lemma NoRunsYet()
    ensures RunsOf([]) == [] && AllInRange([]) && Separated([]) && Flatten([]) == [] && EndBy([], 0)
  {}

  lemma EndByLater(runs: seq<Run>, a: int, b: int)
    requires EndBy(runs, a) && a <= b
    ensures EndBy(runs, b)
  {}

  lemma RunsStep(sorted: seq<u16>)
    requires 0 < |sorted| <= U16_MAX
    ensures var runs := RunsOf(sorted[..|sorted| - 1]);
      (runs != [] ==> runs[|runs| - 1].len < U16_MAX) && RunsOf(sorted) == Extend(runs, sorted[|sorted| - 1])
  {
    LastRun(sorted[..|sorted| - 1]);
    hide Extend;
  }

  // The last run's values end the list, and an earlier run's end is not next to it.
  lemma FlattenLast(runs: seq<Run>)
    requires AllInRange(runs) && Separated(runs) && runs != []
    ensures var f, last := Flatten(runs), runs[|runs| - 1];
      && |f| >= last.len
      && f[..|f| - last.len] == Flatten(runs[..|runs| - 1])
      && (forall i :: |f| - last.len <= i < |f| ==> f[i] == last.start + (i - (|f| - last.len)))
      && (|f| > last.len ==> f[|f| - 1 - last.len] < last.start - 1)
  {
    var init, last := runs[..|runs| - 1], runs[|runs| - 1];
    var f := Flatten(runs);
    assert f == Flatten(init) + Span(last);
    if |f| > last.len {
      var before := init[|init| - 1];
      assert Flatten(init) == Flatten(init[..|init| - 1]) + Span(before);
      assert f[|f| - 1 - last.len] == Span(before)[before.len - 1];
      assert runs[|runs| - 2] == before;
    }
  }

  lemma LastRunUnique(a: seq<Run>, b: seq<Run>)
    requires AllInRange(a) && Separated(a) && AllInRange(b) && Separated(b) && Flatten(a) == Flatten(b)
    requires a != [] && b != []
    ensures a[|a| - 1] == b[|b| - 1] && Flatten(a[..|a| - 1]) == Flatten(b[..|b| - 1])
  {
    FlattenLast(a);
    FlattenLast(b);
    hide Flatten, Separated;
    var x, y, f := a[|a| - 1], b[|b| - 1], Flatten(a);
    assert InRange(x) && InRange(y);
    assert f[|f| - 1] == x.start + x.len - 1 == y.start + y.len - 1;
  }

  lemma FlattenEmpty(runs: seq<Run>)
    requires AllInRange(runs)
    ensures Flatten(runs) == [] <==> runs == []
  {}

  lemma FewerRuns(runs: seq<Run>)
    requires AllInRange(runs) && Separated(runs) && runs != []
    ensures AllInRange(runs[..|runs| - 1]) && Separated(runs[..|runs| - 1])
  {}

  // So there is only one way to write a set of values as maximal runs.
  lemma {:induction false} MaximalRunsUnique(a: seq<Run>, b: seq<Run>)
    requires AllInRange(a) && Separated(a) && AllInRange(b) && Separated(b) && Flatten(a) == Flatten(b)
    ensures a == b
  {
    hide Flatten, Separated, AllInRange;
    FlattenEmpty(a);
    FlattenEmpty(b);
    if a != [] && b != [] {
      FewerRuns(a);
      FewerRuns(b);
      LastRunUnique(a, b);
      MaximalRunsUnique(a[..|a| - 1], b[..|b| - 1]);
      assert a == a[..|a| - 1] + [a[|a| - 1]] && b == b[..|b| - 1] + [b[|b| - 1]];
    }
  }

  lemma LastRun(sorted: seq<u16>)
    requires |sorted| <= U16_MAX
    ensures RunsOf(sorted) != [] ==> RunsOf(sorted)[|RunsOf(sorted)| - 1].len <= |sorted|
  {
    hide RunsOf;
    var runs := RunsOf(sorted);
    assert runs != [] ==> runs[|runs| - 1] in runs;
  }

  // ---- Writing ----

  function RunBytes(runs: seq<Run>): (s: Bytes)
    ensures |s| == 4 * |runs|
  {
    if runs == [] then []
    else RunBytes(runs[..|runs| - 1]) + Be16(runs[|runs| - 1].start) + Be16(runs[|runs| - 1].len)
  }

  // The first runs, as many as a message takes.
  function Kept(runs: seq<Run>): (k: seq<Run>)
    ensures |k| == (if |runs| < 64 then |runs| else 64) && k == runs[..|k|]
  {
    if |runs| > MAX_RANGES then runs[..MAX_RANGES] else runs
  }

  function NackBytes(stream: u16, frame: u32, runs: seq<Run>): Bytes
    requires |runs| <= U16_MAX
  {
    [NACK] + Be16(stream) + Be32(frame) + Be16(|runs|) + RunBytes(runs)
  }

  function Encode(f: Feedback): Bytes
    requires f.Nack? ==> |Distinct(f.fragments)| <= U16_MAX
  {
    match f
    case Nack(stream, frame, fragments) => NackBytes(stream, frame, Kept(RunsOf(Distinct(fragments))))
    case Refresh(stream, frame) => [REFRESH] + Be16(stream) + Be32(frame)
    case Report(sent, lost) => [REPORT] + Be32(sent) + Be32(lost)
  }

  method BuildRuns(sorted: seq<u16>) returns (ranges: seq<Run>)
    requires |sorted| <= U16_MAX
    ensures ranges == RunsOf(sorted)
  {
    hide RunsOf;
    ranges := [];
    NoRunsYet();
    assert sorted[..0] == [];
    for i := 0 to |sorted|
      invariant ranges == RunsOf(sorted[..i])
    {
      var value := sorted[i];
      assert sorted[..i + 1][..i] == sorted[..i];
      RunsStep(sorted[..i + 1]);
      if ranges != [] && ranges[|ranges| - 1].start + ranges[|ranges| - 1].len == value {
        var last := ranges[|ranges| - 1];
        ranges := ranges[..|ranges| - 1] + [Run(last.start, last.len + 1)];
      } else {
        ranges := ranges + [Run(value, 1)];
      }
    }
    assert sorted[..|sorted|] == sorted;
  }

  method WriteRuns(head: Bytes, ranges: seq<Run>) returns (out: Bytes)
    ensures out == head + RunBytes(ranges)
  {
    hide Be16;
    out := head;
    for i := 0 to |ranges|
      invariant out == head + RunBytes(ranges[..i])
    {
      assert ranges[..i + 1][..i] == ranges[..i];
      out := out + Be16(ranges[i].start);
      out := out + Be16(ranges[i].len);
    }
    assert ranges[..|ranges|] == ranges;
  }

  method EncodeFeedback(f: Feedback) returns (out: Bytes)
    requires f.Nack? ==> |Distinct(f.fragments)| <= U16_MAX
    ensures out == Encode(f)
  {
    hide Be16, Be32, Distinct, RunsOf, RunBytes;
    match f {
      case Nack(stream, frame, fragments) =>
        var sorted := Distinct(fragments);
        var ranges := BuildRuns(sorted);
        ranges := Kept(ranges);
        out := [NACK];
        out := out + Be16(stream);
        out := out + Be32(frame);
        out := out + Be16(|ranges|);
        out := WriteRuns(out, ranges);
      case Refresh(stream, frame) =>
        out := [REFRESH];
        out := out + Be16(stream);
        out := out + Be32(frame);
      case Report(sent, lost) =>
        out := [REPORT];
        out := out + Be32(sent);
        out := out + Be32(lost);
    }
  }

  // ---- Reading ----

  // The run at place `i` of a NACK.
  function RunAt(bytes: Bytes, i: nat): Run
    requires 9 + 4 * i + 4 <= |bytes|
  {
    Run(FromBe16(bytes[9 + 4 * i..11 + 4 * i]), FromBe16(bytes[11 + 4 * i..13 + 4 * i]))
  }

  // The fragments of the runs from place `i` on, after those already read.
  function ReadRuns(bytes: Bytes, i: nat, count: nat, fragments: seq<u16>): Option<seq<u16>>
    requires i <= count && |bytes| == 9 + 4 * count
    decreases count - i
  {
    if i == count then Some(fragments)
    else
      var r := RunAt(bytes, i);
      if r.len == 0 || r.start + r.len > 0x1_0000 then None
      else if |fragments| + r.len > MAX_NACK_FRAGMENTS then None
      else ReadRuns(bytes, i + 1, count, fragments + Span(r))
  }

  function Decode(bytes: Bytes): Option<Feedback> {
    if bytes == [] then None
    else if bytes[0] == NACK then
      if |bytes| < 9 then None
      else
        var count := FromBe16(bytes[7..9]);
        if count > MAX_RANGES || |bytes| != 9 + count * 4 then None
        else
          match ReadRuns(bytes, 0, count, [])
          case None => None
          case Some(fragments) => Some(Nack(FromBe16(bytes[1..3]), FromBe32(bytes[3..7]), fragments))
    else if bytes[0] == REFRESH && |bytes| == 7 then Some(Refresh(FromBe16(bytes[1..3]), FromBe32(bytes[3..7])))
    else if bytes[0] == REPORT && |bytes| == 9 then Some(Report(FromBe32(bytes[1..5]), FromBe32(bytes[5..9])))
    else None
  }

  method DecodeFeedback(bytes: Bytes) returns (r: Option<Feedback>)
    ensures r == Decode(bytes)
  {
    hide FromBe16, FromBe32;
    if bytes == [] {
      return None;
    }
    if bytes[0] == NACK {
      if |bytes| < 9 {
        return None;
      }
      var stream, frame := FromBe16(bytes[1..3]), FromBe32(bytes[3..7]);
      var count := FromBe16(bytes[7..9]);
      if count > MAX_RANGES || |bytes| != 9 + count * 4 {
        return None;
      }
      var fragments := [];
      for i := 0 to count
        invariant ReadRuns(bytes, i, count, fragments) == ReadRuns(bytes, 0, count, [])
      {
        var r := RunAt(bytes, i);
        if r.len == 0 || r.start + r.len > 0x1_0000 {
          return None;
        }
        if |fragments| + r.len > MAX_NACK_FRAGMENTS {
          return None;
        }
        fragments := fragments + Span(r);
      }
      return Some(Nack(stream, frame, fragments));
    }
    if bytes[0] == REFRESH && |bytes| == 7 {
      return Some(Refresh(FromBe16(bytes[1..3]), FromBe32(bytes[3..7])));
    }
    if bytes[0] == REPORT && |bytes| == 9 {
      return Some(Report(FromBe32(bytes[1..5]), FromBe32(bytes[5..9])));
    }
    return None;
  }

  // ---- Reading what was written ----

  lemma {:induction false} RunBytesAt(runs: seq<Run>, i: nat)
    requires i < |runs|
    ensures RunBytes(runs)[4 * i..4 * i + 2] == Be16(runs[i].start)
    ensures RunBytes(runs)[4 * i + 2..4 * i + 4] == Be16(runs[i].len)
  {
    hide Be16;
    if i < |runs| - 1 {
      RunBytesAt(runs[..|runs| - 1], i);
    }
  }

  lemma RunReads(stream: u16, frame: u32, runs: seq<Run>, i: nat)
    requires i < |runs| <= U16_MAX
    ensures |NackBytes(stream, frame, runs)| == 9 + 4 * |runs|
    ensures RunAt(NackBytes(stream, frame, runs), i) == runs[i]
  {
    hide Be16, Be32, FromBe16;
    var bytes, tail := NackBytes(stream, frame, runs), RunBytes(runs);
    RunBytesAt(runs, i);
    assert bytes[9 + 4 * i..11 + 4 * i] == tail[4 * i..4 * i + 2];
    assert bytes[11 + 4 * i..13 + 4 * i] == tail[4 * i + 2..4 * i + 4];
    Be16RoundTrip(runs[i].start);
    Be16RoundTrip(runs[i].len);
  }

  lemma {:induction false} FlattenMonotone(runs: seq<Run>, i: nat)
    requires AllInRange(runs) && i <= |runs|
    ensures |Flatten(runs[..i])| <= |Flatten(runs)|
    decreases |runs|
  {
    if i < |runs| {
      FlattenMonotone(runs[..|runs| - 1], i);
      assert runs[..|runs| - 1][..i] == runs[..i];
    } else {
      assert runs[..i] == runs;
    }
  }

  lemma {:induction false} RunsRead(stream: u16, frame: u32, runs: seq<Run>, i: nat)
    requires i <= |runs| <= U16_MAX && AllInRange(runs) && |Flatten(runs[..i])| <= MAX_NACK_FRAGMENTS
    ensures |NackBytes(stream, frame, runs)| == 9 + 4 * |runs|
    ensures ReadRuns(NackBytes(stream, frame, runs), i, |runs|, Flatten(runs[..i]))
            == if |Flatten(runs)| <= MAX_NACK_FRAGMENTS then Some(Flatten(runs)) else None
    decreases |runs| - i
  {
    hide NackBytes, RunAt, Flatten, Span;
    RunsLength(stream, frame, runs);
    if i == |runs| {
      assert runs[..i] == runs;
    } else {
      RunReads(stream, frame, runs, i);
      assert InRange(runs[i]);
      assert runs[..i + 1] == runs[..i] + [runs[i]];
      FlattenAppend(runs[..i], runs[i]);
      FlattenMonotone(runs, i + 1);
      if |Flatten(runs[..i + 1])| <= MAX_NACK_FRAGMENTS {
        RunsRead(stream, frame, runs, i + 1);
      }
    }
  }

  lemma RunsLength(stream: u16, frame: u32, runs: seq<Run>)
    requires |runs| <= U16_MAX
    ensures |NackBytes(stream, frame, runs)| == 9 + 4 * |runs|
  {}

  lemma KeptInRange(runs: seq<Run>)
    requires AllInRange(runs)
    ensures AllInRange(Kept(runs))
  {}

  lemma NackHead(stream: u16, frame: u32, runs: seq<Run>)
    requires |runs| <= U16_MAX
    ensures var bytes := NackBytes(stream, frame, runs);
            && |bytes| == 9 + 4 * |runs| && bytes[0] == NACK
            && FromBe16(bytes[1..3]) == stream && FromBe32(bytes[3..7]) == frame && FromBe16(bytes[7..9]) == |runs|
  {
    hide Be16, Be32, FromBe16, FromBe32;
    var bytes := NackBytes(stream, frame, runs);
    assert bytes[1..3] == Be16(stream) && bytes[3..7] == Be32(frame) && bytes[7..9] == Be16(|runs|);
    Be16RoundTrip(stream);
    Be32RoundTrip(frame);
    Be16RoundTrip(|runs|);
  }

  // A NACK reads back as the fragments of the first runs of its set, when they are few enough, and as nothing when
  // they are not.
  lemma NackReads(stream: u16, frame: u32, fragments: seq<u16>)
    requires |Distinct(fragments)| <= U16_MAX
    ensures AllInRange(Kept(RunsOf(Distinct(fragments))))
    ensures Decode(Encode(Nack(stream, frame, fragments)))
            == var wanted := Flatten(Kept(RunsOf(Distinct(fragments))));
               if |wanted| <= MAX_NACK_FRAGMENTS then Some(Nack(stream, frame, wanted)) else None
  {
    hide NackBytes, Flatten, Distinct, RunsOf, Kept, FromBe16, FromBe32, ReadRuns;
    RunsAreMaximal(Distinct(fragments)) by { DistinctAscending(fragments); }
    var runs := Kept(RunsOf(Distinct(fragments)));
    KeptInRange(RunsOf(Distinct(fragments)));
    NackHead(stream, frame, runs);
    NoRuns(runs);
    RunsRead(stream, frame, runs, 0);
  }

  lemma DistinctAscending(fragments: seq<u16>)
    ensures Ascending(Distinct(fragments)) && forall v: u16 :: v in Distinct(fragments) <==> v in fragments
  {}

  lemma NoRuns(runs: seq<Run>)
    ensures runs[..0] == [] && Flatten([]) == []
  {}

  // The fragments a receiver asks for, in order and few enough in few enough runs, arrive as asked for.
  lemma NackArrives(stream: u16, frame: u32, fragments: seq<u16>)
    requires Ascending(fragments) && |fragments| <= MAX_NACK_FRAGMENTS
    requires |RunsOf(fragments)| <= MAX_RANGES
    ensures Distinct(fragments) == fragments
    ensures Decode(Encode(Nack(stream, frame, fragments))) == Some(Nack(stream, frame, fragments))
  {
    hide NackBytes, Flatten, Distinct, RunsOf, Encode, Decode;
    DistinctAscending(fragments);
    AscendingUnique(Distinct(fragments), fragments);
    RunsAreMaximal(fragments);
    NackReads(stream, frame, fragments);
  }

  // The other messages read back as they were.
  lemma OthersRead(f: Feedback)
    requires !f.Nack?
    ensures Decode(Encode(f)) == Some(f)
  {
    var s := Encode(f);
    match f
    case Refresh(stream, frame) =>
      assert s[1..3] == Be16(stream) && s[3..7] == Be32(frame);
      Be16RoundTrip(stream);
      Be32RoundTrip(frame);
    case Report(sent, lost) =>
      assert s[1..5] == Be32(sent) && s[5..9] == Be32(lost);
      Be32RoundTrip(sent);
      Be32RoundTrip(lost);
  }

  // Whatever the bytes, no NACK asks for more than it may.
  lemma {:induction false} ReadRunsBounded(bytes: Bytes, i: nat, count: nat, fragments: seq<u16>)
    requires i <= count && |bytes| == 9 + 4 * count && |fragments| <= MAX_NACK_FRAGMENTS
    requires ReadRuns(bytes, i, count, fragments).Some?
    ensures |ReadRuns(bytes, i, count, fragments).value| <= MAX_NACK_FRAGMENTS
    decreases count - i
  {
    hide FromBe16;
    if i < count {
      ReadRunsBounded(bytes, i + 1, count, fragments + Span(RunAt(bytes, i)));
    }
  }

  lemma DecodeBounded(bytes: Bytes)
    requires Decode(bytes).Some? && Decode(bytes).value.Nack?
    ensures |Decode(bytes).value.fragments| <= MAX_NACK_FRAGMENTS
  {
    hide FromBe16, FromBe32;
    ReadRunsBounded(bytes, 0, FromBe16(bytes[7..9]), []);
  }

  // ---- Nothing else is read ----

  lemma RefreshExact(bytes: Bytes, stream: u16, frame: u32)
    ensures Decode(bytes) == Some(Refresh(stream, frame)) <==> bytes == Encode(Refresh(stream, frame))
  {
    hide Be16, Be32, FromBe16, FromBe32;
    if Decode(bytes) == Some(Refresh(stream, frame)) {
      FromBe16RoundTrip(bytes[1..3]);
      FromBe32RoundTrip(bytes[3..7]);
      assert bytes == [bytes[0]] + bytes[1..3] + bytes[3..7];
    } else if bytes == Encode(Refresh(stream, frame)) {
      OthersRead(Refresh(stream, frame));
    }
  }

  lemma ReportExact(bytes: Bytes, sent: u32, lost: u32)
    ensures Decode(bytes) == Some(Report(sent, lost)) <==> bytes == Encode(Report(sent, lost))
  {
    hide Be16, Be32, FromBe16, FromBe32;
    if Decode(bytes) == Some(Report(sent, lost)) {
      FromBe32RoundTrip(bytes[1..5]);
      FromBe32RoundTrip(bytes[5..9]);
      assert bytes == [bytes[0]] + bytes[1..5] + bytes[5..9];
    } else if bytes == Encode(Report(sent, lost)) {
      OthersRead(Report(sent, lost));
    }
  }

  // Where everything is, most significant byte first.
  lemma NackLayout(stream: u16, frame: u32, runs: seq<Run>, i: nat)
    requires i < |runs| <= U16_MAX
    ensures var s := NackBytes(stream, frame, runs);
            && |s| == 9 + 4 * |runs| && s[0] == 1
            && BigEndian(s[1..3]) == stream && BigEndian(s[3..7]) == frame && BigEndian(s[7..9]) == |runs|
            && BigEndian(s[9 + 4 * i..11 + 4 * i]) == runs[i].start
            && BigEndian(s[11 + 4 * i..13 + 4 * i]) == runs[i].len
  {
    hide Be16, Be32, BigEndian;
    var s, tail := NackBytes(stream, frame, runs), RunBytes(runs);
    assert s[1..3] == Be16(stream) && s[3..7] == Be32(frame) && s[7..9] == Be16(|runs|);
    RunBytesAt(runs, i);
    assert s[9 + 4 * i..11 + 4 * i] == tail[4 * i..4 * i + 2];
    assert s[11 + 4 * i..13 + 4 * i] == tail[4 * i + 2..4 * i + 4];
    BeIsBigEndian(stream, frame, 0);
    BeIsBigEndian(|runs|, frame, 0);
    BeIsBigEndian(runs[i].start, frame, 0);
    BeIsBigEndian(runs[i].len, frame, 0);
  }

  lemma OthersLayout(stream: u16, frame: u32, sent: u32, lost: u32)
    ensures var r, p := Encode(Refresh(stream, frame)), Encode(Report(sent, lost));
            && |r| == 7 && r[0] == 2 && BigEndian(r[1..3]) == stream && BigEndian(r[3..]) == frame
            && |p| == 9 && p[0] == 3 && BigEndian(p[1..5]) == sent && BigEndian(p[5..]) == lost
  {
    hide Be16, Be32, BigEndian;
    var r, p := Encode(Refresh(stream, frame)), Encode(Report(sent, lost));
    assert r[1..3] == Be16(stream) && r[3..] == Be32(frame);
    assert p[1..5] == Be32(sent) && p[5..] == Be32(lost);
    BeIsBigEndian(stream, frame, 0);
    BeIsBigEndian(stream, sent, 0);
    BeIsBigEndian(stream, lost, 0);
  }

  // A NACK is read from the bytes of runs that are in range, at most 64 of them, and of no others.
  ghost predicate Written(bytes: Bytes, stream: u16, frame: u32, runs: seq<Run>) {
    |runs| <= 64 && AllInRange(runs) && |Flatten(runs)| <= 4096 && bytes == NackBytes(stream, frame, runs)
  }

  lemma NackExact(bytes: Bytes, stream: u16, frame: u32, fragments: seq<u16>)
    ensures Decode(bytes) == Some(Nack(stream, frame, fragments))
            <==> exists runs :: Written(bytes, stream, frame, runs) && Flatten(runs) == fragments
  {
    hide NackBytes, Flatten, FromBe16, FromBe32, ReadRuns, RunAt;
    if Decode(bytes) == Some(Nack(stream, frame, fragments)) {
      var count := FromBe16(bytes[7..9]);
      var runs := seq(count, i requires 0 <= i < count => RunAt(bytes, i));
      NackIsWritten(bytes, runs);
      assert runs[..0] == [] && Flatten([]) == [] by { NoRuns(runs); }
      RunsAreRead(bytes, runs, 0);
      assert runs[..|runs|] == runs;
      ReadRunsBounded(bytes, 0, count, []);
      assert Written(bytes, stream, frame, runs);
    }
    if runs :| Written(bytes, stream, frame, runs) && Flatten(runs) == fragments {
      NackHead(stream, frame, runs);
      NoRuns(runs);
      RunsRead(stream, frame, runs, 0);
    }
  }

  lemma {:induction false} RunsAreRead(bytes: Bytes, runs: seq<Run>, i: nat)
    requires i <= |runs| && |bytes| == 9 + 4 * |runs| && forall k :: 0 <= k < |runs| ==> runs[k] == RunAt(bytes, k)
    requires AllInRange(runs[..i]) && ReadRuns(bytes, i, |runs|, Flatten(runs[..i])).Some?
    ensures AllInRange(runs) && ReadRuns(bytes, i, |runs|, Flatten(runs[..i])) == Some(Flatten(runs))
    decreases |runs| - i
  {
    hide Flatten, FromBe16, RunAt, Span;
    if i == |runs| {
      assert runs[..i] == runs;
    } else {
      assert runs[..i + 1] == runs[..i] + [runs[i]];
      FlattenAppend(runs[..i], runs[i]);
      RunsAreRead(bytes, runs, i + 1);
    }
  }

  lemma NackIsWritten(bytes: Bytes, runs: seq<Run>)
    requires |runs| <= U16_MAX && |bytes| == 9 + 4 * |runs| && bytes[0] == NACK
    requires FromBe16(bytes[7..9]) == |runs| && forall k :: 0 <= k < |runs| ==> runs[k] == RunAt(bytes, k)
    ensures bytes == NackBytes(FromBe16(bytes[1..3]), FromBe32(bytes[3..7]), runs)
  {
    hide Be16, Be32, FromBe16, FromBe32, RunBytes;
    FromBe16RoundTrip(bytes[1..3]);
    FromBe32RoundTrip(bytes[3..7]);
    FromBe16RoundTrip(bytes[7..9]);
    RunsAreWritten(bytes, runs, |runs|);
    assert runs[..|runs|] == runs;
    assert bytes == [bytes[0]] + bytes[1..3] + bytes[3..7] + bytes[7..9] + bytes[9..];
  }

  lemma {:induction false} RunsAreWritten(bytes: Bytes, runs: seq<Run>, i: nat)
    requires i <= |runs| && |bytes| == 9 + 4 * |runs| && forall k :: 0 <= k < |runs| ==> runs[k] == RunAt(bytes, k)
    ensures RunBytes(runs[..i]) == bytes[9..9 + 4 * i]
  {
    hide Be16, FromBe16;
    if i > 0 {
      RunsAreWritten(bytes, runs, i - 1);
      assert runs[..i][..i - 1] == runs[..i - 1];
      FromBe16RoundTrip(bytes[9 + 4 * (i - 1)..11 + 4 * (i - 1)]);
      FromBe16RoundTrip(bytes[11 + 4 * (i - 1)..13 + 4 * (i - 1)]);
      assert bytes[9..9 + 4 * i] == bytes[9..9 + 4 * (i - 1)] + bytes[9 + 4 * (i - 1)..11 + 4 * (i - 1)]
                                    + bytes[11 + 4 * (i - 1)..13 + 4 * (i - 1)];
    }
  }
}
