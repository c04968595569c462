/** The glob matcher of the access policy, on lower-cased text. */
module Globs {
  import opened Wrappers

  // What a pattern means: `*` is any run of characters, `?` any one, anything else itself.
  ghost predicate Matches(p: string, t: string)
    decreases |p|
  {
    if p == "" then t == ""
    else if p[0] == '*' then exists k :: 0 <= k <= |t| && Matches(p[1..], t[k..])
    else t != "" && (p[0] == '?' || p[0] == t[0]) && Matches(p[1..], t[1..])
  }

  predicate AllStars(p: string) {
    forall i :: 0 <= i < |p| ==> p[i] == '*'
  }

  // Where the last star is in the pattern, and the text position it is tried at.
  type Star = Option<(nat, nat)>

  predicate Positioned(p: string, t: string, pi: nat, ti: nat, star: Star) {
    pi <= |p| && ti <= |t| && (star.Some? ==> star.value.0 < pi && star.value.1 <= ti)
  }

  // One turn of the loop takes the first case that applies.
  predicate Consumes(p: string, t: string, pi: nat, ti: nat)
    requires ti < |t|
  {
    pi < |p| && (p[pi] == '?' || p[pi] == t[ti])
  }

  // What the loop returns from a position on.
  function Scan(p: string, t: string, pi: nat, ti: nat, star: Star): bool
    requires Positioned(p, t, pi, ti, star)
    decreases if star.None? then |t| + 1 else |t| - star.value.1, |t| - ti + |p| - pi
  {
    if ti == |t| then AllStars(p[pi..])
    else if Consumes(p, t, pi, ti) then Scan(p, t, pi + 1, ti + 1, star)
    else if pi < |p| && p[pi] == '*' then Scan(p, t, pi + 1, ti, Some((pi, ti)))
    else
      match star
      case Some((sp, st)) => Scan(p, t, sp + 1, st + 1, Some((sp, st + 1)))
      case None => false
  }

  method Glob(p: string, t: string) returns (r: bool)
    ensures r == Scan(p, t, 0, 0, None)
    ensures r ==> Matches(p, t)
    ensures '*' !in t ==> (r <==> Matches(p, t))
  {
    ScanSound(p, t, 0, 0, None);
    if '*' !in t {
      assert p[0..] == p && t[0..] == t;
      if Matches(p, t) {
        ScanComplete(p, t, 0, 0, None);
      }
    }
    var pi, ti := 0, 0;
    var star: Star := None;
    while ti < |t|
      invariant Positioned(p, t, pi, ti, star)
      invariant Scan(p, t, pi, ti, star) == Scan(p, t, 0, 0, None)
      decreases if star.None? then |t| + 1 else |t| - star.value.1, |t| - ti + |p| - pi
    {
      if pi < |p| && (p[pi] == '?' || p[pi] == t[ti]) {
        pi := pi + 1;
        ti := ti + 1;
      } else if pi < |p| && p[pi] == '*' {
        star := Some((pi, ti));
        pi := pi + 1;
      } else if star.Some? {
        var (sp, st) := star.value;
        pi := sp + 1;
        ti := st + 1;
        star := Some((sp, st + 1));
      } else {
        return false;
      }
    }
    return AllStars(p[pi..]);
  }

  // ---- True only for a match ----

  lemma {:induction false} StarsMatchNothing(p: string)
    ensures AllStars(p) <==> Matches(p, "")
  {
    if p != "" {
      StarsMatchNothing(p[1..]);
      if AllStars(p) {
        assert Matches(p[1..], ""[0..]);
      }
    }
  }

  // A match that a star still allows: here, or later than the star was last tried.
  ghost predicate Reachable(p: string, t: string, pi: nat, ti: nat, star: Star)
    requires Positioned(p, t, pi, ti, star)
  {
    || Matches(p[pi..], t[ti..])
    || (star.Some? && exists k :: star.value.1 < k <= |t| && Matches(p[star.value.0 + 1..], t[k..]))
  }

  lemma Consume(p: string, t: string, pi: nat, ti: nat)
    requires pi < |p| && ti < |t| && Consumes(p, t, pi, ti)
    ensures Matches(p[pi + 1..], t[ti + 1..]) ==> Matches(p[pi..], t[ti..])
    ensures p[pi] != '*' ==> (Matches(p[pi + 1..], t[ti + 1..]) <==> Matches(p[pi..], t[ti..]))
  {
    assert p[pi..][1..] == p[pi + 1..] && t[ti..][1..] == t[ti + 1..];
  }

  lemma StarMatches(p: string, t: string, pi: nat, ti: nat)
    requires pi < |p| && p[pi] == '*' && ti <= |t|
    ensures Matches(p[pi..], t[ti..]) <==> exists k :: ti <= k <= |t| && Matches(p[pi + 1..], t[k..])
  {
    assert p[pi..][1..] == p[pi + 1..];
    if Matches(p[pi..], t[ti..]) {
      var j :| 0 <= j <= |t[ti..]| && Matches(p[pi + 1..], t[ti..][j..]);
      assert t[ti..][j..] == t[ti + j..];
    }
    if k :| ti <= k <= |t| && Matches(p[pi + 1..], t[k..]) {
      assert t[ti..][k - ti..] == t[k..];
    }
  }

  lemma {:induction false} ScanSound(p: string, t: string, pi: nat, ti: nat, star: Star)
    requires Positioned(p, t, pi, ti, star)
    requires star.Some? ==> p[star.value.0] == '*'
    ensures Scan(p, t, pi, ti, star) ==> Reachable(p, t, pi, ti, star)
    ensures Scan(p, t, 0, 0, None) && pi == ti == 0 && star == None ==> Matches(p, t)
    decreases if star.None? then |t| + 1 else |t| - star.value.1, |t| - ti + |p| - pi
  {
    hide Matches;
    assert p[0..] == p && t[0..] == t;
    if !Scan(p, t, pi, ti, star) {
      return;
    }
    if ti == |t| {
      StarsMatchNothing(p[pi..]);
      assert t[ti..] == "";
    } else if Consumes(p, t, pi, ti) {
      ScanSound(p, t, pi + 1, ti + 1, star);
      Consume(p, t, pi, ti);
    } else if pi < |p| && p[pi] == '*' {
      ScanSound(p, t, pi + 1, ti, Some((pi, ti)));
      StarMatches(p, t, pi, ti);
    } else {
      var (sp, st) := star.value;
      ScanSound(p, t, sp + 1, st + 1, Some((sp, st + 1)));
    }
  }

  // ---- Only the last star needs retrying ----

  // Since the star at `sp` was tried at `st`, only single characters were matched.
  ghost predicate Segment(p: string, t: string, pi: nat, ti: nat, sp: nat, st: nat)
    requires sp < pi <= |p| && st <= ti <= |t|
  {
    && p[sp] == '*'
    && pi - sp - 1 == ti - st
    && forall i :: sp < i < pi ==> p[i] != '*' && (p[i] == '?' || p[i] == t[st + (i - sp - 1)])
  }

  // What comes after a run of single characters.
  lemma {:induction false} AfterRun(p: string, t: string, a: nat, b: nat, k: nat)
    requires a <= b <= |p| && k <= |t| && forall i :: a <= i < b ==> p[i] != '*'
    requires Matches(p[a..], t[k..])
    ensures k + (b - a) <= |t| && Matches(p[b..], t[k + (b - a)..])
    decreases b - a
  {
    if a < b {
      assert p[a..][1..] == p[a + 1..] && t[k..][1..] == t[k + 1..];
      AfterRun(p, t, a + 1, b, k + 1);
    }
  }

  // Any match through the earlier star is also one from the new star on: it takes up the difference.
  lemma LastStarSuffices(p: string, t: string, pi: nat, ti: nat, sp: nat, st: nat)
    requires sp < pi < |p| && st <= ti <= |t| && Segment(p, t, pi, ti, sp, st) && p[pi] == '*'
    requires Matches(p[sp..], t[st..])
    ensures Matches(p[pi..], t[ti..])
  {
    hide Matches;
    StarMatches(p, t, sp, st);
    var k :| st <= k <= |t| && Matches(p[sp + 1..], t[k..]);
    AfterRun(p, t, sp + 1, pi, k);
    var m := k + (pi - sp - 1);
    StarMatches(p, t, pi, m);
    StarMatches(p, t, pi, ti);
  }

  // A text position where the pattern cannot go on rules out the star's present try.
  lemma TryNextPosition(p: string, t: string, pi: nat, ti: nat, sp: nat, st: nat)
    requires sp < pi <= |p| && st <= ti < |t| && Segment(p, t, pi, ti, sp, st)
    requires !Consumes(p, t, pi, ti) && (pi < |p| ==> p[pi] != '*')
    requires Matches(p[sp..], t[st..])
    ensures Matches(p[sp..], t[st + 1..])
  {
    StarMatches(p, t, sp, st);
    var k :| st <= k <= |t| && Matches(p[sp + 1..], t[k..]);
    if k == st {
      AfterRun(p, t, sp + 1, pi, k);
    }
    StarMatches(p, t, sp, st + 1);
  }

  lemma EndOfText(p: string, t: string, pi: nat, sp: nat, st: nat)
    requires sp < pi <= |p| && st <= |t| && Segment(p, t, pi, |t|, sp, st)
    requires Matches(p[sp..], t[st..])
    ensures AllStars(p[pi..])
  {
    StarMatches(p, t, sp, st);
    var k :| st <= k <= |t| && Matches(p[sp + 1..], t[k..]);
    AfterRun(p, t, sp + 1, pi, k);
    assert t[|t|..] == "";
    StarsMatchNothing(p[pi..]);
  }

  lemma {:induction false} ScanComplete(p: string, t: string, pi: nat, ti: nat, star: Star)
    requires '*' !in t && Positioned(p, t, pi, ti, star)
    requires match star
             case None => Matches(p[pi..], t[ti..])
             case Some((sp, st)) => Segment(p, t, pi, ti, sp, st) && Matches(p[sp..], t[st..])
    ensures Scan(p, t, pi, ti, star)
    decreases if star.None? then |t| + 1 else |t| - star.value.1, |t| - ti + |p| - pi
  {
    hide Matches;
    if ti == |t| {
      if star.Some? {
        EndOfText(p, t, pi, star.value.0, star.value.1);
      } else {
        assert t[ti..] == "";
        StarsMatchNothing(p[pi..]);
      }
    } else if Consumes(p, t, pi, ti) {
      assert t[ti] in t;
      Consume(p, t, pi, ti);
      ScanComplete(p, t, pi + 1, ti + 1, star);
    } else if pi < |p| && p[pi] == '*' {
      if star.Some? {
        LastStarSuffices(p, t, pi, ti, star.value.0, star.value.1);
      }
      ScanComplete(p, t, pi + 1, ti, Some((pi, ti)));
    } else if star.Some? {
      var (sp, st) := star.value;
      TryNextPosition(p, t, pi, ti, sp, st);
      ScanComplete(p, t, sp + 1, st + 1, Some((sp, st + 1)));
    } else {
      Stuck(p, t, pi, ti);
    }
  }

  lemma Stuck(p: string, t: string, pi: nat, ti: nat)
    requires pi <= |p| && ti < |t| && !Consumes(p, t, pi, ti) && (pi < |p| ==> p[pi] != '*')
    ensures !Matches(p[pi..], t[ti..])
  {}

  // ---- Exactly the texts without a star are always judged rightly ----

  function Questions(n: nat): (q: string)
    ensures |q| == n && forall i :: 0 <= i < n ==> q[i] == '?'
  {
    seq(n, _ => '?')
  }

  lemma {:induction false} QuestionsMatch(t: string)
    ensures Matches(Questions(|t|), t)
  {
    if t != "" {
      QuestionsMatch(t[1..]);
      assert Questions(|t|)[1..] == Questions(|t| - 1);
    }
  }

  lemma {:induction false} PrefixMatches(u: string, p: string, t: string)
    requires '*' !in u && Matches(p, t)
    ensures Matches(u + p, u + t)
  {
    if u == "" {
      assert u + p == p && u + t == t;
    } else {
      assert u[0] in u;
      PrefixMatches(u[1..], p, t);
      assert (u + p)[1..] == u[1..] + p && (u + t)[1..] == u[1..] + t;
    }
  }

  // Every character is consumed one by one, and a pattern one longer than the text is left over.
  lemma {:induction false} ScanLeavesOne(p: string, t: string, i: nat)
    requires i <= |t| && |p| == |t| + 1 && p[|t|] != '*'
    requires forall j :: i <= j < |t| ==> Consumes(p, t, j, j)
    ensures !Scan(p, t, i, i, None)
    decreases |t| - i
  {
    if i < |t| {
      ScanLeavesOne(p, t, i + 1);
    } else {
      assert p[i..][0] == p[|t|];
    }
  }

  // For a text with a star in it, a pattern that matches it and is not found to.
  lemma StarInTextFails(t: string) returns (p: string)
    requires '*' in t
    ensures Matches(p, t) && !Scan(p, t, 0, 0, None)
  {
    hide Matches, Scan;
    var at := FirstStar(t);
    var u, rest := t[..at], t[at..];
    var q := "*" + Questions(|rest|);
    p := u + q;
    assert t == u + rest;
    QuestionsMatch(rest);
    assert q[0..] == q && q[1..] == Questions(|rest|) && rest[0..] == rest;
    StarMatches(q, rest, 0, 0);
    PrefixMatches(u, q, rest);
    assert forall j :: 0 <= j < |t| ==> Consumes(p, t, j, j) by { AllConsumed(t, p, at); }
    ScanLeavesOne(p, t, 0);
  }

  lemma AllConsumed(t: string, p: string, at: nat)
    requires at < |t| && t[at] == '*'
    requires p == t[..at] + ("*" + Questions(|t| - at))
    ensures forall j :: 0 <= j < |t| ==> Consumes(p, t, j, j)
    ensures |p| == |t| + 1 && p[|t|] != '*'
  {}

  function FirstStar(t: string): (i: nat)
    requires '*' in t
    ensures i < |t| && t[i] == '*' && '*' !in t[..i]
  {
    if t[0] == '*' then 0
    else
      var i := FirstStar(t[1..]);
      assert t[..i + 1] == [t[0]] + t[1..][..i];
      i + 1
  }

  // The loop decides matching, for every pattern, exactly on the texts that hold no star.
  lemma DecidesTextsWithoutStars(t: string)
    ensures (forall p: string :: Scan(p, t, 0, 0, None) <==> Matches(p, t)) <==> '*' !in t
  {
    if '*' in t {
      var p := StarInTextFails(t);
    } else {
      forall p: string ensures Scan(p, t, 0, 0, None) <==> Matches(p, t) {
        ScanSound(p, t, 0, 0, None);
        assert p[0..] == p && t[0..] == t;
        if Matches(p, t) {
          ScanComplete(p, t, 0, 0, None);
        }
      }
    }
  }
}
