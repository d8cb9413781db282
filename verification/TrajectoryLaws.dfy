/** Playback as a polyline: the two searches agree with it, ping-pong reflects it, and when it is finished. */
module TrajectoryLaws {
  import opened Wrappers
  import opened Trajectory

  /** What the rows of an accepted file give, equal widths and strictly increasing times, if there are at least two. */
  predicate Playable(t: Trajectory) {
    Validity(t).Success? && Increasing(t.samples) && |t.samples| >= 2
  }

  lemma PlayableTotal(t: Trajectory)
    requires Playable(t)
    ensures Total(t.samples) > 0.0 && SameWidth(t.samples, |t.samples[0].positions|)
  {
    TimesAscend(t.samples, 0, |t.samples| - 1);
  }

  // ---------------------------------------------------------------- the polyline

  predicate Brackets(samples: seq<Sample>, i: nat, e: real) {
    i + 1 < |samples| && Offset(samples, i) <= e <= Offset(samples, i + 1)
  }

  /** The polyline through the samples, read in segment i. */
  function OnSegment(samples: seq<Sample>, i: nat, e: real): seq<real>
    requires i + 1 < |samples| && |samples[i].positions| == |samples[i + 1].positions|
  {
    Lerp(samples[i].positions, samples[i + 1].positions,
         Ratio(e - Offset(samples, i), samples[i + 1].time - samples[i].time))
  }

  lemma QuotientIs(x: real, q: real, d: real)
    requires d > 0.0 && x == q * d
    ensures x / d == q
  {
    QuotientOf(q, d);
  }

  lemma QuotientOf(q: real, d: real)
    requires d > 0.0
    ensures (q * d) / d == q
  {
  }

  lemma MixEnds(a: real, b: real)
    ensures Mix(a, b, 0.0) == a && Mix(a, b, 1.0) == b
  {
  }

  /** At a sample time the polyline is that sample, from the segment after it and from the segment before it. */
  lemma AtSamples(samples: seq<Sample>, i: nat)
    requires i + 1 < |samples| && Increasing(samples) && SameWidth(samples, |samples[0].positions|)
    ensures OnSegment(samples, i, Offset(samples, i)) == samples[i].positions
    ensures OnSegment(samples, i, Offset(samples, i + 1)) == samples[i + 1].positions
  {
    var a, b := samples[i].positions, samples[i + 1].positions;
    var d := samples[i + 1].time - samples[i].time;
    QuotientOf(0.0, d);
    QuotientOf(1.0, d);
    assert Ratio(0.0, d) == 0.0 && Ratio(d, d) == 1.0;
    forall m | 0 <= m < |a| ensures Lerp(a, b, 0.0)[m] == a[m] && Lerp(a, b, 1.0)[m] == b[m] {
      MixEnds(a[m], b[m]);
    }
  }

  /** All segments that bracket a time read the same positions: the polyline is a function of time. */
  lemma BracketsAgree(samples: seq<Sample>, i: nat, j: nat, e: real)
    requires samples != [] && Increasing(samples) && SameWidth(samples, |samples[0].positions|)
    requires Brackets(samples, i, e) && Brackets(samples, j, e) && i <= j
    ensures OnSegment(samples, i, e) == OnSegment(samples, j, e)
  {
    if i < j {
      TimesAscend(samples, i + 1, j);
      AtSamples(samples, i);
      AtSamples(samples, j);
    }
  }

  // ---------------------------------------------------------------- forward playback

  lemma FirstSegmentBrackets(samples: seq<Sample>, e: real, i: nat)
    requires i + 1 < |samples| && Offset(samples, i) <= e < Total(samples)
    ensures Brackets(samples, FirstSegment(samples, e, i), e)
    decreases |samples| - i
  {
    if e > Offset(samples, i + 1) { FirstSegmentBrackets(samples, e, i + 1); }
  }

  lemma RatioInUnit(samples: seq<Sample>, i: nat, e: real)
    requires Brackets(samples, i, e)
    ensures 0.0 <= Ratio(e - Offset(samples, i), samples[i + 1].time - samples[i].time) <= 1.0
  {
    var x, d := e - Offset(samples, i), samples[i + 1].time - samples[i].time;
    if d > 0.0 { assert 0.0 <= x <= d; DivideWithin(x, d); }
  }

  lemma DivideWithin(x: real, d: real)
    requires 0.0 <= x <= d && d > 0.0
    ensures 0.0 <= x / d <= 1.0
  {
  }

  function Times(c: real, r: real): real { c * r }

  lemma TimesBounds(c: real, r: real)
    requires c >= 0.0 && 0.0 <= r <= 1.0
    ensures 0.0 <= Times(c, r) <= c
  {
    Scale(c, r);
  }

  lemma MixTimes(a: real, b: real, r: real)
    ensures Mix(a, b, r) == a + Times(b - a, r)
    ensures Times(b - a, r) == -Times(a - b, r)
  {
    Negate(a - b, r);
    assert b - a == -(a - b);
  }

  lemma MixBetween(a: real, b: real, r: real)
    requires 0.0 <= r <= 1.0
    ensures a <= b ==> a <= Mix(a, b, r) <= b
    ensures b <= a ==> b <= Mix(a, b, r) <= a
  {
    hide Mix, Times;
    MixTimes(a, b, r);
    if a <= b { TimesBounds(b - a, r); } else { TimesBounds(a - b, r); }
  }

  lemma Negate(d: real, r: real)
    ensures (-d) * r == -(d * r)
  {
  }

  lemma Scale(d: real, r: real)
    requires d >= 0.0 && 0.0 <= r <= 1.0
    ensures 0.0 <= d * r <= d
  {
  }

  /**
   Forward playback in range: the search finds a bracketing segment (the fall-through is never reached), the result is
   the polyline, and every motor is between the two neighbouring samples.
   */
  lemma ForwardIsPolyline(samples: seq<Sample>, e: real, finishedAtEnd: bool)
    requires |samples| >= 2 && Increasing(samples) && SameWidth(samples, |samples[0].positions|)
    requires 0.0 <= e < Total(samples)
    ensures var s := Forward(samples, e, finishedAtEnd); var i := s.segmentStart;
      && Brackets(samples, i, e) && s.segmentEnd == i + 1 && !s.finished
      && s.positions == OnSegment(samples, i, e)
      && forall m | 0 <= m < |s.positions| ::
           (samples[i].positions[m] <= s.positions[m] <= samples[i + 1].positions[m]
            || samples[i + 1].positions[m] <= s.positions[m] <= samples[i].positions[m])
  {
    FirstSegmentBrackets(samples, e, 0);
    var i := FirstSegment(samples, e, 0);
    RatioInUnit(samples, i, e);
    var ratio := Ratio(e - Offset(samples, i), samples[i + 1].time - samples[i].time);
    forall m | 0 <= m < |samples[i].positions|
      ensures var p := Mix(samples[i].positions[m], samples[i + 1].positions[m], ratio);
        (samples[i].positions[m] <= p <= samples[i + 1].positions[m]
         || samples[i + 1].positions[m] <= p <= samples[i].positions[m])
    {
      MixBetween(samples[i].positions[m], samples[i + 1].positions[m], ratio);
    }
  }

  /** Forward playback over the closed range, in any bracketing segment; exact at the samples. */
  lemma ForwardAt(samples: seq<Sample>, e: real, i: nat, finishedAtEnd: bool)
    requires |samples| >= 2 && Increasing(samples) && SameWidth(samples, |samples[0].positions|)
    requires Brackets(samples, i, e)
    ensures Forward(samples, e, finishedAtEnd).positions == OnSegment(samples, i, e)
  {
    var last := |samples| - 1;
    TimesAscend(samples, 0, i);
    TimesAscend(samples, i + 1, last);
    if e >= Total(samples) {
      BracketsAgree(samples, i, last - 1, e);
      AtSamples(samples, last - 1);
    } else {
      ForwardIsPolyline(samples, e, finishedAtEnd);
      var k := FirstSegment(samples, e, 0);
      if i <= k { BracketsAgree(samples, i, k, e); } else { BracketsAgree(samples, k, i, e); }
    }
  }

  // ---------------------------------------------------------------- backward playback

  lemma MixReversed(a: real, b: real, x: real, d: real)
    requires d > 0.0
    ensures Mix(b, a, x / d) == Mix(a, b, (d - x) / d)
  {
    var r := x / d;
    assert x == r * d && d - x == (1.0 - r) * d;
    QuotientOf(1.0 - r, d);
    assert (b - a) * (1.0 - r) == (b - a) - (b - a) * r;
    Negate(b - a, r);
    assert (a - b) * r == (-(b - a)) * r;
  }

  /** Going back e seconds from sample k reaches the polyline at the mirrored time. */
  lemma {:induction false} BackwardIsMirrored(samples: seq<Sample>, k: nat, e: real) returns (i: nat)
    requires |samples| >= 2 && 0 < k < |samples| && Increasing(samples) && SameWidth(samples, |samples[0].positions|)
    requires 0.0 <= e <= Offset(samples, k)
    ensures Brackets(samples, i, Offset(samples, k) - e)
    ensures BackwardFrom(samples, k, e).positions == OnSegment(samples, i, Offset(samples, k) - e)
    // The loop leaves inside segment i: its fall-through is never reached.
    ensures BackwardFrom(samples, k, e).segmentStart == i + 1 && BackwardFrom(samples, k, e).segmentEnd == i
    ensures !BackwardFrom(samples, k, e).finished
  {
    var d := samples[k].time - samples[k - 1].time;
    if e <= d {
      i := k - 1;
      var a, b := samples[k - 1].positions, samples[k].positions;
      forall m | 0 <= m < |a| ensures Mix(b[m], a[m], Ratio(e, d)) == Mix(a[m], b[m], Ratio(d - e, d)) {
        MixReversed(a[m], b[m], e, d);
      }
    } else {
      i := BackwardIsMirrored(samples, k - 1, e - d);
    }
  }

  // ---------------------------------------------------------------- ping-pong playback

  lemma FmodRange(x: real, c: real)
    requires x >= 0.0 && c > 0.0
    ensures 0.0 <= Fmod(x, c) < c
    ensures x < c ==> Fmod(x, c) == x
  {
    var q := x / c;
    TimesQuotient(x, c);
    RemainderOf(x, c, q, q.Floor as real);
    if x < c {
      DivideBelow(x, c);
      assert q.Floor == 0;
    }
  }

  lemma TimesQuotient(x: real, c: real)
    requires c > 0.0
    ensures (x / c) * c == x
  {
  }

  lemma RemainderOf(x: real, c: real, q: real, n: real)
    requires c > 0.0 && n <= q < n + 1.0 && q * c == x
    ensures 0.0 <= x - c * n && x - c * n < c
  {
    var r := q - n;
    PositivePart(r, c);
    Distribute(q, n, c);
    assert r * c == x - c * n;
  }

  lemma Distribute(q: real, n: real, c: real)
    ensures (q - n) * c == q * c - c * n
  {
  }

  lemma PositiveTimes(s: real, c: real)
    requires s > 0.0 && c > 0.0
    ensures s * c > 0.0
  {
  }

  lemma PositivePart(r: real, c: real)
    requires c > 0.0 && 0.0 <= r < 1.0
    ensures 0.0 <= r * c && r * c < c
  {
    Distribute(1.0, r, c);
    PositiveTimes(1.0 - r, c);
  }

  lemma DivideBelow(x: real, c: real)
    requires 0.0 <= x < c
    ensures 0.0 <= x / c < 1.0
  {
  }

  lemma FmodPeriodic(x: real, c: real)
    requires x >= 0.0 && c > 0.0
    ensures Fmod(x + c, c) == Fmod(x, c)
  {
    var q := x / c;
    TimesQuotient(x, c);
    assert x + c == (q + 1.0) * c;
    QuotientIs(x + c, q + 1.0, c);
    FloorNext(q);
    NextMultiple(c, q.Floor as real);
  }

  lemma FloorNext(q: real)
    ensures (q + 1.0).Floor == q.Floor + 1
  {
  }

  lemma NextMultiple(c: real, n: real)
    ensures c * (n + 1.0) == c * n + c
  {
  }

  /** The triangle wave: the time on the trajectory that endless playback has reached. */
  function Folded(total: real, e: real): real
    requires total > 0.0 && e >= 0.0
  {
    var c := Fmod(e, total * 2.0);
    if c <= total then c else total * 2.0 - c
  }

  lemma EndlessCycle(t: Trajectory, e: real)
    requires Playable(t) && e >= 0.0 && Total(t.samples) > 0.0 && SameWidth(t.samples, |t.samples[0].positions|)
    ensures var total := Total(t.samples); var c := Fmod(e, total * 2.0);
      Evaluate(t, e, true) == Success(if c <= total then Forward(t.samples, c, false)
                                      else BackwardFrom(t.samples, |t.samples| - 1, c - total))
  {
    hide Fmod, Forward, BackwardFrom, SameWidth;
  }

  /** Endless playback is the polyline at the folded time, and never finishes. */
  lemma EndlessIsFolded(t: Trajectory, e: real) returns (i: nat)
    requires Playable(t) && e >= 0.0
    ensures Total(t.samples) > 0.0 && SameWidth(t.samples, |t.samples[0].positions|)
    ensures Evaluate(t, e, true).Success? && !Evaluate(t, e, true).value.finished
    ensures Brackets(t.samples, i, Folded(Total(t.samples), e))
    ensures Evaluate(t, e, true).value.positions == OnSegment(t.samples, i, Folded(Total(t.samples), e))
  {
    PlayableTotal(t);
    var samples, total := t.samples, Total(t.samples);
    FmodRange(e, total * 2.0);
    var c := Fmod(e, total * 2.0);
    assert Increasing(samples);
    EndlessCycle(t, e);
    hide Evaluate, Validity, Forward, BackwardFrom, OnSegment, SameWidth, Increasing, Fmod;
    if c < total {
      ForwardIsPolyline(samples, c, false);
      i := FirstSegment(samples, c, 0);
    } else if c == total {
      i := |samples| - 2;
      TimesAscend(samples, i, i + 1);
      ForwardAt(samples, c, i, false);
    } else {
      i := BackwardIsMirrored(samples, |samples| - 1, c - total);
    }
  }

  /** Equal folded times, equal positions, whichever search found them. */
  lemma SameFoldSamePositions(t: Trajectory, d: real, e: real)
    requires Playable(t) && d >= 0.0 && e >= 0.0 && Total(t.samples) > 0.0
    requires Folded(Total(t.samples), d) == Folded(Total(t.samples), e)
    ensures Evaluate(t, d, true).Success? && Evaluate(t, e, true).Success?
    ensures Evaluate(t, d, true).value.positions == Evaluate(t, e, true).value.positions
  {
    var i := EndlessIsFolded(t, d);
    var j := EndlessIsFolded(t, e);
    var f := Folded(Total(t.samples), e);
    if i <= j { BracketsAgree(t.samples, i, j, f); } else { BracketsAgree(t.samples, j, i, f); }
  }

  /** Endless playback repeats after twice the duration, in every part of its state. */
  lemma EndlessIsPeriodic(t: Trajectory, e: real)
    requires Playable(t) && e >= 0.0
    ensures Evaluate(t, e + Total(t.samples) * 2.0, true) == Evaluate(t, e, true)
  {
    PlayableTotal(t);
    FmodPeriodic(e, Total(t.samples) * 2.0);
  }

  /** Playback after the turn retraces playback before it: the position at T + s is the position at T - s. */
  lemma EndlessIsReflected(t: Trajectory, s: real)
    requires Playable(t) && 0.0 <= s <= Total(t.samples)
    ensures Evaluate(t, Total(t.samples) + s, true).Success? && Evaluate(t, Total(t.samples) - s, true).Success?
    ensures Evaluate(t, Total(t.samples) + s, true).value.positions
         == Evaluate(t, Total(t.samples) - s, true).value.positions
  {
    PlayableTotal(t);
    var total := Total(t.samples);
    FmodRange(total - s, total * 2.0);
    if s < total {
      FmodRange(total + s, total * 2.0);
    } else {
      FmodPeriodic(0.0, total * 2.0);
      FmodRange(0.0, total * 2.0);
    }
    SameFoldSamePositions(t, total + s, total - s);
  }

  /** Until the end of the trajectory, endless and one-shot playback command the same positions. */
  lemma EndlessMatchesOneShot(t: Trajectory, e: real)
    requires Playable(t) && 0.0 <= e <= Total(t.samples)
    ensures Evaluate(t, e, true).Success? && Evaluate(t, e, false).Success?
    ensures Evaluate(t, e, true).value.positions == Evaluate(t, e, false).value.positions
  {
    PlayableTotal(t);
    FmodRange(e, Total(t.samples) * 2.0);
  }

  /** Before the start playback stands at its first position. */
  lemma BeforeTheStart(t: Trajectory, e: real, endless: bool)
    requires e <= 0.0
    ensures Evaluate(t, e, endless) == Evaluate(t, 0.0, endless)
  {
  }

  /** Where there is nothing to interpolate: one sample or no duration, and one-shot playback that is over. */
  lemma TerminalStates(t: Trajectory, e: real, endless: bool)
    requires Validity(t).Success?
    ensures |t.samples| == 1 || t.samples[|t.samples| - 1].time <= t.samples[0].time ==>
      Evaluate(t, e, endless) == Success(PlaybackState(0, 0, t.samples[0].positions, !endless))
    ensures |t.samples| > 1 && 0.0 < t.samples[|t.samples| - 1].time - t.samples[0].time <= e && !endless ==>
      var last := |t.samples| - 1;
      Evaluate(t, e, endless) == Success(PlaybackState(last, last, t.samples[last].positions, true))
  {
  }

  lemma MixWeighs(a: real, b: real, x: real, d: real)
    requires d > 0.0
    ensures Mix(a, b, x / d) * d == a * (d - x) + b * x
  {
    var r := x / d;
    TimesQuotient(x, d);
    Associate(b - a, r, d);
    assert Mix(a, b, r) * d == a * d + (b - a) * x;
    Distribute(b, a, x);
    Distribute(d, x, a);
  }

  lemma Associate(c: real, r: real, d: real)
    ensures c * r * d == c * (r * d)
  {
  }

  /**
   What one-shot playback commands between two samples, without a division: the two samples weighed by how far the time
   is from the other one. With the laws of endless playback this fixes every position of both modes.
   */
  lemma PositionIs(t: Trajectory, e: real, i: nat, m: nat)
    requires Playable(t) && i + 1 < |t.samples| && m < |t.motorNames|
    requires t.samples[i].time - t.samples[0].time <= e <= t.samples[i + 1].time - t.samples[0].time
    ensures Evaluate(t, e, false).Success? && m < |Evaluate(t, e, false).value.positions|
    ensures m < |t.samples[i].positions| && m < |t.samples[i + 1].positions|
    ensures Weighs(Evaluate(t, e, false).value.positions[m], t.samples[i], t.samples[i + 1], t.samples[0].time + e, m)
  {
    hide Evaluate, Forward, OnSegment, Weighs;
    PlayableTotal(t);
    TimesAscend(t.samples, 0, i);
    OneShotIs(t, e);
    ForwardAt(t.samples, e, i, true);
    OnSegmentWeighs(t.samples, i, e, m);
  }

  /** The position x of motor m at this time is on the line between the two samples. */
  predicate Weighs(x: real, start: Sample, end: Sample, now: real, m: nat)
    requires m < |start.positions| && m < |end.positions|
  {
    x * (end.time - start.time) == start.positions[m] * (end.time - now) + end.positions[m] * (now - start.time)
  }

  lemma OnSegmentWeighs(samples: seq<Sample>, i: nat, e: real, m: nat)
    requires i + 1 < |samples| && Increasing(samples)
    requires |samples[i].positions| == |samples[i + 1].positions| && m < |samples[i].positions|
    ensures |OnSegment(samples, i, e)| == |samples[i].positions|
    ensures Weighs(OnSegment(samples, i, e)[m], samples[i], samples[i + 1], samples[0].time + e, m)
  {
    var start, end := samples[i], samples[i + 1];
    var x, d := e - Offset(samples, i), end.time - start.time;
    RatioIs(x, d);
    assert OnSegment(samples, i, e)[m] == Mix(start.positions[m], end.positions[m], x / d);
    MixWeighs(start.positions[m], end.positions[m], x, d);
    hide OnSegment, Mix;
    assert d - x == end.time - (samples[0].time + e) && x == samples[0].time + e - start.time;
  }

  lemma RatioIs(x: real, d: real)
    requires d > 0.0
    ensures Ratio(x, d) == x / d
  {
  }

  lemma OneShotIs(t: Trajectory, e: real)
    requires Playable(t) && e >= 0.0 && Total(t.samples) > 0.0 && SameWidth(t.samples, |t.samples[0].positions|)
    ensures Evaluate(t, e, false) == Success(Forward(t.samples, e, true))
  {
    hide Forward;
  }

  // ---------------------------------------------------------------- finishing

  lemma SearchFindsSegment(samples: seq<Sample>, e: real, i: nat)
    requires i + 1 < |samples| && e < Total(samples)
    ensures FirstSegment(samples, e, i) + 1 < |samples|
    decreases |samples| - i
  {
    if e > Offset(samples, i + 1) { SearchFindsSegment(samples, e, i + 1); }
  }

  lemma BackwardNeverFinishes(samples: seq<Sample>, k: nat, e: real)
    requires k < |samples| && SameWidth(samples, |samples[0].positions|)
    ensures !BackwardFrom(samples, k, e).finished
  {
  }

  /**
   Evaluation throws only for an invalid trajectory, and finished is true exactly when playback is one-shot and there
   is one sample, or no duration, or the elapsed time has reached the total. It needs no order among the times.
   */
  lemma FinishedExactlyWhen(t: Trajectory, e: real, endless: bool)
    ensures Evaluate(t, e, endless).Success? <==> Validity(t).Success?
    ensures Evaluate(t, e, endless).Success? ==>
      (Evaluate(t, e, endless).value.finished <==>
        !endless && (|t.samples| == 1 || Clamped(e) >= Total(t.samples)))
  {
    if Validity(t).Success? && |t.samples| > 1 && Total(t.samples) > 0.0 {
      var total, c := Total(t.samples), Clamped(e);
      if !endless {
        if c < total { SearchFindsSegment(t.samples, c, 0); }
      } else {
        FmodRange(c, total * 2.0);
        var cycle := Fmod(c, total * 2.0);
        if cycle > total { BackwardNeverFinishes(t.samples, |t.samples| - 1, cycle - total); }
        if cycle < total { SearchFindsSegment(t.samples, cycle, 0); }
      }
    }
  }

  /** Once finished, playback stays finished. */
  lemma FinishedIsMonotone(t: Trajectory, d: real, e: real, endless: bool)
    requires d <= e && Evaluate(t, d, endless).Success? && Evaluate(t, d, endless).value.finished
    ensures Evaluate(t, e, endless).Success? && Evaluate(t, e, endless).value.finished
    ensures Evaluate(t, e, endless).value.positions == Evaluate(t, d, endless).value.positions
  {
    FinishedExactlyWhen(t, d, endless);
    FinishedExactlyWhen(t, e, endless);
  }
}
