/** Where playback can be and how fast it can move. */
module TrajectoryMotion {
  import opened Trajectory
  import opened TrajectoryLaws

  /** Every sample keeps motor m between lo and hi. */
  predicate SamplesWithin(samples: seq<Sample>, m: nat, lo: real, hi: real) {
    forall i | 0 <= i < |samples| :: m < |samples[i].positions| && lo <= samples[i].positions[m] <= hi
  }

  lemma MixWithin(a: real, b: real, r: real, lo: real, hi: real)
    requires 0.0 <= r <= 1.0 && lo <= a <= hi && lo <= b <= hi
    ensures lo <= Mix(a, b, r) <= hi
  {
    MixBetween(a, b, r);
  }

  lemma SegmentWithin(samples: seq<Sample>, i: nat, j: nat, x: real, d: real, m: nat, lo: real, hi: real)
    requires i < |samples| && j < |samples| && SamplesWithin(samples, m, lo, hi)
    requires |samples[i].positions| == |samples[j].positions| && 0.0 <= x <= d
    ensures lo <= Segment(samples, i, j, x, d).positions[m] <= hi
  {
    if d > 0.0 { DivideWithin(x, d); }
    MixWithin(samples[i].positions[m], samples[j].positions[m], Ratio(x, d), lo, hi);
  }

  lemma BackwardWithin(samples: seq<Sample>, k: nat, e: real, m: nat, lo: real, hi: real)
    requires k < |samples| && SameWidth(samples, |samples[0].positions|)
    requires SamplesWithin(samples, m, lo, hi) && e >= 0.0
    ensures var p := BackwardFrom(samples, k, e).positions; m < |p| && lo <= p[m] <= hi
  {
    if k > 0 {
      var d := samples[k].time - samples[k - 1].time;
      if e <= d {
        SegmentWithin(samples, k, k - 1, e, d, m, lo, hi);
      } else {
        BackwardWithin(samples, k - 1, e - d, m, lo, hi);
      }
    }
  }

  lemma SearchPassed(samples: seq<Sample>, e: real, i: nat)
    requires i < |samples| && e >= Offset(samples, i)
    ensures e >= Offset(samples, FirstSegment(samples, e, i))
    decreases |samples| - i
  {
    if i + 1 < |samples| && e > Offset(samples, i + 1) { SearchPassed(samples, e, i + 1); }
  }

  lemma SearchStopped(samples: seq<Sample>, e: real, i: nat)
    requires i < |samples|
    ensures var k := FirstSegment(samples, e, i); k + 1 < |samples| ==> e <= Offset(samples, k + 1)
    decreases |samples| - i
  {
    if i + 1 < |samples| && e > Offset(samples, i + 1) { SearchStopped(samples, e, i + 1); }
  }

  lemma ForwardWithin(samples: seq<Sample>, e: real, fin: bool, m: nat, lo: real, hi: real)
    requires samples != [] && SameWidth(samples, |samples[0].positions|)
    requires SamplesWithin(samples, m, lo, hi) && e >= 0.0
    ensures var p := Forward(samples, e, fin).positions; m < |p| && lo <= p[m] <= hi
  {
    var k := FirstSegment(samples, e, 0);
    SearchPassed(samples, e, 0);
    SearchStopped(samples, e, 0);
    if e < Total(samples) && k + 1 < |samples| {
      SegmentWithin(samples, k, k + 1, e - Offset(samples, k), samples[k + 1].time - samples[k].time, m, lo, hi);
    }
  }

  /** Every motor stays within the range of its own samples, one-shot or endless, whatever the order of the times. */
  lemma PlaybackWithin(t: Trajectory, elapsed: real, endless: bool, m: nat, lo: real, hi: real)
    requires Validity(t).Success? && m < |t.motorNames| && SamplesWithin(t.samples, m, lo, hi)
    ensures Evaluate(t, elapsed, endless).Success?
    ensures var p := Evaluate(t, elapsed, endless).value.positions; |p| == |t.motorNames| && lo <= p[m] <= hi
  {
    var e := Clamped(elapsed);
    PlaybackWidth(t, elapsed, endless);
    if |t.samples| > 1 && Total(t.samples) > 0.0 {
      var total := Total(t.samples);
      if !endless {
        ForwardWithin(t.samples, e, true, m, lo, hi);
      } else {
        FmodRange(e, total * 2.0);
        var c := Fmod(e, total * 2.0);
        if c <= total {
          ForwardWithin(t.samples, c, false, m, lo, hi);
        } else {
          BackwardWithin(t.samples, |t.samples| - 1, c - total, m, lo, hi);
        }
      }
    }
  }

  lemma BackwardWidth(samples: seq<Sample>, k: nat, e: real)
    requires k < |samples| && SameWidth(samples, |samples[0].positions|)
    ensures |BackwardFrom(samples, k, e).positions| == |samples[0].positions|
  {
  }

  lemma PlaybackWidth(t: Trajectory, elapsed: real, endless: bool)
    requires Validity(t).Success?
    ensures Evaluate(t, elapsed, endless).Success?
    ensures |Evaluate(t, elapsed, endless).value.positions| == |t.motorNames|
  {
    var samples, e := t.samples, Clamped(elapsed);
    if |samples| > 1 && Total(samples) > 0.0 && endless {
      FmodRange(e, Total(samples) * 2.0);
      BackwardWidth(samples, |samples| - 1, Fmod(e, Total(samples) * 2.0) - Total(samples));
    }
  }

  // ---------------------------------------------------------------- no jumps

  /** The farthest a motor gets in a time span. */
  function Reach(speed: real, span: real): real { speed * span }

  function Abs(x: real): real { if x < 0.0 then -x else x }

  /** Motor m moves no faster than speed on any segment. */
  predicate SlowerThan(samples: seq<Sample>, m: nat, speed: real) {
    && (forall i | 0 <= i < |samples| :: m < |samples[i].positions|)
    && forall i | 0 <= i < |samples| - 1 ::
         Abs(samples[i + 1].positions[m] - samples[i].positions[m])
         <= Reach(speed, samples[i + 1].time - samples[i].time)
  }

  lemma {:induction false} SamplesApart(samples: seq<Sample>, m: nat, speed: real, i: nat, j: nat)
    requires SlowerThan(samples, m, speed) && i <= j < |samples|
    ensures Abs(samples[j].positions[m] - samples[i].positions[m])
         <= Reach(speed, Offset(samples, j) - Offset(samples, i))
  {
    if i < j {
      SamplesApart(samples, m, speed, i, j - 1);
      SplitTimes(speed, Offset(samples, j - 1) - Offset(samples, i), samples[j].time - samples[j - 1].time);
    } else {
      assert Reach(speed, 0.0) == 0.0;
    }
  }

  lemma SplitTimes(s: real, x: real, y: real)
    ensures Reach(s, x + y) == Reach(s, x) + Reach(s, y)
  {
  }

  lemma MixApart(a: real, b: real, x: real, y: real, d: real, speed: real)
    requires d > 0.0 && 0.0 <= x <= y <= d && Abs(b - a) <= Reach(speed, d)
    ensures Abs(Mix(a, b, y / d) - Mix(a, b, x / d)) <= Reach(speed, y - x)
  {
    var r := (y - x) / d;
    DivideWithin(y - x, d);
    SubtractQuotients(x, y, d);
    Distribute(y / d, x / d, b - a);
    assert Mix(a, b, y / d) - Mix(a, b, x / d) == (b - a) * r by {
      assert (b - a) * (y / d) - (b - a) * (x / d) == (b - a) * r;
    }
    AbsScale(b - a, r, speed * d);
    assert speed * d * r == speed * (y - x) by { TimesQuotient(y - x, d); Reassociate(speed, d, r); }
  }

  lemma Reassociate(s: real, d: real, r: real)
    ensures s * d * r == s * (r * d)
  {
  }

  lemma SubtractQuotients(x: real, y: real, d: real)
    requires d > 0.0
    ensures y / d - x / d == (y - x) / d
  {
    TimesQuotient(x, d);
    TimesQuotient(y, d);
    Distribute(y / d, x / d, d);
    QuotientIs(y - x, y / d - x / d, d);
  }

  lemma AbsScale(c: real, r: real, bound: real)
    requires 0.0 <= r <= 1.0 && Abs(c) <= bound
    ensures Abs(c * r) <= bound * r
  {
    AbsTimes(c, r);
    NonNegativeTimes(bound - Abs(c), r);
    Distribute(bound, Abs(c), r);
  }

  lemma AbsTimes(c: real, r: real)
    requires r >= 0.0
    ensures Abs(c * r) == Abs(c) * r
  {
    if c >= 0.0 { NonNegativeTimes(c, r); } else { NonNegativeTimes(-c, r); Negate(c, r); }
  }

  lemma NonNegativeTimes(c: real, r: real)
    requires c >= 0.0 && r >= 0.0
    ensures c * r >= 0.0
  {
  }

  /** On one segment of the polyline. */
  lemma SegmentApart(samples: seq<Sample>, m: nat, speed: real, i: nat, d: real, e: real)
    requires samples != [] && Increasing(samples) && SameWidth(samples, |samples[0].positions|)
    requires SlowerThan(samples, m, speed) && Brackets(samples, i, d) && Brackets(samples, i, e) && d <= e
    ensures Abs(OnSegment(samples, i, e)[m] - OnSegment(samples, i, d)[m]) <= Reach(speed, e - d)
  {
    MixApart(samples[i].positions[m], samples[i + 1].positions[m], d - Offset(samples, i), e - Offset(samples, i),
             samples[i + 1].time - samples[i].time, speed);
  }

  /** Between any two times of the polyline. */
  lemma PolylineApart(samples: seq<Sample>, m: nat, speed: real, i: nat, j: nat, d: real, e: real)
    requires samples != [] && Increasing(samples) && SameWidth(samples, |samples[0].positions|)
    requires SlowerThan(samples, m, speed) && Brackets(samples, i, d) && Brackets(samples, j, e) && d <= e && i <= j
    ensures Abs(OnSegment(samples, j, e)[m] - OnSegment(samples, i, d)[m]) <= Reach(speed, e - d)
  {
    var p, s := OnSegment(samples, i, d)[m], OnSegment(samples, j, e)[m];
    var q, r := samples[i + 1].positions[m], samples[j].positions[m];
    hide SlowerThan, SameWidth, Increasing, Reach, OnSegment;
    if i == j {
      SegmentApart(samples, m, speed, i, d, e);
    } else {
      var x, y := Offset(samples, i + 1), Offset(samples, j);
      TimesAscend(samples, i + 1, j);
      TimesAscend(samples, i, i + 1);
      TimesAscend(samples, j, j + 1);
      SegmentApart(samples, m, speed, i, d, x);
      SamplesApart(samples, m, speed, i + 1, j);
      SegmentApart(samples, m, speed, j, y, e);
      AtSamples(samples, i);
      AtSamples(samples, j);
      ThreeLegs(p, q, r, s, speed, d, x, y, e);
    }
  }

  lemma ThreeLegs(p: real, q: real, r: real, s: real, speed: real, d: real, x: real, y: real, e: real)
    requires Abs(q - p) <= Reach(speed, x - d) && Abs(r - q) <= Reach(speed, y - x) && Abs(s - r) <= Reach(speed, e - y)
    ensures Abs(s - p) <= Reach(speed, e - d)
  {
    SplitTimes(speed, x - d, y - x);
    SplitTimes(speed, y - d, e - y);
  }

  /** The triangle wave moves no faster than time. */
  lemma FoldedApart(total: real, d: real, e: real)
    requires total > 0.0 && 0.0 <= d <= e
    ensures 0.0 <= Folded(total, d) <= total && 0.0 <= Folded(total, e) <= total
    ensures Abs(Folded(total, e) - Folded(total, d)) <= e - d
  {
    var c := total * 2.0;
    FmodRange(d, c);
    FmodRange(e, c);
    if e - d < total {
      CyclesApart(d, e, c);
    }
  }

  /** Within one period either the cycle is the same or exactly the next. */
  lemma CyclesApart(d: real, e: real, c: real)
    requires c > 0.0 && 0.0 <= d <= e < d + c
    ensures Fmod(e, c) - Fmod(d, c) == e - d || Fmod(e, c) - Fmod(d, c) == e - d - c
  {
    var p, q := d / c, e / c;
    TimesQuotient(d, c);
    TimesQuotient(e, c);
    assert p <= q < p + 1.0 by {
      SubtractQuotients(d, e, c);
      DivideBelow(e - d, c);
    }
    assert q.Floor == p.Floor || q.Floor == p.Floor + 1;
    NextMultiple(c, p.Floor as real);
  }

  /** Endless playback never jumps, not even where it turns: a motor moves no faster than on its fastest segment. */
  lemma EndlessNeverJumps(t: Trajectory, m: nat, speed: real, d: real, e: real)
    requires Playable(t) && m < |t.motorNames| && SlowerThan(t.samples, m, speed) && 0.0 <= d <= e
    ensures Evaluate(t, d, true).Success? && Evaluate(t, e, true).Success?
    ensures m < |Evaluate(t, d, true).value.positions| && m < |Evaluate(t, e, true).value.positions|
    ensures Abs(Evaluate(t, e, true).value.positions[m] - Evaluate(t, d, true).value.positions[m])
         <= Reach(speed, e - d)
  {
    PlayableTotal(t);
    PlaybackWidth(t, d, true);
    PlaybackWidth(t, e, true);
    assert Increasing(t.samples);
    hide Evaluate, Folded, OnSegment, Brackets, SlowerThan, SameWidth, Increasing, Validity, Total, Reach;
    var samples, total := t.samples, Total(t.samples);
    var i := EndlessIsFolded(t, d);
    var j := EndlessIsFolded(t, e);
    var x, y := Folded(total, d), Folded(total, e);
    FoldedApart(total, d, e);
    if x <= y {
      PolylineBetween(samples, m, speed, i, j, x, y);
    } else {
      PolylineBetween(samples, m, speed, j, i, y, x);
    }
    SpeedIsNonNegative(samples, m, speed);
    ScaleUp(speed, Abs(y - x), e - d);
  }

  /** One-shot playback is endless playback held at the end of the trajectory. */
  lemma OneShotHolds(t: Trajectory, e: real)
    requires Playable(t) && e >= 0.0
    ensures var held := if e < Total(t.samples) then e else Total(t.samples);
      && held >= 0.0 && Evaluate(t, e, false).Success? && Evaluate(t, held, true).Success?
      && Evaluate(t, e, false).value.positions == Evaluate(t, held, true).value.positions
  {
    PlayableTotal(t);
    EndlessMatchesOneShot(t, if e < Total(t.samples) then e else Total(t.samples));
  }

  /** The same bound for both kinds of playback. */
  lemma PlaybackNeverJumps(t: Trajectory, m: nat, speed: real, d: real, e: real, endless: bool)
    requires Playable(t) && m < |t.motorNames| && SlowerThan(t.samples, m, speed) && 0.0 <= d <= e
    ensures Evaluate(t, d, endless).Success? && Evaluate(t, e, endless).Success?
    ensures var p, q := Evaluate(t, d, endless).value.positions, Evaluate(t, e, endless).value.positions;
      m < |p| && m < |q| && Abs(q[m] - p[m]) <= Reach(speed, e - d)
  {
    hide Evaluate, SlowerThan, Reach;
    if endless {
      EndlessNeverJumps(t, m, speed, d, e);
    } else {
      OneShotHolds(t, d);
      OneShotHolds(t, e);
      var total := Total(t.samples);
      var x, y := if d < total then d else total, if e < total then e else total;
      EndlessNeverJumps(t, m, speed, x, y);
      SpeedIsNonNegative(t.samples, m, speed);
      ScaleUp(speed, y - x, e - d);
    }
  }

  lemma ScaleUp(s: real, x: real, y: real)
    requires s >= 0.0 && x <= y
    ensures Reach(s, x) <= Reach(s, y)
  {
    NonNegativeTimes(y - x, s);
    Distribute(y, x, s);
  }

  lemma SpeedIsNonNegative(samples: seq<Sample>, m: nat, speed: real)
    requires |samples| >= 2 && Increasing(samples) && SlowerThan(samples, m, speed)
    ensures speed >= 0.0
  {
    var d := samples[1].time - samples[0].time;
    if speed < 0.0 {
      PositiveTimes(-speed, d);
      Negate(speed, d);
    }
  }

  lemma PolylineBetween(samples: seq<Sample>, m: nat, speed: real, i: nat, j: nat, d: real, e: real)
    requires samples != [] && Increasing(samples) && SameWidth(samples, |samples[0].positions|)
    requires SlowerThan(samples, m, speed) && Brackets(samples, i, d) && Brackets(samples, j, e) && d <= e
    ensures Abs(OnSegment(samples, j, e)[m] - OnSegment(samples, i, d)[m]) <= Reach(speed, e - d)
  {
    if i <= j {
      PolylineApart(samples, m, speed, i, j, d, e);
    } else {
      // Segment j starts before segment i, yet e is not before d: both times are the same.
      TimesAscend(samples, j + 1, i);
      BracketsAgree(samples, j, i, e);
    }
  }
}
