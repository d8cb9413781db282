/**
 Piecewise-linear trajectories: what forward, backward and ping-pong playback evaluate to. Times and positions are
 reals.
 */
module Trajectory {
  import opened Wrappers

  datatype Sample = Sample(time: real, positions: seq<real>)

  datatype Trajectory = Trajectory(motorNames: seq<string>, connections: seq<string>, samples: seq<Sample>)

  datatype PlaybackState = PlaybackState(segmentStart: nat, segmentEnd: nat, positions: seq<real>, finished: bool)

  datatype TrajectoryError = NoSamples | MetadataMismatch | WidthMismatch

  // ---------------------------------------------------------------- well-formed trajectories

  predicate SameWidth(samples: seq<Sample>, width: nat) {
    forall i | 0 <= i < |samples| :: |samples[i].positions| == width
  }

  predicate Increasing(samples: seq<Sample>) {
    forall i | 0 <= i < |samples| - 1 :: samples[i].time < samples[i + 1].time
  }

  function Validity(t: Trajectory): Result<(), TrajectoryError> {
    if t.samples == [] then Failure(NoSamples)
    else if |t.motorNames| != |t.connections| then Failure(MetadataMismatch)
    else if !SameWidth(t.samples, |t.motorNames|) then Failure(WidthMismatch)
    else Success(())
  }

  /** Time of sample i since the first sample. */
  function Offset(samples: seq<Sample>, i: nat): real
    requires i < |samples|
  {
    samples[i].time - samples[0].time
  }

  function Total(samples: seq<Sample>): real
    requires samples != []
  {
    Offset(samples, |samples| - 1)
  }

  lemma TimesAscend(samples: seq<Sample>, i: nat, j: nat)
    requires Increasing(samples) && i <= j < |samples|
    ensures Offset(samples, i) <= Offset(samples, j) && (i < j ==> Offset(samples, i) < Offset(samples, j))
  {
    if i < j { TimesAscend(samples, i, j - 1); }
  }

  // ---------------------------------------------------------------- interpolation

  function Ratio(elapsed: real, duration: real): real {
    if duration <= 0.0 then 0.0 else elapsed / duration
  }

  function Mix(a: real, b: real, ratio: real): real { a + (b - a) * ratio }

  function Lerp(a: seq<real>, b: seq<real>, ratio: real): (p: seq<real>)
    requires |a| == |b|
    ensures |p| == |a|
  {
    seq(|a|, m requires 0 <= m < |a| => Mix(a[m], b[m], ratio))
  }

  function Segment(samples: seq<Sample>, i: nat, j: nat, elapsed: real, duration: real): PlaybackState
    requires i < |samples| && j < |samples| && |samples[i].positions| == |samples[j].positions|
  {
    PlaybackState(i, j, Lerp(samples[i].positions, samples[j].positions, Ratio(elapsed, duration)), false)
  }

  function Terminal(samples: seq<Sample>, i: nat, finished: bool): PlaybackState
    requires i < |samples|
  {
    PlaybackState(i, i, samples[i].positions, finished)
  }

  // ---------------------------------------------------------------- the two searches

  /** The first segment at or after i whose end is not before e; the last sample if there is none. */
  function FirstSegment(samples: seq<Sample>, e: real, i: nat): (k: nat)
    requires i < |samples|
    ensures i <= k < |samples|
    decreases |samples| - i
  {
    if i + 1 >= |samples| || e <= Offset(samples, i + 1) then i else FirstSegment(samples, e, i + 1)
  }

  function Forward(samples: seq<Sample>, e: real, finishedAtEnd: bool): PlaybackState
    requires samples != [] && SameWidth(samples, |samples[0].positions|)
  {
    var k, last := FirstSegment(samples, e, 0), |samples| - 1;
    if e >= Total(samples) || k == last then Terminal(samples, last, finishedAtEnd)
    else Segment(samples, k, k + 1, e - Offset(samples, k), samples[k + 1].time - samples[k].time)
  }

  /** Backward playback that has reached sample k, e seconds ago. */
  function BackwardFrom(samples: seq<Sample>, k: nat, e: real): PlaybackState
    requires k < |samples| && SameWidth(samples, |samples[0].positions|)
  {
    if k == 0 then Terminal(samples, 0, false)
    else
      var duration := samples[k].time - samples[k - 1].time;
      if e <= duration then Segment(samples, k, k - 1, e, duration) else BackwardFrom(samples, k - 1, e - duration)
  }

  /** The floating-point remainder of non-negative x, over reals. */
  function Fmod(x: real, c: real): real
    requires x >= 0.0 && c > 0.0
  {
    x - c * (x / c).Floor as real
  }

  function Clamped(elapsed: real): real { if elapsed < 0.0 then 0.0 else elapsed }

  function Evaluate(t: Trajectory, elapsed: real, endless: bool): Result<PlaybackState, TrajectoryError> {
    var e := Clamped(elapsed);
    if Validity(t).Failure? then Failure(Validity(t).error)
    else if |t.samples| == 1 || Total(t.samples) <= 0.0 then Success(Terminal(t.samples, 0, !endless))
    else if !endless then Success(Forward(t.samples, e, true))
    else
      var total := Total(t.samples);
      var cycle := Fmod(e, total * 2.0);
      if cycle <= total then Success(Forward(t.samples, cycle, false))
      else Success(BackwardFrom(t.samples, |t.samples| - 1, cycle - total))
  }
}
