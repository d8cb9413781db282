/** The evaluation code: validation, the interpolation loop and the two search loops. */
module TrajectoryPlayer {
  import opened Wrappers
  import opened Trajectory

  method InterpolateSegment(start: Sample, end: Sample, startIndex: nat, endIndex: nat,
                            elapsed: real, duration: real, finished: bool)
    returns (r: Result<PlaybackState, TrajectoryError>)
    ensures |start.positions| != |end.positions| ==> r == Failure(WidthMismatch)
    ensures |start.positions| == |end.positions| ==>
      r == Success(PlaybackState(startIndex, endIndex,
                                 Lerp(start.positions, end.positions, Ratio(elapsed, duration)), finished))
  {
    if |start.positions| != |end.positions| {
      return Failure(WidthMismatch);
    }
    var ratio := if duration <= 0.0 then 0.0 else elapsed / duration;
    ghost var target := Lerp(start.positions, end.positions, ratio);
    var positions: seq<real> := [];
    for m := 0 to |start.positions|
      invariant positions == target[..m]
    {
      assert target[..m + 1] == target[..m] + [target[m]];
      assert target[m] == Mix(start.positions[m], end.positions[m], ratio);
      var value := start.positions[m] + (end.positions[m] - start.positions[m]) * ratio;
      assert value == target[m];
      positions := positions + [value];
      assert positions == target[..m + 1];
    }
    assert target[..|target|] == target;
    r := Success(PlaybackState(startIndex, endIndex, positions, finished));
  }

  method EvaluateForward(samples: seq<Sample>, e: real, finishedAtEnd: bool)
    returns (r: Result<PlaybackState, TrajectoryError>)
    requires samples != [] && SameWidth(samples, |samples[0].positions|)
    ensures r == Success(Forward(samples, e, finishedAtEnd))
  {
    var last := |samples| - 1;
    if e >= samples[last].time - samples[0].time {
      return Success(PlaybackState(last, last, samples[last].positions, finishedAtEnd));
    }
    var i := 0;
    while i + 1 < |samples|
      invariant i < |samples| && FirstSegment(samples, e, 0) == FirstSegment(samples, e, i)
    {
      var start, end := samples[i], samples[i + 1];
      var duration := end.time - start.time;
      var offset := start.time - samples[0].time;
      if e <= offset + duration {
        r := InterpolateSegment(start, end, i, i + 1, e - offset, duration, false);
        return;
      }
      i := i + 1;
    }
    r := Success(PlaybackState(last, last, samples[last].positions, finishedAtEnd));
  }

  method EvaluateBackward(samples: seq<Sample>, elapsed: real) returns (r: Result<PlaybackState, TrajectoryError>)
    requires samples != [] && SameWidth(samples, |samples[0].positions|)
    ensures r == Success(BackwardFrom(samples, |samples| - 1, elapsed))
  {
    var e, k := elapsed, |samples| - 1;
    while k > 0
      invariant 0 <= k < |samples|
      invariant BackwardFrom(samples, |samples| - 1, elapsed) == BackwardFrom(samples, k, e)
    {
      var start, end := samples[k], samples[k - 1];
      var duration := start.time - end.time;
      if e <= duration {
        r := InterpolateSegment(start, end, k, k - 1, e, duration, false);
        return;
      }
      e, k := e - duration, k - 1;
    }
    r := Success(PlaybackState(0, 0, samples[0].positions, false));
  }

  method ValidateTrajectory(t: Trajectory) returns (r: Result<(), TrajectoryError>)
    ensures r == Validity(t)
    ensures r.Success? <==>
      && t.samples != [] && |t.motorNames| == |t.connections|
      && forall i | 0 <= i < |t.samples| :: |t.samples[i].positions| == |t.motorNames|
  {
    if t.samples == [] {
      return Failure(NoSamples);
    }
    if |t.motorNames| != |t.connections| {
      return Failure(MetadataMismatch);
    }
    for i := 0 to |t.samples|
      invariant forall j | 0 <= j < i :: |t.samples[j].positions| == |t.motorNames|
    {
      if |t.samples[i].positions| != |t.motorNames| {
        return Failure(WidthMismatch);
      }
    }
    r := Success(());
  }

  method EvaluateTrajectory(t: Trajectory, elapsed: real, endless: bool)
    returns (r: Result<PlaybackState, TrajectoryError>)
    ensures r == Evaluate(t, elapsed, endless)
  {
    var valid := ValidateTrajectory(t);
    if valid.Failure? {
      return Failure(valid.error);
    }
    var samples := t.samples;
    if |samples| == 1 {
      return Success(PlaybackState(0, 0, samples[0].positions, !endless));
    }
    var e := if elapsed > 0.0 then elapsed else 0.0;
    var total := samples[|samples| - 1].time - samples[0].time;
    if total <= 0.0 {
      return Success(PlaybackState(0, 0, samples[0].positions, !endless));
    }
    if !endless {
      r := EvaluateForward(samples, e, true);
      return;
    }
    var cycle := Fmod(e, total * 2.0);
    if cycle <= total {
      r := EvaluateForward(samples, cycle, false);
    } else {
      r := EvaluateBackward(samples, cycle - total);
    }
  }
}
