/** The control loop itself, updating its fields step by step, proved to run as the model of PlayRun. */
module PlayRunner {
  import opened Wrappers
  import opened Trajectory
  import opened TrajectoryMotion
  import opened PlayClock
  import opened PlayRun
  import TrajectoryPlayer

  function Clamp(p: real): real { if p < 0.0 then 0.0 else if p > 1.0 then 1.0 else p }

  method InterpolatePositions(start: seq<real>, end: seq<real>, progress: real) returns (r: seq<real>)
    requires |start| == |end|
    ensures r == Lerp(start, end, Clamp(progress))
  {
    var clamped := Clamp(progress);
    hide Clamp;
    ghost var target := Lerp(start, end, clamped);
    r := [];
    for m := 0 to |start|
      invariant r == target[..m]
    {
      var value := start[m] + (end[m] - start[m]) * clamped;
      assert value == Mix(start[m], end[m], clamped) == target[m];
      r := r + [value];
      assert r == target[..m + 1];
    }
    assert target[..|target|] == target;
  }

  method InterpolateDegreesToRadians(start: seq<real>, endDegrees: seq<real>, progress: real) returns (r: seq<real>)
    requires |start| == |endDegrees|
    ensures r == Lerp(start, InRadians(endDegrees), Clamp(progress))
  {
    var clamped := Clamp(progress);
    hide Clamp;
    ghost var target := Lerp(start, InRadians(endDegrees), clamped);
    r := [];
    for m := 0 to |start|
      invariant r == target[..m]
    {
      var end := endDegrees[m] * RADIANS;
      var value := start[m] + (end - start[m]) * clamped;
      assert InRadians(endDegrees)[m] == end;
      assert value == Mix(start[m], end, clamped);
      r := r + [value];
      assert r == target[..m + 1];
    }
    assert target[..|target|] == target;
  }

  class TrajectoryRunner {
    const config: Config
    const clock: PauseClock
    var phase: Phase
    var phaseStart: int
    var trajectoryStart: int
    var returnStart: seq<real>
    var commands: seq<Command>
    var nextTick: int
    var status: Status

    function State(): RunState
      reads this, clock
    {
      RunState(phase, phaseStart, trajectoryStart, clock.State(), returnStart, commands, nextTick, status)
    }

    constructor (config: Config)
      ensures this.config == config && State() == Initial(config) && fresh(clock)
    {
      this.config := config;
      clock := new PauseClock();
      phase, phaseStart, trajectoryStart := Startup, config.start, config.start;
      returnStart, commands, nextTick, status := [], [], config.start, Running;
    }

    /** Sends one position per motor, then commits; a throw leaves the rest unsent and ends the run. */
    method SendPositions(positions: seq<real>, throwsAt: Option<nat>)
      modifies this`commands, this`status
      ensures forall t: Turn | t.throwsAt == throwsAt :: State() == Send(old(State()), positions, t)
    {
      var sent: seq<real> := [];
      for m := 0 to |positions|
        invariant sent == positions[..m] && unchanged(this)
        invariant throwsAt.Some? ==> m <= throwsAt.value
      {
        if throwsAt == Some(m) {
          commands := commands + [Command(phase, sent)];
          status := Aborted;
          return;
        }
        sent := sent + [positions[m]];
        assert sent == positions[..m + 1];
      }
      assert sent == positions;
      commands := commands + [Command(phase, sent)];
      if throwsAt == Some(|positions|) {
        status := Aborted;
      }
    }

    /** One iteration of the loop, from the first clock reading to the next tick. */
    method RunOnce(t: Turn)
      requires Ready(config) && Usable(config, State()) && TurnOk(config, t) && status == Running
      modifies this, clock
      ensures State() == Iterate(config, old(State()), t)
    {
      hide Lerp, InRadians, Evaluate;
      if t.stopAtTop >= 2 {
        status := Stopped;
        return;
      }
      var paused := t.pause;
      if t.stopAtPause >= 1 {
        paused := false;
      }
      if t.pressed {
        paused := !paused;
      }
      var now := clock.Update(paused, t.now);
      if t.stopBeforePhase >= 1 && phase != Returning {
        if t.read.None? {
          status := Stopped;
          return;
        }
        returnStart := t.read.value;
        if t.stopAfterRead >= 2 {
          status := Stopped;
          return;
        }
        phase := Returning;
        phaseStart := now;
      }
      if t.stopBeforeSend >= 2 {
        status := Stopped;
        return;
      }
      RunPhase(now, t);
    }

    method RunPhase(now: int, t: Turn)
      requires Ready(config) && Usable(config, State()) && status == Running
      modifies this
      ensures State() == CommandPhase(config, old(State()), now, t)
    {
      var elapsed := Seconds(now - phaseStart);
      ProgressIsClamp(now - phaseStart);
      hide Seconds, Progress, Clamp, Lerp, InRadians, Evaluate;
      if phase == Startup {
        var first := config.trajectory.samples[0].positions;
        var positions := InterpolateDegreesToRadians(config.initial, first, elapsed / 2.0);
        SendPositions(positions, t.throwsAt);
        if status == Aborted {
          return;
        }
        if elapsed >= 2.0 {
          phase := Playback;
          trajectoryStart := now;
        }
      } else if phase == Returning {
        var positions := InterpolatePositions(returnStart, config.initial, elapsed / 2.0);
        SendPositions(positions, t.throwsAt);
        if status == Aborted {
          return;
        }
        if elapsed >= 2.0 {
          status := Finished;
          return;
        }
      } else {
        var played := Seconds(now - trajectoryStart);
        PlaybackWidth(config.trajectory, played, config.endless);
        var state := TrajectoryPlayer.EvaluateTrajectory(config.trajectory, played, config.endless);
        SendPositions(InRadians(state.value.positions), t.throwsAt);
        if status == Aborted {
          return;
        }
        if state.value.finished && !config.endless {
          returnStart := InRadians(state.value.positions);
          phase := Returning;
          phaseStart := now;
        }
      }
      nextTick := NextTick(nextTick, config.period, t.end);
    }

    /** The loop, for as many turns as the outside plays out. */
    method Run(turns: seq<Turn>)
      requires Ready(config) && State() == Initial(config) && forall t | t in turns :: TurnOk(config, t)
      modifies this, clock
      ensures State() == RunOf(config, turns, |turns|)
    {
      hide Iterate;
      var i := 0;
      while i < |turns| && status == Running
        invariant 0 <= i <= |turns| && State() == RunOf(config, turns, i)
      {
        RunOnce(turns[i]);
        i := i + 1;
      }
      EndedStays(config, turns, i);
    }
  }

  lemma ProgressIsClamp(elapsed: int)
    ensures Progress(elapsed) == Clamp(Seconds(elapsed) / 2.0)
    ensures Seconds(elapsed) >= 2.0 <==> elapsed >= TRANSITION
  {
  }

  lemma EndedStays(c: Config, turns: seq<Turn>, i: nat)
    requires Ready(c) && i <= |turns| && forall t | t in turns :: TurnOk(c, t)
    requires i == |turns| || RunOf(c, turns, i).status != Running
    ensures RunOf(c, turns, |turns|) == RunOf(c, turns, i)
    decreases |turns| - i
  {
    if i < |turns| { EndedStays(c, turns, i + 1); }
  }
}
