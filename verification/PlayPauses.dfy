/** What pausing does to a run: playback follows the time that passed unpaused, and never jumps. */
module PlayPauses {
  import opened Trajectory
  import opened TrajectoryLaws
  import opened TrajectoryMotion
  import opened PlayClock
  import opened PlayRun
  import opened PlayRunLaws

  /** The positions in radians that playback commands at this time of the trajectory. */
  function Played(c: Config, elapsed: int): (r: seq<real>)
    requires Ready(c)
    ensures |r| == |c.initial|
  {
    InRadians(PlaybackAt(c, elapsed).positions)
  }

  lemma IterateStart(c: Config, s: RunState, t: Turn)
    requires Ready(c) && Usable(c, s) && TurnOk(c, t)
    requires Iterate(c, s, t).status == Running && Iterate(c, s, t).phase == Playback
    ensures var after := Iterate(c, s, t);
      if s.phase == Playback then after.trajectoryStart == s.trajectoryStart
      else s.phase == Startup && after.trajectoryStart == Effective(after.clock, t.now)
  {
    hide Lerp, InRadians, PlaybackAt, Progress, Step, Effective;
  }

  lemma PlaybackTurn(c: Config, s: RunState, t: Turn)
    requires Ready(c) && Usable(c, s) && TurnOk(c, t)
    requires s.phase == Playback && Adopted(s, t).None? && Iterate(c, s, t).status == Running
    ensures var after := Iterate(c, s, t); var elapsed := Effective(after.clock, t.now) - s.trajectoryStart;
      LastIs(after, Command(Playback, Played(c, elapsed)))
  {
    hide Lerp, InRadians, PlaybackAt, Progress, Step, Effective;
  }

  /** The iteration that handed over from startup fixed the zero of the trajectory at its own effective time. */
  lemma {:induction false} PlaybackStartsAt(c: Config, turns: seq<Turn>, n: nat) returns (k: nat)
    requires Ready(c) && TurnsOk(c, turns) && n <= |turns|
    requires RunOf(c, turns, n).status == Running && RunOf(c, turns, n).phase == Playback
    ensures k < n && RunOf(c, turns, k).phase == Startup
    ensures RunOf(c, turns, n).trajectoryStart == EffectiveAt(Requests(turns), k)
  {
    hide Iterate, Effective, Step;
    var before := RunOf(c, turns, n - 1);
    IterateClocks(c, before, turns[n - 1]);
    IterateStart(c, before, turns[n - 1]);
    if before.phase == Playback {
      k := PlaybackStartsAt(c, turns, n - 1);
    } else {
      k := n - 1;
      RunClocks(c, turns, n);
    }
  }

  /** Iteration n commands playback: it is in that phase, no stop is adopted, and it goes on. */
  predicate PlaysAt(c: Config, turns: seq<Turn>, n: nat)
    requires Ready(c) && TurnsOk(c, turns) && n < |turns|
  {
    && RunOf(c, turns, n).phase == Playback && Adopted(RunOf(c, turns, n), turns[n]).None?
    && RunOf(c, turns, n + 1).status == Running
  }

  lemma PlaybackClock(c: Config, turns: seq<Turn>, n: nat)
    requires Ready(c) && TurnsOk(c, turns) && n < |turns| && PlaysAt(c, turns, n)
    ensures RunOf(c, turns, n).status == Running && RunOf(c, turns, n).phase == Playback
    ensures var elapsed := EffectiveAt(Requests(turns), n) - RunOf(c, turns, n).trajectoryStart;
      LastIs(RunOf(c, turns, n + 1), Command(Playback, Played(c, elapsed)))
  {
    hide Iterate, Effective, Step, Played;
    IterateClocks(c, RunOf(c, turns, n), turns[n]);
    PlaybackTurn(c, RunOf(c, turns, n), turns[n]);
    RunClocks(c, turns, n + 1);
  }

  /**
   Pauses neither skip nor repeat any of the trajectory: each playback command is the trajectory at exactly the unpaused
   time since the hand-over from startup, whenever and however often the run was paused.
   */
  lemma PlaybackFollowsUnpausedTime(c: Config, turns: seq<Turn>, n: nat) returns (k: nat)
    requires Ready(c) && TurnsOk(c, turns) && n < |turns| && PlaysAt(c, turns, n)
    ensures k < n && RunOf(c, turns, k).phase == Startup
    ensures var elapsed := Unpaused(Requests(turns), n) - Unpaused(Requests(turns), k);
      LastIs(RunOf(c, turns, n + 1), Command(Playback, Played(c, elapsed)))
  {
    hide RunOf, Played, EffectiveAt, PlaysAt, LastIs, After;
    PlaybackClock(c, turns, n);
    k := PlaybackStartsAt(c, turns, n);
    EffectiveIsUnpaused(Requests(turns), k);
    EffectiveIsUnpaused(Requests(turns), n);
    assert Requests(turns)[0].now == turns[0].now;
  }

  /** The zero of the trajectory stays put while playback lasts. */
  lemma {:induction false} StartStays(c: Config, turns: seq<Turn>, i: nat, j: nat)
    requires Ready(c) && TurnsOk(c, turns) && i <= j <= |turns| && RunOf(c, turns, j).status == Running
    requires RunOf(c, turns, i).phase == Playback && RunOf(c, turns, j).phase == Playback
    ensures RunOf(c, turns, i).trajectoryStart == RunOf(c, turns, j).trajectoryStart
  {
    hide Iterate;
    if i < j {
      IterateClocks(c, RunOf(c, turns, j - 1), turns[j - 1]);
      IterateStart(c, RunOf(c, turns, j - 1), turns[j - 1]);
      PhaseOnlyMovesForward(c, turns, i, j - 1);
      StartStays(c, turns, i, j - 1);
    }
  }

  /** The position last commanded to motor m. */
  predicate Commanded(s: RunState, m: nat, x: real) {
    && s.commands != [] && m < |s.commands[|s.commands| - 1].positions|
    && s.commands[|s.commands| - 1].positions[m] == x
  }

  lemma RadiansApart(x: real, y: real, bound: real)
    requires Abs(y - x) <= bound
    ensures Abs(y * RADIANS - x * RADIANS) <= bound * RADIANS
  {
  }

  lemma EffectiveStart(c: Config, turns: seq<Turn>, n: nat)
    requires Ready(c) && TurnsOk(c, turns) && n < |turns| && PlaysAt(c, turns, n) && ClockAscends(Requests(turns))
    ensures EffectiveAt(Requests(turns), n) >= RunOf(c, turns, n).trajectoryStart
  {
    hide RunOf, EffectiveAt, PlaysAt;
    PlaybackClock(c, turns, n);
    var k := PlaybackStartsAt(c, turns, n);
    EffectiveAscends(Requests(turns), k, n);
  }

  /**
   Between any two playback commands of a run a motor moves no farther than its fastest trajectory segment allows in the
   time that passed between them, pauses, resumes and turning points included.
   */
  lemma CommandsNeverJump(c: Config, turns: seq<Turn>, i: nat, j: nat, m: nat, speed: real)
    returns (x: real, y: real)
    requires Ready(c) && TurnsOk(c, turns) && i <= j < |turns| && PlaysAt(c, turns, i) && PlaysAt(c, turns, j)
    requires ClockAscends(Requests(turns)) && Playable(c.trajectory)
    requires m < |c.initial| && SlowerThan(c.trajectory.samples, m, speed)
    ensures Commanded(RunOf(c, turns, i + 1), m, x) && Commanded(RunOf(c, turns, j + 1), m, y)
    ensures Abs(y - x) <= Reach(speed, Seconds(turns[j].now - turns[i].now)) * RADIANS
  {
    hide RunOf, EffectiveAt, SlowerThan, Reach, Seconds, Playable, Played, Abs;
    var d, e := PlaybackTimes(c, turns, i, j);
    x, y := Played(c, d)[m], Played(c, e)[m];
    PlaybackApart(c, d, e, turns[j].now - turns[i].now, m, speed);
  }

  /** The trajectory times of two playback commands are no farther apart than their clock readings. */
  lemma PlaybackTimes(c: Config, turns: seq<Turn>, i: nat, j: nat) returns (d: int, e: int)
    requires Ready(c) && TurnsOk(c, turns) && i <= j < |turns| && PlaysAt(c, turns, i) && PlaysAt(c, turns, j)
    requires ClockAscends(Requests(turns))
    ensures 0 <= d <= e && e - d <= turns[j].now - turns[i].now
    ensures LastIs(RunOf(c, turns, i + 1), Command(Playback, Played(c, d)))
    ensures LastIs(RunOf(c, turns, j + 1), Command(Playback, Played(c, e)))
  {
    hide RunOf, EffectiveAt, PlaysAt, Played, LastIs, ClockAscends, Ready;
    PlaybackClock(c, turns, i);
    PlaybackClock(c, turns, j);
    StartStays(c, turns, i, j);
    EffectiveStart(c, turns, i);
    EffectiveAscends(Requests(turns), i, j);
    var start := RunOf(c, turns, j).trajectoryStart;
    d, e := EffectiveAt(Requests(turns), i) - start, EffectiveAt(Requests(turns), j) - start;
  }

  lemma PlaybackApart(c: Config, d: int, e: int, span: int, m: nat, speed: real)
    requires Ready(c) && Playable(c.trajectory) && m < |c.initial| && SlowerThan(c.trajectory.samples, m, speed)
    requires 0 <= d <= e && e - d <= span
    ensures Abs(Played(c, e)[m] - Played(c, d)[m]) <= Reach(speed, Seconds(span)) * RADIANS
  {
    PlaybackNeverJumps(c.trajectory, m, speed, Seconds(d), Seconds(e), c.endless);
    SpeedIsNonNegative(c.trajectory.samples, m, speed);
    ScaleUp(speed, Seconds(e) - Seconds(d), Seconds(span));
    hide Evaluate, SlowerThan, Reach;
    RadiansApart(PlaybackAt(c, d).positions[m], PlaybackAt(c, e).positions[m], Reach(speed, Seconds(span)));
  }
}
