/** When each phase of an undisturbed run begins and ends, what it commands meanwhile, and how a turn can end a run. */
module PlayPhases {
  import opened Wrappers
  import opened Trajectory
  import opened TrajectoryLaws
  import opened TrajectoryMotion
  import opened PlayClock
  import opened PlayRun
  import opened PlayRunLaws

  /** A turn that sees no stop and no throw. The pause key may be pressed. */
  predicate Undisturbed(t: Turn) {
    t.stopAtTop < 2 && t.stopBeforePhase < 1 && t.stopBeforeSend < 2 && t.throwsAt.None?
  }

  predicate UndisturbedTo(turns: seq<Turn>, n: nat)
    requires n < |turns|
  {
    forall i | 0 <= i <= n :: Undisturbed(turns[i])
  }

  /** One-shot playback this long after its start has reached the end of the trajectory. */
  predicate EndReached(c: Config, ns: int)
    requires Ready(c)
  {
    var samples := c.trajectory.samples;
    var total := samples[|samples| - 1].time - samples[0].time;
    !c.endless && (|samples| == 1 || total <= 0.0 || ns as real / 1_000_000_000.0 >= total)
  }

  // ---------------------------------------------------------------- one turn

  lemma StartupTurn(c: Config, s: RunState, t: Turn)
    requires Ready(c) && TurnOk(c, t) && Undisturbed(t) && s.status == Running && s.phase == Startup
    ensures var after := Iterate(c, s, t); var now := Effective(after.clock, t.now);
      && after.status == Running
      && if now - s.phaseStart >= 2_000_000_000 then after.phase == Playback && after.trajectoryStart == now
         else after.phase == Startup && after.phaseStart == s.phaseStart
  {
    hide Lerp, InRadians, PlaybackAt, Progress, Step, Effective;
  }

  lemma PlayTurn(c: Config, s: RunState, t: Turn)
    requires Ready(c) && TurnOk(c, t) && Undisturbed(t) && s.status == Running && s.phase == Playback
    ensures var after := Iterate(c, s, t); var now := Effective(after.clock, t.now);
      && after.status == Running
      && if EndReached(c, now - s.trajectoryStart) then after.phase == Returning && after.phaseStart == now
         else after.phase == Playback && after.trajectoryStart == s.trajectoryStart
  {
    var now := Effective(Step(s.clock, PauseAsked(t), t.now), t.now);
    EndIsFinished(c, now - s.trajectoryStart);
    hide Lerp, InRadians, PlaybackAt, Progress, Step, Effective, EndReached;
  }

  lemma EndIsFinished(c: Config, ns: int)
    requires Ready(c)
    ensures PlaybackAt(c, ns).finished <==> EndReached(c, ns)
    ensures PlaybackAt(c, ns).finished ==> !c.endless
  {
    FinishedExactlyWhen(c.trajectory, Seconds(ns), c.endless);
    hide Evaluate;
  }

  lemma HomeTurn(c: Config, s: RunState, t: Turn)
    requires Ready(c) && Usable(c, s) && TurnOk(c, t) && Undisturbed(t) && s.status == Running && s.phase == Returning
    ensures var after := Iterate(c, s, t); var now := Effective(after.clock, t.now);
      if now - s.phaseStart >= 2_000_000_000 then after.status == Finished
      else after.status == Running && after.phase == Returning && after.phaseStart == s.phaseStart
  {
    hide Lerp, InRadians, PlaybackAt, Progress, Step, Effective;
  }

  // ---------------------------------------------------------------- whole runs

  /** The effective time of turn i. */
  function TimeOf(turns: seq<Turn>, i: nat): int
    requires i < |turns|
  {
    EffectiveAt(Requests(turns), i)
  }

  lemma ClockOf(c: Config, turns: seq<Turn>, n: nat)
    requires Ready(c) && TurnsOk(c, turns) && n < |turns| && RunOf(c, turns, n).status == Running
    requires RunOf(c, turns, n + 1).status == Running
    ensures Effective(RunOf(c, turns, n + 1).clock, turns[n].now) == TimeOf(turns, n)
  {
    hide Iterate, Effective, Step;
    RunClocks(c, turns, n + 1);
  }

  predicate TwoSecondsIn(c: Config, turns: seq<Turn>, i: nat)
    requires i < |turns|
  {
    TimeOf(turns, i) - c.start >= 2_000_000_000
  }

  /**
   Startup lasts exactly until the first turn two seconds of effective time after the start: the phase after turn n is
   still Startup if and only if no turn up to n was that late.
   */
  lemma {:induction false} StartupExactlyWhile(c: Config, turns: seq<Turn>, n: nat)
    requires Ready(c) && TurnsOk(c, turns) && n < |turns| && UndisturbedTo(turns, n)
    ensures RunOf(c, turns, n + 1).phase == Startup <==> forall i | 0 <= i <= n :: !TwoSecondsIn(c, turns, i)
    ensures RunOf(c, turns, n + 1).phase == Startup ==>
      RunOf(c, turns, n + 1).status == Running && RunOf(c, turns, n + 1).phaseStart == c.start
  {
    hide Iterate, Effective, Step, TimeOf;
    var before := RunOf(c, turns, n);
    if n > 0 { StartupExactlyWhile(c, turns, n - 1); }
    if before.phase == Startup {
      StartupTurn(c, before, turns[n]);
      ClockOf(c, turns, n);
      assert TwoSecondsIn(c, turns, n) <==> TimeOf(turns, n) - before.phaseStart >= 2_000_000_000;
    } else {
      PhaseOnlyMovesForward(c, turns, n, n + 1);
    }
  }

  /** Turn h is the first that is two seconds in. */
  predicate HandsOver(c: Config, turns: seq<Turn>, h: nat)
    requires h < |turns|
  {
    TwoSecondsIn(c, turns, h) && forall i | 0 <= i < h :: !TwoSecondsIn(c, turns, i)
  }

  predicate EndsAt(c: Config, turns: seq<Turn>, h: nat, i: nat)
    requires Ready(c) && h < |turns| && i < |turns|
  {
    EndReached(c, TimeOf(turns, i) - TimeOf(turns, h))
  }

  /**
   Playback begins at the hand-over, with that turn's effective time as its zero, and lasts exactly until the first
   later turn whose trajectory time has reached the end; endless playback lasts for ever.
   */
  lemma {:induction false} PlaybackExactlyWhile(c: Config, turns: seq<Turn>, h: nat, n: nat)
    requires Ready(c) && TurnsOk(c, turns) && h <= n < |turns| && UndisturbedTo(turns, n) && HandsOver(c, turns, h)
    ensures RunOf(c, turns, n + 1).phase == Playback <==> forall i | h < i <= n :: !EndsAt(c, turns, h, i)
    ensures RunOf(c, turns, n + 1).phase == Playback ==>
      RunOf(c, turns, n + 1).status == Running && RunOf(c, turns, n + 1).trajectoryStart == TimeOf(turns, h)
  {
    hide Iterate, Effective, Step, TimeOf, EndReached;
    var before := RunOf(c, turns, n);
    if n == h {
      if h > 0 { StartupExactlyWhile(c, turns, h - 1); }
      StartupTurn(c, before, turns[n]);
      ClockOf(c, turns, n);
    } else {
      PlaybackExactlyWhile(c, turns, h, n - 1);
      if before.phase == Playback {
        PlayTurn(c, before, turns[n]);
        ClockOf(c, turns, n);
        assert EndsAt(c, turns, h, n) <==> EndReached(c, TimeOf(turns, n) - before.trajectoryStart);
      } else {
        NotBackToPlayback(c, turns, h, n);
      }
    }
  }

  lemma NotBackToPlayback(c: Config, turns: seq<Turn>, h: nat, n: nat)
    requires Ready(c) && TurnsOk(c, turns) && h < n < |turns| && UndisturbedTo(turns, n) && HandsOver(c, turns, h)
    requires RunOf(c, turns, n).phase != Playback
    ensures RunOf(c, turns, n + 1).phase == Returning
  {
    hide Iterate, TimeOf;
    StartupExactlyWhile(c, turns, n - 1);
    PhaseOnlyMovesForward(c, turns, n, n + 1);
  }

  /** Turn p is the first after h whose trajectory time has reached the end. */
  predicate PlaysOut(c: Config, turns: seq<Turn>, h: nat, p: nat)
    requires Ready(c) && h < p < |turns|
  {
    EndsAt(c, turns, h, p) && forall i | h < i < p :: !EndsAt(c, turns, h, i)
  }

  predicate TwoSecondsAfter(turns: seq<Turn>, p: nat, i: nat)
    requires p < |turns| && i < |turns|
  {
    TimeOf(turns, i) - TimeOf(turns, p) >= 2_000_000_000
  }

  /**
   The natural return begins at the turn that plays out, and ends the run exactly at the first turn two seconds of
   effective time later, on exactly the initial positions.
   */
  lemma {:induction false} ReturnExactlyWhile(c: Config, turns: seq<Turn>, h: nat, p: nat, n: nat)
    requires Ready(c) && TurnsOk(c, turns) && h < p <= n < |turns| && UndisturbedTo(turns, n)
    requires HandsOver(c, turns, h) && PlaysOut(c, turns, h, p)
    ensures RunOf(c, turns, n + 1).phase == Returning
    ensures RunOf(c, turns, n + 1).status == Finished <==> !forall i | p < i <= n :: !TwoSecondsAfter(turns, p, i)
    ensures if RunOf(c, turns, n + 1).status == Finished
            then LastIs(RunOf(c, turns, n + 1), Command(Returning, c.initial))
            else RunOf(c, turns, n + 1).status == Running && RunOf(c, turns, n + 1).phaseStart == TimeOf(turns, p)
  {
    hide Iterate, Effective, Step, TimeOf, EndReached;
    var before := RunOf(c, turns, n);
    if n == p {
      PlaybackExactlyWhile(c, turns, h, p - 1);
      PlayTurn(c, before, turns[n]);
      ClockOf(c, turns, n);
      assert EndsAt(c, turns, h, p) <==> EndReached(c, TimeOf(turns, p) - before.trajectoryStart);
    } else {
      ReturnExactlyWhile(c, turns, h, p, n - 1);
      NextReturn(c, turns, p, n);
    }
  }

  lemma NextReturn(c: Config, turns: seq<Turn>, p: nat, n: nat)
    requires Ready(c) && TurnsOk(c, turns) && p < n < |turns| && UndisturbedTo(turns, n)
    requires RunOf(c, turns, n).phase == Returning && RunOf(c, turns, n).status in {Running, Finished}
    requires RunOf(c, turns, n).status == Running ==> RunOf(c, turns, n).phaseStart == TimeOf(turns, p)
    ensures RunOf(c, turns, n + 1).phase == Returning
    ensures RunOf(c, turns, n + 1).status == Finished
      <==> RunOf(c, turns, n).status == Finished || TwoSecondsAfter(turns, p, n)
    ensures if RunOf(c, turns, n + 1).status == Finished
            then LastIs(RunOf(c, turns, n + 1), Command(Returning, c.initial))
            else RunOf(c, turns, n + 1).status == Running && RunOf(c, turns, n + 1).phaseStart == TimeOf(turns, p)
  {
    hide Iterate, Effective, Step;
    var before := RunOf(c, turns, n);
    PhaseOnlyMovesForward(c, turns, n, n + 1);
    if before.status == Running {
      HomeTurn(c, before, turns[n]);
      RunClocks(c, turns, n);
      IterateClock(c, before, turns[n]);
      assert Effective(RunOf(c, turns, n + 1).clock, turns[n].now) == TimeOf(turns, n);
    } else {
      EndedStays(c, before, turns[n]);
    }
    if RunOf(c, turns, n + 1).status == Finished { FinishedAtInitial(c, turns, n + 1); }
  }

  lemma IterateClock(c: Config, s: RunState, t: Turn)
    requires Ready(c) && Usable(c, s) && TurnOk(c, t) && Undisturbed(t) && s.status == Running && s.phase == Returning
    ensures Iterate(c, s, t).clock == Step(s.clock, PauseAsked(t), t.now)
  {
    hide Lerp, InRadians, PlaybackAt, Progress, Step, Effective;
  }

  // ---------------------------------------------------------------- what is commanded meanwhile

  /** x lies on the straight line from a to b, e nanoseconds into its two seconds. */
  predicate OnRamp(x: real, a: real, b: real, e: int) {
    var held := if e < 0 then 0 else if e > 2_000_000_000 then 2_000_000_000 else e;
    x * 2_000_000_000.0 == a * (2_000_000_000 - held) as real + b * held as real
  }

  lemma RampIs(a: real, b: real, e: int)
    ensures OnRamp(Mix(a, b, Progress(e)), a, b, e)
  {
    var held := if e < 0 then 0 else if e > 2_000_000_000 then 2_000_000_000 else e;
    var r := Progress(e);
    assert r * 2_000_000_000.0 == held as real;
    assert Mix(a, b, r) * 2_000_000_000.0 == a * 2_000_000_000.0 + (b - a) * (r * 2_000_000_000.0) by {
      Regroup(b - a, r);
    }
    Spread(a, b, held as real);
  }

  lemma Regroup(d: real, r: real)
    ensures d * r * 2_000_000_000.0 == d * (r * 2_000_000_000.0)
  {
  }

  lemma Spread(a: real, b: real, h: real)
    ensures a * 2_000_000_000.0 + (b - a) * h == a * (2_000_000_000.0 - h) + b * h
  {
  }

  /** Radians of degrees. */
  function ToRadians(degrees: real): real { degrees * (3.14159265358979323846 / 180.0) }

  /** The last command is this long and gives motor m this position. */
  predicate Sends(s: RunState, phase: Phase, m: nat, x: real) {
    && s.commands != [] && s.commands[|s.commands| - 1].phase == phase
    && m < |s.commands[|s.commands| - 1].positions| && s.commands[|s.commands| - 1].positions[m] == x
  }

  /** An undisturbed startup turn sends every motor to its place on the line to the first sample. */
  lemma StartupSends(c: Config, s: RunState, t: Turn, m: nat) returns (x: real)
    requires Ready(c) && TurnOk(c, t) && Undisturbed(t) && s.status == Running && s.phase == Startup && m < |c.initial|
    ensures Sends(Iterate(c, s, t), Startup, m, x)
    ensures var now := Effective(Step(s.clock, PauseAsked(t), t.now), t.now);
      OnRamp(x, c.initial[m], ToRadians(c.trajectory.samples[0].positions[m]), now - s.phaseStart)
  {
    var e := Effective(Step(s.clock, PauseAsked(t), t.now), t.now) - s.phaseStart;
    x := Mix(c.initial[m], FirstTarget(c)[m], Progress(e));
    RampIs(c.initial[m], FirstTarget(c)[m], e);
    hide OnRamp, Mix, Progress, Step, Effective, PlaybackAt;
  }

  /** An undisturbed return turn sends every motor to its place on the line to its initial position. */
  lemma ReturnSends(c: Config, s: RunState, t: Turn, m: nat) returns (x: real)
    requires Ready(c) && Usable(c, s) && TurnOk(c, t) && Undisturbed(t) && s.status == Running && s.phase == Returning
    requires m < |c.initial|
    ensures Sends(Iterate(c, s, t), Returning, m, x)
    ensures var now := Effective(Step(s.clock, PauseAsked(t), t.now), t.now);
      OnRamp(x, s.returnStart[m], c.initial[m], now - s.phaseStart)
  {
    var e := Effective(Step(s.clock, PauseAsked(t), t.now), t.now) - s.phaseStart;
    x := Mix(s.returnStart[m], c.initial[m], Progress(e));
    RampIs(s.returnStart[m], c.initial[m], e);
    hide OnRamp, Mix, Progress, Step, Effective, PlaybackAt, InRadians;
  }

  /** An undisturbed playback turn sends every motor to the trajectory's position at that time, in radians. */
  lemma PlaybackSends(c: Config, s: RunState, t: Turn, m: nat)
    requires Ready(c) && TurnOk(c, t) && Undisturbed(t) && s.status == Running && s.phase == Playback && m < |c.initial|
    ensures var now := Effective(Step(s.clock, PauseAsked(t), t.now), t.now);
      var played := Evaluate(c.trajectory, (now - s.trajectoryStart) as real / 1_000_000_000.0, c.endless);
      && played.Success? && m < |played.value.positions|
      && Sends(Iterate(c, s, t), Playback, m, ToRadians(played.value.positions[m]))
  {
    var now := Effective(Step(s.clock, PauseAsked(t), t.now), t.now);
    PlaybackWidth(c.trajectory, Seconds(now - s.trajectoryStart), c.endless);
    hide Evaluate, Step, Effective, Progress;
  }

  // ---------------------------------------------------------------- how a turn ends

  /** What stops a run before it sends: two stop requests, or a stop whose positions cannot be read. */
  predicate StopsHere(s: RunState, t: Turn) {
    || t.stopAtTop >= 2
    || (t.stopBeforePhase >= 1 && s.phase != Returning && (t.read.None? || t.stopAfterRead >= 2))
    || t.stopBeforeSend >= 2
  }

  /** Exactly when a turn stops the run without sending, aborts it in its send, or sends to every motor. */
  lemma TurnEnds(c: Config, s: RunState, t: Turn)
    requires Ready(c) && Usable(c, s) && TurnOk(c, t) && s.status == Running
    ensures var after := Iterate(c, s, t); var throws := t.throwsAt.Some? && t.throwsAt.value <= |c.initial|;
      && (after.status == Stopped <==> StopsHere(s, t))
      && (after.status == Aborted <==> !StopsHere(s, t) && throws)
      && if StopsHere(s, t) then after.commands == s.commands
         else |after.commands| == |s.commands| + 1
              && |after.commands[|s.commands|].positions| == if throws then t.throwsAt.value else |c.initial|
  {
    hide Lerp, InRadians, PlaybackAt, Progress, Step, Effective;
  }
}
