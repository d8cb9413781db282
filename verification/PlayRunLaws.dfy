/** What every run of the control loop keeps. */
module PlayRunLaws {
  import opened Wrappers
  import opened Trajectory
  import opened TrajectoryLaws
  import opened TrajectoryMotion
  import opened PlayClock
  import opened PlayRun

  function Order(p: Phase): nat { match p case Startup => 0 case Playback => 1 case Returning => 2 }

  predicate TurnsOk(c: Config, turns: seq<Turn>) { forall t | t in turns :: TurnOk(c, t) }

  // ---------------------------------------------------------------- phases

  predicate PhasesAscend(commands: seq<Command>) {
    forall i, j | 0 <= i <= j < |commands| :: Order(commands[i].phase) <= Order(commands[j].phase)
  }

  predicate PhasesUpTo(s: RunState) {
    PhasesAscend(s.commands) && forall i | 0 <= i < |s.commands| :: Order(s.commands[i].phase) <= Order(s.phase)
  }

  /** At most one command is added, in a phase between the old and the new one. */
  predicate Advances(s: RunState, after: RunState) {
    && Order(s.phase) <= Order(after.phase)
    && (after.commands == s.commands
        || (|after.commands| == |s.commands| + 1 && after.commands[..|s.commands|] == s.commands
            && Order(s.phase) <= Order(after.commands[|s.commands|].phase) <= Order(after.phase)))
  }

  lemma SendAdvances(s: RunState, positions: seq<real>, t: Turn)
    ensures Advances(s, Send(s, positions, t)) && Send(s, positions, t).phase == s.phase
    ensures |Send(s, positions, t).commands| == |s.commands| + 1
  {
  }

  lemma CommandAdvances(c: Config, s: RunState, now: int, t: Turn)
    requires Ready(c) && Usable(c, s)
    ensures Advances(s, CommandPhase(c, s, now, t))
  {
    var elapsed := now - s.phaseStart;
    match s.phase
    case Startup => SendAdvances(s, Lerp(c.initial, FirstTarget(c), Progress(elapsed)), t);
    case Returning => SendAdvances(s, Lerp(s.returnStart, c.initial, Progress(elapsed)), t);
    case Playback => SendAdvances(s, InRadians(PlaybackAt(c, now - s.trajectoryStart).positions), t);
    hide Send, Lerp, InRadians, PlaybackAt, Progress;
  }

  /** One iteration sends at most one command and never goes back a phase. */
  lemma IterateAdvances(c: Config, s: RunState, t: Turn)
    requires Ready(c) && Usable(c, s) && TurnOk(c, t)
    ensures Advances(s, Iterate(c, s, t))
  {
    if s.status == Running && t.stopAtTop < 2 {
      var clock := Step(s.clock, PauseAsked(t), t.now);
      var now := Effective(clock, t.now);
      var stopped := HandleStop(s.(clock := clock), now, t);
      assert Advances(s, stopped) && stopped.commands == s.commands;
      if stopped.status == Running { CommandAdvances(c, stopped, now, t); }
    }
    hide CommandPhase;
  }

  /** In every run the phase only moves forward, and so do the phases of the commands. */
  lemma {:induction false} PhaseOnlyMovesForward(c: Config, turns: seq<Turn>, i: nat, n: nat)
    requires Ready(c) && TurnsOk(c, turns) && i <= n <= |turns|
    ensures Order(RunOf(c, turns, i).phase) <= Order(RunOf(c, turns, n).phase)
    ensures RunOf(c, turns, i).commands <= RunOf(c, turns, n).commands
    ensures PhasesUpTo(RunOf(c, turns, n))
    decreases n
  {
    hide Iterate;
    if n > 0 {
      var before, after := RunOf(c, turns, n - 1), RunOf(c, turns, n);
      PhaseOnlyMovesForward(c, turns, if i < n then i else n - 1, n - 1);
      IterateAdvances(c, before, turns[n - 1]);
    }
  }

  // ---------------------------------------------------------------- the span of the commands

  /** The positions this iteration starts a return from, because of a stop. */
  function Adopted(s: RunState, t: Turn): Option<seq<real>> {
    if s.status == Running && t.stopAtTop < 2 && t.stopBeforePhase >= 1 && s.phase != Returning && t.stopAfterRead < 2
    then t.read else None
  }

  predicate Between(lo: real, x: real, hi: real) { lo <= x <= hi }

  /** Motor m's initial position and every trajectory sample of it lie between lo and hi. */
  predicate Spans(c: Config, m: nat, lo: real, hi: real)
    requires Ready(c)
  {
    && m < |c.initial| && Between(lo, c.initial[m], hi)
    && forall i | 0 <= i < |c.trajectory.samples| :: Between(lo, InRadians(c.trajectory.samples[i].positions)[m], hi)
  }

  predicate CommandsWithin(commands: seq<Command>, m: nat, lo: real, hi: real) {
    forall i | 0 <= i < |commands| :: m < |commands[i].positions| ==> Between(lo, commands[i].positions[m], hi)
  }

  predicate StateWithin(c: Config, s: RunState, m: nat, lo: real, hi: real) {
    && CommandsWithin(s.commands, m, lo, hi)
    && (s.phase == Returning ==> m < |s.returnStart| && Between(lo, s.returnStart[m], hi))
  }

  lemma LerpWithin(a: seq<real>, b: seq<real>, r: real, m: nat, lo: real, hi: real)
    requires |a| == |b| && m < |a| && Between(lo, a[m], hi) && Between(lo, b[m], hi) && 0.0 <= r <= 1.0
    ensures Between(lo, Lerp(a, b, r)[m], hi)
  {
    MixWithin(a[m], b[m], r, lo, hi);
  }

  lemma PlaybackSpans(c: Config, elapsed: int, m: nat, lo: real, hi: real)
    requires Ready(c) && Spans(c, m, lo, hi)
    ensures Between(lo, InRadians(PlaybackAt(c, elapsed).positions)[m], hi)
  {
    var low, high := lo / RADIANS, hi / RADIANS;
    forall i | 0 <= i < |c.trajectory.samples|
      ensures m < |c.trajectory.samples[i].positions| && low <= c.trajectory.samples[i].positions[m] <= high
    {
      assert Between(lo, InRadians(c.trajectory.samples[i].positions)[m], hi);
    }
    PlaybackWithin(c.trajectory, Seconds(elapsed), c.endless, m, low, high);
  }

  lemma SendWithin(s: RunState, positions: seq<real>, t: Turn, m: nat, lo: real, hi: real)
    requires CommandsWithin(s.commands, m, lo, hi) && (m < |positions| ==> Between(lo, positions[m], hi))
    ensures CommandsWithin(Send(s, positions, t).commands, m, lo, hi)
  {
  }

  lemma CommandWithin(c: Config, s: RunState, now: int, t: Turn, m: nat, lo: real, hi: real)
    requires Ready(c) && Usable(c, s) && Spans(c, m, lo, hi) && StateWithin(c, s, m, lo, hi)
    ensures StateWithin(c, CommandPhase(c, s, now, t), m, lo, hi)
  {
    var elapsed := now - s.phaseStart;
    assert Between(lo, FirstTarget(c)[m], hi) by { assert 0 < |c.trajectory.samples|; }
    match s.phase
    case Startup =>
      var positions := Lerp(c.initial, FirstTarget(c), Progress(elapsed));
      LerpWithin(c.initial, FirstTarget(c), Progress(elapsed), m, lo, hi);
      SendWithin(s, positions, t, m, lo, hi);
    case Returning =>
      var positions := Lerp(s.returnStart, c.initial, Progress(elapsed));
      LerpWithin(s.returnStart, c.initial, Progress(elapsed), m, lo, hi);
      SendWithin(s, positions, t, m, lo, hi);
    case Playback =>
      PlaybackSpans(c, now - s.trajectoryStart, m, lo, hi);
      SendWithin(s, InRadians(PlaybackAt(c, now - s.trajectoryStart).positions), t, m, lo, hi);
  }

  lemma IterateWithin(c: Config, s: RunState, t: Turn, m: nat, lo: real, hi: real)
    requires Ready(c) && Usable(c, s) && TurnOk(c, t) && Spans(c, m, lo, hi) && StateWithin(c, s, m, lo, hi)
    requires Adopted(s, t).Some? ==> m < |Adopted(s, t).value| && Between(lo, Adopted(s, t).value[m], hi)
    ensures StateWithin(c, Iterate(c, s, t), m, lo, hi)
  {
    hide CommandPhase, Between, Spans;
    if s.status == Running && t.stopAtTop < 2 {
      var clock := Step(s.clock, PauseAsked(t), t.now);
      var now := Effective(clock, t.now);
      var stopped := HandleStop(s.(clock := clock), now, t);
      assert StateWithin(c, stopped, m, lo, hi);
      CommandWithin(c, stopped, now, t, m, lo, hi);
    }
  }

  /** Every commanded position is in the range of that motor's initial, trajectory and return-start positions. */
  lemma {:induction false} CommandsStayInSpan(c: Config, turns: seq<Turn>, n: nat, m: nat, lo: real, hi: real)
    requires Ready(c) && TurnsOk(c, turns) && n <= |turns| && Spans(c, m, lo, hi)
    requires forall i | 0 <= i < n ::
      (var start := Adopted(RunOf(c, turns, i), turns[i]);
       start.Some? ==> m < |start.value| && Between(lo, start.value[m], hi))
    ensures StateWithin(c, RunOf(c, turns, n), m, lo, hi)
  {
    hide Iterate, Spans, Between;
    if n > 0 {
      CommandsStayInSpan(c, turns, n - 1, m, lo, hi);
      IterateWithin(c, RunOf(c, turns, n - 1), turns[n - 1], m, lo, hi);
    }
  }

  // ---------------------------------------------------------------- the ends of the phases

  lemma LerpEnds(a: seq<real>, b: seq<real>)
    requires |a| == |b|
    ensures Lerp(a, b, 0.0) == a && Lerp(a, b, 1.0) == b
  {
    forall m | 0 <= m < |a| ensures Lerp(a, b, 0.0)[m] == a[m] && Lerp(a, b, 1.0)[m] == b[m] {
      MixEnds(a[m], b[m]);
    }
  }

  lemma ProgressEnds(elapsed: int)
    ensures elapsed >= TRANSITION ==> Progress(elapsed) == 1.0
    ensures elapsed == 0 ==> Progress(elapsed) == 0.0
  {
  }

  predicate LastIs(s: RunState, command: Command) { s.commands != [] && s.commands[|s.commands| - 1] == command }

  /**
   The motors never jump where phases meet. Startup hands over only after commanding exactly the first sample; a natural
   return starts from exactly the last command, which is the last sample; a stop commands exactly the positions read;
   and a run that ends by the return timer has just commanded exactly the initial positions.
   */
  lemma PhasesMeet(c: Config, s: RunState, t: Turn)
    requires Ready(c) && Usable(c, s) && TurnOk(c, t) && s.status == Running
    ensures var after := Iterate(c, s, t);
      && (s.phase == Startup && after.phase == Playback ==> LastIs(after, Command(Startup, FirstTarget(c))))
      && (after.phase == Returning && s.phase != Returning && Adopted(s, t).None? ==>
            s.phase == Playback && LastIs(after, Command(Playback, after.returnStart)))
      && (Adopted(s, t).Some? && after.status == Running ==>
            after.phase == Returning && after.returnStart == Adopted(s, t).value
            && LastIs(after, Command(Returning, after.returnStart)))
      && (after.status == Finished ==> LastIs(after, Command(Returning, c.initial)))
  {
    if t.stopAtTop < 2 {
      var clock := Step(s.clock, PauseAsked(t), t.now);
      var now := Effective(clock, t.now);
      var stopped := HandleStop(s.(clock := clock), now, t);
      ProgressEnds(now - stopped.phaseStart);
      LerpEnds(c.initial, FirstTarget(c));
      if stopped.phase == Returning { LerpEnds(stopped.returnStart, c.initial); }
      hide Lerp, InRadians, PlaybackAt, Progress, FirstTarget;
    }
  }

  /** In every run: reaching the return timer means the last command was the initial positions. */
  lemma {:induction false} FinishedAtInitial(c: Config, turns: seq<Turn>, n: nat)
    requires Ready(c) && TurnsOk(c, turns) && n <= |turns| && RunOf(c, turns, n).status == Finished
    ensures LastIs(RunOf(c, turns, n), Command(Returning, c.initial))
  {
    hide Iterate;
    if n > 0 {
      var before := RunOf(c, turns, n - 1);
      if before.status == Running {
        PhasesMeet(c, before, turns[n - 1]);
      } else {
        EndedStays(c, before, turns[n - 1]);
        FinishedAtInitial(c, turns, n - 1);
      }
    }
  }

  lemma EndedStays(c: Config, s: RunState, t: Turn)
    requires Ready(c) && Usable(c, s) && TurnOk(c, t) && s.status != Running
    ensures Iterate(c, s, t) == s
  {
  }

  /** Some command was exactly the last sample of the trajectory, sent as playback. */
  predicate PlayedToTheEnd(c: Config, s: RunState)
    requires Ready(c)
  {
    Command(Playback, InRadians(c.trajectory.samples[|c.trajectory.samples| - 1].positions)) in s.commands
  }

  /** A finished one-shot playback stands at the last sample, if there is a duration. */
  lemma FinishedIsLastSample(c: Config, elapsed: int)
    requires Ready(c) && Increasing(c.trajectory.samples) && PlaybackAt(c, elapsed).finished
    ensures PlaybackAt(c, elapsed).positions == c.trajectory.samples[|c.trajectory.samples| - 1].positions
    ensures !c.endless
  {
    FinishedExactlyWhen(c.trajectory, Seconds(elapsed), c.endless);
    if |c.trajectory.samples| >= 2 { PlayableTotal(c.trajectory); }
  }

  lemma ReturnNeedsAReason(c: Config, s: RunState, t: Turn)
    requires Ready(c) && Usable(c, s) && TurnOk(c, t) && Increasing(c.trajectory.samples)
    requires s.phase != Returning && Adopted(s, t).None? && Iterate(c, s, t).phase == Returning
    ensures !c.endless && PlayedToTheEnd(c, Iterate(c, s, t))
  {
    var after := Iterate(c, s, t);
    PhasesMeet(c, s, t);
    var now := Effective(Step(s.clock, PauseAsked(t), t.now), t.now);
    FinishedIsLastSample(c, now - s.trajectoryStart);
    assert after.commands[|after.commands| - 1] in after.commands;
  }

  /**
   A run returns for one of two reasons: a stop was adopted, or the trajectory, played one-shot, was commanded to its
   last sample. Endless playback returns only when stopped.
   */
  lemma {:induction false} ReturnsForAReason(c: Config, turns: seq<Turn>, n: nat)
    requires Ready(c) && TurnsOk(c, turns) && n <= |turns| && Increasing(c.trajectory.samples)
    requires RunOf(c, turns, n).phase == Returning
    requires forall i | 0 <= i < n :: Adopted(RunOf(c, turns, i), turns[i]).None?
    ensures !c.endless && PlayedToTheEnd(c, RunOf(c, turns, n))
  {
    hide Iterate;
    if n > 0 {
      var before := RunOf(c, turns, n - 1);
      if before.phase == Returning {
        ReturnsForAReason(c, turns, n - 1);
        IterateAdvances(c, before, turns[n - 1]);
      } else {
        ReturnNeedsAReason(c, before, turns[n - 1]);
      }
    }
  }

  // ---------------------------------------------------------------- the clocks of a run

  function Ends(turns: seq<Turn>): seq<int> { seq(|turns|, i requires 0 <= i < |turns| => turns[i].end) }

  function Requests(turns: seq<Turn>): seq<Request> {
    seq(|turns|, i requires 0 <= i < |turns| => Request(PauseAsked(turns[i]), turns[i].now))
  }

  lemma IterateClocks(c: Config, s: RunState, t: Turn)
    requires Ready(c) && Usable(c, s) && TurnOk(c, t) && Iterate(c, s, t).status == Running
    ensures s.status == Running
    ensures Iterate(c, s, t).nextTick == NextTick(s.nextTick, c.period, t.end)
    ensures Iterate(c, s, t).clock == Step(s.clock, PauseAsked(t), t.now)
  {
    hide Lerp, InRadians, PlaybackAt, Progress, Step;
  }

  /** While a run goes on, its ticks and its pause clock are the ones of the two schedules. */
  lemma {:induction false} RunClocks(c: Config, turns: seq<Turn>, n: nat)
    requires Ready(c) && TurnsOk(c, turns) && n <= |turns| && RunOf(c, turns, n).status == Running
    ensures RunOf(c, turns, n).nextTick == Tick(c.start, c.period, Ends(turns), n)
    ensures RunOf(c, turns, n).clock == After(Requests(turns), n)
  {
    hide Iterate, Step, NextTick;
    if n > 0 {
      IterateClocks(c, RunOf(c, turns, n - 1), turns[n - 1]);
      RunClocks(c, turns, n - 1);
    }
  }

  /** The clock never goes back, and the loop sleeps at the end of an iteration whose next tick is still to come. */
  predicate Sleeps(c: Config, turns: seq<Turn>)
    requires Ready(c) && TurnsOk(c, turns)
  {
    && (turns != [] ==> turns[0].now >= c.start)
    && forall i | 0 < i < |turns| ::
         var tick := RunOf(c, turns, i).nextTick;
         turns[i].now >= turns[i - 1].end && (tick > turns[i - 1].end ==> turns[i].now >= tick)
  }

  /** Iteration n of a run never starts before start + n periods, however earlier iterations overran. */
  lemma NeverEarly(c: Config, turns: seq<Turn>, n: nat)
    requires Ready(c) && TurnsOk(c, turns) && Sleeps(c, turns) && n < |turns| && RunOf(c, turns, n).status == Running
    ensures turns[n].now >= c.start + n * c.period
  {
    RunClocks(c, turns, n);
    Schedule(c.start, c.period, Ends(turns), n);
    hide RunOf;
    assert n > 0 ==> RunOf(c, turns, n).nextTick > turns[n - 1].end || RunOf(c, turns, n).nextTick == turns[n - 1].end;
  }
}
