/** The three-phase control loop of playback: startup, playback and the return, under stops, pauses and overruns. */
module PlayRun {
  import opened Wrappers
  import opened Trajectory
  import opened TrajectoryMotion
  import opened PlayClock

  const SECOND: int := 1_000_000_000
  const TRANSITION: int := 2 * SECOND
  const RADIANS: real := 3.14159265358979323846 / 180.0

  datatype Phase = Startup | Playback | Returning

  datatype Status = Running | Finished | Stopped | Aborted

  /** Positions handed to the motors; shorter than the motors only where a send threw. */
  datatype Command = Command(phase: Phase, positions: seq<real>)

  datatype Config = Config(trajectory: Trajectory, endless: bool, initial: seq<real>, start: int, period: int)

  /**
   What one iteration meets: the stop counter each time it is read, the pause flag it finds and whether the pause key is
   pressed between that test and the pause clock's own reading of the flag, the clock at the start and the end,
   the positions read while stopping (None if a read throws), and after how many motors a send throws, if it does.
   */
  datatype Turn = Turn(
    now: int, stopAtTop: nat, pause: bool, stopAtPause: nat, pressed: bool, stopBeforePhase: nat,
    read: Option<seq<real>>, stopAfterRead: nat, stopBeforeSend: nat, throwsAt: Option<nat>, end: int)

  datatype RunState = RunState(
    phase: Phase, phaseStart: int, trajectoryStart: int, clock: Pause, returnStart: seq<real>,
    commands: seq<Command>, nextTick: int, status: Status)

  /** What Run checks and reads before the loop. */
  predicate Ready(c: Config) {
    Validity(c.trajectory).Success? && |c.initial| == |c.trajectory.motorNames|
  }

  predicate TurnOk(c: Config, t: Turn) { t.read.Some? ==> |t.read.value| == |c.initial| }

  function InRadians(degrees: seq<real>): (r: seq<real>)
    ensures |r| == |degrees|
  {
    seq(|degrees|, m requires 0 <= m < |degrees| => degrees[m] * RADIANS)
  }

  function Seconds(ns: int): real { ns as real / SECOND as real }

  function Progress(elapsed: int): real {
    var p := Seconds(elapsed) / 2.0;
    if p < 0.0 then 0.0 else if p > 1.0 then 1.0 else p
  }

  function FirstTarget(c: Config): (r: seq<real>)
    requires Ready(c)
    ensures |r| == |c.initial|
  {
    InRadians(c.trajectory.samples[0].positions)
  }

  function PlaybackAt(c: Config, elapsed: int): (s: PlaybackState)
    requires Ready(c)
    ensures |s.positions| == |c.initial|
  {
    PlaybackWidth(c.trajectory, Seconds(elapsed), c.endless);
    Evaluate(c.trajectory, Seconds(elapsed), c.endless).value
  }

  function Initial(c: Config): RunState {
    RunState(Startup, c.start, c.start, Pause(false, 0, 0), [], [], c.start, Running)
  }

  /** The commands after a send. It may throw part way, or after the last motor, where the adapters are committed. */
  function Send(s: RunState, positions: seq<real>, t: Turn): RunState {
    if t.throwsAt.Some? && t.throwsAt.value <= |positions|
    then s.(commands := s.commands + [Command(s.phase, positions[..t.throwsAt.value])], status := Aborted)
    else s.(commands := s.commands + [Command(s.phase, positions)])
  }

  /** The end of an iteration that goes on. */
  function EndTurn(c: Config, s: RunState, t: Turn): RunState {
    s.(nextTick := NextTick(s.nextTick, c.period, t.end))
  }

  /** The phase switch at a stop request. */
  function HandleStop(s: RunState, now: int, t: Turn): RunState {
    if t.stopBeforePhase < 1 || s.phase == Returning then s
    else if t.read.None? then s.(status := Stopped)
    else if t.stopAfterRead >= 2 then s.(returnStart := t.read.value, status := Stopped)
    else s.(returnStart := t.read.value, phase := Returning, phaseStart := now)
  }

  predicate Usable(c: Config, s: RunState) { s.phase == Returning ==> |s.returnStart| == |c.initial| }

  function CommandPhase(c: Config, s: RunState, now: int, t: Turn): RunState
    requires Ready(c) && Usable(c, s)
  {
    var elapsed := now - s.phaseStart;
    match s.phase
    case Startup =>
      var sent := Send(s, Lerp(c.initial, FirstTarget(c), Progress(elapsed)), t);
      if sent.status == Aborted then sent
      else if elapsed >= TRANSITION then EndTurn(c, sent.(phase := Playback, trajectoryStart := now), t)
      else EndTurn(c, sent, t)
    case Returning =>
      var sent := Send(s, Lerp(s.returnStart, c.initial, Progress(elapsed)), t);
      if sent.status == Aborted then sent
      else if elapsed >= TRANSITION then sent.(status := Finished)
      else EndTurn(c, sent, t)
    case Playback =>
      var state := PlaybackAt(c, now - s.trajectoryStart);
      var sent := Send(s, InRadians(state.positions), t);
      if sent.status == Aborted then sent
      else if state.finished && !c.endless
      then EndTurn(c, sent.(returnStart := InRadians(state.positions), phase := Returning, phaseStart := now), t)
      else EndTurn(c, sent, t)
  }

  /** What the pause clock is asked: a stop request clears the flag, a key press in between turns it over. */
  predicate PauseAsked(t: Turn) { (t.pause && t.stopAtPause < 1) != t.pressed }

  /** One iteration of the loop. */
  function Iterate(c: Config, s: RunState, t: Turn): RunState
    requires Ready(c) && Usable(c, s) && TurnOk(c, t)
  {
    if s.status != Running then s
    else if t.stopAtTop >= 2 then s.(status := Stopped)
    else
      var clock := Step(s.clock, PauseAsked(t), t.now);
      var now := Effective(clock, t.now);
      var stopped := HandleStop(s.(clock := clock), now, t);
      if stopped.status != Running then stopped
      else if t.stopBeforeSend >= 2 then stopped.(status := Stopped)
      else CommandPhase(c, stopped, now, t)
  }

  lemma IterateIsUsable(c: Config, s: RunState, t: Turn)
    requires Ready(c) && Usable(c, s) && TurnOk(c, t)
    ensures Usable(c, Iterate(c, s, t))
  {
    hide Lerp, InRadians, PlaybackAt;
  }

  /** The state after the first n turns. */
  function RunOf(c: Config, turns: seq<Turn>, n: nat): (s: RunState)
    requires Ready(c) && n <= |turns| && forall t | t in turns :: TurnOk(c, t)
    ensures Usable(c, s)
  {
    if n == 0 then Initial(c)
    else
      var before := RunOf(c, turns, n - 1);
      IterateIsUsable(c, before, turns[n - 1]);
      Iterate(c, before, turns[n - 1])
  }
}
