/** A stop brings the motors home: exactly when the return ends, for any pauses around the stop. */
module PlayHome {
  import opened Wrappers
  import opened Trajectory
  import opened PlayClock
  import opened PlayRun
  import opened PlayRunLaws

  /** A turn in which no second stop is seen and no send throws. The pause key may be pressed. */
  predicate Calm(t: Turn) { t.stopAtTop < 2 && t.stopBeforeSend < 2 && t.throwsAt.None? }

  /** The stop is adopted in turn k, which like all turns up to n is calm. */
  predicate StopsFrom(c: Config, turns: seq<Turn>, k: nat, n: nat)
    requires Ready(c) && TurnsOk(c, turns) && k <= n < |turns|
  {
    Adopted(RunOf(c, turns, k), turns[k]).Some? && forall i | k <= i <= n :: Calm(turns[i])
  }

  /** Two seconds of effective time have passed from turn k to turn i. */
  predicate TimeUp(turns: seq<Turn>, k: nat, i: nat)
    requires k < |turns| && i < |turns|
  {
    EffectiveAt(Requests(turns), i) - EffectiveAt(Requests(turns), k) >= TRANSITION
  }

  /** That has been so at some turn from k + 1 to n. */
  predicate TimeUpBy(turns: seq<Turn>, k: nat, n: nat)
    requires k <= n < |turns|
  {
    exists i | k < i <= n :: TimeUp(turns, k, i)
  }

  lemma TimeUpNext(turns: seq<Turn>, k: nat, n: nat)
    requires k < n < |turns|
    ensures TimeUpBy(turns, k, n) <==> TimeUpBy(turns, k, n - 1) || TimeUp(turns, k, n)
  {
    hide TimeUp;
    if TimeUpBy(turns, k, n) {
      var i :| k < i <= n && TimeUp(turns, k, i);
      assert i == n || i <= n - 1;
    }
  }

  /** On the way home, from the effective time of turn k. */
  predicate OnTheWay(turns: seq<Turn>, k: nat, s: RunState)
    requires k < |turns|
  {
    s.status == Running && s.phase == Returning && s.phaseStart == EffectiveAt(Requests(turns), k)
  }

  lemma StopStarts(c: Config, s: RunState, t: Turn)
    requires Ready(c) && Usable(c, s) && TurnOk(c, t) && Adopted(s, t).Some? && Calm(t)
    ensures var after := Iterate(c, s, t);
      after.status == Running && after.phase == Returning && after.phaseStart == Effective(after.clock, t.now)
  {
    hide Lerp, InRadians, PlaybackAt, Progress, Step, Effective;
  }

  lemma ReturnTurn(c: Config, s: RunState, t: Turn)
    requires Ready(c) && Usable(c, s) && TurnOk(c, t) && Calm(t)
    requires s.status == Running && s.phase == Returning
    ensures var after := Iterate(c, s, t); var elapsed := Effective(after.clock, t.now) - s.phaseStart;
      && after.clock == Step(s.clock, PauseAsked(t), t.now)
      && if elapsed >= TRANSITION then after.status == Finished
         else after.status == Running && after.phase == Returning && after.phaseStart == s.phaseStart
  {
    hide Lerp, InRadians, PlaybackAt, Progress, Step, Effective;
  }

  /**
   Exactly when a stopped run is home, whatever is paused and resumed meanwhile: at the first turn two seconds of
   effective time after the stop was adopted, where it has commanded exactly the initial positions. Until then it is on
   its way.
   */
  lemma {:induction false} HomeExactlyWhen(c: Config, turns: seq<Turn>, k: nat, n: nat)
    requires Ready(c) && TurnsOk(c, turns) && k <= n < |turns| && StopsFrom(c, turns, k, n)
    ensures if TimeUpBy(turns, k, n)
            then RunOf(c, turns, n + 1).status == Finished
                 && LastIs(RunOf(c, turns, n + 1), Command(Returning, c.initial))
            else OnTheWay(turns, k, RunOf(c, turns, n + 1))
  {
    hide Iterate, Effective, Step, TimeUpBy;
    var before := RunOf(c, turns, n);
    if n == k {
      NotYetUp(turns, k);
      StopStarts(c, before, turns[k]);
      RunClocks(c, turns, k + 1);
    } else {
      HomeExactlyWhen(c, turns, k, n - 1);
      TimeUpNext(turns, k, n);
      if before.status == Running {
        ReturnTurn(c, before, turns[n]);
        RunClocks(c, turns, n);
        assert EffectiveAt(Requests(turns), n) == Effective(RunOf(c, turns, n + 1).clock, turns[n].now);
      } else {
        EndedStays(c, before, turns[n]);
      }
      if RunOf(c, turns, n + 1).status == Finished { FinishedAtInitial(c, turns, n + 1); }
    }
  }

  lemma NotYetUp(turns: seq<Turn>, k: nat)
    requires k < |turns|
    ensures !TimeUpBy(turns, k, k)
  {
  }

  /** With no pause asked for between two turns, effective time moves with the clock. */
  lemma {:induction false} MovesWithClock(rs: seq<Request>, i: nat, j: nat)
    requires i <= j < |rs| && forall k | i <= k < j :: !rs[k].pause
    ensures EffectiveAt(rs, j) - EffectiveAt(rs, i) == rs[j].now - rs[i].now
  {
    hide EffectiveAt;
    if i < j {
      MovesWithClock(rs, i, j - 1);
      EffectiveMoves(rs, j - 1);
    }
  }

  /** The turn from whose clock reading the two seconds count: a stop adopted in a paused turn counts from the next. */
  function CountsFrom(turns: seq<Turn>, k: nat): nat
    requires k < |turns|
  {
    if PauseAsked(turns[k]) then k + 1 else k
  }

  /**
   In clock time: a calm stop with no pause after turn k has brought every motor to exactly its initial position by the
   first turn two seconds after turn k, or after the turn that follows it if turn k was itself asked to pause.
   */
  lemma StopComesHome(c: Config, turns: seq<Turn>, k: nat, n: nat)
    requires Ready(c) && TurnsOk(c, turns) && k < n < |turns| && StopsFrom(c, turns, k, n)
    requires forall i | k < i < n :: !PauseAsked(turns[i])
    requires turns[n].now - turns[CountsFrom(turns, k)].now >= TRANSITION
    ensures RunOf(c, turns, n + 1).status == Finished
    ensures LastIs(RunOf(c, turns, n + 1), Command(Returning, c.initial))
  {
    hide RunOf, EffectiveAt;
    var rs := Requests(turns);
    MovesWithClock(rs, CountsFrom(turns, k), n);
    if PauseAsked(turns[k]) { EffectiveMoves(rs, k); }
    assert TimeUp(turns, k, n);
    HomeExactlyWhen(c, turns, k, n);
  }

  /** What a turn asks of the pause clock: the flag, unless a stop has cleared it; a later key press turns it over. */
  lemma PauseIsAsked(t: Turn)
    ensures t.stopAtPause == 0 && !t.pressed ==> (PauseAsked(t) <==> t.pause)
    ensures t.stopAtPause == 0 && t.pressed ==> (PauseAsked(t) <==> !t.pause)
    ensures t.stopAtPause >= 1 ==> (PauseAsked(t) <==> t.pressed)
  {
  }

  /** A stop adopted in a turn that was asked to pause never ends in the next turn, however late that turn is. */
  lemma PausedStopIsLate(c: Config, turns: seq<Turn>, k: nat)
    requires Ready(c) && TurnsOk(c, turns) && k + 1 < |turns| && StopsFrom(c, turns, k, k + 1) && PauseAsked(turns[k])
    ensures RunOf(c, turns, k + 2).status == Running
  {
    hide RunOf, EffectiveAt;
    EffectiveMoves(Requests(turns), k);
    HomeExactlyWhen(c, turns, k, k + 1);
  }

  /** It does happen: a stop arrives between the two tests of a paused turn, and the next turn is two seconds later. */
  lemma StopBetweenTests(c: Config) returns (turns: seq<Turn>)
    requires Ready(c)
    ensures |turns| == 2 && TurnsOk(c, turns) && StopsFrom(c, turns, 0, 1) && turns[1].now - turns[0].now >= TRANSITION
    ensures forall t | t in turns :: !t.pressed
    ensures RunOf(c, turns, 2).status == Running
  {
    var now := c.start;
    turns := [
      Turn(now, 0, true, 0, false, 1, Some(c.initial), 1, 1, None, now),
      Turn(now + TRANSITION, 1, true, 1, false, 1, None, 1, 1, None, now + TRANSITION)];
    PausedStopIsLate(c, turns, 0);
  }
}
