/** The two clocks of the control loop: the pause clock and the tick schedule. Times are clock counts. */
module PlayClock {

  // ---------------------------------------------------------------- the pause clock

  datatype Pause = Pause(paused: bool, started: int, duration: int)

  function Step(s: Pause, requested: bool, now: int): Pause {
    if requested && !s.paused then s.(paused := true, started := now)
    else if !requested && s.paused then s.(paused := false, duration := s.duration + (now - s.started))
    else s
  }

  function Effective(s: Pause, now: int): int { (if s.paused then s.started else now) - s.duration }

  class PauseClock {
    var paused: bool
    var pauseStarted: int
    var pausedDuration: int

    function State(): Pause
      reads this
    {
      Pause(paused, pauseStarted, pausedDuration)
    }

    constructor ()
      ensures State() == Pause(false, 0, 0)
    {
      paused, pauseStarted, pausedDuration := false, 0, 0;
    }

    method Update(requested: bool, now: int) returns (effective: int)
      modifies this
      ensures State() == Step(old(State()), requested, now)
      ensures effective == Effective(State(), now)
    {
      if requested && !paused {
        paused := true;
        pauseStarted := now;
      } else if !requested && paused {
        pausedDuration := pausedDuration + (now - pauseStarted);
        paused := false;
      }
      effective := (if paused then pauseStarted else now) - pausedDuration;
    }
  }

  /** One update: what was asked and what the clock read. */
  datatype Request = Request(pause: bool, now: int)

  predicate ClockAscends(rs: seq<Request>) {
    forall i | 0 <= i < |rs| - 1 :: rs[i].now <= rs[i + 1].now
  }

  /** The state after the first n updates. */
  function After(rs: seq<Request>, n: nat): Pause
    requires n <= |rs|
  {
    if n == 0 then Pause(false, 0, 0) else Step(After(rs, n - 1), rs[n - 1].pause, rs[n - 1].now)
  }

  /** The effective time that update n returns. */
  function EffectiveAt(rs: seq<Request>, n: nat): int
    requires n < |rs|
  {
    Effective(After(rs, n + 1), rs[n].now)
  }

  /** The sum of the intervals up to update n that began unpaused. */
  function Unpaused(rs: seq<Request>, n: nat): int
    requires n < |rs|
  {
    if n == 0 then 0
    else Unpaused(rs, n - 1) + if rs[n - 1].pause then 0 else rs[n].now - rs[n - 1].now
  }

  /** Effective time is the first reading plus exactly the time that passed unpaused. */
  lemma {:induction false} EffectiveIsUnpaused(rs: seq<Request>, n: nat)
    requires n < |rs|
    ensures EffectiveAt(rs, n) == rs[0].now + Unpaused(rs, n)
    ensures After(rs, n + 1).paused == rs[n].pause
  {
    if n > 0 { EffectiveIsUnpaused(rs, n - 1); } else { assert After(rs, 0) == Pause(false, 0, 0); }
  }

  /**
   For any requests and any clock: the time stands still across an interval that began paused, whether it ends in a
   resume or not, and otherwise moves with the clock; so it never goes back while the clock does not.
   */
  lemma EffectiveMoves(rs: seq<Request>, n: nat)
    requires n + 1 < |rs|
    ensures rs[n].pause ==> EffectiveAt(rs, n + 1) == EffectiveAt(rs, n)
    ensures !rs[n].pause ==> EffectiveAt(rs, n + 1) - EffectiveAt(rs, n) == rs[n + 1].now - rs[n].now
  {
    EffectiveIsUnpaused(rs, n);
    EffectiveIsUnpaused(rs, n + 1);
  }

  lemma {:induction false} EffectiveAscends(rs: seq<Request>, i: nat, j: nat)
    requires ClockAscends(rs) && i <= j < |rs|
    ensures EffectiveAt(rs, i) <= EffectiveAt(rs, j)
    ensures EffectiveAt(rs, j) - EffectiveAt(rs, i) <= rs[j].now - rs[i].now
  {
    if i < j {
      EffectiveAscends(rs, i, j - 1);
      EffectiveMoves(rs, j - 1);
    }
  }

  // ---------------------------------------------------------------- the tick schedule

  function NextTick(previous: int, period: int, now: int): int {
    if previous + period > now then previous + period else now
  }

  /** Tick n of a loop whose iteration i ends at ends[i]. */
  function Tick(start: int, period: int, ends: seq<int>, n: nat): int
    requires n <= |ends|
  {
    if n == 0 then start else NextTick(Tick(start, period, ends, n - 1), period, ends[n - 1])
  }

  /** Iteration i ended after the tick that should have followed it. */
  predicate Overran(start: int, period: int, ends: seq<int>, i: nat)
    requires i < |ends|
  {
    ends[i] > Tick(start, period, ends, i) + period
  }

  /** Successive ticks are never closer than a period, so an overrun is not followed by a burst. */
  lemma {:induction false} TicksApart(start: int, period: int, ends: seq<int>, i: nat, j: nat)
    requires i <= j <= |ends|
    ensures Tick(start, period, ends, j) >= Tick(start, period, ends, i) + (j - i) * period
  {
    if i < j {
      TicksApart(start, period, ends, i, j - 1);
      assert (j - i) * period == (j - 1 - i) * period + period;
    }
  }

  /** Without overruns from iteration i on, the ticks keep exact time from tick i. */
  lemma {:induction false} TicksExact(start: int, period: int, ends: seq<int>, i: nat, j: nat)
    requires i <= j <= |ends| && forall k | i <= k < j :: !Overran(start, period, ends, k)
    ensures Tick(start, period, ends, j) == Tick(start, period, ends, i) + (j - i) * period
  {
    if i < j {
      TicksExact(start, period, ends, i, j - 1);
      assert !Overran(start, period, ends, j - 1);
      assert (j - i) * period == (j - 1 - i) * period + period;
    }
  }

  /** No tick is early, and tick n is exactly at start + n * period if and only if no iteration before it overran. */
  lemma Schedule(start: int, period: int, ends: seq<int>, n: nat)
    requires n <= |ends|
    ensures Tick(start, period, ends, n) >= start + n * period
    ensures Tick(start, period, ends, n) == start + n * period <==>
      forall k | 0 <= k < n :: !Overran(start, period, ends, k)
  {
    TicksApart(start, period, ends, 0, n);
    if k :| 0 <= k < n && Overran(start, period, ends, k) {
      TicksApart(start, period, ends, 0, k);
      TicksApart(start, period, ends, k + 1, n);
      PeriodsAdd(period, k, n - k - 1);
    } else {
      TicksExact(start, period, ends, 0, n);
    }
  }

  lemma PeriodsAdd(period: int, k: nat, m: nat)
    ensures k * period + period + m * period == (k + 1 + m) * period
  {
  }

  /** After overruns the ticks count from the end of the last one. */
  lemma AfterOverrun(start: int, period: int, ends: seq<int>, i: nat, n: nat)
    requires i < n <= |ends| && Overran(start, period, ends, i)
    requires forall k | i < k < n :: !Overran(start, period, ends, k)
    ensures Tick(start, period, ends, n) == ends[i] + (n - i - 1) * period
  {
    assert Tick(start, period, ends, i + 1) == ends[i];
    TicksExact(start, period, ends, i + 1, n);
  }
}
