/** What every interleaving of scans keeps, and what it reaches. */
module ScanProtocol {
  import ScanResult
  import opened ScanManager

  // ---------------------------------------------------------------- counting workers

  lemma OutBounds(ws: seq<Worker>)
    ensures Out(ws) <= |ws|
    ensures Out(ws) == |ws| <==> forall i | 0 <= i < |ws| :: IsOut(ws[i])
  {
    if ws != [] {
      var before := ws[..|ws| - 1];
      OutBounds(before);
      assert forall i | 0 <= i < |before| :: before[i] == ws[i];
    }
  }

  lemma EndingBounds(ws: seq<Worker>)
    ensures Ending(ws) == 0 <==> forall i | 0 <= i < |ws| :: !IsTurningOff(ws[i])
  {
    if ws != [] {
      var before := ws[..|ws| - 1];
      EndingBounds(before);
      assert forall i | 0 <= i < |before| :: before[i] == ws[i];
    }
  }

  lemma CountsUpdate(ws: seq<Worker>, i: nat, w: Worker)
    requires i < |ws|
    ensures Out(ws[i := w]) == Out(ws) - One(IsOut(ws[i])) + One(IsOut(w))
    ensures Ending(ws[i := w]) == Ending(ws) - One(IsTurningOff(ws[i])) + One(IsTurningOff(w))
  {
    var before, after := ws[..|ws| - 1], ws[i := w];
    if i < |ws| - 1 {
      CountsUpdate(before, i, w);
      assert after[..|ws| - 1] == before[i := w];
    } else {
      assert after[..|ws| - 1] == before;
    }
  }

  lemma CountsAppend(ws: seq<Worker>, w: Worker)
    ensures Out(ws + [w]) == Out(ws) + One(IsOut(w)) && Ending(ws + [w]) == Ending(ws) + One(IsTurningOff(w))
  {
    assert (ws + [w])[..|ws|] == ws;
  }

  // ---------------------------------------------------------------- the invariant is kept

  /** When all workers are done, the counter is back at zero and the scan has been ended. */
  lemma AllDoneCounts(s: System)
    requires Inv(s) && AllDone(s.workers) && Unlaunched(s) == 0
    ensures s.tasks == 0 && !s.globalActive && s.turnedOff == if s.total > 0 then 1 else 0
  {
    OutBounds(s.workers);
    EndingBounds(s.workers);
  }

  lemma MainKeeps(s: System, step: Step)
    requires Inv(s) && Enabled(s, step)
    requires step.ScanAll? || step.ScanBus? || step.Join? || step.StoreCount? || step.StoreActive? || step.EndLaunch?
    ensures Inv(Next(s, step))
  {
    if step.Join? {
      JoinKeeps(s);
    } else {
      var after := Next(s, step);
      assert after.workers == s.workers && after.locked == s.locked && after.results == s.results;
      SameWorkersFit(s, after);
      hide WorkersFit;
    }
  }

  lemma SameWorkersFit(s: System, after: System)
    requires WorkersFit(s)
    requires after.workers == s.workers && after.locked == s.locked && after.results == s.results
    ensures WorkersFit(after)
  {
  }

  lemma JoinKeeps(s: System)
    requires Inv(s) && Enabled(s, Join)
    ensures Inv(Next(s, Join))
  {
    AllDoneCounts(s);
    assert s.locked == {};
  }

  lemma LaunchKeeps(s: System, key: Key, isGlobal: bool, main: MainPc)
    requires Inv(s) && forall i | 0 <= i < |s.workers| :: s.workers[i].key != key
    requires isGlobal || s.workers == []
    requires var after := Started(s, key, isGlobal).(main := main);
      MainFits(after) && !main.StoringActive? && !s.main.StoringActive?
    ensures Inv(Started(s, key, isGlobal).(main := main))
  {
    var after := Started(s, key, isGlobal).(main := main);
    assert after.workers[..|s.workers|] == s.workers;
    LaunchedWorkersFit(s, after, key);
    hide WorkersFit, MainFits;
    CountsAppend(s.workers, after.workers[|s.workers|]);
    hide Out, Ending;
  }

  lemma LaunchedWorkersFit(s: System, after: System, key: Key)
    requires WorkersFit(s) && (forall i | 0 <= i < |s.workers| :: s.workers[i].key != key)
    requires |after.workers| == |s.workers| + 1 && after.workers[..|s.workers|] == s.workers && after.locked == s.locked
    requires var begun := ScanResult.Apply(ResultOf(s, key), ScanResult.Begin); var w := after.workers[|s.workers|];
      after.results == s.results[key := begun] && w.key == key && w.token == begun.revision && w.pc == Locking
    ensures WorkersFit(after)
  {
    assert forall i | 0 <= i < |s.workers| :: after.workers[i] == s.workers[i];
    LaunchedLocksFit(s, after);
    hide LocksFit;
    forall i | 0 <= i < |after.workers| ensures TokenFits(after, after.workers[i]) {
      if i < |s.workers| { assert TokenFits(s, s.workers[i]); }
    }
  }

  lemma LaunchedLocksFit(s: System, after: System)
    requires LocksFit(s) && |after.workers| == |s.workers| + 1 && after.workers[..|s.workers|] == s.workers
    requires after.locked == s.locked && after.workers[|s.workers|].pc == Locking
    ensures LocksFit(after)
  {
    assert forall i | 0 <= i < |s.workers| :: after.workers[i] == s.workers[i];
    forall k | k in after.locked
      ensures exists i | 0 <= i < |after.workers| :: after.workers[i].key == k && HoldsLock(after.workers[i])
    {
      var i :| 0 <= i < |s.workers| && s.workers[i].key == k && HoldsLock(s.workers[i]);
      assert after.workers[i].key == k;
    }
  }

  lemma StartKeeps(s: System, step: Step)
    requires Inv(s) && Enabled(s, step) && (step.Launch? || step.LaunchBus?)
    ensures Inv(Next(s, step))
  {
    hide WorkersFit, CountersFit;
    if step.Launch? {
      var jobs, k := s.main.jobs, s.main.launched;
      forall i | 0 <= i < |s.workers| ensures s.workers[i].key != jobs[k] {
        assert s.workers[i].key == jobs[i];
      }
      LaunchKeeps(s, jobs[k], true, Launching(jobs, k + 1));
    } else {
      LaunchKeeps(s, s.main.bus, false, Ready);
    }
  }

  predicate StepOf(step: Step, i: nat) {
    step == Lock(i) || (step.Complete? && step.worker == i) || step == Fail(i) || step == CountOut(i)
    || step == TurnOff(i) || step == Release(i)
  }

  lemma WorkerKeeps(s: System, step: Step, i: nat)
    requires Inv(s) && Enabled(s, step) && StepOf(step, i)
    ensures Inv(Next(s, step))
  {
    hide WorkersFit, CountersFit, MainFits, Next, Enabled;
    WorkerMoves(s, step, i);
    WorkerStepFits(s, step, i);
    WorkerCounts(s, step, i);
    MovedMainFits(s, Next(s, step), i);
  }

  /** A step of worker i changes no other worker and nothing of the main thread. */
  lemma WorkerMoves(s: System, step: Step, i: nat)
    requires Enabled(s, step) && StepOf(step, i)
    ensures var after := Next(s, step);
      && i < |s.workers| == |after.workers| && after.main == s.main && after.total == s.total
      && after.workers == s.workers[i := after.workers[i]]
      && after.workers[i].key == s.workers[i].key && after.workers[i].token == s.workers[i].token
      && after.workers[i].isGlobal == s.workers[i].isGlobal
  {
  }

  /** What the invariant says of one worker and its bus. */
  lemma OneWorkerFits(s: System, i: nat)
    requires WorkersFit(s) && i < |s.workers|
    ensures TokenFits(s, s.workers[i]) && (HoldsLock(s.workers[i]) <==> s.workers[i].key in s.locked)
  {
    if s.workers[i].key in s.locked {
      var j :| 0 <= j < |s.workers| && s.workers[j].key == s.workers[i].key && HoldsLock(s.workers[j]);
      assert j == i;
    }
  }

  lemma WorkerStepFits(s: System, step: Step, i: nat)
    requires WorkersFit(s) && Enabled(s, step) && StepOf(step, i)
    ensures WorkersFit(Next(s, step))
  {
    WorkerMoves(s, step, i);
    OneWorkerFits(s, i);
    WorkerLocks(s, step, i);
    WorkerToken(s, step, i);
    hide WorkersFit, Next, Enabled, TokenFits, HoldsLock;
    MovedWorkersFit(s, Next(s, step), i);
  }

  /** What a step of a worker does to its place and to the locks. */
  lemma WorkerPlaces(s: System, step: Step, i: nat)
    requires Enabled(s, step) && StepOf(step, i)
    ensures i < |s.workers| == |Next(s, step).workers|
    ensures var after, w, v := Next(s, step), s.workers[i], Next(s, step).workers[i];
      && (HoldsLock(w) <==> !step.Lock?) && (HoldsLock(v) <==> !step.Release?)
      && after.locked == (if step.Lock? then s.locked + {w.key} else if step.Release? then s.locked - {w.key}
                          else s.locked)
      && (IsPublished(v) <==> IsPublished(w) || step.Complete? || step.Fail?)
      && (v.pc == TurningOff ==> v.isGlobal)
  {
  }

  /** Only a publication changes results. */
  lemma OnlyPublishing(s: System, step: Step, i: nat)
    requires Enabled(s, step) && StepOf(step, i) && !step.Complete? && !step.Fail?
    ensures Next(s, step).results == s.results
  {
  }

  /** A worker that moves on holds its lock from Lock to Release. */
  lemma WorkerLocks(s: System, step: Step, i: nat)
    requires WorkersFit(s) && Enabled(s, step) && StepOf(step, i)
    ensures i < |s.workers| == |Next(s, step).workers|
    ensures var after, key := Next(s, step), s.workers[i].key;
      after.locked == if HoldsLock(after.workers[i]) then s.locked + {key} else s.locked - {key}
  {
    OneWorkerFits(s, i);
    WorkerPlaces(s, step, i);
    hide WorkersFit, TokenFits, Next, Enabled, HoldsLock;
  }

  lemma WorkerToken(s: System, step: Step, i: nat)
    requires WorkersFit(s) && Enabled(s, step) && StepOf(step, i)
    ensures i < |s.workers| == |Next(s, step).workers| && TokenFits(Next(s, step), Next(s, step).workers[i])
    ensures forall k | k != s.workers[i].key :: ResultOf(Next(s, step), k) == ResultOf(s, k)
  {
    WorkerPlaces(s, step, i);
    WorkerMoves(s, step, i);
    hide WorkersFit, Next, Enabled, IsPublished, HoldsLock;
    OneWorkerFits(s, i);
    if step.Complete? || step.Fail? { TokenIsCurrent(s, step, i); } else { OnlyPublishing(s, step, i); }
  }

  /** Publications always count: the token is still current, so the result turns Complete or Failed. */
  lemma TokenIsCurrent(s: System, step: Step, i: nat)
    requires WorkersFit(s) && Enabled(s, step) && StepOf(step, i) && (step.Complete? || step.Fail?)
    ensures var w := s.workers[i]; var r := ResultOf(Next(s, step), w.key);
      && r == (if step.Complete? then ScanResult.Result(step.motors, ScanResult.Complete, w.token)
               else ScanResult.Result(map[], ScanResult.Failed, w.token))
      && forall k | k != w.key :: ResultOf(Next(s, step), k) == ResultOf(s, k)
  {
    hide WorkersFit;
    OneWorkerFits(s, i);
  }

  lemma WorkerCounts(s: System, step: Step, i: nat)
    requires Inv(s) && Enabled(s, step) && StepOf(step, i)
    ensures CountersFit(Next(s, step))
  {
    OneWorkerFits(s, i);
    TasksCover(s);
    hide WorkersFit, MainFits, Next;
    WorkerMoves(s, step, i);
    hide Out, Ending, CountersFit;
    if step.CountOut? {
      CountOutCounts(s, i);
    } else if step.TurnOff? {
      TurnOffCounts(s, i);
    } else {
      QuietCounts(s, step, i);
    }
  }

  lemma CountOutCounts(s: System, i: nat)
    requires CountersFit(s) && Enabled(s, CountOut(i)) && (s.workers[i].isGlobal ==> s.tasks > 0)
    ensures CountersFit(Next(s, CountOut(i)))
  {
    CountsUpdate(s.workers, i, Next(s, CountOut(i)).workers[i]);
    hide Out, Ending;
  }

  lemma TurnOffCounts(s: System, i: nat)
    requires CountersFit(s) && Enabled(s, TurnOff(i)) && s.workers[i].isGlobal
    ensures CountersFit(Next(s, TurnOff(i)))
  {
    CountsUpdate(s.workers, i, Next(s, TurnOff(i)).workers[i]);
    hide Out, Ending;
  }

  lemma QuietCounts(s: System, step: Step, i: nat)
    requires CountersFit(s) && Enabled(s, step) && StepOf(step, i) && !step.CountOut? && !step.TurnOff?
    ensures CountersFit(Next(s, step))
  {
    WorkerMoves(s, step, i);
    QuietMoves(s, step, i);
    var w := Next(s, step).workers[i];
    CountsUpdate(s.workers, i, w);
    hide Out, Ending, Next, Enabled;
  }

  lemma QuietMoves(s: System, step: Step, i: nat)
    requires Enabled(s, step) && StepOf(step, i) && !step.CountOut? && !step.TurnOff?
    ensures var after := Next(s, step);
      && i < |s.workers| == |after.workers|
      && after.tasks == s.tasks && after.turnedOff == s.turnedOff && after.globalActive == s.globalActive
      && IsOut(after.workers[i]) == IsOut(s.workers[i])
      && IsTurningOff(after.workers[i]) == IsTurningOff(s.workers[i])
  {
  }

  /** The counter covers the workers still to count themselves out. */
  lemma TasksCover(s: System)
    requires Inv(s)
    ensures s.tasks >= 0 && s.tasks >= Unlaunched(s)
    ensures forall i | 0 <= i < |s.workers| :: s.workers[i].isGlobal && !IsOut(s.workers[i]) ==> s.tasks > 0
  {
    OutBounds(s.workers);
  }

  lemma MovedMainFits(s: System, after: System, i: nat)
    requires MainFits(s) && i < |s.workers| == |after.workers| && after.main == s.main && after.total == s.total
    requires after.workers == s.workers[i := after.workers[i]]
    requires after.workers[i].key == s.workers[i].key && after.workers[i].isGlobal == s.workers[i].isGlobal
    ensures MainFits(after)
  {
  }

  lemma MovedWorkersFit(s: System, after: System, i: nat)
    requires WorkersFit(s) && i < |s.workers| == |after.workers| && after.workers == s.workers[i := after.workers[i]]
    requires var w, v := s.workers[i], after.workers[i];
      && v.key == w.key && v.token == w.token && v.isGlobal == w.isGlobal
      && after.locked == (if HoldsLock(v) then s.locked + {w.key} else s.locked - {w.key})
      && (forall k | k != w.key :: ResultOf(after, k) == ResultOf(s, k)) && TokenFits(after, v)
    ensures WorkersFit(after)
  {
    MovedLocksFit(s, after, i);
    hide LocksFit;
    forall j | 0 <= j < |after.workers| ensures TokenFits(after, after.workers[j]) {
      if j != i {
        assert after.workers[j] == s.workers[j] && TokenFits(s, s.workers[j]);
        assert s.workers[j].key != s.workers[i].key;
      }
    }
  }

  lemma MovedLocksFit(s: System, after: System, i: nat)
    requires LocksFit(s) && KeysDiffer(s.workers)
    requires i < |s.workers| == |after.workers| && after.workers == s.workers[i := after.workers[i]]
    requires var w, v := s.workers[i], after.workers[i];
      v.key == w.key && after.locked == (if HoldsLock(v) then s.locked + {w.key} else s.locked - {w.key})
    ensures LocksFit(after)
  {
    forall k | k in after.locked
      ensures exists j | 0 <= j < |after.workers| :: after.workers[j].key == k && HoldsLock(after.workers[j])
    {
      if k == s.workers[i].key {
        assert after.workers[i].key == k;
      } else {
        var j :| 0 <= j < |s.workers| && s.workers[j].key == k && HoldsLock(s.workers[j]);
        assert after.workers[j].key == k;
      }
    }
  }

  // ---------------------------------------------------------------- every interleaving

  lemma StepKeeps(s: System, step: Step)
    requires Inv(s) && Enabled(s, step)
    ensures Inv(Next(s, step))
  {
    match step
    case Launch => StartKeeps(s, step);
    case LaunchBus => StartKeeps(s, step);
    case Lock(i) => WorkerKeeps(s, step, i);
    case Complete(i, _) => WorkerKeeps(s, step, i);
    case Fail(i) => WorkerKeeps(s, step, i);
    case CountOut(i) => WorkerKeeps(s, step, i);
    case TurnOff(i) => WorkerKeeps(s, step, i);
    case Release(i) => WorkerKeeps(s, step, i);
    case _ => MainKeeps(s, step);
  }

  /** A run: every step is enabled where it is taken. */
  ghost predicate IsRun(states: seq<System>, steps: seq<Step>) {
    && |states| == |steps| + 1 && states[0] == INITIAL
    && forall n | 0 <= n < |steps| :: Enabled(states[n], steps[n]) && states[n + 1] == Next(states[n], steps[n])
  }

  lemma {:induction false} RunsKeep(states: seq<System>, steps: seq<Step>, n: nat)
    requires IsRun(states, steps) && n < |states|
    ensures Inv(states[n])
  {
    hide Inv, Enabled, Next;
    if n == 0 {
      InitialFits();
    } else {
      RunsKeep(states, steps, n - 1);
      StepKeeps(states[n - 1], steps[n - 1]);
    }
  }

  lemma InitialFits()
    ensures Inv(INITIAL)
  {
  }

  /** The counter never goes negative, and cannot reach zero before the last job has been launched. */
  lemma CounterIsSafe(states: seq<System>, steps: seq<Step>, n: nat)
    requires IsRun(states, steps) && n < |states|
    ensures states[n].tasks >= 0
    ensures Unlaunched(states[n]) > 0 ==> states[n].tasks > 0
  {
    RunsKeep(states, steps, n);
    TasksCover(states[n]);
  }

  /** The scan is ended only once, after every job was launched and has published Complete or Failed. */
  lemma EndedLast(states: seq<System>, steps: seq<Step>, n: nat)
    requires IsRun(states, steps) && n < |steps| && steps[n].TurnOff?
    ensures var s := states[n];
      && s.globalActive && s.turnedOff == 0 && !states[n + 1].globalActive
      && GlobalWorkers(s.workers) && s.total == |s.workers| > 0
      && forall i | 0 <= i < |s.workers| ::
           ResultOf(s, s.workers[i].key).status in {ScanResult.Complete, ScanResult.Failed}
  {
    RunsKeep(states, steps, n);
    var s := states[n];
    OneEnding(s, steps[n].worker);
    OutBounds(s.workers);
    forall i | 0 <= i < |s.workers|
      ensures ResultOf(s, s.workers[i].key).status in {ScanResult.Complete, ScanResult.Failed}
    {
      OneWorkerFits(s, i);
    }
  }

  lemma OneEnding(s: System, i: nat)
    requires Inv(s) && At(s, i, TurningOff)
    ensures s.tasks == 0 && s.turnedOff == 0 && s.total > 0 && Out(s.workers) == |s.workers| == s.total
  {
    EndingBounds(s.workers);
    OutBounds(s.workers);
  }

  /** When a non-empty global scan is joined it has been ended exactly once, and it is off. */
  lemma EndedExactlyOnce(states: seq<System>, steps: seq<Step>, n: nat)
    requires IsRun(states, steps) && n < |steps| && steps[n] == Join
    ensures states[n].turnedOff == if states[n].total > 0 then 1 else 0
    ensures states[n].tasks == 0 && !states[n].globalActive
  {
    RunsKeep(states, steps, n);
    AllDoneCounts(states[n]);
  }

  /** The same wherever nothing is going on, so also for the last scan of a run, which nobody joins any more. */
  lemma EndedWhenQuiet(states: seq<System>, steps: seq<Step>, n: nat)
    requires IsRun(states, steps) && n < |states| && Quiet(states[n])
    ensures states[n].turnedOff == if states[n].total > 0 then 1 else 0
    ensures states[n].tasks == 0 && !states[n].globalActive
    ensures forall i | 0 <= i < |states[n].workers| ::
      ResultOf(states[n], states[n].workers[i].key).status in {ScanResult.Complete, ScanResult.Failed}
  {
    RunsKeep(states, steps, n);
    AllDoneCounts(states[n]);
    forall i | 0 <= i < |states[n].workers|
      ensures ResultOf(states[n], states[n].workers[i].key).status in {ScanResult.Complete, ScanResult.Failed}
    {
      OneWorkerFits(states[n], i);
    }
  }

  /** While a launched global scan has a worker that has not published, the scan shows as active. */
  lemma ActiveWhileScanning(states: seq<System>, steps: seq<Step>, n: nat, i: nat)
    requires IsRun(states, steps) && n < |states| && i < |states[n].workers|
    requires states[n].workers[i].isGlobal && !IsPublished(states[n].workers[i])
    ensures states[n].globalActive && states[n].tasks > 0
  {
    RunsKeep(states, steps, n);
    TasksCover(states[n]);
  }

  /** No publication of a worker is ever dropped: its token is current when it publishes. */
  lemma PublicationsCount(states: seq<System>, steps: seq<Step>, n: nat)
    requires IsRun(states, steps) && n < |steps| && (steps[n].Complete? || steps[n].Fail?)
    ensures var w := states[n].workers[steps[n].worker];
      ResultOf(states[n + 1], w.key) ==
        if steps[n].Complete? then ScanResult.Result(steps[n].motors, ScanResult.Complete, w.token)
        else ScanResult.Result(map[], ScanResult.Failed, w.token)
  {
    RunsKeep(states, steps, n);
    TokenIsCurrent(states[n], steps[n], steps[n].worker);
  }

  // ---------------------------------------------------------------- no deadlock, and an end

  /** Unless the main thread is ready and every worker done, some step other than a new request is possible. */
  lemma NeverStuck(s: System) returns (step: Step)
    requires Inv(s) && !(s.main == Ready && AllDone(s.workers))
    ensures Enabled(s, step) && !step.ScanAll? && !step.ScanBus?
  {
    if i :| 0 <= i < |s.workers| && s.workers[i].pc != Done {
      OneWorkerFits(s, i);
      match s.workers[i].pc
      case Locking => step := Lock(i);
      case Scanning => step := Fail(i);
      case Published => step := CountOut(i);
      case TurningOff => step := TurnOff(i);
      case Releasing => step := Release(i);
    } else {
      match s.main
      case JoiningAll(_) => step := Join;
      case JoiningBus(_) => step := Join;
      case StoringCount(_) => step := StoreCount;
      case StoringActive(_) => step := StoreActive;
      case Launching(jobs, launched) => step := if launched < |jobs| then Launch else EndLaunch;
      case LaunchingBus(_) => step := LaunchBus;
    }
  }

  function WorkerSteps(w: Worker): nat {
    match w.pc
    case Locking => 5
    case Scanning => 4
    case Published => 3
    case TurningOff => 2
    case Releasing => 1
    case Done => 0
  }

  function AllWorkerSteps(ws: seq<Worker>): nat {
    if ws == [] then 0 else AllWorkerSteps(ws[..|ws| - 1]) + WorkerSteps(ws[|ws| - 1])
  }

  /** A bound on the steps that are left before everything is done, if nothing new is asked for. */
  function StepsLeft(s: System): int {
    AllWorkerSteps(s.workers) +
    match s.main
    case Ready => 0
    case JoiningAll(jobs) => 6 * |jobs| + 4
    case StoringCount(jobs) => 6 * |jobs| + 3
    case StoringActive(jobs) => 6 * |jobs| + 2
    case Launching(jobs, launched) => 6 * (|jobs| - launched) + 1
    case JoiningBus(_) => 7
    case LaunchingBus(_) => 6
  }

  lemma WorkerStepsUpdate(ws: seq<Worker>, i: nat, w: Worker)
    requires i < |ws|
    ensures AllWorkerSteps(ws[i := w]) == AllWorkerSteps(ws) - WorkerSteps(ws[i]) + WorkerSteps(w)
  {
    var before, after := ws[..|ws| - 1], ws[i := w];
    if i < |ws| - 1 {
      WorkerStepsUpdate(before, i, w);
      assert after[..|ws| - 1] == before[i := w];
    } else {
      assert after[..|ws| - 1] == before;
    }
  }

  lemma WorkerStepIsNearer(s: System, step: Step, i: nat)
    requires Enabled(s, step) && StepOf(step, i)
    ensures AllWorkerSteps(Next(s, step).workers) < AllWorkerSteps(s.workers)
  {
    WorkerMoves(s, step, i);
    WorkerIsNearer(s, step, i);
    WorkerStepsUpdate(s.workers, i, Next(s, step).workers[i]);
    hide AllWorkerSteps, Next, Enabled, WorkerSteps;
  }

  lemma WorkerIsNearer(s: System, step: Step, i: nat)
    requires Enabled(s, step) && StepOf(step, i)
    ensures i < |s.workers| == |Next(s, step).workers|
    ensures WorkerSteps(Next(s, step).workers[i]) < WorkerSteps(s.workers[i])
  {
  }

  lemma MainStepIsNearer(s: System, step: Step)
    requires Inv(s) && Enabled(s, step)
    requires step.Join? || step.StoreCount? || step.StoreActive? || step.EndLaunch? || step.Launch? || step.LaunchBus?
    ensures StepsLeft(Next(s, step)) < StepsLeft(s)
  {
    hide WorkersFit, CountersFit;
    if step.Launch? || step.LaunchBus? {
      LaunchIsNearer(s, step);
    } else {
      var after := Next(s, step);
      assert after.workers == s.workers || after.workers == [];
      hide AllWorkerSteps, MainFits;
      assert AllWorkerSteps([]) == 0 by { NoWorkerSteps(); }
    }
  }

  lemma NoWorkerSteps()
    ensures AllWorkerSteps([]) == 0
  {
  }

  lemma WorkerStepsAppend(ws: seq<Worker>, w: Worker)
    ensures AllWorkerSteps(ws + [w]) == AllWorkerSteps(ws) + WorkerSteps(w)
  {
    assert (ws + [w])[..|ws|] == ws;
  }

  lemma LaunchIsNearer(s: System, step: Step)
    requires Enabled(s, step) && (step.Launch? || (step.LaunchBus? && s.workers == []))
    ensures StepsLeft(Next(s, step)) < StepsLeft(s)
  {
    var after := Next(s, step);
    var w := after.workers[|s.workers|];
    assert after.workers == s.workers + [w] && WorkerSteps(w) == 5;
    assert after.main == if step.LaunchBus? then Ready else Launching(s.main.jobs, s.main.launched + 1);
    WorkerStepsAppend(s.workers, w);
    NoWorkerSteps();
    hide Next, AllWorkerSteps, WorkerSteps;
  }

  /** Every step but a new request brings the end nearer. */
  lemma EveryScanEnds(s: System, step: Step)
    requires Inv(s) && Enabled(s, step) && !step.ScanAll? && !step.ScanBus?
    ensures 0 <= StepsLeft(Next(s, step)) < StepsLeft(s)
  {
    StepKeeps(s, step);
    StepsLeftNatural(Next(s, step));
    if step.Join? || step.StoreCount? || step.StoreActive? || step.EndLaunch? || step.Launch? || step.LaunchBus? {
      MainStepIsNearer(s, step);
    } else {
      WorkerStepIsNearer(s, step, step.worker);
      WorkerMoves(s, step, step.worker);
      hide Inv, AllWorkerSteps;
    }
  }

  lemma StepsLeftNatural(s: System)
    requires Inv(s)
    ensures StepsLeft(s) >= 0
  {
  }

  /** A request for a new scan. */
  predicate IsRequest(step: Step) { step.ScanAll? || step.ScanBus? }

  /** Between two states of a run with no request between them, the bound has fallen by at least the number of steps. */
  lemma {:induction false} StepsAreCounted(states: seq<System>, steps: seq<Step>, n: nat, m: nat)
    requires IsRun(states, steps) && n <= m < |states| && forall k | n <= k < m :: !IsRequest(steps[k])
    ensures 0 <= StepsLeft(states[m]) <= StepsLeft(states[n]) - (m - n)
  {
    hide Enabled, Next, StepsLeft, Inv;
    RunsKeep(states, steps, m);
    StepsLeftNatural(states[m]);
    if n < m {
      StepsAreCounted(states, steps, n, m - 1);
      RunsKeep(states, steps, m - 1);
      EveryScanEnds(states[m - 1], steps[m - 1]);
    }
  }

  /** Nothing is going on: the main thread waits for a request, and every worker is done. */
  predicate Quiet(s: System) { s.main == Ready && AllDone(s.workers) }

  /**
   In every run, without new requests there are at most StepsLeft further steps; and where no step but a request is
   possible any more, every scan asked for has been launched and every worker is done.
   */
  lemma ScansFinish(states: seq<System>, steps: seq<Step>, n: nat, m: nat)
    requires IsRun(states, steps) && n <= m < |states| && forall k | n <= k < m :: !IsRequest(steps[k])
    ensures m - n <= StepsLeft(states[n])
    ensures (forall step | Enabled(states[m], step) :: IsRequest(step)) ==> Quiet(states[m])
  {
    StepsAreCounted(states, steps, n, m);
    RunsKeep(states, steps, m);
    hide IsRun, StepsLeft, Inv, Enabled;
    if !Quiet(states[m]) {
      var step := NeverStuck(states[m]);
      assert Enabled(states[m], step) && !IsRequest(step);
    }
  }

  /** From every state of a run some continuation without requests reaches a quiet state. */
  lemma {:induction false} CanFinish(s: System) returns (states: seq<System>, steps: seq<Step>)
    requires Inv(s)
    ensures |states| == |steps| + 1 && states[0] == s && Quiet(states[|steps|])
    ensures forall n | 0 <= n < |steps| ::
      !IsRequest(steps[n]) && Enabled(states[n], steps[n]) && states[n + 1] == Next(states[n], steps[n])
    decreases StepsLeft(s)
  {
    hide Enabled, Next, StepsLeft, Inv;
    if Quiet(s) {
      states, steps := [s], [];
    } else {
      StepsLeftNatural(s);
      var step := NeverStuck(s);
      EveryScanEnds(s, step);
      StepKeeps(s, step);
      var rest, more := CanFinish(Next(s, step));
      states, steps := [s] + rest, [step] + more;
    }
  }
}
