/** What a request for a scan comes to: exactly its buses are scanned, each once. */
module ScanJobs {
  import ScanResult
  import opened ScanManager
  import opened ScanProtocol

  /** The buses that a request asks for. */
  function JobsOf(step: Step): seq<Key>
    requires IsRequest(step)
  {
    match step
    case ScanAll(jobs) => jobs
    case ScanBus(bus) => [bus]
  }

  function Revision(s: System, key: Key): int { ResultOf(s, key).revision }

  /** Exactly the first n jobs have been begun since s0: their revision is the next one. */
  ghost predicate Begun(s0: System, s: System, jobs: seq<Key>, n: nat)
    requires n <= |jobs|
  {
    forall k: Key ::
      Revision(s, k)
      == if k in jobs[..n] then (Revision(s0, k) + 1) % ScanResult.REVISIONS else Revision(s0, k)
  }

  predicate WorkersAre(s: System, jobs: seq<Key>) {
    |s.workers| == |jobs| && forall i | 0 <= i < |jobs| :: s.workers[i].key == jobs[i]
  }

  /** How far the request made in s0 has come. */
  ghost predicate Underway(s0: System, jobs: seq<Key>, s: System) {
    match s.main
    case JoiningAll(js) => js == jobs && Begun(s0, s, jobs, 0)
    case StoringCount(js) => js == jobs && Begun(s0, s, jobs, 0)
    case StoringActive(js) => js == jobs && Begun(s0, s, jobs, 0)
    case Launching(js, n) => js == jobs && n <= |jobs| && WorkersAre(s, jobs[..n]) && Begun(s0, s, jobs, n)
    case JoiningBus(bus) => jobs == [bus] && Begun(s0, s, jobs, 0)
    case LaunchingBus(bus) => jobs == [bus] && s.workers == [] && Begun(s0, s, jobs, 0)
    case Ready => WorkersAre(s, jobs) && Begun(s0, s, jobs, |jobs|)
  }

  lemma RequestStarts(s: System, step: Step)
    requires Enabled(s, step) && IsRequest(step)
    ensures Underway(s, JobsOf(step), Next(s, step))
  {
  }

  // ---------------------------------------------------------------- each step

  /** A step of a worker changes no revision, and only the result of its own bus. */
  lemma WorkerKeepsRevisions(s: System, step: Step, i: nat)
    requires Inv(s) && Enabled(s, step) && StepOf(step, i)
    ensures i < |s.workers|
    ensures var after := Next(s, step);
      && (forall k: Key :: Revision(after, k) == Revision(s, k))
      && forall k: Key | k != s.workers[i].key :: ResultOf(after, k) == ResultOf(s, k)
  {
    WorkerMoves(s, step, i);
    OneWorkerFits(s, i);
    if step.Complete? || step.Fail? {
      TokenIsCurrent(s, step, i);
      hide Next, Enabled, Inv;
    } else {
      assert Next(s, step).results == s.results by { OnlyPublishing(s, step, i); }
      hide Next, Enabled, Inv;
    }
  }

  lemma WorkerStaysUnderway(s0: System, jobs: seq<Key>, s: System, step: Step, i: nat)
    requires Inv(s) && Enabled(s, step) && StepOf(step, i) && Underway(s0, jobs, s)
    ensures Underway(s0, jobs, Next(s, step))
  {
    WorkerKeepsRevisions(s, step, i);
    WorkerMoves(s, step, i);
    SameRevisions(s0, s, Next(s, step), jobs);
    hide Inv, Next, Enabled, Revision, Begun, Underway;
    SameUnderway(s0, jobs, s, Next(s, step));
  }

  lemma SameUnderway(s0: System, jobs: seq<Key>, s: System, after: System)
    requires Underway(s0, jobs, s) && after.main == s.main && |after.workers| == |s.workers|
    requires forall j | 0 <= j < |s.workers| :: after.workers[j].key == s.workers[j].key
    requires forall n | 0 <= n <= |jobs| :: Begun(s0, s, jobs, n) ==> Begun(s0, after, jobs, n)
    ensures Underway(s0, jobs, after)
  {
    hide Begun;
  }

  lemma SameRevisions(s0: System, s: System, after: System, jobs: seq<Key>)
    requires forall k: Key :: Revision(after, k) == Revision(s, k)
    ensures forall n | 0 <= n <= |jobs| :: Begun(s0, s, jobs, n) ==> Begun(s0, after, jobs, n)
  {
    hide Revision;
  }

  lemma LaunchBegins(s0: System, jobs: seq<Key>, s: System, key: Key, n: nat, isGlobal: bool)
    requires n < |jobs| && jobs[n] == key && Distinct(jobs) && Begun(s0, s, jobs, n)
    ensures Begun(s0, Started(s, key, isGlobal), jobs, n + 1)
  {
    assert jobs[..n + 1] == jobs[..n] + [key];
    assert key !in jobs[..n];
  }

  lemma MainStaysUnderway(s0: System, jobs: seq<Key>, s: System, step: Step)
    requires Inv(s) && Enabled(s, step) && Underway(s0, jobs, s)
    requires step.Join? || step.StoreCount? || step.StoreActive? || step.Launch? || step.EndLaunch? || step.LaunchBus?
    ensures Underway(s0, jobs, Next(s, step))
  {
    hide WorkersFit, CountersFit, Begun;
    match step
    case Join => SameBegun(s0, s, Next(s, step), jobs, 0);
    case StoreCount => SameBegun(s0, s, Next(s, step), jobs, 0);
    case StoreActive =>
      SameBegun(s0, s, Next(s, step), jobs, 0);
      assert jobs[..0] == [];
    case Launch =>
      var n := s.main.launched;
      LaunchBegins(s0, jobs, s, jobs[n], n, true);
      SameBegun(s0, Started(s, jobs[n], true), Next(s, step), jobs, n + 1);
      assert jobs[..n + 1] == jobs[..n] + [jobs[n]];
    case EndLaunch =>
      SameBegun(s0, s, Next(s, step), jobs, |jobs|);
      assert jobs[..|jobs|] == jobs;
    case LaunchBus =>
      LaunchBegins(s0, jobs, s, jobs[0], 0, false);
      SameBegun(s0, Started(s, jobs[0], false), Next(s, step), jobs, 1);
  }

  lemma SameBegun(s0: System, s: System, after: System, jobs: seq<Key>, n: nat)
    requires n <= |jobs| && after.results == s.results && Begun(s0, s, jobs, n)
    ensures Begun(s0, after, jobs, n)
  {
  }

  lemma StaysUnderway(s0: System, jobs: seq<Key>, s: System, step: Step)
    requires Inv(s) && Enabled(s, step) && !IsRequest(step) && Underway(s0, jobs, s)
    ensures Underway(s0, jobs, Next(s, step))
  {
    hide Inv, Enabled, Next, Underway;
    if step.Join? || step.StoreCount? || step.StoreActive? || step.Launch? || step.EndLaunch? || step.LaunchBus? {
      MainStaysUnderway(s0, jobs, s, step);
    } else {
      WorkerStaysUnderway(s0, jobs, s, step, step.worker);
    }
  }

  // ---------------------------------------------------------------- runs

  /** Step n is a request, and no other comes before state m. */
  predicate OnlyRequest(steps: seq<Step>, n: nat, m: nat) {
    n < m <= |steps| && IsRequest(steps[n]) && forall k | n < k < m :: !IsRequest(steps[k])
  }

  lemma {:induction false} RunsUnderway(states: seq<System>, steps: seq<Step>, n: nat, m: nat)
    requires IsRun(states, steps) && OnlyRequest(steps, n, m)
    ensures Underway(states[n], JobsOf(steps[n]), states[m])
  {
    hide Inv, Enabled, Next, Underway;
    if m == n + 1 {
      RequestStarts(states[n], steps[n]);
    } else {
      RunsUnderway(states, steps, n, m - 1);
      RunsKeep(states, steps, m - 1);
      StaysUnderway(states[n], JobsOf(steps[n]), states[m - 1], steps[m - 1]);
    }
  }

  /**
   Once a request has come to rest, every bus it asked for has been scanned, under exactly the revision after the one it
   had, and has published Complete or Failed; and no other bus has been begun.
   */
  lemma EveryJobIsScanned(states: seq<System>, steps: seq<Step>, n: nat, m: nat, key: Key)
    requires IsRun(states, steps) && OnlyRequest(steps, n, m) && Quiet(states[m])
    ensures key in JobsOf(steps[n]) ==>
      && ResultOf(states[m], key).status in {ScanResult.Complete, ScanResult.Failed}
      && ResultOf(states[m], key).revision == (ResultOf(states[n], key).revision + 1) % 0x1_0000_0000_0000_0000
    ensures key !in JobsOf(steps[n]) ==> ResultOf(states[m], key).revision == ResultOf(states[n], key).revision
  {
    RunsUnderway(states, steps, n, m);
    RunsKeep(states, steps, m);
    var jobs, s := JobsOf(steps[n]), states[m];
    assert Revision(s, key) == if key in jobs[..|jobs|] then (Revision(states[n], key) + 1) % ScanResult.REVISIONS
                               else Revision(states[n], key);
    assert jobs[..|jobs|] == jobs;
    if key in jobs {
      var i :| 0 <= i < |jobs| && jobs[i] == key;
      OneWorkerFits(s, i);
    }
  }

  // ---------------------------------------------------------------- the other buses

  /** Since the request was made in a quiet state, nothing has touched the results of other buses. */
  ghost predicate Untouched(s0: System, jobs: seq<Key>, s: System) {
    && (s.main.JoiningAll? || s.main.JoiningBus? ==> AllDone(s.workers))
    && forall k: Key | k !in jobs :: ResultOf(s, k) == ResultOf(s0, k)
  }

  lemma StaysUntouched(s0: System, jobs: seq<Key>, s: System, step: Step)
    requires Inv(s) && Enabled(s, step) && !IsRequest(step) && Underway(s0, jobs, s) && Untouched(s0, jobs, s)
    ensures Untouched(s0, jobs, Next(s, step))
  {
    if step.Join? || step.StoreCount? || step.StoreActive? || step.Launch? || step.EndLaunch? || step.LaunchBus? {
      MainLeavesOthers(s0, jobs, s, step);
    } else {
      WorkerLeavesOthers(s0, jobs, s, step, step.worker);
    }
  }

  lemma MainLeavesOthers(s0: System, jobs: seq<Key>, s: System, step: Step)
    requires Inv(s) && Enabled(s, step) && Underway(s0, jobs, s) && Untouched(s0, jobs, s)
    requires step.Join? || step.StoreCount? || step.StoreActive? || step.Launch? || step.EndLaunch? || step.LaunchBus?
    ensures Untouched(s0, jobs, Next(s, step))
  {
    hide WorkersFit, CountersFit, Begun;
  }

  lemma WorkerLeavesOthers(s0: System, jobs: seq<Key>, s: System, step: Step, i: nat)
    requires Inv(s) && Enabled(s, step) && StepOf(step, i) && Underway(s0, jobs, s) && Untouched(s0, jobs, s)
    ensures Untouched(s0, jobs, Next(s, step))
  {
    WorkerKeepsRevisions(s, step, i);
    WorkerMoves(s, step, i);
    WorkerIsOfTheScan(s0, jobs, s, step, i);
    hide Inv, Next, Enabled, Begun;
  }

  lemma WorkerIsOfTheScan(s0: System, jobs: seq<Key>, s: System, step: Step, i: nat)
    requires Inv(s) && Enabled(s, step) && StepOf(step, i) && Underway(s0, jobs, s) && Untouched(s0, jobs, s)
    ensures i < |s.workers| && s.workers[i].key in jobs && !s.main.JoiningAll? && !s.main.JoiningBus?
  {
    hide WorkersFit, CountersFit, Begun, Next;
  }

  /** If nothing was going on when the request was made, the results of all other buses are exactly what they were. */
  lemma {:induction false} OtherBusesKeepTheirResults(states: seq<System>, steps: seq<Step>, n: nat, m: nat)
    requires IsRun(states, steps) && OnlyRequest(steps, n, m) && Quiet(states[n])
    ensures Untouched(states[n], JobsOf(steps[n]), states[m])
  {
    if m == n + 1 {
      hide Inv;
    } else {
      hide Inv, Enabled, Next, Underway, Untouched;
      OtherBusesKeepTheirResults(states, steps, n, m - 1);
      RunsUnderway(states, steps, n, m - 1);
      RunsKeep(states, steps, m - 1);
      StaysUntouched(states[n], JobsOf(steps[n]), states[m - 1], steps[m - 1]);
    }
  }
}
