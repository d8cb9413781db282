/**
 The scan manager as atomic steps of one main thread and its workers, in any interleaving. The main thread starts scans
 and joins workers; each worker takes the lock of its bus, publishes, counts itself out and perhaps ends the global
 scan.
 */
module ScanManager {
  import ScanResult

  type Key = (int, int)

  datatype WorkerPc = Locking | Scanning | Published | TurningOff | Releasing | Done

  datatype Worker = Worker(key: Key, token: int, isGlobal: bool, pc: WorkerPc)

  datatype MainPc =
    | Ready
    | JoiningAll(jobs: seq<Key>)
    | StoringCount(jobs: seq<Key>)
    | StoringActive(jobs: seq<Key>)
    | Launching(jobs: seq<Key>, launched: nat)
    | JoiningBus(bus: Key)
    | LaunchingBus(bus: Key)

  /**
   The shared state. The last two fields are history: how many jobs the current global scan has, and how often a worker
   has stored false since it was counted.
   */
  datatype System = System(
    main: MainPc, workers: seq<Worker>, results: map<Key, ScanResult.Result>, locked: set<Key>,
    tasks: int, globalActive: bool, total: nat, turnedOff: nat)

  const INITIAL := System(Ready, [], map[], {}, 0, false, 0, 0)

  datatype Step =
    | ScanAll(jobs: seq<Key>) | ScanBus(bus: Key)
    | Join | StoreCount | StoreActive | Launch | EndLaunch | LaunchBus
    | Lock(worker: nat) | Complete(worker: nat, motors: ScanResult.Motors) | Fail(worker: nat)
    | CountOut(worker: nat) | TurnOff(worker: nat) | Release(worker: nat)

  predicate AllDone(workers: seq<Worker>) { forall i | 0 <= i < |workers| :: workers[i].pc == Done }

  /** The buses of one scan are the keys of a map, so no bus comes twice. */
  predicate Distinct(jobs: seq<Key>) { forall i, j | 0 <= i < j < |jobs| :: jobs[i] != jobs[j] }

  function ResultOf(s: System, key: Key): ScanResult.Result {
    if key in s.results then s.results[key] else ScanResult.EMPTY
  }

  predicate At(s: System, i: nat, pc: WorkerPc) { i < |s.workers| && s.workers[i].pc == pc }

  predicate Enabled(s: System, step: Step) {
    match step
    case ScanAll(jobs) => s.main == Ready && Distinct(jobs)
    case ScanBus(_) => s.main == Ready
    case Join => (s.main.JoiningAll? || s.main.JoiningBus?) && AllDone(s.workers)
    case StoreCount => s.main.StoringCount?
    case StoreActive => s.main.StoringActive?
    case Launch => s.main.Launching? && s.main.launched < |s.main.jobs|
    case EndLaunch => s.main.Launching? && s.main.launched >= |s.main.jobs|
    case LaunchBus => s.main.LaunchingBus?
    case Lock(i) => At(s, i, Locking) && s.workers[i].key !in s.locked
    case Complete(i, _) => At(s, i, Scanning)
    case Fail(i) => At(s, i, Scanning)
    case CountOut(i) => At(s, i, Published)
    case TurnOff(i) => At(s, i, TurningOff)
    case Release(i) => At(s, i, Releasing)
  }

  /** StartJob: a new scan of the result, and a worker that carries its token. */
  function Started(s: System, key: Key, isGlobal: bool): System {
    var begun := ScanResult.Apply(ResultOf(s, key), ScanResult.Begin);
    s.(results := s.results[key := begun],
       workers := s.workers + [Worker(key, begun.revision, isGlobal, Locking)])
  }

  function Moved(s: System, i: nat, pc: WorkerPc): System
    requires i < |s.workers|
  {
    s.(workers := s.workers[i := s.workers[i].(pc := pc)])
  }

  function PublishedBy(s: System, i: nat, op: ScanResult.Operation): System
    requires i < |s.workers|
  {
    var key := s.workers[i].key;
    Moved(s.(results := s.results[key := ScanResult.Apply(ResultOf(s, key), op)]), i, Published)
  }

  function Next(s: System, step: Step): System
    requires Enabled(s, step)
  {
    match step
    case ScanAll(jobs) => s.(main := JoiningAll(jobs))
    case ScanBus(bus) => s.(main := JoiningBus(bus))
    case Join =>
      s.(workers := [], total := 0, turnedOff := 0,
         main := if s.main.JoiningAll? then StoringCount(s.main.jobs) else LaunchingBus(s.main.bus))
    case StoreCount => s.(main := StoringActive(s.main.jobs), tasks := |s.main.jobs|, total := |s.main.jobs|)
    case StoreActive => s.(main := Launching(s.main.jobs, 0), globalActive := s.main.jobs != [])
    case Launch =>
      Started(s, s.main.jobs[s.main.launched], true).(main := Launching(s.main.jobs, s.main.launched + 1))
    case EndLaunch => s.(main := Ready)
    case LaunchBus => Started(s, s.main.bus, false).(main := Ready)
    case Lock(i) => Moved(s, i, Scanning).(locked := s.locked + {s.workers[i].key})
    case Complete(i, motors) => PublishedBy(s, i, ScanResult.Publish(motors, s.workers[i].token))
    case Fail(i) => PublishedBy(s, i, ScanResult.Fail(s.workers[i].token))
    case CountOut(i) =>
      if !s.workers[i].isGlobal then Moved(s, i, Releasing)
      else Moved(s, i, if s.tasks == 1 then TurningOff else Releasing).(tasks := s.tasks - 1)
    case TurnOff(i) => Moved(s, i, Releasing).(globalActive := false, turnedOff := s.turnedOff + 1)
    case Release(i) => Moved(s, i, Done).(locked := s.locked - {s.workers[i].key})
  }

  // ---------------------------------------------------------------- the invariant

  predicate IsOut(w: Worker) { w.isGlobal && (w.pc == TurningOff || w.pc == Releasing || w.pc == Done) }
  predicate IsTurningOff(w: Worker) { w.pc == TurningOff }
  predicate IsPublished(w: Worker) { w.pc != Locking && w.pc != Scanning }
  predicate HoldsLock(w: Worker) { w.pc != Locking && w.pc != Done }

  function One(b: bool): nat { if b then 1 else 0 }

  /** Global workers that have counted themselves out. */
  function Out(ws: seq<Worker>): nat {
    if ws == [] then 0 else Out(ws[..|ws| - 1]) + One(IsOut(ws[|ws| - 1]))
  }

  /** Workers about to end the global scan. */
  function Ending(ws: seq<Worker>): nat {
    if ws == [] then 0 else Ending(ws[..|ws| - 1]) + One(IsTurningOff(ws[|ws| - 1]))
  }

  /** How many jobs of the current global scan are still to be launched. */
  function Unlaunched(s: System): int {
    match s.main
    case StoringActive(jobs) => |jobs|
    case Launching(jobs, launched) => |jobs| - launched
    case _ => 0
  }

  predicate GlobalWorkers(ws: seq<Worker>) { forall i | 0 <= i < |ws| :: ws[i].isGlobal }

  /** The phases of the main thread, and which workers there are in each. */
  predicate MainFits(s: System) {
    match s.main
    case StoringCount(jobs) => s.workers == [] && s.total == 0 && Distinct(jobs)
    case StoringActive(jobs) => s.workers == [] && s.total == |jobs| && Distinct(jobs)
    case Launching(jobs, launched) =>
      && launched == |s.workers| <= |jobs| == s.total && GlobalWorkers(s.workers) && Distinct(jobs)
      && forall i | 0 <= i < launched :: s.workers[i].key == jobs[i]
    case LaunchingBus(_) => s.workers == [] && s.total == 0
    case JoiningAll(jobs) => Distinct(jobs) && Launched(s)
    case _ => Launched(s)
  }

  /** After the launch: either all jobs of a global scan, or the one worker of a bus scan. */
  predicate Launched(s: System) {
    || (GlobalWorkers(s.workers) && s.total == |s.workers|)
    || (|s.workers| == 1 && !s.workers[0].isGlobal && s.total == 0)
  }

  /** No two workers share a bus. */
  predicate KeysDiffer(ws: seq<Worker>) {
    forall i, j | 0 <= i < j < |ws| :: ws[i].key != ws[j].key
  }

  /** A bus is locked exactly while a worker that has passed the lock is not done. */
  predicate LocksFit(s: System) {
    && (forall k | k in s.locked :: exists i | 0 <= i < |s.workers| :: s.workers[i].key == k && HoldsLock(s.workers[i]))
    && forall i | 0 <= i < |s.workers| :: HoldsLock(s.workers[i]) ==> s.workers[i].key in s.locked
  }

  /** Every token is current, and the result shows how far its worker is. */
  predicate TokenFits(s: System, w: Worker) {
    var r := ResultOf(s, w.key);
    && r.revision == w.token && (w.pc == TurningOff ==> w.isGlobal)
    && (if IsPublished(w) then r.status in {ScanResult.Complete, ScanResult.Failed}
        else r.status == ScanResult.Scanning)
  }

  predicate WorkersFit(s: System) {
    KeysDiffer(s.workers) && LocksFit(s) && forall i | 0 <= i < |s.workers| :: TokenFits(s, s.workers[i])
  }

  /** The counter is what is still to come, and the scan has been ended at most once, by the last worker out. */
  predicate CountersFit(s: System) {
    && s.tasks == s.total - Out(s.workers)
    && s.turnedOff + Ending(s.workers) == (if s.total > 0 && s.tasks == 0 then 1 else 0)
    && s.globalActive == (s.total > 0 && s.turnedOff == 0 && !s.main.StoringActive?)
  }

  predicate Inv(s: System) { MainFits(s) && WorkersFit(s) && CountersFit(s) }
}
