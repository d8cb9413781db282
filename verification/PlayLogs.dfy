/** Switching the motor logs on and off when any call into a motor may throw. Motors are their positions 0..n-1. */
module PlayLogs {

  /** Opening one log: whether the device ends up logging, and how the calls come back. */
  datatype Opening = Opening(opens: bool, outcome: OpenOutcome)
  datatype OpenOutcome = Logged | NotLogged | Threw | ThrewOther

  /** How an operation ends: it returns, or an exception that is not a std::exception passes through. */
  datatype Ended = Returned(ok: bool) | PassedThrough

  datatype Logs = Logs(logging: seq<nat>, enabled: bool, open: set<nat>)

  const INITIAL := Logs([], false, {})

  // ---------------------------------------------------------------- what the operations do

  /** The motors whose log could not be closed, in order. */
  function Kept(motors: seq<nat>, closes: set<nat>): seq<nat> {
    if motors == [] then []
    else
      var last := motors[|motors| - 1];
      Kept(motors[..|motors| - 1], closes) + if last in closes then [] else [last]
  }

  function Closed(motors: seq<nat>, closes: set<nat>): set<nat> {
    if motors == [] then {}
    else
      var last := motors[|motors| - 1];
      Closed(motors[..|motors| - 1], closes) + if last in closes then {last} else {}
  }

  function Disabled(s: Logs, closes: set<nat>): Logs {
    var kept := Kept(s.logging, closes);
    Logs(kept, kept != [], s.open - Closed(s.logging, closes))
  }

  /** Opening logs from motor i on; the first failure undoes what was opened. */
  function OpenedFrom(s: Logs, n: nat, i: nat, opening: nat -> Opening, closes: set<nat>): (Logs, Ended)
    requires i <= n
    decreases n - i
  {
    if i == n then (s.(enabled := true), Returned(true))
    else
      var next := Logs(s.logging + [i], s.enabled, s.open + if opening(i).opens then {i} else {});
      match opening(i).outcome
      case Logged => OpenedFrom(next, n, i + 1, opening, closes)
      case ThrewOther => (next, PassedThrough)
      case _ => (Disabled(next, closes), Returned(false))
  }

  function Enabled(s: Logs, n: nat, created: bool, opening: nat -> Opening, closes: set<nat>): (Logs, Ended) {
    if s.logging != [] then (s.(enabled := true), Returned(false))
    else if !created then (s, Returned(false))
    else OpenedFrom(s, n, 0, opening, closes)
  }

  function Toggled(s: Logs, n: nat, created: bool, opening: nat -> Opening, closes: set<nat>): (Logs, Ended) {
    if s.enabled then (Disabled(s, closes), Returned(Kept(s.logging, closes) == []))
    else Enabled(s, n, created, opening, closes)
  }

  // ---------------------------------------------------------------- the code

  class LogSwitch {
    const motors: nat
    var logging: seq<nat>
    var enabled: bool
    var directory: string
    /** The motors whose device is logging. */
    ghost var open: set<nat>

    ghost function State(): Logs
      reads this
    {
      Logs(logging, enabled, open)
    }

    constructor (motors: nat, directory: string)
      ensures State() == INITIAL && this.motors == motors
    {
      this.motors, this.directory := motors, directory;
      logging, enabled, open := [], false, {};
    }

    method DisableLogs(closes: set<nat>) returns (ok: bool)
      modifies this
      ensures State() == Disabled(old(State()), closes)
      ensures ok == (Kept(old(logging), closes) == [])
    {
      if logging == [] {
        enabled := false;
        return true;
      }
      ok := CloseAll(closes);
      enabled := logging != [];
    }

    /** The closing loop: it steps over the motors that do not close and erases the others. */
    method CloseAll(closes: set<nat>) returns (ok: bool)
      modifies this`logging, this`open
      ensures logging == Kept(old(logging), closes) && open == old(open) - Closed(old(logging), closes)
      ensures ok == (logging == [])
    {
      ok := true;
      var at := 0;
      ghost var before, done := logging, 0;
      NothingClosed(before, closes);
      hide Midway, KeptCount, ClosedSoFar, Kept, Closed;
      while at < |logging|
        invariant done <= |before| && logging == Midway(before, done, closes)
        invariant at == KeptCount(before, done, closes) && |logging| == at + (|before| - done)
        invariant ok == (at == 0) && open == old(open) - ClosedSoFar(before, done, closes)
        decreases |before| - done
      {
        CloseNext(before, done, closes);
        var erased := Close(at, closes);
        if !erased {
          at := at + 1;
          ok := false;
        }
        done := done + 1;
      }
      AllClosed(before, closes);
    }

    /** Closes one log and erases its motor from the list, unless closing throws. */
    method Close(at: nat, closes: set<nat>) returns (erased: bool)
      requires at < |logging|
      modifies this`logging, this`open
      ensures erased == (old(logging)[at] in closes)
      ensures logging == if erased then old(logging)[..at] + old(logging)[at + 1..] else old(logging)
      ensures open == old(open) - if erased then {old(logging)[at]} else {}
    {
      erased := logging[at] in closes;
      if erased {
        open := open - {logging[at]};
        logging := logging[..at] + logging[at + 1..];
      }
    }

    method EnableLogs(created: bool, opening: nat -> Opening, closes: set<nat>) returns (r: Ended)
      modifies this
      ensures (State(), r) == Enabled(old(State()), motors, created, opening, closes)
    {
      if logging != [] {
        enabled := true;
        return Returned(false);
      }
      if !created {
        return Returned(false);
      }
      for i := 0 to motors
        invariant OpenedFrom(State(), motors, i, opening, closes)
               == OpenedFrom(old(State()), motors, 0, opening, closes)
      {
        logging := logging + [i];
        open := open + if opening(i).opens then {i} else {};
        match opening(i).outcome {
          case Logged =>
          case ThrewOther => return PassedThrough;
          case _ =>
            var _ := DisableLogs(closes);
            return Returned(false);
        }
      }
      enabled := true;
      r := Returned(true);
    }

    method ToggleLogs(created: bool, opening: nat -> Opening, closes: set<nat>) returns (r: Ended)
      modifies this
      ensures (State(), r) == Toggled(old(State()), motors, created, opening, closes)
    {
      if enabled {
        var ok := DisableLogs(closes);
        r := Returned(ok);
      } else {
        if directory == "" {
          directory := "./logs";
        }
        r := EnableLogs(created, opening, closes);
      }
    }
  }

  // ---------------------------------------------------------------- disabling

  /** The list once the first n motors have been tried. */
  ghost function Midway(motors: seq<nat>, n: nat, closes: set<nat>): seq<nat>
    requires n <= |motors|
  {
    Kept(motors[..n], closes) + motors[n..]
  }

  ghost function KeptCount(motors: seq<nat>, n: nat, closes: set<nat>): nat
    requires n <= |motors|
  {
    |Kept(motors[..n], closes)|
  }

  ghost function ClosedSoFar(motors: seq<nat>, n: nat, closes: set<nat>): set<nat>
    requires n <= |motors|
  {
    Closed(motors[..n], closes)
  }

  lemma NothingClosed(motors: seq<nat>, closes: set<nat>)
    ensures Midway(motors, 0, closes) == motors && KeptCount(motors, 0, closes) == 0
    ensures ClosedSoFar(motors, 0, closes) == {}
  {
  }

  lemma AllClosed(motors: seq<nat>, closes: set<nat>)
    ensures Midway(motors, |motors|, closes) == Kept(motors, closes)
    ensures KeptCount(motors, |motors|, closes) == |Kept(motors, closes)|
    ensures ClosedSoFar(motors, |motors|, closes) == Closed(motors, closes)
  {
    assert motors[..|motors|] == motors;
  }

  /** Motor n is next in the list; erasing it, or stepping over it, gives the list after n + 1 motors. */
  lemma CloseNext(motors: seq<nat>, n: nat, closes: set<nat>)
    requires n < |motors|
    ensures var list, at := Midway(motors, n, closes), KeptCount(motors, n, closes);
      && at < |list| && list[at] == motors[n]
      && (motors[n] in closes ==>
            Midway(motors, n + 1, closes) == list[..at] + list[at + 1..] && KeptCount(motors, n + 1, closes) == at
            && ClosedSoFar(motors, n + 1, closes) == ClosedSoFar(motors, n, closes) + {motors[n]})
      && (motors[n] !in closes ==>
            Midway(motors, n + 1, closes) == list && KeptCount(motors, n + 1, closes) == at + 1
            && ClosedSoFar(motors, n + 1, closes) == ClosedSoFar(motors, n, closes))
  {
    assert motors[..n + 1][..n] == motors[..n];
  }

  lemma {:induction false} ClosedMembers(motors: seq<nat>, closes: set<nat>, m: nat)
    ensures m in Closed(motors, closes) <==> m in motors && m in closes
  {
    if motors != [] {
      ClosedMembers(motors[..|motors| - 1], closes, m);
      assert motors == motors[..|motors| - 1] + [motors[|motors| - 1]];
    }
  }

  /** Exactly the motors that did not close are kept. */
  lemma {:induction false} KeptMembers(motors: seq<nat>, closes: set<nat>, m: nat)
    ensures m in Kept(motors, closes) <==> m in motors && m !in closes
  {
    if motors != [] {
      KeptMembers(motors[..|motors| - 1], closes, m);
      assert motors == motors[..|motors| - 1] + [motors[|motors| - 1]];
    }
  }

  predicate Ascending(s: seq<nat>) { forall i, j | 0 <= i < j < |s| :: s[i] < s[j] }

  /** The positions in the list that do not close. */
  function Positions(motors: seq<nat>, closes: set<nat>): seq<nat> {
    if motors == [] then []
    else
      var n := |motors| - 1;
      Positions(motors[..n], closes) + if motors[n] in closes then [] else [n]
  }

  lemma {:induction false} PositionsAscend(motors: seq<nat>, closes: set<nat>)
    ensures Ascending(Positions(motors, closes))
    ensures forall i | 0 <= i < |Positions(motors, closes)| :: Positions(motors, closes)[i] < |motors|
  {
    if motors != [] { PositionsAscend(motors[..|motors| - 1], closes); }
  }

  lemma {:induction false} PositionsMembers(motors: seq<nat>, closes: set<nat>, p: nat)
    ensures p in Positions(motors, closes) <==> p < |motors| && motors[p] !in closes
  {
    if motors != [] {
      var before := motors[..|motors| - 1];
      PositionsMembers(before, closes, p);
      assert p < |before| ==> before[p] == motors[p];
    }
  }

  lemma {:induction false} PositionsKeep(motors: seq<nat>, closes: set<nat>, i: nat)
    ensures |Positions(motors, closes)| == |Kept(motors, closes)|
    ensures i < |Kept(motors, closes)| ==>
      Positions(motors, closes)[i] < |motors| && Kept(motors, closes)[i] == motors[Positions(motors, closes)[i]]
  {
    if motors != [] {
      var before := motors[..|motors| - 1];
      PositionsKeep(before, closes, i);
    }
  }

  /** Exactly the positions that did not close are kept, each once and in their order, whatever the list repeats. */
  lemma KeptInOrder(motors: seq<nat>, closes: set<nat>)
    ensures var kept, at := Kept(motors, closes), Positions(motors, closes);
      && |at| == |kept| && Ascending(at)
      && (forall i | 0 <= i < |at| :: at[i] < |motors| && kept[i] == motors[at[i]])
      && forall p: nat :: p in at <==> p < |motors| && motors[p] !in closes
  {
    hide Kept, Positions, Ascending;
    PositionsAscend(motors, closes);
    PositionsKeep(motors, closes, 0);
    forall i | 0 <= i < |Kept(motors, closes)|
      ensures Positions(motors, closes)[i] < |motors| && Kept(motors, closes)[i] == motors[Positions(motors, closes)[i]]
    {
      PositionsKeep(motors, closes, i);
    }
    forall p: nat ensures p in Positions(motors, closes) <==> p < |motors| && motors[p] !in closes {
      PositionsMembers(motors, closes, p);
    }
  }

  // ---------------------------------------------------------------- what every run keeps

  /** Every motor whose log is open is on the list. */
  predicate Tracked(s: Logs) { forall m | m in s.open :: m in s.logging }

  /** The switch shows on exactly while some log still has to be closed. */
  predicate Consistent(s: Logs) { s.enabled <==> s.logging != [] }

  lemma DisableKeeps(s: Logs, closes: set<nat>)
    requires Tracked(s)
    ensures Tracked(Disabled(s, closes)) && Consistent(Disabled(s, closes))
  {
    forall m | m in Disabled(s, closes).open ensures m in Disabled(s, closes).logging {
      KeptMembers(s.logging, closes, m);
      ClosedMembers(s.logging, closes, m);
    }
  }

  /** Opening reaches motor k, whose call throws something that is not a standard exception. */
  predicate ForeignAt(i: nat, opening: nat -> Opening, k: nat) {
    && i <= k && opening(k).outcome == ThrewOther && forall j | i <= j < k :: opening(j).outcome == Logged
  }

  /** All motors before the first that does not simply log do log, and that one throws a foreign exception. */
  predicate OpensForeign(n: nat, i: nat, opening: nat -> Opening) {
    exists k | i <= k < n :: ForeignAt(i, opening, k)
  }

  lemma {:induction false} OpenKeeps(s: Logs, n: nat, i: nat, opening: nat -> Opening, closes: set<nat>)
    requires i <= n && Tracked(s)
    ensures var (after, r) := OpenedFrom(s, n, i, opening, closes);
      Tracked(after)
      && (r == Returned(true) ==> after.enabled && |after.logging| == |s.logging| + (n - i))
      && (r == Returned(false) ==> Consistent(after))
      && (r == PassedThrough ==> after.enabled == s.enabled && after.logging != [])
    decreases n - i
  {
    hide Disabled;
    if i < n {
      var next := Logs(s.logging + [i], s.enabled, s.open + if opening(i).opens then {i} else {});
      ListNext(s, next, i);
      if opening(i).outcome == Logged {
        OpenKeeps(next, n, i + 1, opening, closes);
      } else {
        DisableKeeps(next, closes);
      }
    }
  }

  lemma ListNext(s: Logs, next: Logs, i: nat)
    requires Tracked(s) && next.logging == s.logging + [i] && next.open <= s.open + {i}
    ensures Tracked(next)
  {
    assert next.logging[|s.logging|] == i;
  }

  /** A foreign exception passes through exactly if the calls produce one before any other failure. */
  lemma {:induction false} PassesExactlyWhen(s: Logs, n: nat, i: nat, opening: nat -> Opening, closes: set<nat>)
    requires i <= n
    ensures OpenedFrom(s, n, i, opening, closes).1 == PassedThrough <==> OpensForeign(n, i, opening)
    decreases n - i
  {
    hide Disabled;
    if i < n {
      if opening(i).outcome == Logged {
        var next := Logs(s.logging + [i], s.enabled, s.open + if opening(i).opens then {i} else {});
        PassesExactlyWhen(next, n, i + 1, opening, closes);
        if OpensForeign(n, i, opening) {
          var k :| i <= k < n && ForeignAt(i, opening, k);
          assert ForeignAt(i + 1, opening, k);
        }
        if OpensForeign(n, i + 1, opening) {
          var k :| i + 1 <= k < n && ForeignAt(i + 1, opening, k);
          assert ForeignAt(i, opening, k);
        }
      } else if opening(i).outcome == ThrewOther {
        assert ForeignAt(i, opening, i);
      }
    }
  }

  /**
   Enabling never loses an open log. It keeps a consistent state consistent exactly unless it starts opening and there
   is no motor at all, or the first call that does not simply log throws something that is not a standard exception.
   */
  lemma EnableKeeps(s: Logs, n: nat, created: bool, opening: nat -> Opening, closes: set<nat>)
    requires Tracked(s)
    ensures Tracked(Enabled(s, n, created, opening, closes).0)
    ensures Consistent(s) ==>
      (Consistent(Enabled(s, n, created, opening, closes).0)
       <==> !(s.logging == [] && created && (n == 0 || OpensForeign(n, 0, opening))))
    ensures Enabled(s, n, created, opening, closes).1 == PassedThrough
      <==> s.logging == [] && created && OpensForeign(n, 0, opening)
  {
    hide OpensForeign, Disabled;
    OpenKeeps(s, n, 0, opening, closes);
    PassesExactlyWhen(s, n, 0, opening, closes);
    NoMotorsNoException(opening);
  }

  lemma NoMotorsNoException(opening: nat -> Opening)
    ensures !OpensForeign(0, 0, opening)
  {
  }

  /** What disabling comes to, motor by motor. */
  lemma DisablingComesTo(s: Logs, closes: set<nat>, m: nat)
    ensures m in Disabled(s, closes).logging <==> m in s.logging && m !in closes
    ensures m in Disabled(s, closes).open <==> m in s.open && !(m in s.logging && m in closes)
    ensures Disabled(s, closes).enabled <==> exists k | k in s.logging :: k !in closes
  {
    KeptMembers(s.logging, closes, m);
    ClosedMembers(s.logging, closes, m);
    var kept := Kept(s.logging, closes);
    if kept != [] {
      KeptMembers(s.logging, closes, kept[0]);
    }
    if k :| k in s.logging && k !in closes {
      KeptMembers(s.logging, closes, k);
    }
  }

  /** Motors i to k - 1 log, and motor k, if there is one, is the first that does not. */
  predicate FirstTrouble(n: nat, i: nat, k: nat, opening: nat -> Opening) {
    i <= k <= n && (forall j | i <= j < k :: opening(j).outcome == Logged) && (k < n ==> opening(k).outcome != Logged)
  }

  /**
   What opening comes to, motor by motor: without trouble all motors are listed; a foreign exception leaves those tried
   on the list and the switch alone; any other trouble closes those tried, and keeps exactly those that do not close.
   */
  lemma {:induction false} OpeningComesTo(s: Logs, n: nat, i: nat, k: nat, opening: nat -> Opening, closes: set<nat>,
                                          m: nat)
    requires FirstTrouble(n, i, k, opening)
    ensures var (after, r) := OpenedFrom(s, n, i, opening, closes);
      var tried, closing := i <= m <= k && m < n, k < n && opening(k).outcome != ThrewOther;
      var listed := m in s.logging || tried;
      && r == (if k == n then Returned(true) else if closing then Returned(false) else PassedThrough)
      && (m in after.logging <==> listed && !(closing && m in closes))
      && (m in after.open <==>
            (m in s.open || (tried && opening(m).opens)) && !(closing && listed && m in closes))
      && after.enabled == (if k == n then true else if closing then after.logging != [] else s.enabled)
    decreases n - i
  {
    hide Disabled;
    if i < n {
      var next := Logs(s.logging + [i], s.enabled, s.open + if opening(i).opens then {i} else {});
      if i < k {
        OpeningComesTo(next, n, i + 1, k, opening, closes, m);
      } else {
        DisablingComesTo(next, closes, m);
        DisabledSwitch(next, closes);
      }
    }
  }

  lemma DisabledSwitch(s: Logs, closes: set<nat>)
    ensures Disabled(s, closes).enabled <==> Disabled(s, closes).logging != []
  {
  }

  /** Two toggles with nothing going wrong switch every log on and off again. */
  lemma TogglingTwice(n: nat, opening: nat -> Opening, closes: set<nat>)
    requires n > 0 && forall m | 0 <= m < n :: opening(m).outcome == Logged && m in closes
    ensures var (on, r) := Toggled(INITIAL, n, true, opening, closes);
      && r == Returned(true) && on.enabled && (forall m: nat :: m in on.logging <==> m < n)
      && Toggled(on, n, true, opening, closes) == (INITIAL, Returned(true))
  {
    var (on, r) := Toggled(INITIAL, n, true, opening, closes);
    assert (on, r) == OpenedFrom(INITIAL, n, 0, opening, closes);
    OpeningComesTo(INITIAL, n, 0, n, opening, closes, 0);
    forall m: nat ensures m in on.logging <==> m < n { OpeningComesTo(INITIAL, n, 0, n, opening, closes, m); }
    OpenKeeps(INITIAL, n, 0, opening, closes);
    DisableClosesAll(on, closes);
    hide OpenedFrom;
  }

  /** With no motors, enabling reports success and leaves the switch on with nothing to close. */
  lemma NoMotorsIsInconsistent(opening: nat -> Opening, closes: set<nat>)
    ensures Enabled(INITIAL, 0, true, opening, closes) == (Logs([], true, {}), Returned(true))
    ensures !Consistent(Enabled(INITIAL, 0, true, opening, closes).0)
  {
  }

  function OpensThenThrows(m: nat): Opening { Opening(true, ThrewOther) }

  /** One motor whose log opens before the call throws a foreign exception: the switch stays off over an open log. */
  lemma ForeignIsInconsistent(closes: set<nat>)
    ensures Enabled(INITIAL, 1, true, OpensThenThrows, closes) == (Logs([0], false, {0}), PassedThrough)
    ensures !Consistent(Enabled(INITIAL, 1, true, OpensThenThrows, closes).0)
  {
    var opening: nat -> Opening := OpensThenThrows;
    assert opening(0) == OpensThenThrows(0);
    OneForeign(opening, closes);
  }

  lemma OneForeign(opening: nat -> Opening, closes: set<nat>)
    requires opening(0) == Opening(true, ThrewOther)
    ensures Enabled(INITIAL, 1, true, opening, closes) == (Logs([0], false, {0}), PassedThrough)
  {
    var next := Logs([0], false, {0});
    assert INITIAL.logging + [0] == next.logging && INITIAL.open + {0} == next.open;
    assert OpenedFrom(INITIAL, 1, 0, opening, closes) == (next, PassedThrough);
  }

  datatype Operation =
    | Enable(created: bool, opening: nat -> Opening, closes: set<nat>)
    | Disable(closes: set<nat>)
    | Toggle(created: bool, opening: nat -> Opening, closes: set<nat>)

  function Apply(s: Logs, n: nat, op: Operation): (Logs, Ended) {
    match op
    case Enable(created, opening, closes) => Enabled(s, n, created, opening, closes)
    case Disable(closes) => (Disabled(s, closes), Returned(Kept(s.logging, closes) == []))
    case Toggle(created, opening, closes) => Toggled(s, n, created, opening, closes)
  }

  function After(n: nat, ops: seq<Operation>, k: nat): Logs
    requires k <= |ops|
  {
    if k == 0 then INITIAL else Apply(After(n, ops, k - 1), n, ops[k - 1]).0
  }

  /** Whatever is called and whatever throws, no open log is ever forgotten. */
  lemma {:induction false} RunsTrack(n: nat, ops: seq<Operation>, k: nat)
    requires k <= |ops|
    ensures Tracked(After(n, ops, k))
  {
    if k > 0 {
      RunsTrack(n, ops, k - 1);
      StepTracks(After(n, ops, k - 1), n, ops[k - 1]);
    }
  }

  /** A switch that is on has something to close. */
  predicate OnlyOff(s: Logs) { s.enabled ==> s.logging != [] }

  lemma StepTracks(s: Logs, n: nat, op: Operation)
    requires Tracked(s)
    ensures Tracked(Apply(s, n, op).0)
    ensures OnlyOff(s) && n > 0 ==>
      OnlyOff(Apply(s, n, op).0) && (Consistent(Apply(s, n, op).0) <==> Apply(s, n, op).1 != PassedThrough)
  {
    hide OpenedFrom;
    match op
    case Enable(created, opening, closes) => OpenKeeps(s, n, 0, opening, closes);
    case Disable(closes) => DisableKeeps(s, closes);
    case Toggle(created, opening, closes) =>
      DisableKeeps(s, closes);
      OpenKeeps(s, n, 0, opening, closes);
  }

  lemma {:induction false} RunsAreOff(n: nat, ops: seq<Operation>, k: nat)
    requires n > 0 && k <= |ops|
    ensures OnlyOff(After(n, ops, k))
  {
    hide Apply;
    if k > 0 {
      RunsAreOff(n, ops, k - 1);
      RunsTrack(n, ops, k - 1);
      StepTracks(After(n, ops, k - 1), n, ops[k - 1]);
    }
  }

  /**
   With at least one motor, in every run and whatever was thrown before: the switch is on exactly while the list is
   non-empty, if and only if the last operation did not let a foreign exception pass; otherwise it is off over a
   non-empty list.
   */
  lemma RunsAreConsistent(n: nat, ops: seq<Operation>, k: nat)
    requires n > 0 && k <= |ops|
    ensures Consistent(After(n, ops, k)) <==>
      k == 0 || Apply(After(n, ops, k - 1), n, ops[k - 1]).1 != PassedThrough
    ensures !Consistent(After(n, ops, k)) ==> !After(n, ops, k).enabled && After(n, ops, k).logging != []
  {
    hide Apply;
    RunsAreOff(n, ops, k);
    if k > 0 {
      RunsAreOff(n, ops, k - 1);
      RunsTrack(n, ops, k - 1);
      StepTracks(After(n, ops, k - 1), n, ops[k - 1]);
    }
  }

  // ---------------------------------------------------------------- no motor is listed twice

  predicate Listed(motors: seq<nat>, n: nat) { Ascending(motors) && forall m | m in motors :: m < n }

  lemma KeptListed(motors: seq<nat>, n: nat, closes: set<nat>)
    requires Listed(motors, n)
    ensures Listed(Kept(motors, closes), n)
  {
    KeptInOrder(motors, closes);
    var kept, at := Kept(motors, closes), Positions(motors, closes);
    hide Kept, Positions;
    forall m | m in kept ensures m < n { KeptMembers(motors, closes, m); }
    forall i, j | 0 <= i < j < |kept| ensures kept[i] < kept[j] {
      assert at[i] < at[j] && kept[i] == motors[at[i]] && kept[j] == motors[at[j]];
    }
  }

  lemma ListedNext(motors: seq<nat>, i: nat)
    requires Listed(motors, i)
    ensures Listed(motors + [i], i + 1)
  {
    forall p | 0 <= p < |motors| ensures motors[p] < i { assert motors[p] in motors; }
  }

  lemma {:induction false} OpenListed(s: Logs, n: nat, i: nat, opening: nat -> Opening, closes: set<nat>)
    requires i <= n && Listed(s.logging, i)
    ensures Listed(OpenedFrom(s, n, i, opening, closes).0.logging, n)
    decreases n - i
  {
    if i < n {
      var next := Logs(s.logging + [i], s.enabled, s.open + if opening(i).opens then {i} else {});
      ListedNext(s.logging, i);
      assert Listed(next.logging, n);
      KeptListed(next.logging, n, closes);
      if opening(i).outcome == Logged { OpenListed(next, n, i + 1, opening, closes); }
    }
  }

  /** In every run the list names each motor at most once, in the order in which the motors were opened. */
  lemma {:induction false} RunsListOnce(n: nat, ops: seq<Operation>, k: nat)
    requires k <= |ops|
    ensures Listed(After(n, ops, k).logging, n)
  {
    if k > 0 {
      var before := After(n, ops, k - 1);
      RunsListOnce(n, ops, k - 1);
      match ops[k - 1]
      case Enable(created, opening, closes) => if before.logging == [] { OpenListed(before, n, 0, opening, closes); }
      case Disable(closes) => KeptListed(before.logging, n, closes);
      case Toggle(created, opening, closes) =>
        KeptListed(before.logging, n, closes);
        if before.logging == [] { OpenListed(before, n, 0, opening, closes); }
    }
  }

  /** After a foreign exception the next toggle only repairs the switch; the one after it closes the logs. */
  lemma ToggleRepairs(s: Logs, n: nat, created: bool, opening: nat -> Opening, closes: set<nat>)
    requires Tracked(s) && s.logging != [] && !s.enabled
    ensures Toggled(s, n, created, opening, closes) == (s.(enabled := true), Returned(false))
    ensures Consistent(s.(enabled := true))
  {
  }

  /** Once every close succeeds, disabling leaves no log open. */
  lemma DisableClosesAll(s: Logs, closes: set<nat>)
    requires Tracked(s) && forall m | m in s.logging :: m in closes
    ensures Disabled(s, closes) == INITIAL
  {
    var kept := Kept(s.logging, closes);
    if kept != [] { KeptMembers(s.logging, closes, kept[0]); }
    forall m | m in s.open ensures m in Closed(s.logging, closes) { ClosedMembers(s.logging, closes, m); }
  }
}
