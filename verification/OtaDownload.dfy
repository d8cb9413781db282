/** The one-click update as a protocol over an abstract gateway. */
module OtaDownload {
  import opened Wrappers
  import opened Bytes
  import opened OtaStatus
  import OtaPackage
  import OtaReader
  import ElfLoader

  const SECOND: int := 1_000_000_000

  datatype DownloadError =
    | CannotRead | BadFirmware | NoGateway | BadSerial | NoReply | BadStatus | NotReady | VersionExhausted
    | EnterRefused | AmbiguousVolume | NoVolume | VolumeChanged | WriteFailed
    | AmbiguousPort | WrongSlotOrVersion | NotConfirmedInTime

  datatype Event =
    | Sent(command: string)
    | MountTried(at: int, attempted: bool)
    | Written(volume: string, package: seq<byte>, flushed: bool)

  /** One turn of the loop that waits for the volume; None where the search throws. */
  datatype VolumePoll = VolumePoll(now: int, found: Option<string>, mountTime: int, attempted: bool)

  /** One turn of the loop that waits for the new firmware; an unanswered or unparsable status is retried. */
  datatype PortPoll = PortPoll(now: int, port: Option<string>, reply: Option<string>)

  /** Everything the outside decides. A poll list that ends stands for a clock that has passed the deadline. */
  datatype World = World(
    extension: ElfLoader.Extension, file: Option<seq<byte>>, serial: Option<string>,
    status: Option<string>, entered: Option<string>,
    enterTime: int, volumes: seq<VolumePoll>, recheck: Option<string>, written: bool,
    writeTime: int, ports: seq<PortPoll>)

  predicate OtaConfirmed(s: Status) { s.ready == 1 && s.confirmed == s.slot && s.pending == 0xffff_ffff }

  /** The result a successful update must report. */
  predicate Advances(before: Status, after: Status, version: uint32) {
    OtaConfirmed(after) && after.slot == 1 - before.slot && after.version == version
  }

  predicate IsUuid(serial: string) {
    |serial| == 32 && forall c | c in serial :: '0' <= c <= '9' || 'a' <= c <= 'f'
  }

  // ---------------------------------------------------------------- what the polls amount to

  datatype Volume = NoVolumeYet | Ambiguous | At(path: string)

  function FirstVolume(polls: seq<VolumePoll>, deadline: int): Volume {
    if polls == [] || polls[0].now >= deadline then NoVolumeYet
    else if polls[0].found.None? then Ambiguous
    else if polls[0].found.value != "" then At(polls[0].found.value)
    else FirstVolume(polls[1..], deadline)
  }

  datatype Confirmation = Unconfirmed | PortClash | Confirmed(status: Status)

  /** The status a poll reads, if the port answers with one. */
  function Polled(p: PortPoll): Option<Status> {
    if p.port.Some? && p.port.value != "" && p.reply.Some? && Parsed(p.reply.value).Success?
    then Some(Parsed(p.reply.value).value) else None
  }

  /** The first confirmed status among the polls before the deadline. */
  function FirstConfirmed(polls: seq<PortPoll>, deadline: int): Confirmation {
    if polls == [] || polls[0].now >= deadline then Unconfirmed
    else if polls[0].port.None? then PortClash
    else
      var s := Polled(polls[0]);
      if s.Some? && OtaConfirmed(s.value) then Confirmed(s.value) else FirstConfirmed(polls[1..], deadline)
  }

  /** Being first: every earlier poll was in time and read nothing that was confirmed. */
  lemma {:induction false} FirstConfirmedIsFirst(polls: seq<PortPoll>, deadline: int, s: Status)
    ensures FirstConfirmed(polls, deadline) == Confirmed(s) <==>
      exists i | 0 <= i < |polls| ::
        && Polled(polls[i]) == Some(s) && OtaConfirmed(s)
        && (forall j | 0 <= j <= i :: polls[j].now < deadline && polls[j].port.Some?)
        && forall j | 0 <= j < i :: Polled(polls[j]).None? || !OtaConfirmed(Polled(polls[j]).value)
    decreases |polls|
  {
    hide Polled, OtaConfirmed;
    if polls != [] {
      FirstConfirmedIsFirst(polls[1..], deadline, s);
    }
  }

  // ---------------------------------------------------------------- the stages

  function Payload(w: World): Option<seq<byte>> {
    if w.file.None? then None
    else
      var loaded := ElfLoader.Loaded(w.extension, w.file.value);
      if loaded.Success? then Some(loaded.value) else None
  }

  function Before(w: World): Option<Status> {
    if w.status.Some? && Parsed(w.status.value).Success? then Some(Parsed(w.status.value).value) else None
  }

  /** Everything that is checked before the running firmware is asked to reboot. */
  predicate Validated(w: World) {
    && Payload(w).Some? && w.serial.Some? && IsUuid(w.serial.value)
    && Before(w).Some? && OtaConfirmed(Before(w).value) && Before(w).value.version < 0xffff_fffe
  }

  /** The bootloader's volume is there, and still the same just before the write. */
  predicate ReadyToWrite(w: World) {
    && Validated(w) && w.entered == Some("OK OTA REBOOT")
    && FirstVolume(w.volumes, w.enterTime + 40 * SECOND).At?
    && w.recheck == Some(FirstVolume(w.volumes, w.enterTime + 40 * SECOND).path)
  }

  predicate Flashed(w: World) { ReadyToWrite(w) && w.written }

  function Verdict(w: World): Confirmation { FirstConfirmed(w.ports, w.writeTime + 100 * SECOND) }

  /** The update succeeds and ends in this status. */
  predicate Succeeds(w: World, after: Status) {
    && Flashed(w) && Verdict(w) == Confirmed(after)
    && after.slot == 1 - Before(w).value.slot && after.version == Before(w).value.version + 1
  }

  // ---------------------------------------------------------------- the event log

  /** How many turns of the volume loop find nothing, so that it goes on. */
  function VolumeTurns(polls: seq<VolumePoll>, deadline: int): (n: nat)
    ensures n <= |polls|
  {
    if polls == [] || polls[0].now >= deadline || polls[0].found != Some("") then 0
    else 1 + VolumeTurns(polls[1..], deadline)
  }

  /** A turn tries to mount once five seconds have passed. */
  predicate Late(p: VolumePoll, start: int) { p.mountTime - start > 5 * SECOND }

  /** The mount attempts of turns that found nothing: every late turn, until an attempt is made. */
  function Mounts(polls: seq<VolumePoll>, start: int): seq<Event> {
    if polls == [] then []
    else
      var before, last := Mounts(polls[..|polls| - 1], start), polls[|polls| - 1];
      if Late(last, start) && !Attempted(before) then before + [MountTried(last.mountTime, last.attempted)] else before
  }

  predicate Attempted(attempts: seq<Event>) { exists e | e in attempts :: e.MountTried? && e.attempted }

  function MountLog(w: World): seq<Event> {
    Mounts(w.volumes[..VolumeTurns(w.volumes, w.enterTime + 40 * SECOND)], w.enterTime)
  }

  /** How many turns the confirmation loop takes, up to and including the one that reads a confirmed status. */
  function PortTurns(polls: seq<PortPoll>, deadline: int): (n: nat)
    ensures n <= |polls|
  {
    if polls == [] || polls[0].now >= deadline || polls[0].port.None? then 0
    else if Polled(polls[0]).Some? && OtaConfirmed(Polled(polls[0]).value) then 1
    else 1 + PortTurns(polls[1..], deadline)
  }

  /** The number of polls that find a port to ask. */
  function Ports(polls: seq<PortPoll>): nat {
    if polls == [] then 0
    else
      var last := polls[|polls| - 1];
      Ports(polls[..|polls| - 1]) + if last.port.Some? && last.port.value != "" then 1 else 0
  }

  function Queries(n: nat): seq<Event> { seq(n, i => Sent("OTA STATUS")) }

  function QueryLog(w: World): seq<Event> {
    Queries(Ports(w.ports[..PortTurns(w.ports, w.writeTime + 100 * SECOND)]))
  }

  /** The firmware of this run under the next version, as the packager writes it; there is none before validation. */
  function NewPackage(w: World): seq<byte> {
    if !Validated(w) then []
    else
      PackagerGuardsHold(w);
      OtaPackage.Package(Payload(w).value, Before(w).value.version + 1)
  }

  /** The path of the volume the bootloader offers. */
  function VolumePath(w: World): string {
    match FirstVolume(w.volumes, w.enterTime + 40 * SECOND)
    case At(path) => path
    case _ => ""
  }

  function WriteLog(w: World): seq<Event> {
    if ReadyToWrite(w) then [Written(VolumePath(w), NewPackage(w), w.written)] else []
  }

  /** Everything a run does to the outside, in order. */
  function Log(w: World): seq<Event> {
    if Payload(w).None? || w.serial.None? || !IsUuid(w.serial.value) then []
    else if !Validated(w) then [Sent("OTA STATUS")]
    else
      [Sent("OTA STATUS"), Sent("OTA ENTER")]
      + (if w.entered == Some("OK OTA REBOOT") then MountLog(w) else [])
      + WriteLog(w) + (if Flashed(w) then QueryLog(w) else [])
  }

  /** Query, reboot, mount attempts, one flushed write of the new package to the first volume found, and the polling. */
  predicate IsSuccessLog(w: World, log: seq<Event>) {
    && Flashed(w)
    && log == [Sent("OTA STATUS"), Sent("OTA ENTER")] + MountLog(w)
              + [Written(VolumePath(w), NewPackage(w), true)] + QueryLog(w)
  }

  class Downloader {
    var events: seq<Event>

    constructor ()
      ensures events == []
    {
      events := [];
    }

    /**
     Success exactly when the new firmware was flashed and the first confirmed status has the other slot and the next
     version. In every run, whatever its result, exactly the commands, mounts and writes of its log have happened.
     */
    method DownloadFirmware(w: World) returns (r: Result<Status, DownloadError>)
      requires events == []
      modifies this
      ensures r.Success? ==> Succeeds(w, r.value)
      ensures r.Failure? ==> forall after :: !Succeeds(w, after)
      ensures events == Log(w)
      ensures r.Success? ==> IsSuccessLog(w, events)
      // Both statuses are ready, confirmed in their slot and have no trial pending.
      ensures r.Success? ==> r.value.ready == 1 && r.value.confirmed == r.value.slot && r.value.pending == 0xffff_ffff
      ensures r.Success? ==>
        && Before(w).Some? && Before(w).value.ready == 1 && Before(w).value.confirmed == Before(w).value.slot
        && Before(w).value.pending == 0xffff_ffff
      // A confirmed rollback fails, and the query that read it was the last.
      ensures Flashed(w) && Verdict(w).Confirmed? && r.Failure? ==> r == Failure(WrongSlotOrVersion)
    {
      hide Validated, MountLog, QueryLog, NewPackage, Log, IsSuccessLog, Verdict;
      var prepared := Prepare(w);
      if prepared.Failure? {
        return Failure(prepared.error);
      }
      var (before, version, package) := prepared.value;
      r := FlashAndConfirm(w, package, before, version);
      if r.Success? {
        SuccessLog(w);
        SuccessIsConfirmed(w, r.value);
      }
    }

    /** Load, identify, query and package: everything that happens before the reboot. */
    method Prepare(w: World) returns (r: Result<(Status, uint32, seq<byte>), DownloadError>)
      requires events == []
      modifies this
      ensures r.Success? <==> Validated(w)
      ensures r.Success? ==>
        && r.value.0 == Before(w).value && r.value.1 == Before(w).value.version + 1
        && r.value.2 == NewPackage(w) && events == [Sent("OTA STATUS")]
      ensures r.Failure? ==> r.error != WrongSlotOrVersion && events == Log(w)
    {
      hide Parsed, ElfLoader.Loaded, OtaPackage.Package;
      if w.file.None? {
        return Failure(CannotRead);
      }
      var loaded := ElfLoader.LoadOtaFirmware(w.extension, w.file.value);
      if loaded.Failure? {
        return Failure(BadFirmware);
      }
      var payload := loaded.value;
      if w.serial.None? {
        return Failure(NoGateway);
      }
      if !IsUuid(w.serial.value) {
        return Failure(BadSerial);
      }
      events := events + [Sent("OTA STATUS")];
      if w.status.None? {
        return Failure(NoReply);
      }
      var parsed := ParseOtaStatus(w.status.value);
      if parsed.Failure? {
        return Failure(BadStatus);
      }
      var before := parsed.value;
      if !OtaConfirmed(before) {
        return Failure(NotReady);
      }
      if !(before.version < 0xffff_fffe) {
        return Failure(VersionExhausted);
      }
      var version: uint32 := (before.version + 1) % 0x1_0000_0000;
      ElfLoader.LoadedFitsTheSlot(w.extension, w.file.value);
      var package := OtaPackage.MakeOtaPackage(payload, version);
      // The packager's own guards cannot fail here, so its result is taken without a check of its error.
      r := Success((before, version, package.value));
    }

    method FlashAndConfirm(w: World, package: seq<byte>, before: Status, version: uint32)
      returns (r: Result<Status, DownloadError>)
      requires Validated(w) && before == Before(w).value && version == before.version + 1 && package == NewPackage(w)
      requires events == [Sent("OTA STATUS")]
      modifies this
      ensures r.Success? ==> Succeeds(w, r.value)
      ensures r.Failure? ==> forall after :: !Succeeds(w, after)
      ensures Flashed(w) && Verdict(w).Confirmed? && r.Failure? ==> r == Failure(WrongSlotOrVersion)
      ensures events == Log(w)
    {
      hide Parsed, Validated, NewPackage, MountLog, QueryLog, Verdict, FirstVolume, OtaConfirmed, Before, Payload;
      LogWhenValidated(w);
      hide Log;
      events := events + [Sent("OTA ENTER")];
      if w.entered.None? || w.entered.value != "OK OTA REBOOT" {
        return Failure(EnterRefused);
      }
      var volume := WaitForVolume(w);
      if volume.Ambiguous? {
        return Failure(AmbiguousVolume);
      }
      if volume.NoVolumeYet? {
        return Failure(NoVolume);
      }
      if w.recheck.None? {
        return Failure(AmbiguousVolume);
      }
      if w.recheck.value != volume.path {
        return Failure(VolumeChanged);
      }
      events := events + [Written(volume.path, package, w.written)];
      if !w.written {
        return Failure(WriteFailed);
      }
      var verdict := WaitForConfirmation(w);
      match verdict
      case Unconfirmed => r := Failure(NotConfirmedInTime);
      case PortClash => r := Failure(AmbiguousPort);
      case Confirmed(after) =>
        if !(after.slot == 1 - before.slot && after.version == version) {
          return Failure(WrongSlotOrVersion);
        }
        r := Success(after);
    }

    /** The volume loop: poll until the deadline; after five seconds try to mount until one attempt is made. */
    method WaitForVolume(w: World) returns (volume: Volume)
      modifies this
      ensures volume == FirstVolume(w.volumes, w.enterTime + 40 * SECOND)
      ensures events == old(events) + MountLog(w)
    {
      hide Mounts, Attempted, FirstVolume, VolumeTurns;
      var deadline := w.enterTime + 40 * SECOND;
      var mountAttempted := false;
      var i := 0;
      NoMounts(w.volumes, w.enterTime);
      VolumeStep(w.volumes, deadline, 0);
      while i < |w.volumes| && w.volumes[i].now < deadline
        invariant 0 <= i <= |w.volumes|
        invariant VolumeSearch(w.volumes, deadline, i)
        invariant events == old(events) + Mounts(w.volumes[..i], w.enterTime)
        invariant mountAttempted == Attempted(Mounts(w.volumes[..i], w.enterTime))
      {
        VolumeStep(w.volumes, deadline, i);
        var poll := w.volumes[i];
        if poll.found.None? {
          return Ambiguous;
        }
        if poll.found.value != "" {
          return At(poll.found.value);
        }
        NextMount(w.volumes, i, w.enterTime);
        if !mountAttempted && poll.mountTime - w.enterTime > 5 * SECOND {
          mountAttempted := poll.attempted;
          events := events + [MountTried(poll.mountTime, poll.attempted)];
        }
        i := i + 1;
      }
      VolumeStep(w.volumes, deadline, i);
      volume := NoVolumeYet;
    }

    /** The confirmation loop: unanswered, unparsable and unconfirmed polls are retried until the deadline. */
    method WaitForConfirmation(w: World) returns (verdict: Confirmation)
      modifies this
      ensures verdict == Verdict(w)
      ensures events == old(events) + QueryLog(w)
    {
      hide Parsed, FirstConfirmed, PortTurns, Ports, OtaConfirmed;
      var deadline := w.writeTime + 100 * SECOND;
      var i := 0;
      NoPorts(w.ports);
      PortStep(w.ports, deadline, 0);
      while i < |w.ports| && w.ports[i].now < deadline
        invariant 0 <= i <= |w.ports|
        invariant PortSearch(w.ports, deadline, i)
        invariant events == old(events) + Queries(Ports(w.ports[..i]))
      {
        PortStep(w.ports, deadline, i);
        NextPort(w.ports, i);
        var poll := w.ports[i];
        if poll.port.None? {
          return PortClash;
        }
        var status: Option<Status> := None;
        if poll.port.value != "" {
          events := events + [Sent("OTA STATUS")];
          if poll.reply.Some? {
            var parsed := ParseOtaStatus(poll.reply.value);
            if parsed.Success? {
              status := Some(parsed.value);
            }
          }
        }
        if status.Some? && OtaConfirmed(status.value) {
          return Confirmed(status.value);
        }
        i := i + 1;
      }
      PortStep(w.ports, deadline, i);
      verdict := Unconfirmed;
    }
  }

  // ---------------------------------------------------------------- steps of the two loops

  /** What the volume loop finds from turn i on is what it finds at all, and it has taken i turns so far. */
  predicate VolumeSearch(polls: seq<VolumePoll>, deadline: int, i: nat)
    requires i <= |polls|
  {
    && FirstVolume(polls[i..], deadline) == FirstVolume(polls, deadline)
    && VolumeTurns(polls[i..], deadline) + i == VolumeTurns(polls, deadline)
  }

  lemma VolumeStep(polls: seq<VolumePoll>, deadline: int, i: nat)
    requires i <= |polls|
    ensures VolumeSearch(polls, deadline, 0)
    ensures VolumeSearch(polls, deadline, i) ==>
      if i == |polls| || polls[i].now >= deadline
      then FirstVolume(polls, deadline) == NoVolumeYet && VolumeTurns(polls, deadline) == i
      else if polls[i].found == Some("") then VolumeSearch(polls, deadline, i + 1)
      else VolumeTurns(polls, deadline) == i
           && FirstVolume(polls, deadline) == if polls[i].found.None? then Ambiguous else At(polls[i].found.value)
  {
    assert polls[0..] == polls;
    if i < |polls| { assert polls[i..][1..] == polls[i + 1..] && polls[i..][0] == polls[i]; }
  }

  lemma NoMounts(polls: seq<VolumePoll>, start: int)
    ensures Mounts(polls[..0], start) == [] && !Attempted([])
  {
  }

  lemma NextMount(polls: seq<VolumePoll>, i: nat, start: int)
    requires i < |polls|
    ensures var before, after := Mounts(polls[..i], start), Mounts(polls[..i + 1], start);
      if Late(polls[i], start) && !Attempted(before)
      then after == before + [MountTried(polls[i].mountTime, polls[i].attempted)]
           && Attempted(after) == polls[i].attempted
      else after == before
  {
    assert polls[..i + 1][..i] == polls[..i];
    var tried := MountTried(polls[i].mountTime, polls[i].attempted);
    assert tried in Mounts(polls[..i], start) + [tried];
  }

  /** The same for the confirmation loop. */
  predicate PortSearch(polls: seq<PortPoll>, deadline: int, i: nat)
    requires i <= |polls|
  {
    && FirstConfirmed(polls[i..], deadline) == FirstConfirmed(polls, deadline)
    && PortTurns(polls[i..], deadline) + i == PortTurns(polls, deadline)
  }

  lemma PortStep(polls: seq<PortPoll>, deadline: int, i: nat)
    requires i <= |polls|
    ensures PortSearch(polls, deadline, 0)
    ensures PortSearch(polls, deadline, i) ==>
      if i == |polls| || polls[i].now >= deadline
      then FirstConfirmed(polls, deadline) == Unconfirmed && PortTurns(polls, deadline) == i
      else if polls[i].port.None? then FirstConfirmed(polls, deadline) == PortClash && PortTurns(polls, deadline) == i
      else if Polled(polls[i]).Some? && OtaConfirmed(Polled(polls[i]).value)
      then FirstConfirmed(polls, deadline) == Confirmed(Polled(polls[i]).value) && PortTurns(polls, deadline) == i + 1
      else PortSearch(polls, deadline, i + 1)
  {
    hide Polled, OtaConfirmed;
    assert polls[0..] == polls;
    if i < |polls| { assert polls[i..][1..] == polls[i + 1..] && polls[i..][0] == polls[i]; }
  }

  lemma NoPorts(polls: seq<PortPoll>)
    ensures Ports(polls[..0]) == 0
  {
  }

  lemma NextPort(polls: seq<PortPoll>, i: nat)
    requires i < |polls|
    ensures var asked := polls[i].port.Some? && polls[i].port.value != "";
      Ports(polls[..i + 1]) == Ports(polls[..i]) + (if asked then 1 else 0)
      && Queries(Ports(polls[..i + 1])) == Queries(Ports(polls[..i])) + if asked then [Sent("OTA STATUS")] else []
  {
    assert polls[..i + 1][..i] == polls[..i];
  }

  lemma LogWhenValidated(w: World)
    requires Validated(w)
    ensures Log(w) == [Sent("OTA STATUS"), Sent("OTA ENTER")]
                      + (if w.entered == Some("OK OTA REBOOT") then MountLog(w) else [])
                      + WriteLog(w) + (if Flashed(w) then QueryLog(w) else [])
  {
  }

  lemma LogOtherwise(w: World)
    requires !Validated(w)
    ensures Log(w) == [] || Log(w) == [Sent("OTA STATUS")]
  {
    hide Validated, Payload;
  }

  lemma SuccessIsConfirmed(w: World, after: Status)
    requires Succeeds(w, after)
    ensures after.ready == 1 && after.confirmed == after.slot && after.pending == 0xffff_ffff
    ensures Before(w).Some?
    ensures var before := Before(w).value;
      before.ready == 1 && before.confirmed == before.slot && before.pending == 0xffff_ffff
  {
    FirstConfirmedIsFirst(w.ports, w.writeTime + 100 * SECOND, after);
    hide Parsed, FirstConfirmed;
  }

  lemma SuccessLog(w: World)
    requires Flashed(w)
    ensures IsSuccessLog(w, Log(w))
  {
    hide Payload, Before, NewPackage, MountLog, QueryLog;
    LogWhenValidated(w);
    hide Log;
  }

  // ---------------------------------------------------------------- what the log and the results add up to

  /** In every run the gateway is rebooted exactly if everything is validated, once, and before anything is written. */
  lemma RebootOnlyWhenValidated(w: World)
    ensures Sent("OTA ENTER") in Log(w) <==> Validated(w)
    ensures Validated(w) ==> OtaPackage.Packable(Payload(w).value, Before(w).value.version + 1)
    ensures multiset(Log(w))[Sent("OTA ENTER")] <= 1
    ensures forall i, j | 0 <= i < |Log(w)| && 0 <= j < |Log(w)| ::
      Log(w)[i] == Sent("OTA ENTER") && Log(w)[j].Written? ==> i < j
  {
    hide Payload, Before, NewPackage, Parsed, ReadyToWrite, MountLog, QueryLog, Log;
    if !Validated(w) {
      LogOtherwise(w);
    } else {
      PackagerGuardsHold(w);
      LogWhenValidated(w);
      LogKinds(w);
      hide Validated, WriteLog, OtaPackage.Packable;
      OneReboot(if w.entered == Some("OK OTA REBOOT") then MountLog(w) else [], WriteLog(w),
                if Flashed(w) then QueryLog(w) else []);
    }
  }

  /** What kinds of events the parts of a log hold. */
  lemma LogKinds(w: World)
    requires Validated(w)
    ensures forall e | e in MountLog(w) :: e.MountTried?
    ensures forall e | e in WriteLog(w) ::
      e.Written? && ReadyToWrite(w) && e.flushed == w.written && e.package == NewPackage(w)
      && FirstVolume(w.volumes, w.enterTime + 40 * SECOND) == At(e.volume)
    ensures forall e | e in QueryLog(w) :: e == Sent("OTA STATUS")
    ensures ReadyToWrite(w) <==> WriteLog(w) != []
  {
    hide Validated, NewPackage;
    MountsAreLate(w.volumes[..VolumeTurns(w.volumes, w.enterTime + 40 * SECOND)], w.enterTime);
  }

  lemma OneReboot(mounts: seq<Event>, writes: seq<Event>, polls: seq<Event>)
    requires (forall e | e in mounts :: e.MountTried?) && (forall e | e in writes :: e.Written?)
    requires forall e | e in polls :: e == Sent("OTA STATUS")
    ensures var log := [Sent("OTA STATUS"), Sent("OTA ENTER")] + mounts + writes + polls;
      multiset(log)[Sent("OTA ENTER")] == 1
      && forall i | 0 <= i < |log| && log[i] == Sent("OTA ENTER") :: i == 1
  {
    assert Sent("OTA ENTER") !in mounts && Sent("OTA ENTER") !in writes && Sent("OTA ENTER") !in polls;
    assert multiset([Sent("OTA STATUS"), Sent("OTA ENTER")]) == multiset{Sent("OTA STATUS"), Sent("OTA ENTER")};
    var tail := mounts + writes + polls;
    var log := [Sent("OTA STATUS"), Sent("OTA ENTER")] + mounts + writes + polls;
    assert log == [Sent("OTA STATUS"), Sent("OTA ENTER")] + tail;
    assert Sent("OTA ENTER") !in tail;
  }

  /** Mounts are tried only after five seconds, if a late turn found nothing, and not after an attempt was made. */
  lemma {:induction false} MountsAreLate(polls: seq<VolumePoll>, start: int)
    ensures var mounts := Mounts(polls, start);
      && (forall e | e in mounts :: e.MountTried? && e.at - start > 5_000_000_000)
      && (mounts != [] <==> exists p | p in polls :: p.mountTime - start > 5_000_000_000)
      && (Attempted(mounts) <==> exists p | p in polls :: p.mountTime - start > 5_000_000_000 && p.attempted)
      && forall i | 0 <= i < |mounts| - 1 :: !mounts[i].attempted
  {
    if polls != [] {
      var before, last := polls[..|polls| - 1], polls[|polls| - 1];
      MountsAreLate(before, start);
      assert polls == before + [last];
    }
  }

  /** What is written is a package that an independent reader opens to this run's firmware under the next version. */
  lemma NewPackageIsRead(w: World)
    requires Validated(w)
    ensures OtaReader.ReadPackage(NewPackage(w))
         == Some(OtaReader.Firmware(Payload(w).value, Before(w).value.version + 1))
  {
    hide Parsed, ElfLoader.Loaded, OtaPackage.Package, OtaReader.ReadPackage;
    PackagerGuardsHold(w);
    OtaReader.PackageRoundTrip(Payload(w).value, Before(w).value.version + 1);
  }

  /** The firmware counts as flashed exactly if the log holds its flushed write, to the first volume found. */
  lemma FlashedIsWritten(w: World)
    ensures Flashed(w) <==> exists e | e in Log(w) :: e.Written? && e.flushed
    ensures forall e | e in Log(w) && e.Written? ::
      Validated(w) && FirstVolume(w.volumes, w.enterTime + 40 * SECOND) == At(e.volume) && e.package == NewPackage(w)
  {
    hide Payload, Before, NewPackage, Parsed, MountLog, QueryLog;
    if Validated(w) {
      LogWhenValidated(w);
      LogKinds(w);
      hide Log, Validated, WriteLog, ReadyToWrite;
      if Flashed(w) {
        var e := WriteLog(w)[0];
        assert e in WriteLog(w) && e in Log(w);
      }
    }
  }

  /** The confirmation loop stops at once: its last turn is the first that read a confirmed status, if one did. */
  lemma {:induction false} StopsAtFirstConfirmed(polls: seq<PortPoll>, deadline: int, s: Status)
    requires FirstConfirmed(polls, deadline) == Confirmed(s)
    ensures var n := PortTurns(polls, deadline);
      && n > 0 && Polled(polls[n - 1]) == Some(s) && OtaConfirmed(s)
      && forall j | 0 <= j < n - 1 :: Polled(polls[j]).None? || !OtaConfirmed(Polled(polls[j]).value)
    decreases |polls|
  {
    hide Polled, OtaConfirmed;
    if !(Polled(polls[0]).Some? && OtaConfirmed(Polled(polls[0]).value)) {
      StopsAtFirstConfirmed(polls[1..], deadline, s);
    }
  }

  lemma PackagerGuardsHold(w: World)
    requires Validated(w)
    ensures OtaPackage.Packable(Payload(w).value, Before(w).value.version + 1)
  {
    ElfLoader.LoadedFitsTheSlot(w.extension, w.file.value);
  }

  /** A chain of successful downloads, each starting from the status the one before it confirmed. */
  predicate IsChain(worlds: seq<World>, statuses: seq<Status>) {
    && |statuses| == |worlds| + 1
    && forall i | 0 <= i < |worlds| ::
         Succeeds(worlds[i], statuses[i + 1]) && Before(worlds[i]) == Some(statuses[i])
  }

  /** Over any chain the slots alternate and the versions rise by one, never wrapping. */
  lemma {:induction false} ChainAlternates(worlds: seq<World>, statuses: seq<Status>, k: nat)
    requires IsChain(worlds, statuses) && k < |statuses|
    ensures statuses[k].version == statuses[0].version + k
    ensures k > 0 ==> statuses[k].slot == (statuses[0].slot + k) % 2 && OtaConfirmed(statuses[k])
    ensures k > 0 ==> statuses[k].version <= 0xffff_fffe
  {
    hide Succeeds, Before;
    if k > 0 {
      ChainAlternates(worlds, statuses, k - 1);
      OneUpdate(worlds[k - 1], statuses[k]);
    }
  }

  lemma OneUpdate(w: World, after: Status)
    requires Succeeds(w, after)
    ensures var before := Before(w).value;
      before.slot < 2 && after.slot == 1 - before.slot && OtaConfirmed(after)
      && after.version == before.version + 1 <= 0xffff_fffe
  {
    FirstConfirmedIsFirst(w.ports, w.writeTime + 100 * SECOND, after);
    SlotsAreBinary(w);
  }

  lemma SlotsAreBinary(w: World)
    requires Before(w).Some?
    ensures Before(w).value.slot < 2
  {
  }
}
