/** When an update succeeds, in the fields of the statuses, the polls in their order and seconds of the clock. */
module OtaOutcome {
  import opened Wrappers
  import opened Bytes
  import opened OtaStatus
  import opened OtaStatusLine
  import opened OtaDownload
  import ElfLoader

  /** Ready, running from the slot it has confirmed, with no trial pending. */
  predicate RunsConfirmed(s: Status) { s.ready == 1 && s.confirmed == s.slot && s.pending == 0xffff_ffff }

  /** The poll finds a port and reads this status from it. */
  predicate Reads(p: PortPoll, s: Status) {
    p.port.Some? && p.port.value != "" && p.reply.Some? && Parsed(p.reply.value) == Success(s)
  }

  predicate ReadsConfirmed(p: PortPoll) {
    p.port.Some? && p.port.value != "" && p.reply.Some? && Parsed(p.reply.value).Success?
    && RunsConfirmed(Parsed(p.reply.value).value)
  }

  /** Poll i is in time and the first to read a confirmed status, which is s. */
  predicate IsVerdict(polls: seq<PortPoll>, deadline: int, i: nat, s: Status)
    requires i < |polls|
  {
    && Reads(polls[i], s) && RunsConfirmed(s)
    && (forall j | 0 <= j <= i :: polls[j].now < deadline && polls[j].port.Some?)
    && forall j | 0 <= j < i :: !ReadsConfirmed(polls[j])
  }

  predicate HasVerdict(polls: seq<PortPoll>, deadline: int, s: Status) {
    exists i | 0 <= i < |polls| :: IsVerdict(polls, deadline, i, s)
  }

  lemma VerdictIsFirst(polls: seq<PortPoll>, deadline: int, s: Status)
    ensures FirstConfirmed(polls, deadline) == Confirmed(s) <==> HasVerdict(polls, deadline, s)
  {
    hide Parsed;
    FirstConfirmedIsFirst(polls, deadline, s);
    hide FirstConfirmed;
    if i :| 0 <= i < |polls| && IsVerdict(polls, deadline, i, s) {
      forall j | 0 <= j < i ensures Polled(polls[j]).None? || !OtaConfirmed(Polled(polls[j]).value) {
        assert !ReadsConfirmed(polls[j]);
      }
      assert Polled(polls[i]) == Some(s) && OtaConfirmed(s);
    }
    if FirstConfirmed(polls, deadline) == Confirmed(s) {
      var i :| 0 <= i < |polls| && Polled(polls[i]) == Some(s) && OtaConfirmed(s)
        && (forall j | 0 <= j <= i :: polls[j].now < deadline && polls[j].port.Some?)
        && forall j | 0 <= j < i :: Polled(polls[j]).None? || !OtaConfirmed(Polled(polls[j]).value);
      assert IsVerdict(polls, deadline, i, s);
    }
  }

  /** Poll i is in time and the first to find a volume, at this path; those before it searched and found none. */
  predicate IsVolume(polls: seq<VolumePoll>, deadline: int, i: nat, path: string)
    requires i < |polls|
  {
    && polls[i].found == Some(path) && path != ""
    && (forall j | 0 <= j <= i :: polls[j].now < deadline)
    && forall j | 0 <= j < i :: polls[j].found == Some("")
  }

  lemma {:induction false} VolumeIsFirst(polls: seq<VolumePoll>, deadline: int, path: string)
    ensures FirstVolume(polls, deadline) == At(path) <==>
      exists i | 0 <= i < |polls| :: IsVolume(polls, deadline, i, path)
    decreases |polls|
  {
    if polls != [] && polls[0].now < deadline && polls[0].found == Some("") {
      var rest := polls[1..];
      VolumeIsFirst(rest, deadline, path);
      if i :| 0 <= i < |rest| && IsVolume(rest, deadline, i, path) {
        forall j | 0 <= j <= i + 1 ensures polls[j].now < deadline && (j <= i ==> polls[j].found == Some("")) {
          if j > 0 { assert rest[j - 1] == polls[j]; }
        }
        assert IsVolume(polls, deadline, i + 1, path);
      }
      if i :| 0 <= i < |polls| && IsVolume(polls, deadline, i, path) {
        assert i > 0 && rest[i - 1] == polls[i];
        assert IsVolume(rest, deadline, i - 1, path);
      }
    } else if polls != [] && polls[0].now < deadline && polls[0].found.Some? {
      assert IsVolume(polls, deadline, 0, polls[0].found.value);
    }
  }

  /** The gateway before the update: a 32-digit serial, and a confirmed status whose version can still grow. */
  predicate StartsFrom(w: World, before: Status) {
    && w.serial.Some? && |w.serial.value| == 32
    && (forall c | c in w.serial.value :: '0' <= c <= '9' || 'a' <= c <= 'f')
    && w.status.Some? && Parsed(w.status.value) == Success(before)
    && RunsConfirmed(before) && before.version < 0xffff_fffe
  }

  /** The bootloader came up within 40 seconds, its volume stayed the same, and the package was flushed to it. */
  predicate IsFlashed(w: World, i: nat)
    requires i < |w.volumes|
  {
    && w.entered == Some("OK OTA REBOOT") && w.written && w.recheck.Some?
    && IsVolume(w.volumes, w.enterTime + 40_000_000_000, i, w.recheck.value)
  }

  /**
   An update succeeds with this status exactly if a loadable firmware meets a confirmed gateway, it is flashed, and the
   first confirmed status read within 100 seconds of the write is this one, from the other slot and of the next version.
   */
  lemma SucceedsExactlyWhen(w: World, before: Status, after: Status)
    ensures Before(w) == Some(before) && Succeeds(w, after) <==>
      && w.file.Some? && ElfLoader.Loaded(w.extension, w.file.value).Success? && StartsFrom(w, before)
      && (exists i | 0 <= i < |w.volumes| :: IsFlashed(w, i))
      && HasVerdict(w.ports, w.writeTime + 100_000_000_000, after)
      && after.slot == 1 - before.slot && after.version == before.version + 1
  {
    ValidatedIs(w, before);
    FlashedIs(w);
    VerdictIsFirst(w.ports, w.writeTime + 100_000_000_000, after);
    hide ElfLoader.Loaded, Parsed, StartsFrom, Validated, Before, Flashed, IsFlashed, HasVerdict, FirstConfirmed;
  }

  lemma ValidatedIs(w: World, before: Status)
    ensures Validated(w) && Before(w) == Some(before) <==>
      w.file.Some? && ElfLoader.Loaded(w.extension, w.file.value).Success? && StartsFrom(w, before)
  {
    hide Parsed, ElfLoader.Loaded;
  }

  lemma FlashedIs(w: World)
    ensures Flashed(w) <==> Validated(w) && exists i | 0 <= i < |w.volumes| :: IsFlashed(w, i)
  {
    hide Validated, IsVolume, FirstVolume;
    var deadline := w.enterTime + 40_000_000_000;
    if w.recheck.Some? { VolumeIsFirst(w.volumes, deadline, w.recheck.value); }
    if Flashed(w) {
      var i :| 0 <= i < |w.volumes| && IsVolume(w.volumes, deadline, i, w.recheck.value);
      assert IsFlashed(w, i);
    }
    if i :| 0 <= i < |w.volumes| && IsFlashed(w, i) && Validated(w) {
      assert IsVolume(w.volumes, deadline, i, w.recheck.value);
    }
  }

  /** What a rendered status line means for a poll: it is read as s exactly if its fields render s. */
  lemma PollReads(p: PortPoll, lead: string, fields: seq<Field>, gaps: seq<string>, s: Status)
    requires p.port.Some? && p.port.value != ""
    requires AllSpaces(lead) && Gaps(gaps, |fields|) && (forall f | f in fields :: Legal(f))
    requires p.reply == Some(Line(lead, fields, gaps))
    ensures Reads(p, s) && RunsConfirmed(s) <==>
      Renders(fields, s) && s.ready == 1 && s.confirmed == s.slot && s.pending == 0xffff_ffff
  {
    LineRoundTrip(lead, fields, gaps, s);
    hide Parsed, Renders;
  }

  /** How far the volume loop goes on: over polls in time that found nothing, up to the first that is not so. */
  lemma {:induction false} VolumeTurnsAre(polls: seq<VolumePoll>, deadline: int)
    ensures var n := VolumeTurns(polls, deadline);
      && (forall j | 0 <= j < n :: polls[j].now < deadline && polls[j].found == Some(""))
      && (n < |polls| ==> polls[n].now >= deadline || polls[n].found != Some(""))
    decreases |polls|
  {
    if polls != [] && polls[0].now < deadline && polls[0].found == Some("") {
      var n, rest := VolumeTurns(polls, deadline), polls[1..];
      VolumeTurnsAre(rest, deadline);
      forall j | 0 <= j < n ensures polls[j].now < deadline && polls[j].found == Some("") {
        if j > 0 { assert rest[j - 1] == polls[j]; }
      }
    }
  }

  /** How far the confirmation loop goes: over polls in time whose search succeeds, up to one that is confirmed. */
  lemma {:induction false} PortTurnsAre(polls: seq<PortPoll>, deadline: int)
    ensures var n := PortTurns(polls, deadline);
      && (forall j | 0 <= j < n :: polls[j].now < deadline && polls[j].port.Some?)
      && (forall j | 0 <= j < n - 1 :: !ReadsConfirmed(polls[j]))
      && (n < |polls| && (n == 0 || !ReadsConfirmed(polls[n - 1])) ==>
            polls[n].now >= deadline || polls[n].port.None?)
    decreases |polls|
  {
    hide Parsed;
    if polls != [] && polls[0].now < deadline && polls[0].port.Some? && !ReadsConfirmed(polls[0]) {
      var n, rest := PortTurns(polls, deadline), polls[1..];
      assert n == 1 + PortTurns(rest, deadline);
      PortTurnsAre(rest, deadline);
      hide ReadsConfirmed, PortTurns;
      forall j | 0 <= j < n
        ensures polls[j].now < deadline && polls[j].port.Some? && (j < n - 1 ==> !ReadsConfirmed(polls[j]))
      {
        if j > 0 { assert rest[j - 1] == polls[j]; }
      }
    }
  }
}
