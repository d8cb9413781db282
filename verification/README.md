# Verification model of the motor tools

This project models, in Dafny 4.11, the parts of the motor command-line tools and the motor scanner whose behaviour is
hard to see by reading, and proves what they promise. `dafny verify dfyconfig.toml` checks all of it.

Code that changes things step by step is a method or a class here, proved against a specification function; the laws are
proved about the specification function. Times of clocks are integer nanoseconds, times and positions on a trajectory
are reals.

| files | what they model |
|---|---|
| `Bytes`, `Fips180`, `FipsPrimes`, `Sha256Examples`, `Sha256` | little-endian fields; SHA-256 by recursion as FIPS 180-4 defines it, with its constants and its published examples; the hand-written hash loops |
| `OtaPackage`, `OtaReader` | the update packager, and an independent reader of the format |
| `ElfImage`, `ElfFormat`, `ElfLoader`, `ElfTable`, `ElfOrder` | what an application ELF means, in segments and in bytes; the loader loops; the role of the order of the program headers |
| `OtaStatus`, `OtaStatusLine`, `OtaStatusText` | the status line parser, the lines it inverts, and exactly which texts it accepts |
| `OtaDownload`, `OtaOutcome` | the one-click update as a protocol over an abstract gateway, and exactly when it succeeds |
| `Trajectory`, `TrajectoryPlayer`, `TrajectoryLaws`, `TrajectoryMotion`, `TrajectoryCsv` | piecewise-linear playback, its two search loops, the laws of ping-pong, speed bounds, the row loop of the file |
| `PlayClock`, `PlayLoss`, `PlayLogs`, `PlaySort`, `PlayTable`, `PlayColumns` | pause clock and tick schedule, loss window, log switch, table order |
| `PlayRun`, `PlayRunLaws`, `PlayPhases`, `PlayPauses`, `PlayHome`, `PlayRunner` | the control loop as a state machine, what its runs keep, and the loop itself |
| `ScanResult`, `ScanManager`, `ScanProtocol`, `ScanJobs` | revision tokens of a bus scan; scans as interleaved atomic steps; what every interleaving keeps; what a request comes to |

## What turned out not to hold

- Permuting the program headers of an ELF can change what loads, and even whether anything does. The header table may
  begin anywhere in the file: it may be covered by a load segment, and it may overlap the ELF header.
  `ElfTable.PermutationMattersExactlyWhen` says what every permutation of the table rows does to every file that passes
  the header checks. If it changes an identity byte of the ELF header (magic, class, type, machine, entry), and only then,
  the file is no OTA application any more. If it changes a byte that places the table, the file has another table, and
  what that table loads decides. Otherwise the file loads exactly if it did before, and its payload changes exactly when
  some segment loads a byte that has changed. An exchange in a table after the ELF header is always in this last case.
  `ElfOrder.OrderCanReject`, `ElfOrder.OrderCanMoveTable` and `ElfOrder.OrderCanMatter` give a file for each case.
- A stop does not always bring the motors home within two seconds of the clock. If it arrives after the pause test and
  before the phase test of a paused turn, the return begins at a frozen time and its two seconds count from the next turn
  (`PlayHome.PausedStopIsLate`, with an example in `PlayHome.StopBetweenTests`). `PlayHome.HomeExactlyWhen` says exactly
  when the return ends, for any pauses; `PlayHome.StopComesHome` is the form in clock time.
- With no motors, enabling the logs reports success and leaves the switch on over an empty list
  (`PlayLogs.NoMotorsIsInconsistent`). An exception that is not a `std::exception` passes through `EnableLogs` and leaves
  the switch off over open logs (`PlayLogs.ForeignIsInconsistent`). `PlayLogs.EnableKeeps` says exactly, from the outcomes
  of the calls, when this happens. In every run with a motor the switch is right if and only if the last operation did
  not let such an exception pass, whatever happened before it (`PlayLogs.RunsAreConsistent`). The list never loses an open
  log in any of these cases, and the next toggle repairs the switch (`PlayLogs.ToggleRepairs`).
- Scan tokens increase exactly while the 64-bit revision has not wrapped between them (`ScanResult.TokensIncrease`; the
  wrap itself is `ScanResult.TokensWrap`); `ScanResult.StaleTokenExactlyWhen` says exactly which tokens are stale.
- The tick schedule is `start + n * period` if and only if no earlier iteration overran (`PlayClock.Schedule`); after an
  overrun it restarts from the end of that iteration (`PlayClock.AfterOverrun`).

## Model

| member | source | states |
|---|---|---|
| `Bytes.WordRoundTrip` | src/cli/firmware_download.cc:18-26 | a 32-bit word written little-endian is read back unchanged, at any offset of any buffer |
| `Bytes.Put` | src/cli/firmware_download.cc:24-26 | writes the four little-endian bytes at the offset and changes no other byte of the buffer |
| `Fips180.ConstantsAreRootFractions` | src/cli/firmware_download.cc:29-39 | each of the 64 round constants is the first 32 fraction bits of the cube root of its prime, each of the eight initial words those of the square root (sections 4.2.2 and 5.3.3 of FIPS 180-4) |
| `FipsPrimes.FirstPrimes` | src/cli/firmware_download.cc:29-39 | the numbers whose roots the constants come from are the first sixty-four primes, in order |
| `Sha256.RotateIsRotation` | src/cli/firmware_download.cc:27 | the shift-and-or expression is a 32-bit right rotation for every distance the hash uses |
| `Sha256.PadMessage` | src/cli/firmware_download.cc:40-43 | the pushing loops produce the padding of section 5.1.1, for every message, also where the bit length wraps at 64 bits |
| `Sha256.ZeroBytesIsLeast` | src/cli/firmware_download.cc:42 | the number of zero bytes is the least that brings the length to 56 modulo 64 |
| `Sha256.PadIsInjective` | src/cli/firmware_download.cc:40-43 | no two messages have the same padded form |
| `Sha256.FillSchedule` | src/cli/firmware_download.cc:45-52 | the in-place array loops compute the recursive message schedule of section 6.2.2 |
| `Sha256.RunRounds` | src/cli/firmware_download.cc:53-65 | 64 turns of shifting the eight working variables are 64 rounds of the standard, with the constants in order |
| `Sha256.HashAllBlocks` | src/cli/firmware_download.cc:44-74 | the block loop leaves in h the chaining value of the standard after all blocks, from any start value |
| `Sha256.WriteDigest` | src/cli/firmware_download.cc:75-77 | the result is the eight words, each most significant byte first |
| `Sha256.OctetsSpellWord` | src/cli/firmware_download.cc:76 | the four bytes written for a word spell exactly that word big-endian |
| `Sha256.Hash` | src/cli/firmware_download.cc:28-78 | for every message the loops return the SHA-256 digest as FIPS 180-4 defines it, and for the two published example messages the published digests |
| `Sha256Examples.AbcDigest` | src/cli/firmware_download.cc:28-78 | the definition gives "abc" its published digest, worked out word by word and round by round |
| `Sha256Examples.LongerDigest` | src/cli/firmware_download.cc:28-78 | the definition gives the two-block example its published digest, which also fixes the chaining of blocks |
| `OtaPackage.WriteHeader` | src/cli/firmware_download.cc:131-141 | every one of the 4096 header bytes: magics, size, version, flags, digest of the payload at 28, zero elsewhere |
| `OtaPackage.WriteBlock` | src/cli/firmware_download.cc:144-154 | every byte of block i, and no byte outside it is touched |
| `OtaPackage.MakeOtaPackage` | src/cli/firmware_download.cc:128-156 | succeeds exactly for 1 to 0xbf000 payload bytes and versions 1 to 0xfffffffe, with which failure first, and returns the whole package byte for byte |
| `OtaReader.ImageIsRead` | src/cli/firmware_download.cc:131-142 | a reader that checks magics, stored size and stored digest accepts every image and gets payload and version back |
| `OtaReader.BlockFields` | src/cli/firmware_download.cc:144-154 | what the format's fields of block i read as, wherever in a file the block lies |
| `OtaReader.PackageRoundTrip` | src/cli/firmware_download.cc:128-156 | an independent reader that follows the length fields, and checks every other byte it knows, gives back the exact payload and version of every package |
| `OtaReader.PackageIsInjective` | src/cli/firmware_download.cc:128-156 | two different firmwares never share a package |
| `OtaReader.Framing` | src/cli/firmware_download.cc:143-154 | block indices are 0 to n-1, all blocks but the last are full, none is empty, lengths add up to the image, data never reaches the end marker at 508 |
| `OtaReader.PackagedIsRefused` | src/cli/firmware_download.cc:92-103 | a package, or the image inside one, is refused as firmware under every file extension |
| `ElfLoader.Read` | src/cli/firmware_download.cc:18-23 | the bounded little-endian read, and exactly when it fails |
| `ElfLoader.PlaceSegment` | src/cli/firmware_download.cc:112-123 | after the segment, buffer and used-marks describe all segments so far; it fails exactly where the declarative order of checks fails, with the same error |
| `ElfLoader.LoadSegments` | src/cli/firmware_download.cc:104-125 | the header loop returns what the declarative meaning of the file says, error by error |
| `ElfLoader.LoadOtaFirmware` | src/cli/firmware_download.cc:82-126 | a .bin file loads if and only if it has 1 to 0xbf000 bytes and none of the four foreign magics, and gives its own bytes; an .elf file if and only if it has 1 byte to 64 MiB, valid headers and accepted segments, and gives their payload; any other extension fails |
| `ElfLoader.LoadedFitsTheSlot` | src/cli/firmware_download.cc:92-126 | whatever loads has 1 to 0xbf000 bytes; no header read ever leaves the file |
| `ElfImage.HeaderInBounds` | src/cli/firmware_download.cc:105-110 | the division guard puts all 32 bytes of every program header inside the file |
| `ElfImage.PlacingErrorNone` | src/cli/firmware_download.cc:112-120 | placing meets no error exactly when every segment lies in file and slot and no two overlap |
| `ElfImage.LoadsExactlyWhenAccepted` | src/cli/firmware_download.cc:101-125 | an ELF loads if and only if its headers are valid, its segments fit without overlap and one covers the entry |
| `ElfFormat.IdentityIs` | src/cli/firmware_download.cc:101-102 | the identity check holds exactly for these sixteen bytes at their places in the file |
| `ElfFormat.TableFitsIs` | src/cli/firmware_download.cc:104-105 | the table check, stated without the division: there is a row, rows have 32 bytes or more, and all rows lie in the file; offset, stride and count come from bytes 28, 42 and 44 |
| `ElfFormat.SegmentsAreHeaders` | src/cli/firmware_download.cc:108-112 | a segment is loaded exactly if some header of type 1 with file bytes has it, its fields read at offsets 4, 12, 16 and 20 |
| `ElfImage.PayloadBytes` | src/cli/firmware_download.cc:116-125 | each payload byte is the file byte of the one segment that covers it, zero in gaps; the length is the largest segment end; no segment byte is lost |
| `ElfImage.PayloadIs` | src/cli/firmware_download.cc:111-125 | the same in the fields of the segments: byte j of a segment comes from its file offset plus j and goes to its address minus 0x80041000 plus j |
| `ElfImage.SameSegmentsLoadAlike` | src/cli/firmware_download.cc:107-125 | files listing the same load segments in any order are accepted alike, give payloads of one length, and the same payload exactly if the segments read the same file bytes |
| `ElfTable.SegmentsAreRead` | src/cli/firmware_download.cc:108-111 | the load segments of a file are what its table rows say, each read from the row alone |
| `ElfTable.ReadIgnoresOrder` | src/cli/firmware_download.cc:108-111 | the multiset of load segments depends only on the multiset of rows |
| `ElfTable.PermutationIsReordering` | src/cli/firmware_download.cc:104-111 | any permutation of the rows of a table that stays in place keeps the multiset of load segments |
| `ElfTable.FieldsDecide` | src/cli/firmware_download.cc:101-104 | a file keeps an OTA header, and the place of its table, each exactly if it keeps the bytes of those fields |
| `ElfTable.PermutationMattersExactlyWhen` | src/cli/firmware_download.cc:101-125 | for every file that passes the header checks, wherever its table is, and every permutation of the table rows: it becomes no OTA application exactly if an identity byte changes; it has another table, whose segments decide, if a placing byte changes; otherwise acceptance is kept, and the payload changes exactly if a segment loads a changed byte |
| `ElfOrder.SwapPermutes` | src/cli/firmware_download.cc:108-111 | exchanging two rows of the table, byte by byte, is a permutation of its rows |
| `ElfOrder.LateTableKeepsHeader` | src/cli/firmware_download.cc:104-109 | a table that begins after the ELF header never touches it |
| `ElfOrder.OrderMattersExactlyWhen` | src/cli/firmware_download.cc:101-125 | the same for exchanging two rows, with every byte of the new file given by the old one; a table after the ELF header is always in the last case |
| `ElfOrder.OrderCanMatter` | src/cli/firmware_download.cc:107-125 | a concrete 116-byte file that loads before and after the exchange, with different payloads |
| `ElfOrder.OrderCanReject` | src/cli/firmware_download.cc:101-106 | a concrete 104-byte file whose table overlaps its header: it loads, and after the exchange it is refused as no OTA application |
| `ElfOrder.OrderCanMoveTable` | src/cli/firmware_download.cc:104-106 | a concrete 156-byte file whose table holds its own count: it loads, and after the exchange of two rows it has no valid program headers |
| `OtaStatus.ParseOtaStatus` | src/cli/firmware_download.cc:158-177 | the token loop over the map yields the parse of every reply, with the same first error |
| `OtaStatus.AcceptedExactlyWhen` | src/cli/firmware_download.cc:160-176 | a reply is accepted as a status if and only if every token is KEY=32-bit decimal, no key repeats, the five keys carry the status's values, slot is below 2 and ready at most 1 |
| `OtaStatusLine.DigitsRoundTrip` | src/cli/firmware_download.cc:168 | reading the decimal digits of a number gives the number |
| `OtaStatusLine.TokensOfBody` | src/cli/firmware_download.cc:160-163 | stream extraction of a line gives exactly its rendered fields, for any white space between them |
| `OtaStatusLine.LineRoundTrip` | src/cli/firmware_download.cc:158-177 | parsing inverts every rendering of a status, with any further distinct keys and any spacing, and accepts a rendered line as nothing else |
| `OtaStatusLine.RepeatedKeyIsRejected` | src/cli/firmware_download.cc:169-170 | a line in which any key comes twice is rejected, even with equal values |
| `OtaStatusLine.OrderIsIrrelevant` | src/cli/firmware_download.cc:163-174 | two lines with the same fields in any order and spacing parse to the same status, or both fail |
| `OtaStatusText.SpacesAre` | src/cli/firmware_download.cc:163 | what separates tokens is blank, tab, line feed, vertical tab, form feed and carriage return |
| `OtaStatusText.TokensOfWoven` | src/cli/firmware_download.cc:163 | extraction gives back any tokens, however they are spaced |
| `OtaStatusText.TextIsWoven` | src/cli/firmware_download.cc:163 | every text is white space and its extracted tokens with white space between them |
| `OtaStatusText.AcceptedIs` | src/cli/firmware_download.cc:158-176 | a reply is accepted as a status if and only if it is the prefix and tokens between white space that describe the status |
| `OtaStatusText.DescribesIs` | src/cli/firmware_download.cc:164-176 | tokens describe a status exactly if each is a key, an equals sign and decimal digits of a 32-bit number, no key comes twice, and the five keys carry its values, slot and ready at most 1 |
| `OtaStatusText.DigitsAreNumbers` | src/cli/firmware_download.cc:166-168 | any digits are a number with leading zeros, and are read as that number |
| `OtaDownload.FirstConfirmedIsFirst` | src/cli/firmware_download_platform.cc:336-355 | the status the loop acts on is the first confirmed one read in time: every earlier poll was in time and read nothing confirmed |
| `OtaDownload.Downloader.Prepare` | src/cli/firmware_download_platform.cc:303-311 | reaches the reboot exactly when file, serial and status are all valid; the packager's guards cannot fail here; it returns the package of the next version, and has sent one status query, or none if file or serial is bad |
| `OtaDownload.Downloader.WaitForVolume` | src/cli/firmware_download_platform.cc:317-331 | the loop finds the first volume before the deadline and makes exactly the mount attempts of its late turns |
| `OtaDownload.Downloader.WaitForConfirmation` | src/cli/firmware_download_platform.cc:336-355 | the verdict is the first confirmed status before the deadline, and exactly one query was sent for each poll with a port up to and including the one that read it |
| `OtaDownload.Downloader.DownloadFirmware` | src/cli/firmware_download_platform.cc:301-357 | success if and only if everything was validated and flashed and the first confirmed status has the other slot and the next version; in every run exactly the events of the log have happened, so success means a query, the reboot, the mounts, one flushed write of the new package to the first volume, and the polling; a confirmed other status fails with that error and no further query |
| `OtaOutcome.SucceedsExactlyWhen` | src/cli/firmware_download_platform.cc:301-357 | in plain terms: an update succeeds with a status exactly if a loadable firmware meets a confirmed gateway whose version can grow, the volume is found within 40 seconds and stays, the write is flushed, and the first confirmed status within 100 seconds is this one, of the other slot and next version; confirmed means ready 1, confirmed equal to slot, pending 0xffffffff |
| `OtaOutcome.VerdictIsFirst` | src/cli/firmware_download_platform.cc:336-355 | the verdict is a status exactly if some poll in time reads it with those three equalities and no earlier poll read any such status |
| `OtaOutcome.VolumeIsFirst` | src/cli/firmware_download_platform.cc:317-331 | the volume found is that of the first poll in time that finds one, after polls that searched and found none |
| `OtaOutcome.PollReads` | src/cli/firmware_download_platform.cc:339-348 | for any rendered status line: a poll reads it as confirmed exactly if its fields say so |
| `OtaOutcome.VolumeTurnsAre` | src/cli/firmware_download_platform.cc:321-330 | how far the volume loop goes on |
| `OtaOutcome.PortTurnsAre` | src/cli/firmware_download_platform.cc:338-355 | how far the confirmation loop goes on |
| `OtaDownload.RebootOnlyWhenValidated` | src/cli/firmware_download_platform.cc:303-334 | the log of a run holds OTA ENTER exactly if everything is validated, then packageable; it holds it once, and before any write |
| `OtaDownload.FlashedIsWritten` | src/cli/firmware_download_platform.cc:332-334 | a run counts as flashed exactly if its log holds the flushed write; whatever is written is this run's package, to the first volume found |
| `OtaDownload.NewPackageIsRead` | src/cli/firmware_download_platform.cc:309-311 | an independent reader opens the written package to this run's payload and the confirmed version plus one |
| `OtaDownload.MountsAreLate` | src/cli/firmware_download_platform.cc:321-330 | mounts are tried exactly if some fruitless turn comes later than five seconds, none earlier, and none after an attempt was made |
| `OtaDownload.StopsAtFirstConfirmed` | src/cli/firmware_download_platform.cc:338-355 | the last turn of the confirmation loop is the first that read a confirmed status |
| `OtaDownload.ChainAlternates` | src/cli/firmware_download.cc:178-183 | over any chain of successful updates slots alternate and versions rise by exactly one without wrapping |
| `TrajectoryPlayer.InterpolateSegment` | src/trajectory_player.cc:15-35 | pushes the interpolation of every motor, or reports unequal widths |
| `TrajectoryPlayer.EvaluateForward` | src/trajectory_player.cc:37-55 | the forward loop is the first segment whose end is not before the time |
| `TrajectoryPlayer.EvaluateBackward` | src/trajectory_player.cc:57-69 | the decrementing loop is the recursive walk back from the last sample |
| `TrajectoryPlayer.ValidateTrajectory` | src/trajectory_player.cc:71-83 | succeeds exactly if there is a sample, the metadata lists are equally long and every sample has that width; which failure comes first |
| `TrajectoryPlayer.EvaluateTrajectory` | src/trajectory_player.cc:87-110 | the playback state, or the error, that the specification gives for every trajectory, time and mode |
| `TrajectoryLaws.AtSamples` | src/trajectory_player.cc:22-33 | at a sample's time the polyline is exactly that sample, read from either neighbouring segment |
| `TrajectoryLaws.ForwardIsPolyline` | src/trajectory_player.cc:43-54 | in range the search ends in a bracketing segment, its fall-through is never reached, and every motor is between the two samples |
| `TrajectoryLaws.BackwardIsMirrored` | src/trajectory_player.cc:57-69 | going back e seconds from sample k is the polyline at the mirrored time; the fall-through is never reached |
| `TrajectoryLaws.EndlessIsFolded` | src/trajectory_player.cc:104-109 | endless playback is the polyline at the triangle wave of the time, and is never finished |
| `TrajectoryLaws.EndlessIsPeriodic` | src/trajectory_player.cc:104-109 | endless playback has period twice the duration, in its whole state |
| `TrajectoryLaws.EndlessIsReflected` | src/trajectory_player.cc:104-109 | the position at T + s is the position at T - s, although one comes from each loop |
| `TrajectoryLaws.EndlessMatchesOneShot` | src/trajectory_player.cc:100-107 | up to the end of the trajectory endless and one-shot positions are the same |
| `TrajectoryLaws.PositionIs` | src/trajectory_player.cc:43-50 | what one-shot playback commands between two samples, without a division: the two weighed by the distance of the time from the other; with the laws of endless playback this fixes every position |
| `TrajectoryLaws.TerminalStates` | src/trajectory_player.cc:90-101 | the whole state for one sample, for no duration, and after the end |
| `TrajectoryLaws.BeforeTheStart` | src/trajectory_player.cc:94 | a negative time is the start |
| `TrajectoryLaws.FinishedExactlyWhen` | src/trajectory_player.cc:87-110 | evaluation fails only for invalid trajectories; finished is true exactly when one-shot and there is one sample or the time has reached the total, whatever the order of the times |
| `TrajectoryLaws.FinishedIsMonotone` | src/trajectory_player.cc:87-110 | once finished, later times are finished too and command the same positions |
| `TrajectoryMotion.PlaybackWithin` | src/trajectory_player.cc:37-110 | every position lies within the range of that motor's own samples, in both modes, without assuming ordered times |
| `TrajectoryMotion.EndlessNeverJumps` | src/trajectory_player.cc:100-109 | between any two times of endless playback a motor moves no farther than its fastest segment allows, turning points included |
| `TrajectoryMotion.PlaybackNeverJumps` | src/trajectory_player.cc:87-110 | the same bound for one-shot playback, which holds the last sample at the end |
| `TrajectoryCsv.ParseTrajectoryCsv` | src/trajectory_csv_parser.cc:57-113 | a file is accepted exactly if it has a good header and at least one row, all rows complete, as wide as the header and strictly later than the row before; the trajectory holds exactly these rows, and the name and the connection of each header cell |
| `TrajectoryCsv.AcceptsIs` | src/trajectory_csv_parser.cc:70-111 | what is accepted, cell by cell |
| `TrajectoryCsv.CellsArePlaced` | src/trajectory_csv_parser.cc:78-103 | every number, name and connection of the trajectory is that of its own cell |
| `TrajectoryCsv.RowsAppend` | src/trajectory_csv_parser.cc:86-103 | one more row is fine exactly when it is complete, as wide as the header and later than the last, and it adds one sample |
| `TrajectoryCsv.AcceptedIsPlayable` | src/trajectory_csv_parser.cc:86-113 | every accepted file validates and has strictly increasing times, so evaluation never fails |
| `PlayClock.PauseClock.Update` | src/cli/play.cc:1157-1167 | the new state of the pause clock and the effective time, for any request and reading |
| `PlayClock.EffectiveIsUnpaused` | src/cli/play.cc:1157-1167 | after any requests the effective time is the first reading plus exactly the intervals that began unpaused |
| `PlayClock.EffectiveMoves` | src/cli/play.cc:1157-1167 | effective time stands still over an interval that began paused, resume included, and otherwise moves with the clock |
| `PlayClock.EffectiveAscends` | src/cli/play.cc:1157-1167 | with a clock that never goes back effective time never goes back, nor runs faster than the clock |
| `PlayClock.TicksApart` | src/cli/play.cc:1098-1103 | any two ticks are at least as many periods apart as there are iterations between them, so no overrun causes a burst |
| `PlayClock.Schedule` | src/cli/play.cc:1098-1103 | tick n is never before start + n periods, and is exactly there if and only if no earlier iteration overran |
| `PlayClock.AfterOverrun` | src/cli/play.cc:1098-1103 | after the last overrun the ticks count whole periods from the end of that iteration |
| `PlayLoss.LossWindow.Update` | src/cli/play.cc:1225-1237 | the pruned deque answers as the full history would: current counts minus those of the oldest sample at most three seconds old with no counter lower since; neither subtraction goes below zero |
| `PlayLoss.BaselineIs` | src/cli/play.cc:1227-1235 | that oldest sample, in nanoseconds and counters of the full history |
| `PlayLoss.OldSamplesStayOut` | src/cli/play.cc:1227-1235 | a sample outside the window never comes back into it, so forgetting it is safe |
| `PlayLoss.PrunedIsBaseline` | src/cli/play.cc:1231-1235 | after the popping loop the front of the deque is the oldest sample of the window |
| `PlayLoss.CountsAscend` | src/cli/play.cc:1236 | since the last drop both counters are at least those of every sample |
| `PlayLogs.LogSwitch.DisableLogs` | src/cli/play.cc:629-658 | the erasing loop removes exactly the motors that closed, keeps the rest, and the switch shows whether any is left |
| `PlayLogs.LogSwitch.EnableLogs` | src/cli/play.cc:597-627 | the whole new state for any outcome of the calls, including the undo after a failure and an exception that passes through |
| `PlayLogs.LogSwitch.ToggleLogs` | src/cli/play.cc:672-689 | disables when on, enables when off, with the state and success of that operation |
| `PlayLogs.DisablingComesTo` | src/cli/play.cc:629-658 | motor by motor: who stays listed, whose log stays open, and that the switch shows exactly whether any close failed |
| `PlayLogs.OpeningComesTo` | src/cli/play.cc:609-625 | motor by motor, by the first call that does not simply log: the result, who is listed, whose log is open, and the switch |
| `PlayLogs.TogglingTwice` | src/cli/play.cc:672-689 | with nothing going wrong two toggles switch every log on and off again |
| `PlayLogs.KeptMembers` | src/cli/play.cc:636-655 | a motor stays on the list if and only if it was there and did not close |
| `PlayLogs.KeptInOrder` | src/cli/play.cc:636-655 | the kept list is exactly the positions that did not close, each once and in their order, for any list |
| `PlayLogs.RunsListOnce` | src/cli/play.cc:597-689 | after any sequence of operations the list names each motor at most once, in ascending order |
| `PlayLogs.PassesExactlyWhen` | src/cli/play.cc:609-625 | an exception passes through exactly if the first call that does not simply log throws one that is not a standard exception |
| `PlayLogs.EnableKeeps` | src/cli/play.cc:597-627 | enabling never forgets an open log; it keeps a consistent state consistent if and only if it opens nothing, or there is a motor and no foreign exception comes before any other failure |
| `PlayLogs.NoMotorsIsInconsistent` | src/cli/play.cc:609-626 | with no motors, enabling succeeds and leaves the switch on over an empty list |
| `PlayLogs.ForeignIsInconsistent` | src/cli/play.cc:609-625 | one motor whose log opens before a foreign exception: the switch stays off over an open log |
| `PlayLogs.RunsTrack` | src/cli/play.cc:597-689 | after any sequence of operations and failures every open log is on the list |
| `PlayLogs.RunsAreConsistent` | src/cli/play.cc:597-689 | with a motor, in every run: the switch is on exactly while the list is non-empty if and only if the last operation let no foreign exception pass; otherwise it is off over a non-empty list |
| `PlayLogs.ToggleRepairs` | src/cli/play.cc:598-602 | after a foreign exception the next toggle only turns the switch back on |
| `PlayLogs.DisableClosesAll` | src/cli/play.cc:629-658 | once every close succeeds no log is open and the state is the initial one |
| `PlaySort.StrictWeakOrder` | src/cli/play.cc:1332-1347 | for every column and direction the comparator is irreflexive and transitive, and so is being tied |
| `PlaySort.LessIsRank` | src/cli/play.cc:1332-1347 | the comparator is one lexicographic rank: not-a-number last, then the column in the chosen direction, then identity |
| `PlaySort.FloatsFit` | src/cli/play.cc:1251-1258 | the float comparison is antisymmetric and a ranking, infinities and not-a-number included |
| `PlayTable.SortExists` | src/cli/play.cc:1249-1349 | every table has a sorted permutation under the comparator, in every column and direction |
| `PlayTable.TableOrder` | src/cli/play.cc:1332-1348 | in any sorted table rows without a number are last in both directions, the column follows the direction, and ties follow identity regardless of it |
| `PlayColumns.RowsInOrder` | src/cli/play.cc:1262-1347 | the same for each of the fifteen columns in the fields of the rows, loss compared by cross-multiplied packet counts, and ties by adapter type, adapter, slave, bus, motor and name |
| `PlayTable.SortIsUnique` | src/cli/play.cc:1311-1347 | where identifying fields differ the result is unique: any two sorts of the same rows are the same sequence |
| `PlayRunner.InterpolatePositions` | src/cli/play.cc:535-545 | the pushing loop is the clamped interpolation of every motor |
| `PlayRunner.InterpolateDegreesToRadians` | src/cli/play.cc:522-533 | the same towards positions given in degrees |
| `PlayRunner.TrajectoryRunner.SendPositions` | src/cli/play.cc:506-520 | one position per motor in order; a throw sends a prefix, or all before the commit, and ends the run |
| `PlayRunner.TrajectoryRunner.RunOnce` | src/cli/play.cc:345-406 | one iteration of the loop changes all its variables as the state machine says, for every stop, pause, read and send outcome |
| `PlayRunner.TrajectoryRunner.Run` | src/cli/play.cc:331-406 | the loop runs as the state machine over any sequence of turns |
| `PlayPhases.StartupExactlyWhile` | src/cli/play.cc:369-375 | in every run without stop and throw the phase is still startup after a turn if and only if no turn so far was two seconds of effective time after the start |
| `PlayPhases.PlaybackExactlyWhile` | src/cli/play.cc:374-393 | playback begins at that turn, with its time as zero, and lasts exactly until the first later turn whose trajectory time has reached the end, one-shot |
| `PlayPhases.ReturnExactlyWhile` | src/cli/play.cc:376-393 | the natural return begins at that turn and ends exactly at the first turn two seconds of effective time later, on the initial positions |
| `PlayPhases.StartupSends` | src/cli/play.cc:369-371 | each motor is sent to its place on the straight line from its initial position to the first sample in radians, by nanoseconds |
| `PlayPhases.ReturnSends` | src/cli/play.cc:376-378 | the same on the line from the return start to the initial position |
| `PlayPhases.PlaybackSends` | src/cli/play.cc:383-385 | each motor is sent the trajectory's position at that time, in radians |
| `PlayPhases.TurnEnds` | src/cli/play.cc:345-367 | exactly when a turn stops the run without sending, aborts it in its send, or sends to every motor |
| `PlayRunLaws.PhaseOnlyMovesForward` | src/cli/play.cc:331-406 | in every run the phase and the phases of the commands only move from startup to playback to return |
| `PlayRunLaws.CommandsStayInSpan` | src/cli/play.cc:368-395 | in every run each commanded position lies in the range spanned by that motor's initial, trajectory and return-start positions |
| `PlayRunLaws.PhasesMeet` | src/cli/play.cc:353-395 | motors never jump where phases meet: startup ends at the first sample, a natural return starts at the last command, a stop at the positions read, and the end is at the initial positions |
| `PlayRunLaws.FinishedAtInitial` | src/cli/play.cc:376-381 | a run that ends by the return timer has just commanded exactly the initial positions |
| `PlayRunLaws.ReturnsForAReason` | src/cli/play.cc:353-395 | without a stop, a run returns only if it is one-shot and has commanded the last sample |
| `PlayRunLaws.RunClocks` | src/cli/play.cc:345-406 | while a run goes on, its tick and pause state are those of the two schedules on the same readings |
| `PlayRunLaws.NeverEarly` | src/cli/play.cc:397-405 | iteration n never starts before start + n periods, from the sleep condition and a clock that never goes back |
| `PlayPauses.PlaybackFollowsUnpausedTime` | src/cli/play.cc:350-384 | pauses neither skip nor repeat anything: each playback command is the trajectory at exactly the unpaused time since startup ended |
| `PlayPauses.CommandsNeverJump` | src/cli/play.cc:350-385 | between any two playback commands a motor moves no farther than its fastest segment allows in that time, through pauses, resumes and turns |
| `PlayHome.HomeExactlyWhen` | src/cli/play.cc:345-406 | a stopped run with no second stop and no throw ends exactly at the first turn two seconds of effective time after the stop was adopted, having just commanded the initial positions, whatever is paused and resumed; until then it is returning from that time |
| `PlayHome.StopComesHome` | src/cli/play.cc:345-406 | in clock time: a stop with no second stop, throw or later pause has commanded exactly the initial positions by the first turn two seconds after the turn that adopted it, or after the next one if that turn was asked to pause |
| `PlayHome.PausedStopIsLate` | src/cli/play.cc:347-363 | a stop adopted in a turn that was asked to pause never ends in the next turn, however late that is |
| `PlayHome.StopBetweenTests` | src/cli/play.cc:347-363 | for every configuration there is such a run: the stop comes between the two tests, nobody presses a key, the next turn is two seconds later |
| `PlayHome.PauseIsAsked` | src/cli/play.cc:347-350 | what a turn asks of the pause clock, by the stop it sees and a later key press |
| `ScanResult.MotorScanResult.BeginScan` | components/left_panel.cc:40-46 | clears the motors and hands out the next revision as the token |
| `ScanResult.MotorScanResult.CompleteScan` | components/left_panel.cc:48-55 | stores the motors under the current token and changes nothing under another |
| `ScanResult.MotorScanResult.FailScan` | components/left_panel.cc:57-64 | clears the motors under the current token and changes nothing under another |
| `ScanResult.TokensIncrease` | components/left_panel.cc:40-46 | of two scans fewer than 2^64 apart, the later token is larger if and only if the revision has not wrapped between them, and smaller if it has |
| `ScanResult.TokensWrap` | components/left_panel.cc:44-45 | the 2^64th scan begun gets token 0 |
| `ScanResult.StaleTokenExactlyWhen` | components/left_panel.cc:48-64 | a token is current again exactly after a whole number of turns of the revision, and otherwise publishes nothing |
| `ScanResult.StoredMotorsArePublished` | components/left_panel.cc:38-64 | stored motors imply Complete, and were published under the current revision with no scan begun since |
| `ScanProtocol.StepKeeps` | components/left_panel.cc:95-182 | every atomic step of the main thread or a worker keeps the invariant on workers, locks, tokens and counters |
| `ScanProtocol.RunsKeep` | components/left_panel.cc:95-182 | the invariant holds in every state of every interleaving |
| `ScanProtocol.CounterIsSafe` | components/left_panel.cc:119-125 | the counter of active jobs is never negative and is positive while a job is still to be launched |
| `ScanProtocol.EndedLast` | components/left_panel.cc:165-173 | a worker ends the global scan only once, after all jobs were launched and every one has published Complete or Failed |
| `ScanProtocol.EndedExactlyOnce` | components/left_panel.cc:171-182 | when workers are joined, a non-empty global scan was ended exactly once, it is off, and the counter is zero |
| `ScanProtocol.EndedWhenQuiet` | components/left_panel.cc:95-175 | the same whenever nothing is going on, so also for the last scan of a run, and then every worker's bus has published Complete or Failed |
| `ScanProtocol.ActiveWhileScanning` | components/left_panel.cc:119-125 | while a worker of a global scan has not published, the scan shows as active |
| `ScanProtocol.PublicationsCount` | components/left_panel.cc:160-170 | no publication of a worker is dropped: its token is current when it publishes |
| `ScanProtocol.NeverStuck` | components/left_panel.cc:160-182 | unless everything is done some step is possible: locks and joins never deadlock |
| `ScanProtocol.EveryScanEnds` | components/left_panel.cc:95-182 | every step but a new request lowers a natural bound |
| `ScanProtocol.ScansFinish` | components/left_panel.cc:95-182 | in every run, a stretch without new requests has at most that many steps, and where no other step is possible the main thread is ready and every worker done |
| `ScanProtocol.CanFinish` | components/left_panel.cc:95-182 | from every state of a run some continuation without requests gets there |
| `ScanJobs.EveryJobIsScanned` | components/left_panel.cc:95-133 | once a request has come to rest, every bus it asked for has published Complete or Failed under exactly the revision after the one it had, and no other bus has been begun |
| `ScanJobs.OtherBusesKeepTheirResults` | components/left_panel.cc:95-133 | if nothing was going on when the request was made, the results of all other buses are exactly what they were |
| `ScanJobs.RunsUnderway` | components/left_panel.cc:95-133 | in every state after a request the workers launched so far are its first buses in order, and exactly their revisions have moved |

## Left out

- Serial ports, USB volume discovery, mounting, reading and writing files, fsync and the Windows variants: what they return is an arbitrary input. A list of polls that ends stands for a clock past the deadline.
- The motor driver, its buses and adapters: each call succeeds, fails or throws arbitrarily. The two control modes send the same positions; their gains and limits are not modelled, nor are the holding motors beyond the throw after the last position.
- Command-line parsing, help texts, terminal control, rendering, table formatting and the texts of error messages.
- IEEE rounding: times and positions are reals, so are loss ratios; not-a-number and the infinities appear only in the sort. The conversion to `float` is not modelled.
- The stop counter and the pause flag are written by other threads: each read is an arbitrary value, except that a seen stop clears the pause flag.
- The part of Run after the loop (joining the display thread, the drain delay, reports, closing the logs) and the phase before it that opens motors.
- Control-loop overrun warnings and the refresh schedule of the display; the feedback printer schedule, which the runner does not use.
- The file extension is taken as already lower-cased and classified.
- Which adapters and buses a global scan lists: a request carries the list, in which no bus comes twice.
- Splitting the trajectory file into lines and cells, trimming, comments and number syntax: a cell carries the number and the connection it denotes, if any.
- `std::sort` is modelled by its contract, a sorted permutation; an insertion sort shows that one exists.
- ElfLoader.Read: the bitwise or of shifted bytes is written as a sum, which is the same for disjoint bytes. The host's `size_t` is unbounded.
- PlayLoss.LossWindow.Update: the 64-bit counters are natural numbers; that neither subtraction goes below zero is proved, so they need no wrap.
- PlayLogs.LogSwitch.EnableLogs: motors are their positions in the list; log file names and the creation of the directory are an arbitrary outcome.
- ScanProtocol.RunsKeep: the scan manager is modelled on values, as atomic steps in any order under sequential consistency; the width of the job counter, a failing `std::async` and the destructor are not modelled.
- ScanResult.MotorScanResult.CompleteScan: the mutex makes each call atomic; the class models one call at a time, and motors are plain numbers.
- Some loops of one function in the source are a method of their own here (a segment, a block, a round, one log, one sample), so that each proof stays small.
