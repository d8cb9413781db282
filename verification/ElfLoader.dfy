/** The loader loops: read the program headers in place, mark the bytes used, fill the payload. */
module ElfLoader {
  import opened Wrappers
  import opened Bytes
  import opened OtaSlot
  import opened ElfImage

  datatype Extension = Bin | Elf | Other

  function Field(b: seq<byte>, p: nat, n: nat): Result<int, LoadError>
    requires n <= 4
  {
    if p + n <= |b| then Success(LeValue(b, p, n)) else Failure(TruncatedElf)
  }

  method Read(b: seq<byte>, p: nat, n: nat) returns (r: Result<int, LoadError>)
    requires n <= 4
    ensures r == Field(b, p, n)
  {
    if !(p <= |b| && n <= |b| - p) {
      return Failure(TruncatedElf);
    }
    var v := 0;
    for i := 0 to n
      invariant v == LeValue(b, p, i)
    {
      v := v + b[p + i] * Pow256(i);
    }
    r := Success(v);
  }

  /** The two buffers after the segments in done have been placed. */
  ghost predicate Placed(data: seq<byte>, done: seq<Segment>, payload: seq<byte>, used: seq<bool>) {
    && |used| == MAX_PAYLOAD && AllPlaced(|data|, done) && NoOverlap(done) && |payload| == LargestEnd(done)
    && (forall k | 0 <= k < |payload| :: payload[k] == ByteAt(data, done, k))
    && (forall k | 0 <= k < MAX_PAYLOAD :: used[k] <==> exists s | s in done :: Covers(s, k))
  }

  method PlaceSegment(data: seq<byte>, s: Segment, payload: seq<byte>, used: array<bool>, ghost done: seq<Segment>)
    returns (r: Result<seq<byte>, LoadError>)
    requires s.length > 0 && Placed(data, done, payload, used[..])
    modifies used
    ensures r.Success? ==> Placed(data, done + [s], r.value, used[..])
    ensures r.Failure? <==> PlacingError(|data|, done + [s]).Some?
    ensures r.Failure? ==> PlacingError(|data|, done + [s]) == Some(r.error)
  {
    assert (done + [s])[..|done|] == done;
    PlacingErrorNone(|data|, done);
    if !(s.source <= |data| && s.length <= |data| - s.source && s.length <= s.memory) {
      return Failure(TruncatedSegment);
    }
    if !(s.address >= ENTRY && s.address - ENTRY < MAX_PAYLOAD && s.length <= MAX_PAYLOAD - (s.address - ENTRY)) {
      return Failure(OutsideSlot);
    }
    var target := s.address - ENTRY;
    var size := if |payload| > target + s.length then |payload| else target + s.length;
    var filled := payload + seq(size - |payload|, _ => 0);
    for j := 0 to s.length
      invariant |filled| == size
      invariant forall k | 0 <= k < MAX_PAYLOAD ::
        used[k] <==> target <= k < target + j || exists t | t in done :: Covers(t, k)
      invariant forall k | 0 <= k < size ::
        filled[k] == if target <= k < target + j then data[s.source + (k - target)]
                     else if k < |payload| then payload[k] else 0
      invariant forall t, k | t in done && Covers(t, k) :: !(target <= k < target + j)
    {
      if used[target + j] {
        ghost var t :| t in done && Covers(t, target + j);
        assert !Disjoint(t, s);
        return Failure(Overlap);
      }
      used[target + j] := true;
      filled := filled[target + j := data[s.source + j]];
    }
    PlacedNext(data, done, s, payload, filled, used[..]);
    r := Success(filled);
  }

  lemma PlacedNext(data: seq<byte>, done: seq<Segment>, s: Segment, payload: seq<byte>, filled: seq<byte>,
                   used: seq<bool>)
    requires s.length > 0 && InFile(|data|, s) && InSlot(s)
    requires AllPlaced(|data|, done) && NoOverlap(done) && |payload| == LargestEnd(done)
    requires forall k | 0 <= k < |payload| :: payload[k] == ByteAt(data, done, k)
    requires |filled| == LargestEnd(done + [s]) && |used| == MAX_PAYLOAD
    requires forall k | 0 <= k < MAX_PAYLOAD :: used[k] <==> Covers(s, k) || exists t | t in done :: Covers(t, k)
    requires forall k | 0 <= k < |filled| ::
      filled[k] == if Covers(s, k) then data[s.source + (k - Target(s))] else if k < |payload| then payload[k] else 0
    requires forall t, k | t in done && Covers(t, k) :: !Covers(s, k)
    ensures Placed(data, done + [s], filled, used)
    ensures PlacingError(|data|, done + [s]) == None
  {
    var next := done + [s];
    assert next[..|done|] == done && next[|done|] == s;
    forall t | t in done ensures Disjoint(t, s) {
      if !Disjoint(t, s) {
        var k := if Target(t) < Target(s) then Target(s) else Target(t);
        assert Covers(t, k) && Covers(s, k);
      }
    }
    LargestEndBounds(done);
    forall k | 0 <= k < |filled| ensures filled[k] == ByteAt(data, next, k) {
      if !Covers(s, k) && k >= |payload| { GapByteAt(data, done, k); }
    }
    PlacingErrorNone(|data|, next);
  }

  method IsElf(data: seq<byte>) returns (r: bool)
    ensures r == IsOtaElf(data)
  {
    if |data| < 52 {
      return false;
    }
    var magic := Read(data, 0, 4);
    var kind := Read(data, 16, 2);
    var machine := Read(data, 18, 2);
    var entry := Read(data, 24, 4);
    r := magic == Success(0x464c457f) && data[4] == 1 && data[5] == 1 && data[6] == 1
         && kind == Success(2) && machine == Success(243) && entry == Success(ENTRY);
  }

  /** None of these reads can throw: the table check has put every header inside the file. */
  method ReadSegment(data: seq<byte>, p: nat, ghost i: nat) returns (r: Option<Segment>)
    requires |data| >= 52 && TableFits(data) && i < Count(data) && p == HeaderAt(data, i)
    ensures r == SegmentOf(data, i)
  {
    HeaderInBounds(data, i);
    var kind := Read(data, p, 4);
    var length := Read(data, p + 16, 4);
    if kind.value != 1 || length.value == 0 {
      return None;
    }
    var source := Read(data, p + 4, 4);
    var address := Read(data, p + 12, 4);
    var memory := Read(data, p + 20, 4);
    r := Some(Segment(source.value, address.value, length.value, memory.value));
  }

  /** The ELF branch of the loader, on the bytes of the file. */
  method LoadElf(data: seq<byte>) returns (r: Result<seq<byte>, LoadError>)
    ensures r == LoadedElf(data)
  {
    var isElf := IsElf(data);
    if !isElf {
      return Failure(NotOtaElf);
    }
    var offset := Word(data, 28);
    var stride, count := LeValue(data, 42, 2), LeValue(data, 44, 2);
    if !(count > 0 && stride >= 32 && offset <= |data| && count <= (|data| - offset) / stride) {
      return Failure(BadProgramHeaders);
    }
    r := LoadSegments(data, offset, stride, count);
  }

  method LoadSegments(data: seq<byte>, offset: nat, stride: nat, count: nat) returns (r: Result<seq<byte>, LoadError>)
    requires |data| >= 52 && IsOtaElf(data) && TableFits(data)
    requires offset == TableOffset(data) && stride == Stride(data) && count == Count(data)
    ensures r == LoadedElf(data)
  {
    hide IsOtaElf, TableFits, SegmentOf, Count, TableOffset, Stride, Placed, PlacingError, Flatten;
    var payload: seq<byte> := [];
    var used := new bool[MAX_PAYLOAD](_ => false);
    ghost var done := [];
    NothingPlaced(data, used[..]);
    for i := 0 to count
      invariant done == Segments(data, i)
      invariant Placed(data, done, payload, used[..]) && PlacingError(|data|, done) == None
    {
      var header := ReadSegment(data, offset + i * stride, i);
      if header.Some? {
        SegmentsLoad(data, i + 1);
        var placed := PlaceSegment(data, header.value, payload, used, done);
        if placed.Failure? {
          ErrorStays(data, i + 1, count);
          return Failure(placed.error);
        }
        payload, done := placed.value, done + [header.value];
      }
    }
    EntryIsUsed(data, done, payload, used[..]);
    if !(payload != [] && used[0]) {
      return Failure(NoEntryPoint);
    }
    r := Success(payload);
  }

  lemma NothingPlaced(data: seq<byte>, used: seq<bool>)
    requires |used| == MAX_PAYLOAD && forall k | 0 <= k < |used| :: !used[k]
    ensures Placed(data, [], [], used) && PlacingError(|data|, []) == None
  {
  }

  lemma EntryIsUsed(data: seq<byte>, done: seq<Segment>, payload: seq<byte>, used: seq<bool>)
    requires Placed(data, done, payload, used)
    ensures AllPlaced(|data|, done) && payload == Flatten(data, done)
    ensures payload != [] && |used| > 0 && used[0] <==> exists s | s in done :: Covers(s, 0)
  {
    LargestEndBounds(done);
  }

  /** Once a segment has failed, the segments after it do not matter. */
  lemma ErrorStays(data: seq<byte>, i: nat, n: nat)
    requires |data| >= 52 && TableFits(data) && i <= n <= Count(data)
    requires PlacingError(|data|, Segments(data, i)).Some?
    ensures PlacingError(|data|, Segments(data, n)) == PlacingError(|data|, Segments(data, i))
  {
    hide SegmentOf, TableFits, PlacingError;
    if i < n {
      ErrorStays(data, i, n - 1);
      if SegmentOf(data, n - 1).Some? {
        ErrorThenMore(|data|, Segments(data, n - 1), SegmentOf(data, n - 1).value);
      } else {
        assert Segments(data, n) == Segments(data, n - 1);
      }
    }
  }

  lemma ErrorThenMore(size: nat, before: seq<Segment>, s: Segment)
    requires PlacingError(size, before).Some?
    ensures PlacingError(size, before + [s]) == PlacingError(size, before)
  {
    assert (before + [s])[..|before|] == before;
  }

  /** What the loader returns for the bytes of a file, by extension. */
  function Loaded(extension: Extension, data: seq<byte>): Result<seq<byte>, LoadError> {
    if extension == Other then Failure(BadExtension)
    else if !(0 < |data| <= 64 * 1024 * 1024) then Failure(BadFileSize)
    else if extension == Elf then LoadedElf(data)
    else if |data| > MAX_PAYLOAD then Failure(TooLarge)
    else if |data| >= 4 && Word(data, 0) in {0x464c457f, 0xbeaf5aa5, 0x48504d2d} then Failure(NotRawApplication)
    else if |data| >= 4 && Word(data, 0) == 0xfcf90002 then Failure(RomImage)
    else Success(data)
  }

  /** A raw application: it fits the slot, and does not begin with the magic of anything else. */
  predicate IsRawApplication(data: seq<byte>) {
    && 1 <= |data| <= 0xbf000
    && (|data| >= 4 ==> Word(data, 0) !in {0x464c457f, 0xbeaf5aa5, 0x48504d2d, 0xfcf90002})
  }

  /** An ELF application of at most 64 MiB whose headers are valid and whose segments are accepted. */
  predicate IsElfApplication(data: seq<byte>) {
    && 1 <= |data| <= 0x400_0000 && IsOtaElf(data) && TableFits(data)
    && Accepted(|data|, Segments(data, Count(data)))
  }

  /** A .bin file gives its own bytes, an .elf file its flattened segments, and any other file nothing. */
  method LoadOtaFirmware(extension: Extension, data: seq<byte>) returns (r: Result<seq<byte>, LoadError>)
    ensures r == Loaded(extension, data)
    ensures extension == Bin ==> (r.Success? <==> IsRawApplication(data)) && (r.Success? ==> r.value == data)
    ensures extension == Elf ==> (r.Success? <==> IsElfApplication(data))
    ensures extension == Elf && r.Success? ==> IsPayloadOf(data, Segments(data, Count(data)), r.value)
    ensures extension == Other ==> r.Failure?
  {
    LoadedElfIs(data);
    hide LoadedElf, IsElfApplication, IsPayloadOf, Segments;
    if extension == Other {
      return Failure(BadExtension);
    }
    if !(|data| > 0 && |data| <= 64 * 1024 * 1024) {
      return Failure(BadFileSize);
    }
    if extension == Bin {
      if |data| > MAX_PAYLOAD {
        return Failure(TooLarge);
      }
      if |data| >= 4 {
        var magic := Read(data, 0, 4);
        if magic == Success(0x464c457f) || magic == Success(0xbeaf5aa5) || magic == Success(0x48504d2d) {
          return Failure(NotRawApplication);
        }
        if magic == Success(0xfcf90002) {
          return Failure(RomImage);
        }
      }
      return Success(data);
    }
    r := LoadElf(data);
  }

  lemma LoadedElfIs(data: seq<byte>)
    ensures IsElfApplication(data) <==> 1 <= |data| <= 0x400_0000 && LoadedElf(data).Success?
    ensures LoadedElf(data).Success? ==>
      |data| >= 52 && TableFits(data) && IsPayloadOf(data, Segments(data, Count(data)), LoadedElf(data).value)
  {
    LoadsExactlyWhenAccepted(data);
    hide LoadedElf, Flatten, TableFits, Accepted, Segments, IsPayloadOf;
    if LoadedElf(data).Success? { PayloadIs(data, Segments(data, Count(data))); }
  }

  /** Whatever is loaded can be packaged, and no header read leaves the file. */
  lemma LoadedFitsTheSlot(extension: Extension, data: seq<byte>)
    ensures Loaded(extension, data) != Failure(TruncatedElf)
    ensures Loaded(extension, data).Success? ==> 0 < |Loaded(extension, data).value| <= MAX_PAYLOAD
  {
    if extension == Elf && IsOtaElf(data) && TableFits(data) {
      LoadsExactlyWhenAccepted(data);
      var segs := Segments(data, Count(data));
      if Accepted(|data|, segs) { PayloadBytes(data, segs); }
      PlacingErrorKinds(|data|, segs);
    }
  }

  lemma PlacingErrorKinds(size: nat, segs: seq<Segment>)
    ensures PlacingError(size, segs) in {None, Some(TruncatedSegment), Some(OutsideSlot), Some(Overlap)}
  {
  }
}
