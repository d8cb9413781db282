/** What an OTA application ELF means: its load segments, when they are accepted, and the flash image they make. */
module ElfImage {
  import opened Wrappers
  import opened Bytes
  import opened OtaSlot

  datatype LoadError =
    | BadExtension | BadFileSize | TooLarge | NotRawApplication | RomImage
    | TruncatedElf | NotOtaElf | BadProgramHeaders | TruncatedSegment | OutsideSlot | Overlap | NoEntryPoint

  /** A non-empty PT_LOAD program header: file offset, physical address, file size and memory size. */
  datatype Segment = Segment(source: uint32, address: uint32, length: uint32, memory: uint32)

  // ---------------------------------------------------------------- the two headers

  /** Executable little-endian ELF32 for RISC-V, linked at the OTA entry. */
  predicate IsOtaElf(data: seq<byte>) {
    && |data| >= 52 && Word(data, 0) == 0x464c457f && data[4] == 1 && data[5] == 1 && data[6] == 1
    && LeValue(data, 16, 2) == 2 && LeValue(data, 18, 2) == 243 && Word(data, 24) == ENTRY
  }

  function TableOffset(data: seq<byte>): nat requires |data| >= 52 { Word(data, 28) }
  function Stride(data: seq<byte>): nat requires |data| >= 52 { LeValue(data, 42, 2) }
  function Count(data: seq<byte>): nat requires |data| >= 52 { LeValue(data, 44, 2) }

  predicate TableFits(data: seq<byte>)
    requires |data| >= 52
  {
    && Count(data) > 0 && Stride(data) >= 32 && TableOffset(data) <= |data|
    && Count(data) <= (|data| - TableOffset(data)) / Stride(data)
  }

  function Row(offset: nat, stride: nat, i: nat): nat { offset + i * stride }

  function HeaderAt(data: seq<byte>, i: nat): nat
    requires |data| >= 52
  {
    Row(TableOffset(data), Stride(data), i)
  }

  /** Every field of every header lies inside the file. */
  lemma HeaderInBounds(data: seq<byte>, i: nat)
    requires |data| >= 52 && TableFits(data) && i < Count(data)
    ensures HeaderAt(data, i) + 32 <= |data|
  {
    var room, stride := |data| - TableOffset(data), Stride(data);
    assert (i + 1) * stride <= room by {
      TimesFits(i + 1, room / stride, stride);
      assert room / stride * stride <= room;
    }
    assert (i + 1) * stride == i * stride + stride;
  }

  lemma TimesFits(a: nat, b: nat, c: nat)
    requires a <= b
    ensures a * c <= b * c
  {
  }

  /** The segment that header i loads, if it is a PT_LOAD header with file bytes. */
  function SegmentOf(data: seq<byte>, i: nat): Option<Segment>
    requires |data| >= 52 && TableFits(data) && i < Count(data)
  {
    HeaderInBounds(data, i);
    var p := HeaderAt(data, i);
    if Word(data, p) != 1 || Word(data, p + 16) == 0 then None
    else Some(Segment(Word(data, p + 4), Word(data, p + 12), Word(data, p + 16), Word(data, p + 20)))
  }

  /** The segments that the first n headers load, in table order. */
  function Segments(data: seq<byte>, n: nat): seq<Segment>
    requires |data| >= 52 && TableFits(data) && n <= Count(data)
  {
    if n == 0 then []
    else
      var s := SegmentOf(data, n - 1);
      Segments(data, n - 1) + if s.None? then [] else [s.value]
  }

  // ---------------------------------------------------------------- placing segments

  predicate InFile(size: nat, s: Segment) { s.source + s.length <= size && s.length <= s.memory }

  predicate InSlot(s: Segment) {
    ENTRY <= s.address < ENTRY + MAX_PAYLOAD && s.address - ENTRY + s.length <= MAX_PAYLOAD
  }

  function Target(s: Segment): int { s.address - ENTRY }
  function End(s: Segment): int { s.address - ENTRY + s.length }
  predicate Covers(s: Segment, k: int) { Target(s) <= k < End(s) }
  predicate Disjoint(s: Segment, t: Segment) { End(s) <= Target(t) || End(t) <= Target(s) }

  predicate AllPlaced(size: nat, segs: seq<Segment>) {
    forall s | s in segs :: InFile(size, s) && InSlot(s) && s.length > 0
  }

  predicate NoOverlap(segs: seq<Segment>) {
    forall i, j | 0 <= i < j < |segs| :: Disjoint(segs[i], segs[j])
  }

  predicate Accepted(size: nat, segs: seq<Segment>) {
    AllPlaced(size, segs) && NoOverlap(segs) && exists s | s in segs :: Covers(s, 0)
  }

  /** The first check that fails while the segments are placed in order. */
  function PlacingError(size: nat, segs: seq<Segment>): Option<LoadError> {
    if segs == [] then None
    else
      var before, s := segs[..|segs| - 1], segs[|segs| - 1];
      var error := PlacingError(size, before);
      if error.Some? then error
      else if !InFile(size, s) then Some(TruncatedSegment)
      else if !InSlot(s) then Some(OutsideSlot)
      else if exists t | t in before :: !Disjoint(t, s) then Some(Overlap)
      else None
  }

  function LargestEnd(segs: seq<Segment>): int {
    if segs == [] then 0
    else
      var before, s := LargestEnd(segs[..|segs| - 1]), segs[|segs| - 1];
      if before > End(s) then before else End(s)
  }

  /** Byte k of the image: the file byte of a segment that covers it, or zero in a gap. */
  function ByteAt(data: seq<byte>, segs: seq<Segment>, k: int): byte
    requires AllPlaced(|data|, segs)
  {
    if segs == [] then 0
    else
      var s := segs[|segs| - 1];
      if Covers(s, k) then data[s.source + (k - Target(s))] else ByteAt(data, segs[..|segs| - 1], k)
  }

  function Flatten(data: seq<byte>, segs: seq<Segment>): seq<byte>
    requires AllPlaced(|data|, segs)
  {
    LargestEndBounds(segs);
    seq(LargestEnd(segs), k => ByteAt(data, segs, k))
  }

  lemma LargestEndBounds(segs: seq<Segment>)
    requires forall s | s in segs :: InSlot(s)
    ensures 0 <= LargestEnd(segs) <= MAX_PAYLOAD
    ensures forall s | s in segs :: End(s) <= LargestEnd(segs)
    ensures segs != [] ==> exists s | s in segs :: End(s) == LargestEnd(segs)
  {
    if segs != [] {
      var before, last := segs[..|segs| - 1], segs[|segs| - 1];
      assert segs == before + [last] && last in segs && InSlot(last);
      LargestEndBounds(before);
      if LargestEnd(before) <= End(last) {
        assert End(last) == LargestEnd(segs);
      } else {
        assert before != [];
        var t :| t in before && End(t) == LargestEnd(before);
        assert t in segs && End(t) == LargestEnd(segs);
      }
    }
  }

  /** What loading an ELF file gives, check by check. */
  function LoadedElf(data: seq<byte>): Result<seq<byte>, LoadError> {
    if !IsOtaElf(data) then Failure(NotOtaElf)
    else if !TableFits(data) then Failure(BadProgramHeaders)
    else
      var segs := Segments(data, Count(data));
      SegmentsLoad(data, Count(data));
      PlacingErrorNone(|data|, segs);
      var error := PlacingError(|data|, segs);
      if error.Some? then Failure(error.value)
      else if exists s | s in segs :: Covers(s, 0) then Success(Flatten(data, segs))
      else Failure(NoEntryPoint)
  }

  lemma SegmentsLoad(data: seq<byte>, n: nat)
    requires |data| >= 52 && TableFits(data) && n <= Count(data)
    ensures forall s | s in Segments(data, n) :: s.length > 0
  {
    if n > 0 { SegmentsLoad(data, n - 1); }
  }

  /** Placing meets no error exactly when every segment lies in the file and in the slot and no two overlap. */
  lemma {:induction false} PlacingErrorNone(size: nat, segs: seq<Segment>)
    requires forall s | s in segs :: s.length > 0
    ensures PlacingError(size, segs) == None <==> AllPlaced(size, segs) && NoOverlap(segs)
  {
    hide NoOverlap, Disjoint, InFile, InSlot;
    if segs == [] {
      EmptyNoOverlap();
    } else {
      var before, s := segs[..|segs| - 1], segs[|segs| - 1];
      PlacingErrorNone(size, before);
      assert segs == before + [s];
      NoOverlapAppend(before, s);
    }
  }

  lemma EmptyNoOverlap()
    ensures NoOverlap([])
  {
  }

  lemma NoOverlapAppend(before: seq<Segment>, s: Segment)
    ensures NoOverlap(before + [s]) <==> NoOverlap(before) && forall t | t in before :: Disjoint(t, s)
  {
    hide Disjoint;
    var segs := before + [s];
    if NoOverlap(segs) {
      forall t | t in before ensures Disjoint(t, s) {
        var i :| 0 <= i < |before| && before[i] == t;
        assert Disjoint(segs[i], segs[|before|]);
      }
      forall i, j | 0 <= i < j < |before| ensures Disjoint(before[i], before[j]) {
        assert Disjoint(segs[i], segs[j]);
      }
    } else {
      var i, j :| 0 <= i < j < |segs| && !Disjoint(segs[i], segs[j]);
      assert if j < |before| then !Disjoint(before[i], before[j]) else before[i] in before;
    }
  }

  // ---------------------------------------------------------------- what an accepted file loads

  /** An ELF file loads exactly when its headers are valid and its segments are accepted. */
  lemma LoadsExactlyWhenAccepted(data: seq<byte>)
    ensures LoadedElf(data).Success? <==>
      IsOtaElf(data) && TableFits(data) && Accepted(|data|, Segments(data, Count(data)))
    ensures LoadedElf(data).Success? ==> LoadedElf(data).value == Flatten(data, Segments(data, Count(data)))
  {
    if IsOtaElf(data) && TableFits(data) {
      SegmentsLoad(data, Count(data));
      PlacingErrorNone(|data|, Segments(data, Count(data)));
    }
  }

  lemma CoveredByteAt(data: seq<byte>, segs: seq<Segment>, s: Segment, k: int)
    requires AllPlaced(|data|, segs) && NoOverlap(segs) && s in segs && Covers(s, k)
    ensures ByteAt(data, segs, k) == data[s.source + (k - Target(s))]
  {
    var before, last := segs[..|segs| - 1], segs[|segs| - 1];
    assert segs == before + [last];
    if s in before {
      var i :| 0 <= i < |before| && before[i] == s;
      assert Disjoint(segs[i], segs[|before|]);
      assert NoOverlap(before);
      CoveredByteAt(data, before, s, k);
    }
  }

  lemma GapByteAt(data: seq<byte>, segs: seq<Segment>, k: int)
    requires AllPlaced(|data|, segs) && forall s | s in segs :: !Covers(s, k)
    ensures ByteAt(data, segs, k) == 0
  {
    if segs != [] {
      assert segs[|segs| - 1] in segs;
      GapByteAt(data, segs[..|segs| - 1], k);
    }
  }

  /**
   The payload of an accepted file: as long as the largest segment end and within the slot; every byte is the file
   byte of the one segment that covers it, and zero in a gap; no segment byte is lost.
   */
  lemma PayloadBytes(data: seq<byte>, segs: seq<Segment>)
    requires Accepted(|data|, segs)
    ensures var payload := Flatten(data, segs);
      && 0 < |payload| <= MAX_PAYLOAD
      && (exists s | s in segs :: End(s) == |payload|)
      && (forall s, k | s in segs && Covers(s, k) ::
            0 <= k < |payload| && payload[k] == data[s.source + (k - Target(s))])
      && (forall i, j, k | 0 <= i < |segs| && 0 <= j < |segs| && Covers(segs[i], k) && Covers(segs[j], k) :: i == j)
      && (forall k | 0 <= k < |payload| && (forall s | s in segs :: !Covers(s, k)) :: payload[k] == 0)
  {
    LargestEndBounds(segs);
    var payload := Flatten(data, segs);
    forall s, k | s in segs && Covers(s, k)
      ensures 0 <= k < |payload| && payload[k] == data[s.source + (k - Target(s))]
    {
      CoveredByteAt(data, segs, s, k);
    }
    forall k | 0 <= k < |payload| && (forall s | s in segs :: !Covers(s, k))
      ensures payload[k] == 0
    {
      GapByteAt(data, segs, k);
    }
    var first :| first in segs && Covers(first, 0);
    assert 0 < |payload|;
  }

  /** Byte j of the segment is in its place in the payload. */
  predicate CopiedAt(data: seq<byte>, payload: seq<byte>, s: Segment, j: nat) {
    var k := s.address - 0x8004_1000 + j;
    0 <= k < |payload| && s.source + j < |data| && payload[k] == data[s.source + j]
  }

  predicate IsGap(segs: seq<Segment>, k: int) {
    forall s | s in segs :: !(s.address - 0x8004_1000 <= k < s.address - 0x8004_1000 + s.length)
  }

  /** The same in the fields of the segments: this payload is what they make of the file. */
  ghost predicate IsPayloadOf(data: seq<byte>, segs: seq<Segment>, payload: seq<byte>) {
    && 0 < |payload| <= 0xbf000
    && (exists s | s in segs :: s.address - 0x8004_1000 + s.length == |payload|)
    && (forall s, j: nat | s in segs && j < s.length :: CopiedAt(data, payload, s, j))
    && (forall k | 0 <= k < |payload| && IsGap(segs, k) :: payload[k] == 0)
  }

  lemma PayloadIs(data: seq<byte>, segs: seq<Segment>)
    requires Accepted(|data|, segs)
    ensures IsPayloadOf(data, segs, Flatten(data, segs))
  {
    PayloadBytes(data, segs);
    var payload := Flatten(data, segs);
    hide Flatten, NoOverlap;
    forall s, j: nat | s in segs && j < s.length
      ensures CopiedAt(data, payload, s, j)
    {
      assert Covers(s, s.address - 0x8004_1000 + j) && InFile(|data|, s);
    }
    forall k | 0 <= k < |payload| && IsGap(segs, k) ensures payload[k] == 0 {
      assert forall s | s in segs :: !Covers(s, k);
    }
    var last :| last in segs && End(last) == |payload|;
    assert last.address - 0x8004_1000 + last.length == |payload|;
  }

  // ---------------------------------------------------------------- the order of the program headers

  lemma TwiceInMultiset(segs: seq<Segment>, i: nat, j: nat)
    requires i < j < |segs| && segs[i] == segs[j]
    ensures multiset(segs)[segs[i]] >= 2
  {
    assert segs == segs[..j] + segs[j..];
    assert segs[..j][i] in multiset(segs[..j]) && segs[j..][0] in multiset(segs[j..]);
  }

  lemma OnceInMultiset(segs: seq<Segment>, s: Segment)
    requires multiset(segs)[s] >= 2
    ensures exists i, j | 0 <= i < j < |segs| :: segs[i] == s && segs[j] == s
  {
    var before, last := segs[..|segs| - 1], segs[|segs| - 1];
    assert segs == before + [last];
    if last == s {
      assert s in multiset(before);
      var i :| 0 <= i < |before| && before[i] == s;
      assert segs[i] == s && segs[|segs| - 1] == s;
    } else {
      OnceInMultiset(before, s);
      var i, j :| 0 <= i < j < |before| && before[i] == s && before[j] == s;
      assert segs[i] == s && segs[j] == s;
    }
  }

  /** Overlap does not depend on the order of the segments. */
  lemma NoOverlapOfMultiset(segs: seq<Segment>)
    requires forall s | s in segs :: s.length > 0
    ensures NoOverlap(segs) <==>
      && (forall s | s in segs :: multiset(segs)[s] == 1)
      && (forall s, t | s in segs && t in segs && s != t :: Disjoint(s, t))
  {
    if NoOverlap(segs) {
      forall s | s in segs ensures multiset(segs)[s] == 1 {
        if multiset(segs)[s] >= 2 { OnceInMultiset(segs, s); }
      }
      forall s, t | s in segs && t in segs && s != t ensures Disjoint(s, t) {
        var i :| 0 <= i < |segs| && segs[i] == s;
        var j :| 0 <= j < |segs| && segs[j] == t;
        assert if i < j then Disjoint(segs[i], segs[j]) else Disjoint(segs[j], segs[i]);
      }
    } else {
      var i, j :| 0 <= i < j < |segs| && !Disjoint(segs[i], segs[j]);
      if segs[i] == segs[j] { TwiceInMultiset(segs, i, j); }
    }
  }

  lemma SameMembers(x: seq<Segment>, y: seq<Segment>)
    requires multiset(x) == multiset(y)
    ensures forall s :: s in x <==> s in y
  {
    assert forall s :: s in x <==> s in multiset(x);
    assert forall s :: s in y <==> s in multiset(y);
  }

  lemma AcceptanceIgnoresOrder(size: nat, x: seq<Segment>, y: seq<Segment>)
    requires multiset(x) == multiset(y)
    ensures Accepted(size, x) ==> Accepted(size, y)
  {
    if Accepted(size, x) {
      SameMembers(x, y);
      NoOverlapOfMultiset(x);
      NoOverlapOfMultiset(y);
    }
  }

  /** Two files of one size with the same ELF header fields whose tables list the same load segments in some order. */
  ghost predicate SameUpToTableOrder(x: seq<byte>, y: seq<byte>) {
    && |x| == |y| && IsOtaElf(x) && IsOtaElf(y) && TableFits(x) && TableFits(y)
    && multiset(Segments(x, Count(x))) == multiset(Segments(y, Count(y)))
  }

  /** Where the segments read the same file bytes. A segment may cover the header table, which the order changes. */
  ghost predicate SameSegmentBytes(x: seq<byte>, y: seq<byte>, segs: seq<Segment>)
    requires |x| == |y|
  {
    forall s, k | s in segs && Covers(s, k) && InFile(|x|, s) ::
      x[s.source + (k - Target(s))] == y[s.source + (k - Target(s))]
  }

  /**
   Files that list the same load segments are accepted alike, and load the same exactly if the segments read the same
   bytes in both.
   */
  lemma SameSegmentsLoadAlike(x: seq<byte>, y: seq<byte>)
    requires SameUpToTableOrder(x, y)
    ensures LoadedElf(x).Success? <==> LoadedElf(y).Success?
    ensures LoadedElf(x).Success? ==>
      |LoadedElf(x).value| == |LoadedElf(y).value|
      && (LoadedElf(x) == LoadedElf(y) <==> SameSegmentBytes(x, y, Segments(x, Count(x))))
  {
    var sx, sy := Segments(x, Count(x)), Segments(y, Count(y));
    LoadsExactlyWhenAccepted(x);
    LoadsExactlyWhenAccepted(y);
    AcceptanceIgnoresOrder(|x|, sx, sy);
    AcceptanceIgnoresOrder(|x|, sy, sx);
    if Accepted(|x|, sx) {
      SameMembers(sx, sy);
      LargestEndBounds(sx);
      LargestEndBounds(sy);
      PayloadBytes(x, sx);
      PayloadBytes(y, sy);
      PayloadsAgree(x, y, sx, sy);
    }
  }

  lemma PayloadsAgree(x: seq<byte>, y: seq<byte>, sx: seq<Segment>, sy: seq<Segment>)
    requires |x| == |y| && Accepted(|x|, sx) && Accepted(|y|, sy) && forall s :: s in sx <==> s in sy
    requires LargestEnd(sx) == LargestEnd(sy)
    ensures Flatten(x, sx) == Flatten(y, sy) <==> SameSegmentBytes(x, y, sx)
  {
    PayloadBytes(x, sx);
    PayloadBytes(y, sy);
    var px, py := Flatten(x, sx), Flatten(y, sy);
    if SameSegmentBytes(x, y, sx) {
      forall k | 0 <= k < |px| ensures px[k] == py[k] {
        if s :| s in sx && Covers(s, k) {
          assert px[k] == x[s.source + (k - Target(s))] && py[k] == y[s.source + (k - Target(s))];
        }
      }
    } else {
      var s, k :| s in sx && Covers(s, k) && InFile(|x|, s)
        && x[s.source + (k - Target(s))] != y[s.source + (k - Target(s))];
      assert px[k] != py[k];
    }
  }
}
