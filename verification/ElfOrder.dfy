/** Exchanging two program headers of a file, byte by byte, and the files that show each way in which it can matter. */
module ElfOrder {
  import opened Wrappers
  import opened Bytes
  import opened OtaSlot
  import opened ElfImage
  import opened ElfTable

  /** Offset q lies in the table row of header i. */
  predicate InRow(x: seq<byte>, i: nat, q: int)
    requires |x| >= 52
  {
    HeaderAt(x, i) <= q < HeaderAt(x, i) + Stride(x)
  }

  lemma RowsApart(x: seq<byte>, i: nat, j: nat)
    requires |x| >= 52 && i < j
    ensures HeaderAt(x, i) + Stride(x) <= HeaderAt(x, j)
  {
    TimesFits(i + 1, j, Stride(x));
    assert (i + 1) * Stride(x) == i * Stride(x) + Stride(x);
  }

  /** Where the byte at q comes from when rows a and b are exchanged. */
  function Origin(x: seq<byte>, a: nat, b: nat, q: nat): (o: nat)
    requires HasTable(x) && a < Count(x) && b < Count(x) && q < |x|
    ensures o < |x|
  {
    RowsInFile(x, a);
    RowsInFile(x, b);
    if InRow(x, a, q) then q - HeaderAt(x, a) + HeaderAt(x, b)
    else if InRow(x, b, q) then q - HeaderAt(x, b) + HeaderAt(x, a)
    else q
  }

  /** The file with the table rows a and b exchanged. */
  function Swapped(x: seq<byte>, a: nat, b: nat): (y: seq<byte>)
    requires HasTable(x) && a < Count(x) && b < Count(x)
    ensures |y| == |x|
  {
    seq(|x|, q requires 0 <= q < |x| => x[Origin(x, a, b, q)])
  }

  /** A table that begins after the ELF header never touches it. */
  lemma LateTableKeepsHeader(x: seq<byte>, a: nat, b: nat)
    requires HasTable(x) && a < Count(x) && b < Count(x) && TableOffset(x) >= 52
    ensures KeepsIdentity(x, Swapped(x, a, b)) && KeepsPlace(x, Swapped(x, a, b))
  {
    RowsInFile(x, a);
    RowsInFile(x, b);
    hide HeaderAt;
  }

  function Other(a: nat, b: nat, i: nat): nat { if i == a then b else if i == b then a else i }

  lemma RowOrigin(x: seq<byte>, a: nat, b: nat, i: nat, c: nat)
    requires HasTable(x) && a < Count(x) && b < Count(x) && i < Count(x) && c < Stride(x)
    ensures HeaderAt(x, i) + c < |x|
    ensures Origin(x, a, b, HeaderAt(x, i) + c) == HeaderAt(x, Other(a, b, i)) + c
  {
    RowsInFile(x, i);
    if i < a { RowsApart(x, i, a); }
    if a < i { RowsApart(x, a, i); }
    if i < b { RowsApart(x, i, b); }
    if b < i { RowsApart(x, b, i); }
    hide HeaderAt, Stride;
  }

  /** Row i of the file with two rows exchanged is the exchanged row. */
  lemma SwappedRow(x: seq<byte>, a: nat, b: nat, i: nat)
    requires HasTable(x) && a < Count(x) && b < Count(x) && i < Count(x)
    ensures RowOf(x, Swapped(x, a, b), i) == RowOf(x, x, Other(a, b, i))
  {
    var row, origin := RowOf(x, Swapped(x, a, b), i), RowOf(x, x, Other(a, b, i));
    RowsInFile(x, i);
    RowsInFile(x, Other(a, b, i));
    forall c: nat | c < |row| ensures row[c] == origin[c] {
      RowOrigin(x, a, b, i, c);
    }
  }

  lemma SwapKeepsBag<T>(s: seq<T>, a: nat, b: nat)
    requires a < |s| && b < |s|
    ensures multiset(s[a := s[b]][b := s[a]]) == multiset(s)
  {
  }

  lemma SwapPermutes(x: seq<byte>, a: nat, b: nat)
    requires HasTable(x) && a < Count(x) && b < Count(x)
    ensures PermutesTable(x, Swapped(x, a, b))
  {
    var y, n := Swapped(x, a, b), Count(x);
    var rows := Rows(x, x, n);
    forall i | 0 <= i < n ensures Rows(x, y, n)[i] == rows[a := rows[b]][b := rows[a]][i] {
      SwappedRow(x, a, b, i);
    }
    hide RowOf, HasTable, Swapped, Rows;
    assert Rows(x, y, n) == rows[a := rows[b]][b := rows[a]];
    SwapKeepsBag(rows, a, b);
  }

  /**
   The same for an exchange of two rows: the bytes that change are those of the two rows in which they differ, and no
   table that begins after the ELF header changes a byte of it.
   */
  lemma OrderMattersExactlyWhen(x: seq<byte>, a: nat, b: nat)
    requires HasTable(x) && a < b < Count(x)
    ensures var y := Swapped(x, a, b);
      && (forall q | 0 <= q < |x| :: y[q] == x[Origin(x, a, b, q)])
      && (!KeepsIdentity(x, y) <==> LoadedElf(y) == Failure(NotOtaElf))
      && (KeepsIdentity(x, y) && !KeepsPlace(x, y) ==>
            && IsOtaElf(y) && !SameTable(x, y)
            && (LoadedElf(y).Success? <==> TableFits(y) && Accepted(|y|, Segments(y, Count(y)))))
      && (KeepsIdentity(x, y) && KeepsPlace(x, y) ==>
            && (LoadedElf(x).Success? <==> LoadedElf(y).Success?)
            && (LoadedElf(x).Success? ==> (LoadedElf(y) != LoadedElf(x) <==> LoadsDifference(x, y))))
      && (TableOffset(x) >= 52 ==> KeepsIdentity(x, y) && KeepsPlace(x, y))
  {
    SwapPermutes(x, a, b);
    PermutationMattersExactlyWhen(x, Swapped(x, a, b));
    if TableOffset(x) >= 52 { LateTableKeepsHeader(x, a, b); }
  }

  // ---------------------------------------------------------------- a file for which it does

  function SelfLoadingByte(q: nat): byte {
    if q < 7 then [0x7f, 0x45, 0x4c, 0x46, 1, 1, 1][q]
    else if q == 16 || q == 44 then 2
    else if q == 18 then 0xf3
    else if 24 <= q < 28 then [0x00, 0x10, 0x04, 0x80][q - 24]
    else if q == 28 || q == 40 || q == 56 then 52
    else if q == 42 || q == 68 then 32
    else if q == 72 then 40
    else if q == 52 then 1
    else if 64 <= q < 68 then [0x00, 0x10, 0x04, 0x80][q - 64]
    else 0
  }

  /** Two headers after the ELF header: the first loads its own 32 bytes to the entry, the second loads nothing. */
  function SelfLoading(): (x: seq<byte>)
    ensures |x| == 116
  {
    seq(116, q requires 0 <= q < 116 => SelfLoadingByte(q))
  }

  predicate BytesAre(x: seq<byte>, p: nat, b0: byte, b1: byte, b2: byte, b3: byte)
    requires p + 4 <= |x|
  {
    x[p] == b0 && x[p + 1] == b1 && x[p + 2] == b2 && x[p + 3] == b3
  }

  lemma WordIs(x: seq<byte>, p: nat, b0: byte, b1: byte, b2: byte, b3: byte)
    requires p + 4 <= |x| && BytesAre(x, p, b0, b1, b2, b3)
    ensures Word(x, p) == b0 + b1 as int * 0x100 + b2 as int * 0x1_0000 + b3 as int * 0x100_0000
    ensures LeValue(x, p, 2) == b0 + b1 as int * 0x100 && LeValue(x, p + 2, 2) == b2 + b3 as int * 0x100
  {
    WordSum(x, p);
    HalfSum(x, p);
    HalfSum(x, p + 2);
  }

  lemma HeaderIs(x: seq<byte>, offset: nat, stride: nat, count: nat)
    requires |x| >= 52 && Word(x, 0) == 0x464c457f && x[4] == 1 && x[5] == 1 && x[6] == 1
    requires LeValue(x, 16, 2) == 2 && LeValue(x, 18, 2) == 243 && Word(x, 24) == ENTRY
    requires Word(x, 28) == offset <= |x| && LeValue(x, 42, 2) == stride && LeValue(x, 44, 2) == count
    requires count > 0 && stride >= 32 && count <= (|x| - offset) / stride
    ensures HasTable(x) && TableOffset(x) == offset && Stride(x) == stride && Count(x) == count
  {
    hide LeValue, Word;
  }

  lemma RowsAt(x: seq<byte>)
    requires |x| >= 52
    ensures HeaderAt(x, 0) == TableOffset(x) && HeaderAt(x, 1) == TableOffset(x) + Stride(x)
  {
    hide TableOffset, Stride;
  }

  lemma RowLoads(x: seq<byte>, i: nat, p: nat, s: Segment)
    requires HasTable(x) && i < Count(x) && p == HeaderAt(x, i) && p + 32 <= |x| && s.length > 0
    requires Word(x, p) == 1 && Word(x, p + 4) == s.source && Word(x, p + 12) == s.address
    requires Word(x, p + 16) == s.length && Word(x, p + 20) == s.memory
    ensures SegmentOf(x, i) == Some(s)
  {
    hide LeValue, Word, HeaderAt, Count, TableFits, IsOtaElf;
  }

  lemma RowIsIdle(x: seq<byte>, i: nat, p: nat)
    requires HasTable(x) && i < Count(x) && p == HeaderAt(x, i) && p + 32 <= |x| && Word(x, p) != 1
    ensures SegmentOf(x, i) == None
  {
    hide LeValue, Word, HeaderAt, Count, TableFits, IsOtaElf;
  }

  lemma TwoRows(x: seq<byte>)
    requires HasTable(x) && Count(x) == 2
    ensures Segments(x, 2) == (if SegmentOf(x, 0).Some? then [SegmentOf(x, 0).value] else [])
                              + if SegmentOf(x, 1).Some? then [SegmentOf(x, 1).value] else []
  {
    hide SegmentOf, Count, TableFits;
    assert Segments(x, 1) == Segments(x, 0) + if SegmentOf(x, 0).Some? then [SegmentOf(x, 0).value] else [];
  }

  /** A file of two rows at p and q, whose only load segment is s. */
  predicate TwoRowFile(x: seq<byte>, p: nat, q: nat, s: Segment) {
    && HasTable(x) && Count(x) == 2 && HeaderAt(x, 0) == p && HeaderAt(x, 1) == q && q < |x| && x[p] != x[q]
    && Segments(x, 2) == [s]
  }

  lemma SelfLoadingIdentity()
    ensures var x := SelfLoading();
      && Word(x, 0) == 0x464c457f && x[4] == 1 && x[5] == 1 && x[6] == 1
      && LeValue(x, 16, 2) == 2 && LeValue(x, 18, 2) == 243 && Word(x, 24) == ENTRY
  {
    hide LeValue, Word;
    var x := SelfLoading();
    WordIs(x, 0, 0x7f, 0x45, 0x4c, 0x46);
    WordIs(x, 16, 2, 0, 0xf3, 0);
    WordIs(x, 24, 0, 0x10, 0x04, 0x80);
  }

  lemma SelfLoadingTable()
    ensures var x := SelfLoading(); Word(x, 28) == 52 && LeValue(x, 42, 2) == 32 && LeValue(x, 44, 2) == 2
  {
    hide LeValue, Word;
    var x := SelfLoading();
    WordIs(x, 28, 52, 0, 0, 0);
    WordIs(x, 40, 52, 0, 32, 0);
    WordIs(x, 44, 2, 0, 0, 0);
  }

  lemma SelfLoadingRows()
    ensures var x := SelfLoading();
      && Word(x, 52) == 1 && Word(x, 56) == 52 && Word(x, 64) == ENTRY && Word(x, 68) == 32 && Word(x, 72) == 40
      && Word(x, 84) == 0 && x[52] != x[84]
  {
    hide LeValue, Word;
    var x := SelfLoading();
    WordIs(x, 52, 1, 0, 0, 0);
    WordIs(x, 56, 52, 0, 0, 0);
    WordIs(x, 64, 0, 0x10, 0x04, 0x80);
    WordIs(x, 68, 32, 0, 0, 0);
    WordIs(x, 72, 40, 0, 0, 0);
    WordIs(x, 84, 0, 0, 0, 0);
  }

  lemma SelfLoadingSegments()
    ensures TwoRowFile(SelfLoading(), 52, 84, Segment(52, ENTRY, 32, 40))
  {
    hide LeValue, Word, SelfLoading, SelfLoadingByte, TwoRowFile;
    SelfLoadingIdentity();
    SelfLoadingTable();
    SelfLoadingRows();
    FirstRowLoads(SelfLoading());
  }

  lemma FirstRowLoads(x: seq<byte>)
    requires |x| == 116 && Word(x, 0) == 0x464c457f && x[4] == 1 && x[5] == 1 && x[6] == 1
    requires LeValue(x, 16, 2) == 2 && LeValue(x, 18, 2) == 243 && Word(x, 24) == ENTRY
    requires Word(x, 28) == 52 && LeValue(x, 42, 2) == 32 && LeValue(x, 44, 2) == 2 && x[52] != x[84]
    requires Word(x, 52) == 1 && Word(x, 56) == 52 && Word(x, 64) == ENTRY && Word(x, 68) == 32 && Word(x, 72) == 40
    requires Word(x, 84) == 0
    ensures TwoRowFile(x, 52, 84, Segment(52, ENTRY, 32, 40))
  {
    hide LeValue, Word, SegmentOf, HasTable, TableFits, IsOtaElf, Segments, Row;
    HeaderIs(x, 52, 32, 2);
    RowsAt(x);
    hide HeaderAt, Count, Stride, TableOffset;
    RowLoads(x, 0, 52, Segment(52, ENTRY, 32, 40));
    RowIsIdle(x, 1, 84);
    TwoRows(x);
  }

  lemma OneSegmentLoads(x: seq<byte>, s: Segment)
    requires HasTable(x) && Segments(x, Count(x)) == [s]
    requires s.address == ENTRY && s.source + s.length <= |x| && 0 < s.length <= s.memory && s.length <= MAX_PAYLOAD
    ensures LoadedElf(x).Success?
  {
    assert IsOtaElf(x) && TableFits(x);
    LoadsExactlyWhenAccepted(x);
    hide HasTable, IsOtaElf, TableFits, Segments, LoadedElf;
    assert s in [s] && Covers(s, 0);
    assert AllPlaced(|x|, [s]) && NoOverlap([s]);
  }

  lemma FirstByteDiffers(x: seq<byte>, s: Segment)
    requires HasTable(x) && Count(x) == 2 && Segments(x, Count(x)) == [s] && Loads(s, HeaderAt(x, 0))
    requires HeaderAt(x, 0) < |x| && HeaderAt(x, 1) < |x| && x[HeaderAt(x, 0)] != x[HeaderAt(x, 1)]
    ensures LoadsDifference(x, Swapped(x, 0, 1))
  {
    var p := HeaderAt(x, 0);
    RowsInFile(x, 0);
    RowOrigin(x, 0, 1, 0, 0);
    hide HasTable, Segments, HeaderAt;
    assert s in [s] && x[Origin(x, 0, 1, p)] != x[p];
  }

  /** A file that loads, and loads something else once its two program headers are exchanged. */
  lemma OrderCanMatter()
    ensures HasTable(SelfLoading()) && Count(SelfLoading()) == 2
    ensures LoadedElf(SelfLoading()).Success? && LoadedElf(Swapped(SelfLoading(), 0, 1)).Success?
    ensures LoadedElf(SelfLoading()) != LoadedElf(Swapped(SelfLoading(), 0, 1))
  {
    SelfLoadingSegments();
    hide SelfLoading, SelfLoadingByte, HasTable, Segments, LoadedElf, Swapped, HeaderAt, Count;
    FirstByteMatters(SelfLoading(), Segment(52, ENTRY, 32, 40));
  }

  lemma FirstByteMatters(x: seq<byte>, s: Segment)
    requires TwoRowFile(x, 52, 84, s) && s == Segment(52, ENTRY, 32, 40)
    ensures LoadedElf(x).Success? && LoadedElf(Swapped(x, 0, 1)).Success? && LoadedElf(x) != LoadedElf(Swapped(x, 0, 1))
  {
    assert TableOffset(x) == 52;
    LateTableKeepsHeader(x, 0, 1);
    hide KeepsIdentity, KeepsPlace, SameTable, IsOtaElf, HasTable, Segments, HeaderAt, LoadedElf, TableFits, Swapped;
    hide LoadsDifference;
    OneSegmentLoads(x, s);
    FirstByteDiffers(x, s);
    OrderMattersExactlyWhen(x, 0, 1);
  }

  // ---------------------------------------------------------------- a table that overlaps the ELF header

  function OverlappingByte(q: nat): byte {
    if q < 7 then [0x7f, 0x45, 0x4c, 0x46, 1, 1, 1][q]
    else if q == 16 || q == 44 then 2
    else if q == 18 then 0xf3
    else if 24 <= q < 28 then [0x00, 0x10, 0x04, 0x80][q - 24]
    else if q == 42 then 52
    else if q == 52 || q == 68 || q == 72 then 1
    else if 64 <= q < 68 then [0x00, 0x10, 0x04, 0x80][q - 64]
    else 0
  }

  /** The table begins at offset 0: its first row is the ELF header itself, its second loads one byte to the entry. */
  function Overlapping(): (x: seq<byte>)
    ensures |x| == 104
  {
    seq(104, q requires 0 <= q < 104 => OverlappingByte(q))
  }

  lemma OverlappingIdentity()
    ensures var x := Overlapping();
      && Word(x, 0) == 0x464c457f && x[4] == 1 && x[5] == 1 && x[6] == 1
      && LeValue(x, 16, 2) == 2 && LeValue(x, 18, 2) == 243 && Word(x, 24) == ENTRY
  {
    hide LeValue, Word;
    var x := Overlapping();
    WordIs(x, 0, 0x7f, 0x45, 0x4c, 0x46);
    WordIs(x, 16, 2, 0, 0xf3, 0);
    WordIs(x, 24, 0, 0x10, 0x04, 0x80);
  }

  lemma OverlappingTable()
    ensures var x := Overlapping(); Word(x, 28) == 0 && LeValue(x, 42, 2) == 52 && LeValue(x, 44, 2) == 2
  {
    hide LeValue, Word;
    var x := Overlapping();
    WordIs(x, 28, 0, 0, 0, 0);
    WordIs(x, 40, 0, 0, 52, 0);
    WordIs(x, 44, 2, 0, 0, 0);
  }

  lemma OverlappingRow()
    ensures var x := Overlapping();
      && x[0] != x[52] && Word(x, 52) == 1 && Word(x, 56) == 0 && Word(x, 64) == ENTRY
      && Word(x, 68) == 1 && Word(x, 72) == 1
  {
    hide LeValue, Word;
    var x := Overlapping();
    WordIs(x, 52, 1, 0, 0, 0);
    WordIs(x, 56, 0, 0, 0, 0);
    WordIs(x, 64, 0, 0x10, 0x04, 0x80);
    WordIs(x, 68, 1, 0, 0, 0);
    WordIs(x, 72, 1, 0, 0, 0);
  }

  lemma OverlappingSegments()
    ensures TwoRowFile(Overlapping(), 0, 52, Segment(0, ENTRY, 1, 1))
  {
    hide LeValue, Word, Overlapping, OverlappingByte, TwoRowFile;
    OverlappingIdentity();
    OverlappingTable();
    OverlappingRow();
    SecondRowLoads(Overlapping());
  }

  lemma SecondRowLoads(x: seq<byte>)
    requires |x| == 104 && Word(x, 0) == 0x464c457f && x[4] == 1 && x[5] == 1 && x[6] == 1
    requires LeValue(x, 16, 2) == 2 && LeValue(x, 18, 2) == 243 && Word(x, 24) == ENTRY
    requires Word(x, 28) == 0 && LeValue(x, 42, 2) == 52 && LeValue(x, 44, 2) == 2 && x[0] != x[52]
    requires Word(x, 52) == 1 && Word(x, 56) == 0 && Word(x, 64) == ENTRY && Word(x, 68) == 1 && Word(x, 72) == 1
    ensures TwoRowFile(x, 0, 52, Segment(0, ENTRY, 1, 1))
  {
    hide LeValue, Word, SegmentOf, HasTable, TableFits, IsOtaElf, Segments, Row;
    HeaderIs(x, 0, 52, 2);
    RowsAt(x);
    hide HeaderAt, Count, Stride, TableOffset;
    RowIsIdle(x, 0, 0);
    RowLoads(x, 1, 52, Segment(0, ENTRY, 1, 1));
    TwoRows(x);
  }

  lemma LosesMagic(x: seq<byte>, s: Segment)
    requires TwoRowFile(x, 0, 52, s) && s == Segment(0, ENTRY, 1, 1)
    ensures LoadedElf(x).Success? && LoadedElf(Swapped(x, 0, 1)) == Failure(NotOtaElf)
  {
    RowsInFile(x, 0);
    hide HasTable, HeaderAt, Segments, LoadedElf, Swapped;
    assert IsIdentity(0) && Origin(x, 0, 1, 0) == 52;
    OneSegmentLoads(x, s);
    OrderMattersExactlyWhen(x, 0, 1);
  }

  /** A file that loads, and is no OTA application any more once its two program headers are exchanged. */
  lemma OrderCanReject()
    ensures HasTable(Overlapping()) && Count(Overlapping()) == 2
    ensures LoadedElf(Overlapping()).Success? && LoadedElf(Swapped(Overlapping(), 0, 1)) == Failure(NotOtaElf)
  {
    OverlappingSegments();
    hide Overlapping, OverlappingByte, HasTable, Segments, LoadedElf, Swapped, HeaderAt, Count;
    LosesMagic(Overlapping(), Segment(0, ENTRY, 1, 1));
  }

  // ---------------------------------------------------------------- a table that holds its own place

  /** Three rows from offset 0: the ELF header, a copy that counts no headers, and a load of one byte to the entry. */
  function MovableByte(q: nat): byte {
    if q < 52 then MovableHeaderByte(q)
    else if q < 104 then if q == 96 then 0 else MovableHeaderByte(q - 52)
    else if q == 104 || q == 120 || q == 124 then 1
    else if 116 <= q < 120 then [0x00, 0x10, 0x04, 0x80][q - 116]
    else 0
  }

  function MovableHeaderByte(q: nat): byte {
    if q == 44 then 3 else if q < 52 then OverlappingByte(q) else 0
  }

  function Movable(): (x: seq<byte>)
    ensures |x| == 156
  {
    seq(156, q requires 0 <= q < 156 => MovableByte(q))
  }

  lemma MovableIdentity()
    ensures var x := Movable();
      && Word(x, 0) == 0x464c457f && x[4] == 1 && x[5] == 1 && x[6] == 1
      && LeValue(x, 16, 2) == 2 && LeValue(x, 18, 2) == 243 && Word(x, 24) == ENTRY
  {
    hide LeValue, Word;
    var x := Movable();
    WordIs(x, 0, 0x7f, 0x45, 0x4c, 0x46);
    WordIs(x, 16, 2, 0, 0xf3, 0);
    WordIs(x, 24, 0, 0x10, 0x04, 0x80);
  }

  lemma MovableTable()
    ensures var x := Movable(); Word(x, 28) == 0 && LeValue(x, 42, 2) == 52 && LeValue(x, 44, 2) == 3
  {
    hide LeValue, Word;
    var x := Movable();
    WordIs(x, 28, 0, 0, 0, 0);
    WordIs(x, 40, 0, 0, 52, 0);
    WordIs(x, 44, 3, 0, 0, 0);
  }

  lemma MovableCopies()
    ensures var x := Movable(); x[96] == 0 && x[97] == 0 && forall q | 0 <= q < 52 && IsIdentity(q) :: x[q + 52] == x[q]
  {
    assert OverlappingByte(45) == 0;
    hide OverlappingByte;
  }

  lemma MovableRows()
    ensures var x := Movable();
      && Word(x, 52) == 0x464c457f
      && Word(x, 104) == 1 && Word(x, 108) == 0 && Word(x, 116) == ENTRY && Word(x, 120) == 1 && Word(x, 124) == 1
  {
    hide LeValue, Word;
    var x := Movable();
    WordIs(x, 52, 0x7f, 0x45, 0x4c, 0x46);
    WordIs(x, 104, 1, 0, 0, 0);
    WordIs(x, 108, 0, 0, 0, 0);
    WordIs(x, 116, 0, 0x10, 0x04, 0x80);
    WordIs(x, 120, 1, 0, 0, 0);
    WordIs(x, 124, 1, 0, 0, 0);
  }

  lemma ThreeRows(x: seq<byte>, s: Segment)
    requires HasTable(x) && Count(x) == 3
    requires SegmentOf(x, 0) == None && SegmentOf(x, 1) == None && SegmentOf(x, 2) == Some(s)
    ensures Segments(x, 3) == [s]
  {
    hide SegmentOf, Count, TableFits;
    assert Segments(x, 1) == [] && Segments(x, 2) == [];
  }

  lemma ThirdRowLoads(x: seq<byte>)
    requires |x| == 156 && Word(x, 0) == 0x464c457f && x[4] == 1 && x[5] == 1 && x[6] == 1
    requires LeValue(x, 16, 2) == 2 && LeValue(x, 18, 2) == 243 && Word(x, 24) == ENTRY
    requires Word(x, 28) == 0 && LeValue(x, 42, 2) == 52 && LeValue(x, 44, 2) == 3 && Word(x, 52) == 0x464c457f
    requires Word(x, 104) == 1 && Word(x, 108) == 0 && Word(x, 116) == ENTRY && Word(x, 120) == 1 && Word(x, 124) == 1
    ensures HasTable(x) && Count(x) == 3 && HeaderAt(x, 0) == 0 && HeaderAt(x, 1) == 52 && Stride(x) == 52
    ensures Segments(x, 3) == [Segment(0, ENTRY, 1, 1)]
  {
    hide LeValue, Word, SegmentOf, HasTable, TableFits, IsOtaElf, Segments, Row;
    HeaderIs(x, 0, 52, 3);
    RowsAt(x);
    ThirdRowAt(x);
    hide HeaderAt, Count, Stride, TableOffset;
    RowIsIdle(x, 0, 0);
    RowIsIdle(x, 1, 52);
    RowLoads(x, 2, 104, Segment(0, ENTRY, 1, 1));
    ThreeRows(x, Segment(0, ENTRY, 1, 1));
  }

  lemma ThirdRowAt(x: seq<byte>)
    requires |x| >= 52
    ensures HeaderAt(x, 2) == TableOffset(x) + 2 * Stride(x)
  {
    hide TableOffset, Stride;
  }

  lemma CountIsLost(x: seq<byte>)
    requires |x| == 156 && HasTable(x) && Count(x) == 3
    requires HeaderAt(x, 0) == 0 && HeaderAt(x, 1) == 52 && Stride(x) == 52
    requires x[96] == 0 && x[97] == 0 && forall q | 0 <= q < 52 && IsIdentity(q) :: x[q + 52] == x[q]
    ensures LoadedElf(Swapped(x, 0, 1)) == Failure(BadProgramHeaders)
  {
    assert IsOtaElf(x);
    hide HeaderAt, HasTable, LeValue, IsOtaElf;
    forall q: nat | q < 52 ensures Origin(x, 0, 1, q) == q + 52 {}
    var y := Swapped(x, 0, 1);
    assert KeepsIdentity(x, y);
    FieldsDecide(x, y);
    HalfSum(y, 44);
    assert y[44] == x[96] && y[45] == x[97];
  }

  /** A file that loads, and has no program headers any more once two of its three rows are exchanged. */
  lemma OrderCanMoveTable()
    ensures HasTable(Movable()) && Count(Movable()) == 3
    ensures LoadedElf(Movable()).Success? && LoadedElf(Swapped(Movable(), 0, 1)) == Failure(BadProgramHeaders)
  {
    MovableIdentity();
    MovableTable();
    MovableCopies();
    MovableRows();
    hide Movable, MovableByte, HasTable, Segments, LoadedElf, Swapped, HeaderAt, Count, Stride, LeValue, Word;
    ThirdRowLoads(Movable());
    OneSegmentLoads(Movable(), Segment(0, ENTRY, 1, 1));
    CountIsLost(Movable());
  }
}
