/** The header table as a sequence of rows: what permuting its rows, in any way, does to the file. */
module ElfTable {
  import opened Wrappers
  import opened Bytes
  import opened OtaSlot
  import opened ElfImage

  /** Every file that passes the header checks. The table may begin anywhere in it, even inside the ELF header. */
  predicate HasTable(x: seq<byte>) { IsOtaElf(x) && TableFits(x) }

  lemma RowsInFile(x: seq<byte>, i: nat)
    requires HasTable(x) && i < Count(x)
    ensures TableOffset(x) <= HeaderAt(x, i) && HeaderAt(x, i) + Stride(x) <= |x| && Stride(x) >= 32
  {
    var room, stride := |x| - TableOffset(x), Stride(x);
    TimesFits(0, i, stride);
    TimesFits(i + 1, room / stride, stride);
    assert room / stride * stride <= room;
    assert (i + 1) * stride == i * stride + stride;
  }

  // ---------------------------------------------------------------- header fields and their bytes

  /** Fields of equal stretches of bytes are equal. */
  lemma SameField(x: seq<byte>, p: nat, y: seq<byte>, q: nat, size: nat, o: nat, n: nat)
    requires p + size <= |x| && q + size <= |y| && x[p..p + size] == y[q..q + size]
    requires n <= 4 && o + n <= size
    ensures LeValue(x, p + o, n) == LeValue(y, q + o, n)
  {
    if n > 0 {
      SameField(x, p, y, q, size, o, n - 1);
      assert x[p + o + n - 1] == x[p..p + size][o + n - 1] == y[q..q + size][o + n - 1] == y[q + o + n - 1];
    }
  }

  /** The ELF header bytes that must be what they are: magic, class, type, machine and entry. */
  predicate IsIdentity(q: int) { 0 <= q < 7 || 16 <= q < 20 || 24 <= q < 28 }

  /** The ELF header bytes that say where the table is: its offset, its stride and its count. */
  predicate IsTableField(q: int) { 28 <= q < 32 || 42 <= q < 46 }

  predicate SameTable(x: seq<byte>, y: seq<byte>)
    requires |x| >= 52 && |y| >= 52
  {
    TableOffset(y) == TableOffset(x) && Stride(y) == Stride(x) && Count(y) == Count(x)
  }

  /** The header fields are the same exactly if their bytes are. */
  lemma FieldsDecide(x: seq<byte>, y: seq<byte>)
    requires |x| >= 52 && |y| >= 52 && IsOtaElf(x)
    ensures IsOtaElf(y) <==> forall q | 0 <= q < 52 && IsIdentity(q) :: y[q] == x[q]
    ensures SameTable(x, y) <==> forall q | 0 <= q < 52 && IsTableField(q) :: y[q] == x[q]
  {
    SameWords(x, y, 0);
    SameWords(x, y, 24);
    SameWords(x, y, 28);
    SameHalves(x, y, 16);
    SameHalves(x, y, 18);
    SameHalves(x, y, 42);
    SameHalves(x, y, 44);
    hide LeValue, Word;
  }

  lemma SameWords(x: seq<byte>, y: seq<byte>, p: nat)
    requires p + 4 <= |x| && p + 4 <= |y|
    ensures Word(x, p) == Word(y, p) <==>
      x[p] == y[p] && x[p + 1] == y[p + 1] && x[p + 2] == y[p + 2] && x[p + 3] == y[p + 3]
  {
    WordSum(x, p);
    WordSum(y, p);
    hide Word;
    if Word(x, p) == Word(y, p) {
      var u, v := x[p + 2] + 256 * x[p + 3] as int, y[p + 2] + 256 * y[p + 3] as int;
      SameDigits(x[p], x[p + 1] + 256 * u, y[p], y[p + 1] + 256 * v);
      SameDigits(x[p + 1], u, y[p + 1], v);
      SameDigits(x[p + 2], x[p + 3], y[p + 2], y[p + 3]);
    }
  }

  lemma SameDigits(a: byte, u: int, b: byte, v: int)
    requires a + 256 * u == b + 256 * v
    ensures a == b && u == v
  {
  }

  lemma SameHalves(x: seq<byte>, y: seq<byte>, p: nat)
    requires p + 2 <= |x| && p + 2 <= |y|
    ensures LeValue(x, p, 2) == LeValue(y, p, 2) <==> x[p] == y[p] && x[p + 1] == y[p + 1]
  {
    HalfSum(x, p);
    HalfSum(y, p);
    hide LeValue;
  }

  lemma HalfSum(b: seq<byte>, p: nat)
    requires p + 2 <= |b|
    ensures LeValue(b, p, 2) == b[p] + b[p + 1] as int * 0x100
  {
    assert Pow256(1) == 0x100 && LeValue(b, p, 1) == b[p];
  }

  lemma TableStays(x: seq<byte>, y: seq<byte>)
    requires HasTable(x) && |y| == |x|
    ensures SameTable(x, y) ==> TableFits(y)
  {
    hide LeValue, Word, IsOtaElf;
  }

  // ---------------------------------------------------------------- rows

  /** The bytes of b in the place of row i of the table of x. */
  function RowOf(x: seq<byte>, b: seq<byte>, i: nat): (row: seq<byte>)
    requires HasTable(x) && |b| == |x| && i < Count(x)
    ensures |row| == Stride(x) >= 32
  {
    RowsInFile(x, i);
    b[HeaderAt(x, i)..HeaderAt(x, i) + Stride(x)]
  }

  /** The first n rows of b, in the place of the table of x. */
  function Rows(x: seq<byte>, b: seq<byte>, n: nat): (rows: seq<seq<byte>>)
    requires HasTable(x) && |b| == |x| && n <= Count(x)
    ensures |rows| == n && forall i | 0 <= i < n :: rows[i] == RowOf(x, b, i)
  {
    if n == 0 then [] else Rows(x, b, n - 1) + [RowOf(x, b, n - 1)]
  }

  /** The rows of the table of x stand in y in some order, in the same place. Elsewhere y may be anything. */
  ghost predicate PermutesTable(x: seq<byte>, y: seq<byte>) {
    HasTable(x) && |y| == |x| && multiset(Rows(x, y, Count(x))) == multiset(Rows(x, x, Count(x)))
  }

  /** The segment that a row loads, read from the row alone. */
  function ReadRow(row: seq<byte>): Option<Segment>
    requires |row| >= 32
  {
    if Word(row, 0) != 1 || Word(row, 16) == 0 then None
    else Some(Segment(Word(row, 4), Word(row, 12), Word(row, 16), Word(row, 20)))
  }

  predicate AreRows(rows: seq<seq<byte>>) { forall i | 0 <= i < |rows| :: |rows[i]| >= 32 }

  function Listed(s: Option<Segment>): seq<Segment> { if s.None? then [] else [s.value] }

  function ReadAll(rows: seq<seq<byte>>): seq<Segment>
    requires AreRows(rows)
  {
    if rows == [] then [] else ReadAll(rows[..|rows| - 1]) + Listed(ReadRow(rows[|rows| - 1]))
  }

  lemma ReadLast(rows: seq<seq<byte>>, row: seq<byte>)
    requires AreRows(rows) && |row| >= 32
    ensures AreRows(rows + [row]) && ReadAll(rows + [row]) == ReadAll(rows) + Listed(ReadRow(row))
  {
    assert (rows + [row])[..|rows|] == rows;
  }

  lemma SegmentIsRead(x: seq<byte>, y: seq<byte>, i: nat)
    requires HasTable(x) && HasTable(y) && |y| == |x| && SameTable(x, y) && i < Count(x)
    ensures SegmentOf(y, i) == ReadRow(RowOf(x, y, i))
  {
    var row, p := RowOf(x, y, i), HeaderAt(x, i);
    RowsInFile(x, i);
    assert HeaderAt(y, i) == p;
    assert row[0..32] == y[p..p + 32];
    hide LeValue, HeaderAt, TableFits, IsOtaElf, RowOf, Stride;
    SameField(row, 0, y, p, 32, 0, 4);
    SameField(row, 0, y, p, 32, 4, 4);
    SameField(row, 0, y, p, 32, 12, 4);
    SameField(row, 0, y, p, 32, 16, 4);
    SameField(row, 0, y, p, 32, 20, 4);
  }

  lemma {:induction false} SegmentsAreRead(x: seq<byte>, y: seq<byte>, n: nat)
    requires HasTable(x) && HasTable(y) && |y| == |x| && SameTable(x, y) && n <= Count(x)
    ensures Segments(y, n) == ReadAll(Rows(x, y, n))
  {
    assert |x| >= 52 && |y| >= 52;
    hide IsOtaElf, TableFits, Segments, ReadAll, Rows;
    if n == 0 {
      NothingRead(x, y);
    } else {
      SegmentsAreRead(x, y, n - 1);
      NextSegment(x, y, n - 1);
    }
  }

  lemma NothingRead(x: seq<byte>, y: seq<byte>)
    requires HasTable(x) && HasTable(y) && |y| == |x|
    ensures Segments(y, 0) == ReadAll(Rows(x, y, 0)) == []
  {
    hide IsOtaElf, TableFits;
  }

  lemma NextSegment(x: seq<byte>, y: seq<byte>, n: nat)
    requires HasTable(x) && HasTable(y) && |y| == |x| && SameTable(x, y) && n < Count(x)
    requires Segments(y, n) == ReadAll(Rows(x, y, n))
    ensures Segments(y, n + 1) == ReadAll(Rows(x, y, n + 1))
  {
    SegmentIsRead(x, y, n);
    assert Segments(y, n + 1) == Segments(y, n) + Listed(SegmentOf(y, n));
    hide SegmentOf, ReadRow, RowOf, Listed, ReadAll, Segments;
    ReadLast(Rows(x, y, n), RowOf(x, y, n));
  }

  // ---------------------------------------------------------------- the bag of rows decides the bag of segments

  lemma WithoutBag<T>(s: seq<T>, j: nat)
    requires j < |s|
    ensures multiset(s) == multiset(s[..j] + s[j + 1..]) + multiset{s[j]}
  {
    assert s == s[..j] + [s[j]] + s[j + 1..];
  }

  /** Taking row j out takes its segment out. */
  lemma {:induction false} ReadWithout(rows: seq<seq<byte>>, j: nat)
    requires AreRows(rows) && j < |rows|
    ensures AreRows(rows[..j] + rows[j + 1..])
    ensures multiset(ReadAll(rows)) == multiset(ReadAll(rows[..j] + rows[j + 1..])) + multiset(Listed(ReadRow(rows[j])))
    decreases |rows|
  {
    hide ReadRow, Listed, ReadAll;
    var before, last := rows[..|rows| - 1], rows[|rows| - 1];
    assert rows == before + [last];
    ReadLast(before, last);
    if j < |before| {
      ReadWithout(before, j);
      ReadLast(before[..j] + before[j + 1..], last);
      assert rows[..j] + rows[j + 1..] == (before[..j] + before[j + 1..]) + [last];
    } else {
      assert rows[..j] + rows[j + 1..] == before;
    }
  }

  /** Any two orders of the same rows load the same bag of segments. */
  lemma {:induction false} ReadIgnoresOrder(rows: seq<seq<byte>>, other: seq<seq<byte>>)
    requires AreRows(rows) && AreRows(other) && multiset(rows) == multiset(other)
    ensures multiset(ReadAll(rows)) == multiset(ReadAll(other))
    decreases |rows|
  {
    hide ReadRow, Listed;
    assert |rows| == |multiset(rows)| == |multiset(other)| == |other|;
    if rows != [] {
      hide ReadAll;
      var before, last := rows[..|rows| - 1], rows[|rows| - 1];
      var j := PositionOf(other, last, rows);
      var rest := other[..j] + other[j + 1..];
      assert rows == before + [last];
      WithoutBag(other, j);
      assert multiset(rows) == multiset(before) + multiset{last};
      Cancel(multiset(before), multiset(rest), last);
      ReadWithout(other, j);
      ReadLast(before, last);
      ReadIgnoresOrder(before, rest);
    }
  }

  lemma Cancel<T>(a: multiset<T>, b: multiset<T>, v: T)
    requires a + multiset{v} == b + multiset{v}
    ensures a == b
  {
    assert a == (a + multiset{v}) - multiset{v} == (b + multiset{v}) - multiset{v} == b;
  }

  lemma PositionOf<T>(s: seq<T>, v: T, t: seq<T>) returns (j: nat)
    requires multiset(s) == multiset(t) && v in t
    ensures j < |s| && s[j] == v
  {
    assert v in multiset(s);
    j :| j < |s| && s[j] == v;
  }

  /** Permuting the rows of a table that stays in place permutes the load segments. */
  lemma PermutationIsReordering(x: seq<byte>, y: seq<byte>)
    requires PermutesTable(x, y) && HasTable(y) && SameTable(x, y)
    ensures SameUpToTableOrder(x, y)
  {
    assert |x| >= 52 && |y| >= 52;
    hide IsOtaElf, TableFits, ReadAll, RowOf, Rows;
    SegmentsAreRead(x, x, Count(x));
    SegmentsAreRead(x, y, Count(x));
    ReadIgnoresOrder(Rows(x, x, Count(x)), Rows(x, y, Count(x)));
  }

  // ---------------------------------------------------------------- exactly when the order matters

  /** The header bytes of this kind are the same in both files. */
  predicate KeepsIdentity(x: seq<byte>, y: seq<byte>)
    requires |x| >= 52 && |y| >= 52
  {
    forall q | 0 <= q < 52 && IsIdentity(q) :: y[q] == x[q]
  }

  predicate KeepsPlace(x: seq<byte>, y: seq<byte>)
    requires |x| >= 52 && |y| >= 52
  {
    forall q | 0 <= q < 52 && IsTableField(q) :: y[q] == x[q]
  }

  predicate Loads(s: Segment, q: int) { s.source <= q < s.source + s.length }

  /** Some segment loads a byte in which the two files differ. */
  predicate LoadsDifference(x: seq<byte>, y: seq<byte>)
    requires HasTable(x) && |y| == |x|
  {
    exists s, q | s in Segments(x, Count(x)) && 0 <= q < |x| && Loads(s, q) :: y[q] != x[q]
  }

  /**
   Permuting the program headers in any way, wherever the table is. If an identity byte of the ELF header changes, and
   only then, the file is no OTA application any more. If a byte that places the table changes, the file has another
   table, whose segments decide. Otherwise it loads if and only if it did before, and its payload changes exactly if
   some segment loads a byte that has changed.
   */
  lemma PermutationMattersExactlyWhen(x: seq<byte>, y: seq<byte>)
    requires PermutesTable(x, y)
    ensures !KeepsIdentity(x, y) <==> LoadedElf(y) == Failure(NotOtaElf)
    ensures KeepsIdentity(x, y) && !KeepsPlace(x, y) ==>
      && IsOtaElf(y) && !SameTable(x, y)
      && (LoadedElf(y).Success? <==> TableFits(y) && Accepted(|y|, Segments(y, Count(y))))
    ensures KeepsIdentity(x, y) && KeepsPlace(x, y) ==>
      && (LoadedElf(x).Success? <==> LoadedElf(y).Success?)
      && (LoadedElf(x).Success? ==> (LoadedElf(y) != LoadedElf(x) <==> LoadsDifference(x, y)))
  {
    FieldsDecide(x, y);
    TableStays(x, y);
    RejectedExactlyWhen(y);
    LoadsExactlyWhenAccepted(y);
    assert IsOtaElf(y) <==> KeepsIdentity(x, y);
    assert SameTable(x, y) <==> KeepsPlace(x, y);
    hide Accepted, Segments, IsOtaElf, TableFits, LoadedElf, Count, KeepsIdentity, KeepsPlace, SameTable;
    hide LoadsDifference, PermutesTable;
    if KeepsIdentity(x, y) && KeepsPlace(x, y) { KeptHeaderMatters(x, y); }
  }

  lemma RejectedExactlyWhen(x: seq<byte>)
    ensures LoadedElf(x) == Failure(NotOtaElf) <==> !IsOtaElf(x)
  {
    if IsOtaElf(x) && TableFits(x) { PlacingErrorIsOther(|x|, Segments(x, Count(x))); }
    hide IsOtaElf, TableFits, Segments;
  }

  lemma PlacingErrorIsOther(size: nat, segs: seq<Segment>)
    ensures PlacingError(size, segs) != Some(NotOtaElf)
  {
  }

  lemma KeptHeaderMatters(x: seq<byte>, y: seq<byte>)
    requires PermutesTable(x, y) && HasTable(y) && SameTable(x, y)
    ensures LoadedElf(x).Success? <==> LoadedElf(y).Success?
    ensures LoadedElf(x).Success? ==> (LoadedElf(y) != LoadedElf(x) <==> LoadsDifference(x, y))
  {
    var segs := Segments(x, Count(x));
    PermutationIsReordering(x, y);
    SameSegmentsLoadAlike(x, y);
    if LoadedElf(x).Success? {
      LoadsExactlyWhenAccepted(x);
      DifferenceIsLoaded(x, y, segs);
    }
  }

  lemma DifferenceIsLoaded(x: seq<byte>, y: seq<byte>, segs: seq<Segment>)
    requires HasTable(x) && |y| == |x| && segs == Segments(x, Count(x)) && AllPlaced(|x|, segs)
    ensures SameSegmentBytes(x, y, segs) <==> !LoadsDifference(x, y)
  {
    hide Segments, HasTable;
    if !SameSegmentBytes(x, y, segs) {
      var s, k :| s in segs && Covers(s, k) && InFile(|x|, s)
        && x[s.source + (k - Target(s))] != y[s.source + (k - Target(s))];
      assert Loads(s, s.source + (k - Target(s)));
    }
    if LoadsDifference(x, y) {
      var s, q :| s in segs && 0 <= q < |x| && Loads(s, q) && y[q] != x[q];
      var k := Target(s) + (q - s.source);
      assert Covers(s, k) && s.source + (k - Target(s)) == q;
    }
  }
}
