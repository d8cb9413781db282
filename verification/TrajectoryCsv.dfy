/** The row loop of the trajectory file: what it accepts is exactly what playback needs. */
module TrajectoryCsv {
  import opened Wrappers
  import opened Trajectory
  import opened TrajectoryLaws

  /** A trimmed cell: the finite number and the motor connection it denotes, where parsing it does not throw. */
  datatype Cell = Cell(text: string, number: Option<real>, connection: Option<string>)

  datatype CsvError =
    ShortHeader | NotTime | BadConnection | WrongColumnCount | BadNumber | TimeNotIncreasing | EmptyFile | NoRows

  type Row = seq<Cell>

  /** Blank and comment lines are skipped. */
  function NonBlank(lines: seq<Row>): seq<Row> {
    if lines == [] then [] else if lines[|lines| - 1] == [] then NonBlank(lines[..|lines| - 1])
    else NonBlank(lines[..|lines| - 1]) + [lines[|lines| - 1]]
  }

  predicate HeaderOk(header: Row) {
    |header| >= 2 && header[0].text == "time" && forall i | 1 <= i < |header| :: header[i].connection.Some?
  }

  /** Every cell of the row is a finite number, the first of them the time. */
  predicate Complete(row: Row) {
    row != [] && forall i | 0 <= i < |row| :: row[i].number.Some?
  }

  predicate RowOk(row: Row, width: nat) { |row| == width + 1 && Complete(row) }

  function Time(row: Row): real requires Complete(row) { row[0].number.value }

  predicate TimesIncrease(rows: seq<Row>)
    requires forall i | 0 <= i < |rows| :: Complete(rows[i])
  {
    forall i | 0 <= i < |rows| - 1 :: Time(rows[i]) < Time(rows[i + 1])
  }

  predicate RowsOk(rows: seq<Row>, width: nat) {
    (forall i | 0 <= i < |rows| :: RowOk(rows[i], width)) && TimesIncrease(rows)
  }

  function SampleOf(row: Row): Sample
    requires Complete(row)
  {
    Sample(row[0].number.value, seq(|row| - 1, i requires 0 <= i < |row| - 1 => row[i + 1].number.value))
  }

  function SamplesOf(rows: seq<Row>, width: nat): (samples: seq<Sample>)
    requires RowsOk(rows, width)
    ensures |samples| == |rows|
  {
    seq(|rows|, i requires 0 <= i < |rows| => SampleOf(rows[i]))
  }

  function Names(header: Row): (names: seq<string>)
    requires header != []
    ensures |names| == |header| - 1
  {
    seq(|header| - 1, i requires 0 <= i < |header| - 1 => header[i + 1].text)
  }

  /** The connection that each motor cell of the header denotes. */
  function Connections(header: Row): (connections: seq<string>)
    requires HeaderOk(header)
    ensures |connections| == |header| - 1
  {
    seq(|header| - 1, i requires 0 <= i < |header| - 1 => header[i + 1].connection.value)
  }

  predicate Accepts(lines: seq<Row>) {
    var rows := NonBlank(lines);
    |rows| >= 2 && HeaderOk(rows[0]) && RowsOk(rows[1..], |rows[0]| - 1)
  }

  method ReadRow(row: Row, width: nat) returns (r: Result<Sample, CsvError>)
    requires row != []
    ensures r.Success? <==> RowOk(row, width)
    ensures r.Success? ==> r.value == SampleOf(row)
  {
    if |row| != width + 1 {
      return Failure(WrongColumnCount);
    }
    if row[0].number.None? {
      return Failure(BadNumber);
    }
    var positions: seq<real> := [];
    for i := 1 to |row|
      invariant forall j | 0 <= j < i :: row[j].number.Some?
      invariant |positions| == i - 1 && forall j | 0 <= j < i - 1 :: positions[j] == row[j + 1].number.value
    {
      if row[i].number.None? {
        return Failure(BadNumber);
      }
      positions := positions + [row[i].number.value];
    }
    r := Success(Sample(row[0].number.value, positions));
  }

  method ReadHeader(header: Row) returns (r: Result<(seq<string>, seq<string>), CsvError>)
    requires header != []
    ensures r.Success? <==> HeaderOk(header)
    ensures r.Success? ==> r.value.0 == Names(header) && r.value.1 == Connections(header)
  {
    if |header| < 2 {
      return Failure(ShortHeader);
    }
    if header[0].text != "time" {
      return Failure(NotTime);
    }
    var names: seq<string>, connections: seq<string> := [], [];
    for i := 1 to |header|
      invariant forall j | 1 <= j < i :: header[j].connection.Some?
      invariant |names| == |connections| == i - 1
      invariant forall j | 0 <= j < i - 1 ::
        names[j] == header[j + 1].text && connections[j] == header[j + 1].connection.value
    {
      if header[i].connection.None? {
        return Failure(BadConnection);
      }
      names, connections := names + [header[i].text], connections + [header[i].connection.value];
    }
    r := Success((names, connections));
  }

  /** One turn of the row loop, after the header. */
  method NextSample(row: Row, width: nat, samples: seq<Sample>, previous: real, ghost data: seq<Row>)
    returns (r: Result<Sample, CsvError>)
    requires row != [] && RowsOk(data, width) && samples == SamplesOf(data, width)
    requires samples != [] ==> previous == samples[|samples| - 1].time
    ensures r.Success? <==> RowsOk(data + [row], width)
    ensures r.Success? ==> SamplesOf(data + [row], width) == samples + [r.value]
  {
    RowsAppend(data, row, width);
    r := ReadRow(row, width);
    if r.Success? && samples != [] && r.value.time <= previous {
      r := Failure(TimeNotIncreasing);
    }
  }

  /** Accepts exactly the files with a good header and at least one row, every row complete and later than the last. */
  method ParseTrajectoryCsv(lines: seq<Row>) returns (r: Result<Trajectory, CsvError>)
    ensures r.Success? <==> Accepts(lines)
    ensures r.Success? ==>
      r.value.motorNames == Names(NonBlank(lines)[0]) && r.value.connections == Connections(NonBlank(lines)[0])
      && r.value.samples == SamplesOf(NonBlank(lines)[1..], |NonBlank(lines)[0]| - 1)
  {
    hide RowsOk, SamplesOf, SampleOf, HeaderOk, Names, Connections, NonBlank;
    var header := false;
    var names: seq<string>, connections: seq<string>, samples: seq<Sample> := [], [], [];
    var previous := 0.0;
    ghost var head: Row, data: seq<Row> := [], [];
    NoRowsOk(0);
    NoLines(lines);
    for n := 0 to |lines|
      invariant NonBlank(lines[..n]) == if header then [head] + data else []
      invariant !header ==> samples == [] && data == []
      invariant header ==> head != [] && HeaderOk(head) && names == Names(head) && connections == Connections(head)
      invariant header ==> |names| == |head| - 1
      invariant RowsOk(data, |names|) && samples == SamplesOf(data, |names|)
      invariant samples != [] ==> previous == samples[|samples| - 1].time
    {
      NextLine(lines, n);
      var columns := lines[n];
      if columns == [] {
        continue;
      }
      if !header {
        var first := ReadHeader(columns);
        if first.Failure? {
          StartStays(lines, n + 1);
          return Failure(first.error);
        }
        names, connections, header := first.value.0, first.value.1, true;
        head := columns;
        NoRowsOk(|names|);
        continue;
      }
      ghost var next := data + [columns];
      assert NonBlank(lines[..n + 1]) == [head] + next && ([head] + next)[1..] == next;
      var sample := NextSample(columns, |names|, samples, previous, data);
      if sample.Failure? {
        StartStays(lines, n + 1);
        return Failure(sample.error);
      }
      previous := sample.value.time;
      samples := samples + [sample.value];
      data := next;
    }
    assert lines[..|lines|] == lines;
    if !header {
      return Failure(EmptyFile);
    }
    assert ([head] + data)[1..] == data;
    if samples == [] {
      return Failure(NoRows);
    }
    r := Success(Trajectory(names, connections, samples));
  }

  lemma NoLines(lines: seq<Row>)
    ensures NonBlank(lines[..0]) == []
  {
  }

  lemma NextLine(lines: seq<Row>, n: nat)
    requires n < |lines|
    ensures NonBlank(lines[..n + 1]) == NonBlank(lines[..n]) + if lines[n] == [] then [] else [lines[n]]
  {
    assert lines[..n + 1][..n] == lines[..n];
  }

  lemma NoRowsOk(width: nat)
    ensures RowsOk([], width) && SamplesOf([], width) == []
  {
  }

  /** One more row is fine exactly when it is complete, as wide as the header and later than the row before it. */
  lemma RowsAppend(before: seq<Row>, row: Row, width: nat)
    requires RowsOk(before, width)
    ensures RowsOk(before + [row], width) <==>
      && RowOk(row, width)
      && (before != [] ==> RowOk(before[|before| - 1], width) && Time(before[|before| - 1]) < Time(row))
    ensures RowsOk(before + [row], width) ==>
      SamplesOf(before + [row], width) == SamplesOf(before, width) + [SampleOf(row)]
    ensures before != [] ==>
      RowOk(before[|before| - 1], width) && SamplesOf(before, width)[|before| - 1].time == Time(before[|before| - 1])
    ensures RowOk(row, width) ==> SampleOf(row).time == Time(row)
  {
    var rows, n := before + [row], |before|;
    if before != [] { assert RowOk(before[n - 1], width); }
    if RowsOk(rows, width) {
      assert RowOk(rows[n], width);
      if before != [] { assert Time(rows[n - 1]) < Time(rows[n - 1 + 1]); }
    }
  }

  /** Rows read so far stay the first rows of the file, so what is wrong with them stays wrong. */
  lemma StartStays(lines: seq<Row>, n: nat)
    requires n <= |lines|
    ensures NonBlank(lines[..n]) <= NonBlank(lines)
    ensures Accepts(lines) && NonBlank(lines[..n]) != [] ==>
      HeaderOk(NonBlank(lines[..n])[0])
      && RowsOk(NonBlank(lines[..n])[1..], |NonBlank(lines[..n])[0]| - 1)
    decreases |lines| - n
  {
    PrefixOf(lines, n);
    var some, all := NonBlank(lines[..n]), NonBlank(lines);
    if Accepts(lines) && some != [] {
      var rows := some[1..];
      assert forall i | 0 <= i < |rows| :: rows[i] == all[1..][i];
    }
  }

  lemma PrefixOf(lines: seq<Row>, n: nat)
    requires n <= |lines|
    ensures NonBlank(lines[..n]) <= NonBlank(lines)
  {
    if n < |lines| {
      PrefixOf(lines[..|lines| - 1], n);
      assert lines[..|lines| - 1][..n] == lines[..n];
    } else {
      assert lines[..n] == lines;
    }
  }

  /** Every accepted file validates and has strictly increasing times, so evaluating it never throws. */
  lemma AcceptedIsPlayable(lines: seq<Row>, t: Trajectory, elapsed: real, endless: bool)
    requires Accepts(lines)
    requires t.motorNames == Names(NonBlank(lines)[0]) && t.connections == Connections(NonBlank(lines)[0])
    requires t.samples == SamplesOf(NonBlank(lines)[1..], |NonBlank(lines)[0]| - 1)
    ensures Validity(t).Success? && Increasing(t.samples)
    ensures Evaluate(t, elapsed, endless).Success?
  {
    var rows := NonBlank(lines)[1..];
    forall i | 0 <= i < |rows| ensures |t.samples[i].positions| == |t.motorNames| {
      assert RowOk(rows[i], |t.motorNames|);
    }
    forall i | 0 <= i < |rows| - 1 ensures t.samples[i].time < t.samples[i + 1].time {
      assert Time(rows[i]) < Time(rows[i + 1]);
    }
    FinishedExactlyWhen(t, elapsed, endless);
  }

  /** Every cell is where the file has it: row k gives sample k, column i motor i, under the header's names. */
  lemma CellsArePlaced(lines: seq<Row>, t: Trajectory, k: nat, i: nat)
    requires Accepts(lines) && k + 1 < |NonBlank(lines)| && i + 1 < |NonBlank(lines)[0]|
    requires t.motorNames == Names(NonBlank(lines)[0]) && t.connections == Connections(NonBlank(lines)[0])
    requires t.samples == SamplesOf(NonBlank(lines)[1..], |NonBlank(lines)[0]| - 1)
    ensures var rows := NonBlank(lines);
      && |t.samples| == |rows| - 1 && |t.motorNames| == |rows[0]| - 1 == |rows[k + 1]| - 1
      && rows[k + 1][0].number == Some(t.samples[k].time)
      && i < |t.samples[k].positions| && rows[k + 1][i + 1].number == Some(t.samples[k].positions[i])
      && rows[0][i + 1].text == t.motorNames[i] && rows[0][i + 1].connection == Some(t.connections[i])
  {
    var rows := NonBlank(lines);
    assert RowOk(rows[1..][k], |rows[0]| - 1) && rows[1..][k] == rows[k + 1];
  }

  /**
   What is accepted, cell by cell: a header of "time" and at least one motor connection, at least one row, and every row
   as wide as the header, all numbers, its time above that of the row before.
   */
  lemma AcceptsIs(lines: seq<Row>)
    ensures Accepts(lines) <==>
      && |NonBlank(lines)| >= 2 && |NonBlank(lines)[0]| >= 2 && NonBlank(lines)[0][0].text == "time"
      && (forall i | 1 <= i < |NonBlank(lines)[0]| :: NonBlank(lines)[0][i].connection.Some?)
      && (forall k | 1 <= k < |NonBlank(lines)| ::
            && |NonBlank(lines)[k]| == |NonBlank(lines)[0]|
            && forall i | 0 <= i < |NonBlank(lines)[k]| :: NonBlank(lines)[k][i].number.Some?)
      && forall k | 1 <= k < |NonBlank(lines)| - 1 ::
           NonBlank(lines)[k][0].number.value < NonBlank(lines)[k + 1][0].number.value
  {
    RowsAre(NonBlank(lines));
    hide NonBlank, RowsOk;
  }

  lemma RowsAre(rows: seq<Row>)
    ensures |rows| >= 1 && |rows[0]| >= 1 ==>
      (RowsOk(rows[1..], |rows[0]| - 1) <==>
        && (forall k | 1 <= k < |rows| ::
              |rows[k]| == |rows[0]| && forall i | 0 <= i < |rows[k]| :: rows[k][i].number.Some?)
        && forall k | 1 <= k < |rows| - 1 :: rows[k][0].number.value < rows[k + 1][0].number.value)
  {
    if |rows| >= 1 && |rows[0]| >= 1 {
      var data := rows[1..];
      assert forall k | 0 <= k < |data| :: data[k] == rows[k + 1];
      if RowsOk(data, |rows[0]| - 1) {
        forall k | 1 <= k < |rows|
          ensures |rows[k]| == |rows[0]| && forall i | 0 <= i < |rows[k]| :: rows[k][i].number.Some?
        {
          assert RowOk(data[k - 1], |rows[0]| - 1);
        }
        forall k | 1 <= k < |rows| - 1 ensures rows[k][0].number.value < rows[k + 1][0].number.value {
          assert Time(data[k - 1]) < Time(data[k - 1 + 1]);
        }
      }
    }
  }
}
