/** What sorting with the table's comparator yields: for any sorting algorithm that meets its contract. */
module PlayTable {
  import opened PlaySort

  /** No later row is less than an earlier one. */
  predicate Sorted(rows: seq<Snapshot>, column: Column, ascending: bool) {
    forall i, j | 0 <= i < j < |rows| :: !Less(rows[j], rows[i], column, ascending)
  }

  /** The contract of the library sort. */
  predicate IsSortOf(result: seq<Snapshot>, rows: seq<Snapshot>, column: Column, ascending: bool) {
    multiset(result) == multiset(rows) && Sorted(result, column, ascending)
  }

  lemma NotLess(x: Snapshot, y: Snapshot, column: Column, ascending: bool)
    ensures !Less(y, x, column, ascending) <==> Rank(x, y, column, ascending) <= 0
  {
    LessIsRank(y, x, column, ascending);
    RankFits(x, y, x, column, ascending);
  }

  // ---------------------------------------------------------------- a sort exists

  function Insert(s: Snapshot, rows: seq<Snapshot>, column: Column, ascending: bool): seq<Snapshot> {
    if rows == [] || Less(s, rows[0], column, ascending) then [s] + rows
    else [rows[0]] + Insert(s, rows[1..], column, ascending)
  }

  function InsertionSort(rows: seq<Snapshot>, column: Column, ascending: bool): seq<Snapshot> {
    if rows == [] then [] else Insert(rows[0], InsertionSort(rows[1..], column, ascending), column, ascending)
  }

  lemma SortedTail(rows: seq<Snapshot>, column: Column, ascending: bool)
    requires rows != []
    ensures Sorted(rows, column, ascending) <==>
      Sorted(rows[1..], column, ascending) && forall r | r in rows[1..] :: !Less(r, rows[0], column, ascending)
  {
    hide Less;
    if Sorted(rows, column, ascending) {
      forall i, j | 0 <= i < j < |rows[1..]| ensures !Less(rows[1..][j], rows[1..][i], column, ascending) {
        assert !Less(rows[j + 1], rows[i + 1], column, ascending);
      }
      forall r | r in rows[1..] ensures !Less(r, rows[0], column, ascending) {
        var k :| 0 <= k < |rows[1..]| && rows[1..][k] == r;
        assert !Less(rows[k + 1], rows[0], column, ascending);
      }
    }
    if Sorted(rows[1..], column, ascending) && forall r | r in rows[1..] :: !Less(r, rows[0], column, ascending) {
      forall i, j | 0 <= i < j < |rows| ensures !Less(rows[j], rows[i], column, ascending) {
        assert rows[1..][j - 1] == rows[j] && rows[j] in rows[1..];
        if i > 0 { assert !Less(rows[1..][j - 1], rows[1..][i - 1], column, ascending); }
      }
    }
  }

  lemma InsertKeeps(s: Snapshot, rows: seq<Snapshot>, column: Column, ascending: bool)
    ensures multiset(Insert(s, rows, column, ascending)) == multiset(rows) + multiset{s}
  {
    hide Less;
    if rows != [] && !Less(s, rows[0], column, ascending) {
      InsertKeeps(s, rows[1..], column, ascending);
      assert rows == [rows[0]] + rows[1..];
    }
  }

  lemma InsertSorts(s: Snapshot, rows: seq<Snapshot>, column: Column, ascending: bool)
    requires Sorted(rows, column, ascending)
    ensures Sorted(Insert(s, rows, column, ascending), column, ascending)
  {
    hide Less, Sorted;
    var result := Insert(s, rows, column, ascending);
    if rows == [] {
      OneRow(s, column, ascending);
      assert result == [s];
    } else {
      SortedTail(rows, column, ascending);
      if Less(s, rows[0], column, ascending) {
        assert result == [s] + rows && result[1..] == rows;
        forall r | r in rows ensures !Less(r, s, column, ascending) {
          assert r == rows[0] || r in rows[1..];
          StrictWeakOrder(s, r, s, column, ascending);
          StrictWeakOrder(r, s, rows[0], column, ascending);
        }
        SortedTail(result, column, ascending);
      } else {
        var tail := Insert(s, rows[1..], column, ascending);
        InsertSorts(s, rows[1..], column, ascending);
        InsertKeeps(s, rows[1..], column, ascending);
        assert result == [rows[0]] + tail && result[1..] == tail;
        forall r | r in tail ensures !Less(r, rows[0], column, ascending) {
          assert r in multiset(tail);
          assert r == s || r in rows[1..];
        }
        SortedTail(result, column, ascending);
      }
    }
  }

  lemma OneRow(s: Snapshot, column: Column, ascending: bool)
    ensures Sorted([s], column, ascending)
  {
  }

  /** The comparator can sort every table. */
  lemma {:induction false} SortExists(rows: seq<Snapshot>, column: Column, ascending: bool)
    ensures IsSortOf(InsertionSort(rows, column, ascending), rows, column, ascending)
  {
    hide Less;
    if rows != [] {
      var tail := InsertionSort(rows[1..], column, ascending);
      SortExists(rows[1..], column, ascending);
      InsertSorts(rows[0], tail, column, ascending);
      InsertKeeps(rows[0], tail, column, ascending);
      assert rows == [rows[0]] + rows[1..];
    }
  }

  // ---------------------------------------------------------------- what the reader of the table sees

  /**
   In both directions: rows without a number are last; among the others the column rises or falls with the direction;
   and tied rows follow identity, which the direction does not turn round.
   */
  lemma TableOrder(rows: seq<Snapshot>, column: Column, ascending: bool, i: nat, j: nat)
    requires Sorted(rows, column, ascending) && i < j < |rows|
    ensures IsNaNRow(rows[i], column) ==> IsNaNRow(rows[j], column)
    ensures IsNaNRow(rows[i], column) == IsNaNRow(rows[j], column) ==>
      var primary := ComparePrimary(rows[i], rows[j], column);
      (if ascending then primary <= 0 else primary >= 0)
      && (primary == 0 ==> CompareIdentity(rows[i], rows[j]) <= 0)
  {
    assert !Less(rows[j], rows[i], column, ascending);
    NotLess(rows[i], rows[j], column, ascending);
    hide ComparePrimary, CompareIdentity, FloatValue;
  }

  /** No two different rows carry the same identifying fields. */
  predicate IdentityIsKey(rows: seq<Snapshot>) {
    forall x, y | x in rows && y in rows && CompareIdentity(x, y) == 0 :: x == y
  }

  lemma HeadIsLeast(rows: seq<Snapshot>, s: Snapshot, column: Column, ascending: bool)
    requires s in rows && Sorted(rows, column, ascending)
    ensures Rank(rows[0], s, column, ascending) <= 0
  {
    var k :| 0 <= k < |rows| && rows[k] == s;
    if k > 0 { NotLess(rows[0], s, column, ascending); } else { RankFits(s, s, s, column, ascending); }
  }

  /** Rows that tie completely have the same identifying fields. */
  lemma TiedRows(x: Snapshot, y: Snapshot, column: Column, ascending: bool)
    requires Rank(x, y, column, ascending) <= 0 && Rank(y, x, column, ascending) <= 0
    ensures CompareIdentity(x, y) == 0
  {
    RankFits(x, y, x, column, ascending);
    hide ComparePrimary, CompareIdentity, FloatValue;
  }

  /** Where identity is a key the table is determined by its rows: any two sorts of them are the same sequence. */
  lemma {:induction false} SortIsUnique(r: seq<Snapshot>, s: seq<Snapshot>, column: Column, ascending: bool)
    requires multiset(r) == multiset(s) && IdentityIsKey(r)
    requires Sorted(r, column, ascending) && Sorted(s, column, ascending)
    ensures r == s
    decreases |r|
  {
    hide Rank, Less, CompareIdentity, Sorted;
    SameSize(r, s);
    if r != [] {
      SortedTail(r, column, ascending);
      SortedTail(s, column, ascending);
      HeadsAgree(r, s, column, ascending);
      SameTails(r, s);
      SortIsUnique(r[1..], s[1..], column, ascending);
      assert r == [r[0]] + r[1..] && s == [s[0]] + s[1..];
    }
  }

  lemma HeadsAgree(r: seq<Snapshot>, s: seq<Snapshot>, column: Column, ascending: bool)
    requires r != [] && s != [] && multiset(r) == multiset(s) && IdentityIsKey(r)
    requires Sorted(r, column, ascending) && Sorted(s, column, ascending)
    ensures r[0] == s[0]
  {
    hide Rank, Less, CompareIdentity, Sorted;
    assert r[0] in multiset(s) && s[0] in multiset(r);
    HeadIsLeast(s, r[0], column, ascending);
    HeadIsLeast(r, s[0], column, ascending);
    TiedRows(r[0], s[0], column, ascending);
  }

  lemma SameSize(r: seq<Snapshot>, s: seq<Snapshot>)
    requires multiset(r) == multiset(s)
    ensures |r| == |s|
  {
    assert |multiset(r)| == |r| && |multiset(s)| == |s|;
  }

  lemma SameTails(r: seq<Snapshot>, s: seq<Snapshot>)
    requires r != [] && s != [] && r[0] == s[0] && multiset(r) == multiset(s)
    ensures multiset(r[1..]) == multiset(s[1..]) && (IdentityIsKey(r) ==> IdentityIsKey(r[1..]))
  {
    hide CompareIdentity;
    assert r == [r[0]] + r[1..] && s == [s[0]] + s[1..];
    assert multiset(r[1..]) == multiset(r) - multiset{r[0]};
    assert multiset(s[1..]) == multiset(s) - multiset{s[0]};
  }
}
