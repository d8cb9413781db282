/** The numbers whose roots the constants come from are the first sixty-four primes. */
module FipsPrimes {
  import opened Fips180

  predicate IsPrime(n: nat) { n >= 2 && forall d | 2 <= d < n :: n % d != 0 }

  /** n is not a proper multiple of p. */
  predicate Avoids(n: nat, p: nat)
    requires p > 0
  {
    n == p || n % p != 0
  }

  /** Trial division by the primes below 18. */
  predicate PassesTrials(n: nat) {
    && n >= 2 && Avoids(n, 2) && Avoids(n, 3) && Avoids(n, 5) && Avoids(n, 7) && Avoids(n, 11) && Avoids(n, 13)
    && Avoids(n, 17)
  }

  lemma MultipleOf(n: nat, p: nat, t: nat)
    requires p > 0 && n == p * t
    ensures n % p == 0
  {
    var q, r := n / p, n % p;
    assert n == p * q + r;
    Difference(p, t, q);
    SmallMultiple(p, t - q, r);
  }

  lemma Difference(p: nat, t: nat, q: nat)
    ensures p * t - p * q == p * (t - q)
  {
  }

  lemma SmallMultiple(p: nat, d: int, r: nat)
    requires p * d == r < p
    ensures r == 0
  {
    AtLeast(p, d);
  }

  lemma AtLeast(p: nat, d: int)
    ensures d >= 1 ==> p * d >= p
    ensures d <= -1 ==> p * d <= 0 - p
  {
  }

  /** The prime factor that trial division finds in a number below 18. */
  function TrialFactor(m: nat): (p: nat)
    requires 2 <= m < 18
    ensures p in {2, 3, 5, 7, 11, 13, 17} && p <= m && m % p == 0
  {
    if m % 2 == 0 then 2 else if m % 3 == 0 then 3 else if m % 5 == 0 then 5 else if m % 7 == 0 then 7 else m
  }

  /** A number with a factor between 2 and 17 other than itself fails a trial. */
  lemma FactorFails(n: nat, m: nat, k: nat)
    requires 2 <= m < 18 && n == m * k && k >= 2
    ensures !PassesTrials(n)
  {
    var p := TrialFactor(m);
    var j := m / p;
    assert m == p * j;
    assert n == p * (j * k) by { Regroup(p, j, k); }
    MultipleOf(n, p, j * k);
    assert n > m >= p;
  }

  lemma Regroup(p: nat, j: nat, k: nat)
    ensures p * j * k == p * (j * k)
  {
  }

  lemma FactorsAreSmall(n: nat, d: nat, k: nat)
    requires n < 324 && n == d * k
    ensures d < 18 || k < 18
  {
    LargeProduct(d, k);
  }

  lemma LargeProduct(d: nat, k: nat)
    ensures d >= 18 && k >= 18 ==> d * k >= 324
  {
    if d >= 18 && k >= 18 { assert d * k >= 18 * k; }
  }

  /** Below 324 trial division decides. */
  lemma TrialsDecide(n: nat)
    requires n < 324
    ensures PassesTrials(n) <==> IsPrime(n)
  {
    if n >= 2 && !IsPrime(n) {
      var d :| 2 <= d < n && n % d == 0;
      var k := n / d;
      assert n == d * k && k >= 2 by { Quotient(n, d); }
      FactorsAreSmall(n, d, k);
      if d < 18 { FactorFails(n, d, k); } else { FactorFails(n, k, d); }
    }
    if IsPrime(n) {
      forall p | p in {2, 3, 5, 7, 11, 13, 17} ensures Avoids(n, p) {
        if n % p == 0 { Divisor(n, p); }
      }
    }
  }

  lemma Quotient(n: nat, d: nat)
    requires 2 <= d < n && n % d == 0
    ensures n == d * (n / d) && n / d >= 2
  {
    var k := n / d;
    assert n == d * k;
    assert k != 0 && k != 1;
  }

  lemma Divisor(n: nat, p: nat)
    requires n > 0 && p > 0 && n % p == 0
    ensures p <= n
  {
  }

  predicate NoneFrom(lo: nat, hi: nat)
    decreases hi - lo
  {
    lo >= hi || (!PassesTrials(lo) && NoneFrom(lo + 1, hi))
  }

  /** p passes, and the next number to pass is not before q. */
  predicate Step(p: nat, q: nat) { p < q && PassesTrials(p) && NoneFrom(p + 1, q) }

  predicate Steps(p0: nat, p1: nat, p2: nat, p3: nat, p4: nat, p5: nat, p6: nat, p7: nat, next: nat) {
    && Step(p0, p1) && Step(p1, p2) && Step(p2, p3) && Step(p3, p4)
    && Step(p4, p5) && Step(p5, p6) && Step(p6, p7) && Step(p7, next)
  }

  lemma Steps0() ensures Steps(2, 3, 5, 7, 11, 13, 17, 19, 23) {}
  lemma Steps1() ensures Steps(23, 29, 31, 37, 41, 43, 47, 53, 59) {}
  lemma Steps2() ensures Steps(59, 61, 67, 71, 73, 79, 83, 89, 97) {}
  lemma Steps3() ensures Steps(97, 101, 103, 107, 109, 113, 127, 131, 137) {}
  lemma Steps4() ensures Steps(137, 139, 149, 151, 157, 163, 167, 173, 179) {}
  lemma Steps5() ensures Steps(179, 181, 191, 193, 197, 199, 211, 223, 227) {}
  lemma Steps6() ensures Steps(227, 229, 233, 239, 241, 251, 257, 263, 269) {}
  lemma Steps7() ensures Steps(269, 271, 277, 281, 283, 293, 307, 311, 312) {}

  lemma {:induction false} NoneBetween(lo: nat, hi: nat, n: nat)
    requires NoneFrom(lo, hi) && lo <= n < hi
    ensures !PassesTrials(n)
    decreases hi - lo
  {
    hide PassesTrials;
    if n > lo { NoneBetween(lo + 1, hi, n); }
  }

  lemma StepHolds(p: nat, q: nat, n: nat)
    requires Step(p, q) && p <= n < q
    ensures PassesTrials(n) <==> n == p
  {
    hide PassesTrials;
    if n > p { NoneBetween(p + 1, q, n); }
  }

  predicate Ascending(s: seq<nat>) { forall i, j | 0 <= i < j < |s| :: s[i] < s[j] }

  /** The row holds, in order, exactly the numbers from lo to hi - 1 that pass. */
  predicate RowHolds(row: seq<nat>, lo: nat, hi: nat) {
    && |row| == 8 && Ascending(row) && (forall n | n in row :: lo <= n < hi)
    && forall n: nat | lo <= n < hi :: PassesTrials(n) <==> n in row
  }

  lemma StepsHold(row: seq<nat>, next: nat)
    requires |row| == 8 && Steps(row[0], row[1], row[2], row[3], row[4], row[5], row[6], row[7], next)
    ensures RowHolds(row, row[0], next)
  {
    hide PassesTrials, NoneFrom;
    assert forall i | 0 <= i < 7 :: row[i] < row[i + 1];
    assert Ascending(row);
    forall n: nat | row[0] <= n < next ensures PassesTrials(n) <==> n in row {
      var i := PlaceOf(row, next, n);
      StepHolds(row[i], if i == 7 then next else row[i + 1], n);
      if n in row {
        var j :| 0 <= j < 8 && row[j] == n;
        assert j == i;
      }
    }
  }

  /** Where n falls in the row. */
  lemma PlaceOf(row: seq<nat>, next: nat, n: nat) returns (i: nat)
    requires |row| == 8 && Ascending(row) && row[0] <= n < next
    ensures i < 8 && row[i] <= n < if i == 7 then next else row[i + 1]
  {
    i := 0;
    while i < 7 && row[i + 1] <= n
      invariant i < 8 && row[i] <= n
    {
      i := i + 1;
    }
  }

  lemma Holds0()
    ensures RowHolds(P0, 2, 23)
  {
    Steps0();
    StepsHold(P0, 23);
  }

  lemma Holds1()
    ensures RowHolds(P1, 23, 59)
  {
    Steps1();
    StepsHold(P1, 59);
  }

  lemma Holds2()
    ensures RowHolds(P2, 59, 97)
  {
    Steps2();
    StepsHold(P2, 97);
  }

  lemma Holds3()
    ensures RowHolds(P3, 97, 137)
  {
    Steps3();
    StepsHold(P3, 137);
  }

  lemma Holds4()
    ensures RowHolds(P4, 137, 179)
  {
    Steps4();
    StepsHold(P4, 179);
  }

  lemma Holds5()
    ensures RowHolds(P5, 179, 227)
  {
    Steps5();
    StepsHold(P5, 227);
  }

  lemma Holds6()
    ensures RowHolds(P6, 227, 269)
  {
    Steps6();
    StepsHold(P6, 269);
  }

  lemma Holds7()
    ensures RowHolds(P7, 269, 312)
  {
    Steps7();
    StepsHold(P7, 312);
  }

  function AllRows(): seq<nat> { P0 + P1 + P2 + P3 + P4 + P5 + P6 + P7 }

  predicate Holds(row: seq<nat>, lo: nat, hi: nat) {
    && Ascending(row) && (forall n | n in row :: lo <= n < hi)
    && forall n: nat | lo <= n < hi :: PassesTrials(n) <==> n in row
  }

  lemma HoldsJoin(s: seq<nat>, t: seq<nat>, lo: nat, mid: nat, hi: nat)
    requires Holds(s, lo, mid) && RowHolds(t, mid, hi) && lo <= mid <= hi
    ensures Holds(s + t, lo, hi)
  {
    hide PassesTrials;
    forall i, j | 0 <= i < j < |s + t| ensures (s + t)[i] < (s + t)[j] {
      if i < |s| <= j { assert s[i] in s && t[j - |s|] in t; }
    }
  }

  lemma AllRowsHold()
    ensures Holds(AllRows(), 2, 312)
  {
    Holds0(); Holds1(); Holds2(); Holds3(); Holds4(); Holds5(); Holds6(); Holds7();
    assert Holds(P0, 2, 23);
    hide P0, P1, P2, P3, P4, P5, P6, P7, Holds, RowHolds;
    HoldsJoin(P0, P1, 2, 23, 59);
    HoldsJoin(P0 + P1, P2, 2, 59, 97);
    HoldsJoin(P0 + P1 + P2, P3, 2, 97, 137);
    HoldsJoin(P0 + P1 + P2 + P3, P4, 2, 137, 179);
    HoldsJoin(P0 + P1 + P2 + P3 + P4, P5, 2, 179, 227);
    HoldsJoin(P0 + P1 + P2 + P3 + P4 + P5, P6, 2, 227, 269);
    HoldsJoin(P0 + P1 + P2 + P3 + P4 + P5 + P6, P7, 2, 269, 312);
  }

  /** The rows of the table hold, in order, sixty-four numbers: exactly the primes below 312. */
  lemma FirstPrimes()
    ensures |AllRows()| == 64 && Ascending(AllRows())
    ensures forall n: nat :: n in AllRows() <==> n < 312 && IsPrime(n)
  {
    assert |AllRows()| == 64;
    AllRowsHold();
    hide AllRows, PassesTrials;
    forall n: nat ensures n in AllRows() <==> n < 312 && IsPrime(n) {
      if n < 312 { TrialsDecide(n); }
    }
  }
}
