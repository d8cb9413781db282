/** The result of one bus scan: who may publish into it, and what a stored result proves. */
module ScanResult {

  /** Revisions are unsigned 64-bit numbers. */
  const REVISIONS: int := 0x1_0000_0000_0000_0000

  datatype ScanStatus = Idle | Scanning | Complete | Failed

  type Motors = map<int, int>

  datatype Result = Result(motors: Motors, status: ScanStatus, revision: int)

  const EMPTY := Result(map[], Idle, 0)

  datatype Operation = Begin | Publish(motors: Motors, token: int) | Fail(token: int)

  function Apply(r: Result, op: Operation): Result {
    match op
    case Begin => Result(map[], Scanning, (r.revision + 1) % REVISIONS)
    case Publish(motors, token) => if r.revision != token then r else Result(motors, Complete, r.revision)
    case Fail(token) => if r.revision != token then r else Result(map[], Failed, r.revision)
  }

  class MotorScanResult {
    var motors: Motors
    var status: ScanStatus
    var revision: int

    function State(): Result
      reads this
    {
      Result(motors, status, revision)
    }

    constructor ()
      ensures State() == EMPTY
    {
      motors, status, revision := map[], Idle, 0;
    }

    method BeginScan() returns (token: int)
      modifies this
      ensures State() == Apply(old(State()), Begin) && token == revision
    {
      motors := map[];
      status := Scanning;
      revision := (revision + 1) % REVISIONS;
      token := revision;
    }

    method CompleteScan(found: Motors, token: int)
      modifies this
      ensures State() == Apply(old(State()), Publish(found, token))
    {
      if revision != token {
        return;
      }
      motors := found;
      status := Complete;
    }

    method FailScan(token: int)
      modifies this
      ensures State() == Apply(old(State()), Fail(token))
    {
      if revision != token {
        return;
      }
      motors := map[];
      status := Failed;
    }
  }

  function After(ops: seq<Operation>, n: nat): Result
    requires n <= |ops|
  {
    if n == 0 then EMPTY else Apply(After(ops, n - 1), ops[n - 1])
  }

  function Begins(ops: seq<Operation>, n: nat): nat
    requires n <= |ops|
  {
    if n == 0 then 0 else Begins(ops, n - 1) + if ops[n - 1] == Begin then 1 else 0
  }

  /** The revision counts the scans begun, round the 64-bit wheel. */
  lemma {:induction false} RevisionCounts(ops: seq<Operation>, n: nat)
    requires n <= |ops|
    ensures After(ops, n).revision == Begins(ops, n) % REVISIONS
  {
    if n > 0 { RevisionCounts(ops, n - 1); }
  }

  /**
   Of two scans with fewer than 2^64 begun between them, the later has the larger token if and only if the revision has
   not wrapped between them; if it has, the later token is smaller.
   */
  lemma TokensIncrease(ops: seq<Operation>, i: nat, j: nat)
    requires i < j < |ops| && ops[i] == Begin && ops[j] == Begin && Begins(ops, j + 1) - Begins(ops, i + 1) < REVISIONS
    ensures After(ops, i + 1).revision < After(ops, j + 1).revision
      <==> Begins(ops, i + 1) / REVISIONS == Begins(ops, j + 1) / REVISIONS
    ensures Begins(ops, i + 1) / REVISIONS != Begins(ops, j + 1) / REVISIONS ==>
      After(ops, j + 1).revision < After(ops, i + 1).revision
  {
    RevisionCounts(ops, i + 1);
    RevisionCounts(ops, j + 1);
    BeginsAscend(ops, i + 1, j);
    RemaindersOrder(Begins(ops, i + 1), Begins(ops, j + 1));
  }

  lemma RemaindersOrder(x: nat, y: nat)
    requires x < y < x + REVISIONS
    ensures x % REVISIONS < y % REVISIONS <==> x / REVISIONS == y / REVISIONS
    ensures x / REVISIONS != y / REVISIONS ==> y % REVISIONS < x % REVISIONS
  {
    var p, q := x / REVISIONS, y / REVISIONS;
    assert x == REVISIONS * p + x % REVISIONS && y == REVISIONS * q + y % REVISIONS;
    assert q == p || q == p + 1;
  }

  /** The 2^64th scan begun gets token 0, below the token before it. */
  lemma TokensWrap(ops: seq<Operation>)
    requires |ops| == REVISIONS && forall i | 0 <= i < |ops| :: ops[i] == Begin
    ensures After(ops, REVISIONS - 1).revision == REVISIONS - 1 && After(ops, REVISIONS).revision == 0
  {
    AllBegin(ops, REVISIONS - 1);
    RevisionCounts(ops, REVISIONS - 1);
  }

  lemma {:induction false} AllBegin(ops: seq<Operation>, n: nat)
    requires n <= |ops| && forall i | 0 <= i < |ops| :: ops[i] == Begin
    ensures Begins(ops, n) == n
  {
    if n > 0 { AllBegin(ops, n - 1); }
  }

  lemma {:induction false} BeginsAscend(ops: seq<Operation>, i: nat, j: nat)
    requires i <= j <= |ops|
    ensures Begins(ops, i) <= Begins(ops, j)
  {
    if i < j { BeginsAscend(ops, i, j - 1); }
  }

  /**
   A token is stale, and its publication changes nothing, exactly when the number of scans begun since is not a whole
   number of turns of the 64-bit counter.
   */
  lemma StaleTokenExactlyWhen(ops: seq<Operation>, i: nat, n: nat, motors: Motors)
    requires i < n <= |ops| && ops[i] == Begin
    ensures After(ops, n).revision == After(ops, i + 1).revision
      <==> (Begins(ops, n) - Begins(ops, i + 1)) % REVISIONS == 0
    ensures (Begins(ops, n) - Begins(ops, i + 1)) % REVISIONS != 0 ==>
      Apply(After(ops, n), Publish(motors, After(ops, i + 1).revision)) == After(ops, n)
      && Apply(After(ops, n), Fail(After(ops, i + 1).revision)) == After(ops, n)
  {
    RevisionCounts(ops, i + 1);
    RevisionCounts(ops, n);
    BeginsAscend(ops, i + 1, n);
    SameRemainder(Begins(ops, i + 1), Begins(ops, n));
  }

  lemma SameRemainder(x: nat, y: nat)
    requires x <= y
    ensures x % REVISIONS == y % REVISIONS <==> (y - x) % REVISIONS == 0
  {
    var p, q := x / REVISIONS, y / REVISIONS;
    assert x == REVISIONS * p + x % REVISIONS && y == REVISIONS * q + y % REVISIONS;
    if x % REVISIONS == y % REVISIONS {
      assert y - x == REVISIONS * (q - p);
    }
  }

  /** Operation i published these motors under the token that was current, and nothing has begun since. */
  predicate PublishedAt(ops: seq<Operation>, n: nat, i: nat, motors: Motors)
    requires n <= |ops|
  {
    && i < n && ops[i] == Publish(motors, After(ops, i).revision)
    && forall k | i < k < n :: ops[k] != Begin
  }

  /** Stored motors are a complete scan, published under the current token, with no scan begun since. */
  lemma {:induction false} StoredMotorsArePublished(ops: seq<Operation>, n: nat) returns (i: nat)
    requires n <= |ops| && (After(ops, n).motors != map[] || After(ops, n).status == Complete)
    ensures After(ops, n).status == Complete && PublishedAt(ops, n, i, After(ops, n).motors)
    ensures After(ops, i).revision == After(ops, n).revision
  {
    var before, op := After(ops, n - 1), ops[n - 1];
    if op.Publish? && op.token == before.revision {
      i := n - 1;
    } else {
      i := StoredMotorsArePublished(ops, n - 1);
    }
  }
}
