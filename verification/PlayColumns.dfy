/** The order of the status table in the fields of its rows, column by column. */
module PlayColumns {
  import opened Wrappers
  import opened PlaySort
  import opened PlayTable

  // ---------------------------------------------------------------- strings, numbers and loss

  /** The strings agree up to position k, where x ends or has the smaller character. */
  predicate LessAt(x: string, y: string, k: nat) {
    k <= |x| && k < |y| && x[..k] == y[..k] && (k == |x| || x[k] < y[k])
  }

  predicate Before(x: string, y: string) { exists k: nat | k <= |x| :: LessAt(x, y, k) }

  lemma {:induction false} StringLessIs(x: string, y: string)
    ensures StringLess(x, y) <==> Before(x, y)
  {
    if x != "" && y != "" && x[0] == y[0] {
      StringLessIs(x[1..], y[1..]);
      if k: nat :| k <= |x| && LessAt(x, y, k) {
        assert k > 0 && x[1..][..k - 1] == x[..k][1..] && y[1..][..k - 1] == y[..k][1..];
        assert LessAt(x[1..], y[1..], k - 1);
      }
      if k: nat :| k <= |x[1..]| && LessAt(x[1..], y[1..], k) {
        assert x[..k + 1] == [x[0]] + x[1..][..k] && y[..k + 1] == [y[0]] + y[1..][..k];
        assert LessAt(x, y, k + 1);
      }
    } else {
      if StringLess(x, y) { assert LessAt(x, y, 0); }
      if k: nat :| k <= |x| && LessAt(x, y, k) { FirstDecides(x, y, k); }
    }
  }

  lemma FirstDecides(x: string, y: string, k: nat)
    requires LessAt(x, y, k) && (x == "" || y == "" || x[0] != y[0])
    ensures StringLess(x, y)
  {
    if k > 0 { SameFirst(x, y, k); }
  }

  lemma SameFirst(x: string, y: string, k: nat)
    requires 0 < k <= |x| && k <= |y| && x[..k] == y[..k]
    ensures x[0] == y[0]
  {
    assert x[0] == x[..k][0];
  }

  predicate StringAtMost(x: string, y: string) { x == y || Before(x, y) }

  lemma CompareStringIs(x: string, y: string)
    ensures CompareString(x, y) <= 0 <==> StringAtMost(x, y)
    ensures CompareString(x, y) == 0 <==> x == y
    ensures CompareString(x, y) < 0 <==> Before(x, y)
  {
    StringLessIs(x, y);
    StringLessIs(y, x);
    StringsFit(x, y, x);
    StringsFit(x, x, x);
    hide StringLess, Before;
  }

  /** Among numbers; nothing is said of a number and a missing one. */
  predicate FloatAtMost(x: Float, y: Float) {
    match (x, y)
    case (NaN, NaN) => true
    case (NegativeInfinity, _) => true
    case (_, PositiveInfinity) => true
    case (Finite(a), Finite(b)) => a <= b
    case _ => false
  }

  lemma CompareFloatIs(x: Float, y: Float)
    requires x.NaN? == y.NaN?
    ensures CompareFloat(x, y) <= 0 <==> FloatAtMost(x, y)
  {
  }

  function Lost(sent: nat, received: nat): nat { if sent > received then sent - received else 0 }

  /** The first row has lost no larger share of its packets; a row that has sent nothing has lost no share. */
  predicate LossAtMost(sentX: nat, receivedX: nat, sentY: nat, receivedY: nat) {
    if sentX == 0 then true
    else if sentY == 0 then Lost(sentX, receivedX) == 0
    else Lost(sentX, receivedX) * sentY <= Lost(sentY, receivedY) * sentX
  }

  lemma LossIs(sx: nat, rx: nat, sy: nat, ry: nat)
    ensures CompareReal(LossRatio(sx, rx), LossRatio(sy, ry)) <= 0 <==> LossAtMost(sx, rx, sy, ry)
  {
    RatioIs(sx, rx);
    RatioIs(sy, ry);
    if sx > 0 && sy > 0 {
      CrossMultiply(Lost(sx, rx), sx, Lost(sy, ry), sy);
    }
    hide LossRatio, Lost;
  }

  lemma RatioIs(sent: nat, received: nat)
    ensures LossRatio(sent, received) == if sent == 0 then 0.0 else Lost(sent, received) as real / sent as real
    ensures LossRatio(sent, received) >= 0.0
    ensures sent > 0 ==> (LossRatio(sent, received) <= 0.0 <==> Lost(sent, received) == 0)
  {
    if sent > 0 { ShareIs(Lost(sent, received), sent); }
  }

  lemma ShareIs(a: nat, b: nat)
    requires b > 0
    ensures a as real / b as real >= 0.0
    ensures a as real / b as real <= 0.0 <==> a == 0
  {
    var q := a as real / b as real;
    assert q * b as real == a as real;
  }

  lemma CrossMultiply(a: nat, b: nat, c: nat, d: nat)
    requires b > 0 && d > 0
    ensures a as real / b as real <= c as real / d as real <==> a * d <= c * b
  {
    var p, q, x, y := a as real / b as real, c as real / d as real, b as real, d as real;
    assert p * x == a as real && q * y == c as real;
    Products(p, q, x, y);
    assert (a * d) as real == p * x * y && (c * b) as real == q * y * x;
  }

  lemma Products(p: real, q: real, x: real, y: real)
    requires x > 0.0 && y > 0.0
    ensures p <= q <==> p * x * y <= q * y * x
  {
    var z := x * y;
    Positive(x, y);
    assert p * x * y == p * z && q * y * x == q * z by { Regroup(p, x, y); Regroup(q, y, x); }
    Monotone(p, q, z);
  }

  lemma Positive(x: real, y: real)
    requires x > 0.0 && y > 0.0
    ensures x * y > 0.0
  {
  }

  lemma Regroup(p: real, x: real, y: real)
    ensures p * x * y == p * (x * y)
  {
  }

  lemma Monotone(p: real, q: real, z: real)
    requires z > 0.0
    ensures p <= q <==> p * z <= q * z
  {
    if p < q { Positive(q - p, z); Spread(q, p, z); }
    if q < p { Positive(p - q, z); Spread(p, q, z); }
  }

  lemma Spread(p: real, q: real, z: real)
    ensures (p - q) * z == p * z - q * z
  {
  }

  // ---------------------------------------------------------------- columns

  /** The row has no number in this column. */
  predicate LacksNumber(s: Snapshot, column: Column) {
    match column
    case Position => s.position == NaN
    case Speed => s.speed == NaN
    case Current => s.current == NaN
    case Torque => s.torque == NaN
    case MotorTemperature => s.motorTemperature == NaN
    case MosTemperature => s.mosTemperature == NaN
    case _ => false
  }

  function SlaveNumber(s: Snapshot): int { match s.slave case Some(n) => n case None => 0 }

  function AdapterName(s: Snapshot): string { s.adapterType + ":" + s.adapterId }

  /** In this column x is not above y. */
  predicate InColumn(x: Snapshot, y: Snapshot, column: Column) {
    match column
    case Adapter => StringAtMost(AdapterName(x), AdapterName(y))
    case Slave => SlaveNumber(x) <= SlaveNumber(y)
    case Bus => x.bus <= y.bus
    case Id => x.motor <= y.motor
    case Position => FloatAtMost(x.position, y.position)
    case Speed => FloatAtMost(x.speed, y.speed)
    case Current => FloatAtMost(x.current, y.current)
    case Torque => FloatAtMost(x.torque, y.torque)
    case MotorTemperature => FloatAtMost(x.motorTemperature, y.motorTemperature)
    case MosTemperature => FloatAtMost(x.mosTemperature, y.mosTemperature)
    case Error => x.error <= y.error
    case SentCount => x.sent <= y.sent
    case ReceivedCount => x.received <= y.received
    case Loss => LossAtMost(x.sent, x.received, y.sent, y.received)
    case Loss3s => LossAtMost(x.windowSent, x.windowReceived, y.windowSent, y.windowReceived)
  }

  lemma PrimaryIs(x: Snapshot, y: Snapshot, column: Column)
    requires LacksNumber(x, column) == LacksNumber(y, column)
    ensures ComparePrimary(x, y, column) <= 0 <==> InColumn(x, y, column)
  {
    hide CompareFloat, CompareString, LossRatio, FloatAtMost, StringAtMost, LossAtMost;
    match column
    case Adapter => CompareStringIs(AdapterName(x), AdapterName(y));
    case Position => CompareFloatIs(x.position, y.position);
    case Speed => CompareFloatIs(x.speed, y.speed);
    case Current => CompareFloatIs(x.current, y.current);
    case Torque => CompareFloatIs(x.torque, y.torque);
    case MotorTemperature => CompareFloatIs(x.motorTemperature, y.motorTemperature);
    case MosTemperature => CompareFloatIs(x.mosTemperature, y.mosTemperature);
    case Loss => LossIs(x.sent, x.received, y.sent, y.received);
    case Loss3s => LossIs(x.windowSent, x.windowReceived, y.windowSent, y.windowReceived);
    case _ =>
  }

  lemma LacksIs(s: Snapshot, column: Column)
    ensures IsNaNRow(s, column) <==> LacksNumber(s, column)
  {
  }

  /** A missing slave comes before any slave. */
  predicate SlaveBefore(x: Option<int>, y: Option<int>) {
    y.Some? && (x.None? || x.value < y.value)
  }

  /** By adapter type, adapter, slave, bus, motor and name, in this order: the first that differs decides. */
  predicate IdentityAtMost(x: Snapshot, y: Snapshot) {
    if x.adapterType != y.adapterType then Before(x.adapterType, y.adapterType)
    else if x.adapterId != y.adapterId then Before(x.adapterId, y.adapterId)
    else if x.slave != y.slave then SlaveBefore(x.slave, y.slave)
    else if x.bus != y.bus then x.bus < y.bus
    else if x.motor != y.motor then x.motor < y.motor
    else StringAtMost(x.name, y.name)
  }

  lemma IdentityIs(x: Snapshot, y: Snapshot)
    ensures CompareIdentity(x, y) <= 0 <==> IdentityAtMost(x, y)
  {
    CompareStringIs(x.adapterType, y.adapterType);
    CompareStringIs(x.adapterId, y.adapterId);
    CompareStringIs(x.name, y.name);
    hide CompareString, Before, StringAtMost;
  }

  /**
   Of any two rows of a sorted table: one without a number in the column is never above one with a number; otherwise the
   column rises or falls with the direction; and rows that are level in the column, or both lack a number, are in
   identity order in both directions.
   */
  lemma RowsInOrder(rows: seq<Snapshot>, column: Column, ascending: bool, i: nat, j: nat)
    requires Sorted(rows, column, ascending) && i < j < |rows|
    ensures var x, y := rows[i], rows[j];
      && (LacksNumber(x, column) ==> LacksNumber(y, column))
      && (LacksNumber(x, column) == LacksNumber(y, column) ==>
            && (if ascending then InColumn(x, y, column) else InColumn(y, x, column))
            && (InColumn(x, y, column) && InColumn(y, x, column) ==> IdentityAtMost(x, y)))
  {
    var x, y := rows[i], rows[j];
    TableOrder(rows, column, ascending, i, j);
    LacksIs(x, column);
    LacksIs(y, column);
    if LacksNumber(x, column) == LacksNumber(y, column) {
      PrimaryIs(x, y, column);
      PrimaryIs(y, x, column);
      PrimaryFits(x, y, x, column);
      IdentityIs(x, y);
    }
    hide ComparePrimary, CompareIdentity, IsNaNRow, LacksNumber, InColumn, IdentityAtMost, Sorted;
  }
}
