/** The order of the status table: a comparator with a NaN rule, a direction and an identity tie-break. */
module PlaySort {
  import opened Wrappers

  /** A float as the comparator sees it: it can be unordered. */
  datatype Float = NaN | NegativeInfinity | Finite(value: real) | PositiveInfinity

  datatype Column =
    | Adapter | Slave | Bus | Id | Position | Speed | Current | Torque | MotorTemperature | MosTemperature
    | SentCount | ReceivedCount | Loss | Loss3s | Error

  datatype Snapshot = Snapshot(
    name: string, adapterType: string, adapterId: string, slave: Option<int>, bus: int, motor: int,
    position: Float, speed: Float, current: Float, torque: Float, motorTemperature: Float, mosTemperature: Float,
    error: int, sent: nat, received: nat, windowSent: nat, windowReceived: nat)

  // ---------------------------------------------------------------- three-way comparisons

  function CompareInt(x: int, y: int): int { if x < y then -1 else if y < x then 1 else 0 }

  function CompareReal(x: real, y: real): int { if x < y then -1 else if y < x then 1 else 0 }

  /** The less-than of strings: the first difference decides, a proper prefix is smaller. */
  predicate StringLess(x: string, y: string) {
    y != "" && (x == "" || x[0] < y[0] || (x[0] == y[0] && StringLess(x[1..], y[1..])))
  }

  function CompareString(x: string, y: string): int {
    if StringLess(x, y) then -1 else if StringLess(y, x) then 1 else 0
  }

  /** The less-than of floats: every comparison with NaN is false. */
  predicate FloatLess(x: Float, y: Float) {
    match (x, y)
    case (Finite(a), Finite(b)) => a < b
    case (NaN, _) => false
    case (_, NaN) => false
    case (NegativeInfinity, NegativeInfinity) => false
    case (NegativeInfinity, _) => true
    case (_, PositiveInfinity) => !x.PositiveInfinity?
    case _ => false
  }

  function CompareFloat(x: Float, y: Float): int {
    if x.NaN? != y.NaN? then (if x.NaN? then 1 else -1)
    else if FloatLess(x, y) then -1 else if FloatLess(y, x) then 1 else 0
  }

  function LossRatio(sent: nat, received: nat): real {
    if sent == 0 then 0.0 else (sent - if sent < received then sent else received) as real / sent as real
  }

  function SlaveOrZero(s: Snapshot): int { if s.slave.Some? then s.slave.value else 0 }

  function ComparePrimary(x: Snapshot, y: Snapshot, column: Column): int {
    match column
    case Adapter => CompareString(x.adapterType + ":" + x.adapterId, y.adapterType + ":" + y.adapterId)
    case Slave => CompareInt(SlaveOrZero(x), SlaveOrZero(y))
    case Bus => CompareInt(x.bus, y.bus)
    case Id => CompareInt(x.motor, y.motor)
    case Position => CompareFloat(x.position, y.position)
    case Speed => CompareFloat(x.speed, y.speed)
    case Current => CompareFloat(x.current, y.current)
    case Torque => CompareFloat(x.torque, y.torque)
    case MotorTemperature => CompareFloat(x.motorTemperature, y.motorTemperature)
    case MosTemperature => CompareFloat(x.mosTemperature, y.mosTemperature)
    case Error => CompareInt(x.error, y.error)
    case SentCount => CompareInt(x.sent, y.sent)
    case ReceivedCount => CompareInt(x.received, y.received)
    case Loss => CompareReal(LossRatio(x.sent, x.received), LossRatio(y.sent, y.received))
    case Loss3s =>
      CompareReal(LossRatio(x.windowSent, x.windowReceived), LossRatio(y.windowSent, y.windowReceived))
  }

  function FloatValue(s: Snapshot, column: Column): Option<Float> {
    match column
    case Position => Some(s.position)
    case Speed => Some(s.speed)
    case Current => Some(s.current)
    case Torque => Some(s.torque)
    case MotorTemperature => Some(s.motorTemperature)
    case MosTemperature => Some(s.mosTemperature)
    case _ => None
  }

  /** The column holds a number for this row, and it is not one. */
  predicate IsNaNRow(s: Snapshot, column: Column) {
    FloatValue(s, column) == Some(NaN)
  }

  /** Less-than of optionals: nothing comes before any value. */
  function CompareOption(x: Option<int>, y: Option<int>): int {
    match (x, y)
    case (None, None) => 0
    case (None, Some(_)) => -1
    case (Some(_), None) => 1
    case (Some(a), Some(b)) => CompareInt(a, b)
  }

  function Then(first: int, second: int): int { if first != 0 then first else second }

  /** The lexicographic order of the identifying fields. */
  function CompareIdentity(x: Snapshot, y: Snapshot): int {
    Then(CompareString(x.adapterType, y.adapterType),
         Then(CompareString(x.adapterId, y.adapterId),
              Then(CompareOption(x.slave, y.slave),
                   Then(CompareInt(x.bus, y.bus),
                        Then(CompareInt(x.motor, y.motor), CompareString(x.name, y.name))))))
  }

  /** The comparator that the sort is given. */
  predicate Less(x: Snapshot, y: Snapshot, column: Column, ascending: bool) {
    var nanX, nanY := IsNaNRow(x, column), IsNaNRow(y, column);
    if nanX != nanY then !nanX
    else
      var primary := ComparePrimary(x, y, column);
      if primary != 0 then (if ascending then primary < 0 else primary > 0)
      else CompareIdentity(x, y) < 0
  }

  // ---------------------------------------------------------------- comparisons of three things that fit one order

  /** Three signs x:y, y:z and x:z that some ranking of x, y and z produces. */
  predicate OneOrder(xy: int, yz: int, xz: int) {
    && (xy <= 0 && yz <= 0 ==> xz <= 0) && (xy >= 0 && yz >= 0 ==> xz >= 0)
    && (xy < 0 && yz <= 0 ==> xz < 0) && (xy <= 0 && yz < 0 ==> xz < 0)
    && (xy > 0 && yz >= 0 ==> xz > 0) && (xy >= 0 && yz > 0 ==> xz > 0)
  }

  lemma {:induction false} StringLessTotal(x: string, y: string)
    ensures !(StringLess(x, y) && StringLess(y, x))
    ensures StringLess(x, y) || StringLess(y, x) || x == y
  {
    if x != "" && y != "" && x[0] == y[0] {
      StringLessTotal(x[1..], y[1..]);
      assert x == [x[0]] + x[1..] && y == [y[0]] + y[1..];
    }
  }

  lemma {:induction false} StringLessTransitive(x: string, y: string, z: string)
    requires StringLess(x, y) && StringLess(y, z)
    ensures StringLess(x, z)
  {
    if x != "" && x[0] == y[0] && y[0] == z[0] { StringLessTransitive(x[1..], y[1..], z[1..]); }
  }

  lemma StringsFit(x: string, y: string, z: string)
    ensures CompareString(x, y) == -CompareString(y, x)
    ensures OneOrder(CompareString(x, y), CompareString(y, z), CompareString(x, z))
    ensures CompareString(x, y) == 0 ==> x == y
  {
    StringLessTotal(x, y);
    StringLessTotal(y, z);
    StringLessTotal(x, z);
    if StringLess(x, y) && StringLess(y, z) { StringLessTransitive(x, y, z); }
    if StringLess(z, y) && StringLess(y, x) { StringLessTransitive(z, y, x); }
  }

  lemma FloatsFit(x: Float, y: Float, z: Float)
    ensures CompareFloat(x, y) == -CompareFloat(y, x)
    ensures OneOrder(CompareFloat(x, y), CompareFloat(y, z), CompareFloat(x, z))
  {
  }

  lemma PrimaryFits(x: Snapshot, y: Snapshot, z: Snapshot, column: Column)
    ensures ComparePrimary(x, y, column) == -ComparePrimary(y, x, column)
    ensures OneOrder(ComparePrimary(x, y, column), ComparePrimary(y, z, column), ComparePrimary(x, z, column))
  {
    hide CompareFloat, CompareString, LossRatio;
    match column
    case Adapter =>
      StringsFit(x.adapterType + ":" + x.adapterId, y.adapterType + ":" + y.adapterId,
                 z.adapterType + ":" + z.adapterId);
    case Position => FloatsFit(x.position, y.position, z.position);
    case Speed => FloatsFit(x.speed, y.speed, z.speed);
    case Current => FloatsFit(x.current, y.current, z.current);
    case Torque => FloatsFit(x.torque, y.torque, z.torque);
    case MotorTemperature => FloatsFit(x.motorTemperature, y.motorTemperature, z.motorTemperature);
    case MosTemperature => FloatsFit(x.mosTemperature, y.mosTemperature, z.mosTemperature);
    case _ =>
  }

  lemma IdentityFits(x: Snapshot, y: Snapshot, z: Snapshot)
    ensures CompareIdentity(x, y) == -CompareIdentity(y, x)
    ensures OneOrder(CompareIdentity(x, y), CompareIdentity(y, z), CompareIdentity(x, z))
  {
    StringsFit(x.adapterType, y.adapterType, z.adapterType);
    StringsFit(x.adapterId, y.adapterId, z.adapterId);
    StringsFit(x.name, y.name, z.name);
    hide CompareString;
  }

  // ---------------------------------------------------------------- the comparator is a strict weak order

  /** The comparator as a sign: rows without a number last, then the column in the chosen direction, then identity. */
  function Rank(x: Snapshot, y: Snapshot, column: Column, ascending: bool): int {
    var nan := CompareInt(if IsNaNRow(x, column) then 1 else 0, if IsNaNRow(y, column) then 1 else 0);
    var primary := ComparePrimary(x, y, column);
    Then(nan, Then(if ascending then primary else -primary, CompareIdentity(x, y)))
  }

  lemma LessIsRank(x: Snapshot, y: Snapshot, column: Column, ascending: bool)
    ensures Less(x, y, column, ascending) <==> Rank(x, y, column, ascending) < 0
  {
    hide ComparePrimary, CompareIdentity, FloatValue;
  }

  lemma RankFits(x: Snapshot, y: Snapshot, z: Snapshot, column: Column, ascending: bool)
    ensures Rank(x, y, column, ascending) == -Rank(y, x, column, ascending)
    ensures OneOrder(Rank(x, y, column, ascending), Rank(y, z, column, ascending), Rank(x, z, column, ascending))
  {
    PrimaryFits(x, y, z, column);
    IdentityFits(x, y, z);
    hide ComparePrimary, CompareIdentity, FloatValue;
  }

  /** For every column and direction the comparator is irreflexive and transitive, and so is being tied. */
  lemma StrictWeakOrder(x: Snapshot, y: Snapshot, z: Snapshot, column: Column, ascending: bool)
    ensures !Less(x, x, column, ascending)
    ensures Less(x, y, column, ascending) && Less(y, z, column, ascending) ==> Less(x, z, column, ascending)
    ensures !Less(x, y, column, ascending) && !Less(y, x, column, ascending)
      && !Less(y, z, column, ascending) && !Less(z, y, column, ascending)
      ==> !Less(x, z, column, ascending) && !Less(z, x, column, ascending)
  {
    LessIsRank(x, x, column, ascending);
    LessIsRank(x, y, column, ascending);
    LessIsRank(y, x, column, ascending);
    LessIsRank(y, z, column, ascending);
    LessIsRank(z, y, column, ascending);
    LessIsRank(x, z, column, ascending);
    LessIsRank(z, x, column, ascending);
    RankFits(x, y, z, column, ascending);
    RankFits(z, y, x, column, ascending);
    RankFits(x, x, x, column, ascending);
    hide Rank, Less;
  }
}
