/** Usage accounting on a node and the price the chain charges for it. */
module Billing {
  import opened Ids

  // ---- Prices ----

  datatype ServiceRates = ServiceRates(
    functionMbTeraInstructions: U64, dbGigabyteMonths: U64, millionDbReads: U64, millionDbWrites: U64,
    millionGatewayRequests: U64, gigabytesGatewayTraffic: U64)

  /** Amounts used. On chain the first two are 128 bits wide and the others 64. */
  datatype ServiceUsage = ServiceUsage(
    functionMbInstructions: nat, dbBytesSeconds: nat, dbReads: nat, dbWrites: nat,
    gatewayRequests: nat, gatewayTrafficBytes: nat)

  const TERA := 1_000_000_000_000
  const MILLION := 1_000_000
  const GIGABYTE := 1024 * 1024 * 1024
  const GIGABYTE_MONTH := 1024 * 1024 * 1024 * 60 * 60 * 24 * 30

  /** The price with unbounded arithmetic: each service is rounded down on its own. */
  function Price(r: ServiceRates, u: ServiceUsage): nat {
    ServicePrice(r.functionMbTeraInstructions, u.functionMbInstructions, TERA)
    + ServicePrice(r.dbGigabyteMonths, u.dbBytesSeconds, GIGABYTE_MONTH)
    + ServicePrice(r.millionDbReads, u.dbReads, MILLION)
    + ServicePrice(r.millionDbWrites, u.dbWrites, MILLION)
    + ServicePrice(r.millionGatewayRequests, u.gatewayRequests, MILLION)
    + ServicePrice(r.gigabytesGatewayTraffic, u.gatewayTrafficBytes, GIGABYTE)
  }

  function ServicePrice(rate: nat, amount: nat, divisor: nat): nat
    requires divisor > 0
  {
    rate * amount / divisor
  }

  predicate OnChain(u: ServiceUsage) {
    && u.functionMbInstructions < TWO_128 && u.dbBytesSeconds < TWO_128
    && u.dbReads < TWO_64 && u.dbWrites < TWO_64 && u.gatewayRequests < TWO_64 && u.gatewayTrafficBytes < TWO_64
  }

  /** A multiplication that must fit its type, then a rounding division; none on overflow. */
  function MulDiv(rate: nat, amount: nat, width: nat, divisor: nat): Option<nat>
    requires divisor > 0
  {
    if rate * amount < width then Some(ServicePrice(rate, amount, divisor)) else None
  }

  function CheckedAdd(a: Option<nat>, b: Option<nat>): Option<nat> {
    if a.Some? && b.Some? && a.value + b.value < TWO_64 then Some(a.value + b.value) else None
  }

  /** A quotient of 128 bits cast to 64: the upper half is dropped without a trace. */
  function CastU64(a: Option<nat>): Option<nat> {
    if a.Some? then Some(a.value % TWO_64) else None
  }

  /** The program's computation, with its overflow checks and its casts. */
  function CalcUsage(r: ServiceRates, u: ServiceUsage): Option<nat> {
    CheckedAdd(CheckedAdd(CheckedAdd(CheckedAdd(CheckedAdd(
      CastU64(MulDiv(r.functionMbTeraInstructions, u.functionMbInstructions, TWO_128, TERA)),
      CastU64(MulDiv(r.dbGigabyteMonths, u.dbBytesSeconds, TWO_128, GIGABYTE_MONTH))),
      MulDiv(r.millionDbReads, u.dbReads, TWO_64, MILLION)),
      MulDiv(r.millionDbWrites, u.dbWrites, TWO_64, MILLION)),
      MulDiv(r.millionGatewayRequests, u.gatewayRequests, TWO_64, MILLION)),
      MulDiv(r.gigabytesGatewayTraffic, u.gatewayTrafficBytes, TWO_64, GIGABYTE))
  }

  /** Every product fits the type it is computed in. */
  predicate ProductsFit(r: ServiceRates, u: ServiceUsage) {
    && r.functionMbTeraInstructions * u.functionMbInstructions < TWO_128
    && r.dbGigabyteMonths * u.dbBytesSeconds < TWO_128
    && r.millionDbReads * u.dbReads < TWO_64
    && r.millionDbWrites * u.dbWrites < TWO_64
    && r.millionGatewayRequests * u.gatewayRequests < TWO_64
    && r.gigabytesGatewayTraffic * u.gatewayTrafficBytes < TWO_64
  }

  lemma {:induction false} CheckedSum(
    a: Option<nat>, b: Option<nat>, c: Option<nat>, d: Option<nat>, e: Option<nat>, f: Option<nat>)
    ensures
      var sum := CheckedAdd(CheckedAdd(CheckedAdd(CheckedAdd(CheckedAdd(a, b), c), d), e), f);
      && (sum.Some? ==> a.Some? && b.Some? && c.Some? && d.Some? && e.Some? && f.Some?)
      && (a.Some? && b.Some? && c.Some? && d.Some? && e.Some? && f.Some? ==>
            var total := a.value + b.value + c.value + d.value + e.value + f.value;
            sum == if total < TWO_64 then Some(total) else None)
  {
  }

  lemma {:induction false} CastExact(n: nat)
    ensures n % TWO_64 <= n && (n < TWO_64 ==> n % TWO_64 == n)
  {
  }

  /** The program charges the price exactly when every product fits and the price itself fits 64 bits. */
  lemma {:induction false} CalcUsageExact(r: ServiceRates, u: ServiceUsage)
    ensures CalcUsage(r, u) == Some(Price(r, u)) <==> ProductsFit(r, u) && Price(r, u) < TWO_64
  {
    var a := MulDiv(r.functionMbTeraInstructions, u.functionMbInstructions, TWO_128, TERA);
    var b := MulDiv(r.dbGigabyteMonths, u.dbBytesSeconds, TWO_128, GIGABYTE_MONTH);
    var c := MulDiv(r.millionDbReads, u.dbReads, TWO_64, MILLION);
    var d := MulDiv(r.millionDbWrites, u.dbWrites, TWO_64, MILLION);
    var e := MulDiv(r.millionGatewayRequests, u.gatewayRequests, TWO_64, MILLION);
    var f := MulDiv(r.gigabytesGatewayTraffic, u.gatewayTrafficBytes, TWO_64, GIGABYTE);
    CheckedSum(CastU64(a), CastU64(b), c, d, e, f);
    assert ProductsFit(r, u) <==> a.Some? && b.Some? && c.Some? && d.Some? && e.Some? && f.Some?;
    if ProductsFit(r, u) {
      assert Price(r, u) == a.value + b.value + c.value + d.value + e.value + f.value;
      CastExact(a.value);
      CastExact(b.value);
    }
  }

  // ---- What the rates mean ----

  /** `n` units of one service, a unit being the amount the rate is quoted for, and nothing else. */
  function Instructions10e12(n: nat): ServiceUsage {
    ServiceUsage(n * 1_000_000_000_000, 0, 0, 0, 0, 0)
  }

  /** Bytes times seconds: one gigabyte for thirty days is 1,073,741,824 times 2,592,000. */
  function GigabyteMonths(n: nat): ServiceUsage {
    ServiceUsage(0, n * 2_783_138_807_808_000, 0, 0, 0, 0)
  }

  function MillionReads(n: nat): ServiceUsage {
    ServiceUsage(0, 0, n * 1_000_000, 0, 0, 0)
  }

  function MillionWrites(n: nat): ServiceUsage {
    ServiceUsage(0, 0, 0, n * 1_000_000, 0, 0)
  }

  function MillionRequests(n: nat): ServiceUsage {
    ServiceUsage(0, 0, 0, 0, n * 1_000_000, 0)
  }

  function Gigabytes(n: nat): ServiceUsage {
    ServiceUsage(0, 0, 0, 0, 0, n * 1_073_741_824)
  }

  lemma {:induction false} UnitPrice(rate: nat, n: nat, unit: nat)
    requires unit > 0
    ensures ServicePrice(rate, n * unit, unit) == rate * n
    ensures rate > 0 && n > 0 ==> ServicePrice(rate, n * unit - 1, unit) < rate * n
  {
    Regroup(rate, n, unit);
    QuotientIs((rate * n) * unit, unit, rate * n, 0);
    if rate > 0 && n > 0 {
      ProductPositive(n, unit);
      OneLess(rate, n * unit);
      BelowMultiple(rate * (n * unit - 1), unit, rate * n);
    }
  }

  lemma {:induction false} Regroup(a: nat, b: nat, c: nat)
    ensures a * (b * c) == (a * b) * c
  {
  }

  lemma {:induction false} OneLess(a: nat, b: nat)
    requires b >= 1
    ensures a * (b - 1) == a * b - a
  {
  }

  lemma {:induction false} ProductPositive(a: nat, b: nat)
    requires a > 0 && b > 0
    ensures a * b >= 1
  {
  }

  lemma {:induction false} BelowMultiple(x: nat, d: nat, q: nat)
    requires d > 0 && x < q * d
    ensures x / d < q
  {
    DivMod(x, d);
    if x / d >= q {
      assert x / d * d >= q * d by {
        StrictlyMoreOrEqual(q, x / d, d);
      }
    }
  }

  lemma {:induction false} StrictlyMoreOrEqual(a: nat, b: nat, d: nat)
    requires a <= b
    ensures a * d <= b * d
  {
  }

  lemma {:induction false} NothingCostsNothing(rate: nat, divisor: nat)
    requires divisor > 0
    ensures ServicePrice(rate, 0, divisor) == 0
  {
  }

  /** A price is the sum of what each service costs on its own. */
  lemma {:induction false} PriceByService(r: ServiceRates, u: ServiceUsage)
    ensures Price(r, u) ==
      Price(r, ServiceUsage(u.functionMbInstructions, 0, 0, 0, 0, 0))
      + Price(r, ServiceUsage(0, u.dbBytesSeconds, 0, 0, 0, 0))
      + Price(r, ServiceUsage(0, 0, u.dbReads, 0, 0, 0))
      + Price(r, ServiceUsage(0, 0, 0, u.dbWrites, 0, 0))
      + Price(r, ServiceUsage(0, 0, 0, 0, u.gatewayRequests, 0))
      + Price(r, ServiceUsage(0, 0, 0, 0, 0, u.gatewayTrafficBytes))
  {
    NoUsageIsFree(r);
  }

  lemma {:induction false} NoUsageIsFree(r: ServiceRates)
    ensures ServicePrice(r.functionMbTeraInstructions, 0, TERA) == 0
    ensures ServicePrice(r.dbGigabyteMonths, 0, GIGABYTE_MONTH) == 0
    ensures ServicePrice(r.millionDbReads, 0, MILLION) == 0
    ensures ServicePrice(r.millionDbWrites, 0, MILLION) == 0
    ensures ServicePrice(r.millionGatewayRequests, 0, MILLION) == 0
    ensures ServicePrice(r.gigabytesGatewayTraffic, 0, GIGABYTE) == 0
  {
    NothingCostsNothing(r.functionMbTeraInstructions, TERA);
    NothingCostsNothing(r.dbGigabyteMonths, GIGABYTE_MONTH);
    NothingCostsNothing(r.millionDbReads, MILLION);
    NothingCostsNothing(r.millionDbWrites, MILLION);
    NothingCostsNothing(r.millionGatewayRequests, MILLION);
    NothingCostsNothing(r.gigabytesGatewayTraffic, GIGABYTE);
  }

  /** Whole units of a service cost exactly that many times the service's own rate. */
  lemma {:induction false} WholeUnits(r: ServiceRates, n: nat)
    ensures Price(r, Instructions10e12(n)) == r.functionMbTeraInstructions * n
    ensures Price(r, GigabyteMonths(n)) == r.dbGigabyteMonths * n
    ensures Price(r, MillionReads(n)) == r.millionDbReads * n
    ensures Price(r, MillionWrites(n)) == r.millionDbWrites * n
    ensures Price(r, MillionRequests(n)) == r.millionGatewayRequests * n
    ensures Price(r, Gigabytes(n)) == r.gigabytesGatewayTraffic * n
  {
    NoUsageIsFree(r);
    UnitPrice(r.functionMbTeraInstructions, n, TERA);
    UnitPrice(r.dbGigabyteMonths, n, GIGABYTE_MONTH);
    UnitPrice(r.millionDbReads, n, MILLION);
    UnitPrice(r.millionDbWrites, n, MILLION);
    UnitPrice(r.millionGatewayRequests, n, MILLION);
    UnitPrice(r.gigabytesGatewayTraffic, n, GIGABYTE);
  }

  /** And the smallest amount less costs less. */
  lemma {:induction false} LessThanWholeUnits(r: ServiceRates, n: nat)
    requires n > 0
    ensures r.functionMbTeraInstructions > 0 ==>
      Price(r, ServiceUsage(n * 1_000_000_000_000 - 1, 0, 0, 0, 0, 0)) < r.functionMbTeraInstructions * n
    ensures r.dbGigabyteMonths > 0 ==>
      Price(r, ServiceUsage(0, n * 2_783_138_807_808_000 - 1, 0, 0, 0, 0)) < r.dbGigabyteMonths * n
    ensures r.millionDbReads > 0 ==> Price(r, ServiceUsage(0, 0, n * 1_000_000 - 1, 0, 0, 0)) < r.millionDbReads * n
    ensures r.millionDbWrites > 0 ==> Price(r, ServiceUsage(0, 0, 0, n * 1_000_000 - 1, 0, 0)) < r.millionDbWrites * n
    ensures r.millionGatewayRequests > 0 ==>
      Price(r, ServiceUsage(0, 0, 0, 0, n * 1_000_000 - 1, 0)) < r.millionGatewayRequests * n
    ensures r.gigabytesGatewayTraffic > 0 ==>
      Price(r, ServiceUsage(0, 0, 0, 0, 0, n * 1_073_741_824 - 1)) < r.gigabytesGatewayTraffic * n
  {
    NoUsageIsFree(r);
    UnitPrice(r.functionMbTeraInstructions, n, TERA);
    UnitPrice(r.dbGigabyteMonths, n, GIGABYTE_MONTH);
    UnitPrice(r.millionDbReads, n, MILLION);
    UnitPrice(r.millionDbWrites, n, MILLION);
    UnitPrice(r.millionGatewayRequests, n, MILLION);
    UnitPrice(r.gigabytesGatewayTraffic, n, GIGABYTE);
  }

  /** So the program charges it, where its arithmetic has room: for instance, a gigabyte stored for thirty days. */
  lemma {:induction false} WholeUnitsCharged(r: ServiceRates, n: nat, u: ServiceUsage, rate: nat)
    requires
      || (u == Instructions10e12(n) && rate == r.functionMbTeraInstructions)
      || (u == GigabyteMonths(n) && rate == r.dbGigabyteMonths)
      || (u == MillionReads(n) && rate == r.millionDbReads)
      || (u == MillionWrites(n) && rate == r.millionDbWrites)
      || (u == MillionRequests(n) && rate == r.millionGatewayRequests)
      || (u == Gigabytes(n) && rate == r.gigabytesGatewayTraffic)
    ensures CalcUsage(r, u) == Some(rate * n) <==> Fits(r, u)
  {
    WholeUnits(r, n);
    CalcUsageExact(r, u);
  }

  /** The casts do lose value: with a high rate, usage priced at 2^64 tokens is charged nothing. */
  lemma {:induction false} CastLosesValue()
    ensures
      var r := ServiceRates(TERA, 0, 0, 0, 0, 0);
      var u := ServiceUsage(TWO_64, 0, 0, 0, 0, 0);
      OnChain(u) && CalcUsage(r, u) == Some(0) && Price(r, u) == TWO_64
  {
    assert TERA * TWO_64 / TERA == TWO_64;
  }

  // ---- Billing in several parts ----

  function Plus(u: ServiceUsage, v: ServiceUsage): ServiceUsage {
    ServiceUsage(
      u.functionMbInstructions + v.functionMbInstructions, u.dbBytesSeconds + v.dbBytesSeconds,
      u.dbReads + v.dbReads, u.dbWrites + v.dbWrites,
      u.gatewayRequests + v.gatewayRequests, u.gatewayTrafficBytes + v.gatewayTrafficBytes)
  }

  const NO_USAGE := ServiceUsage(0, 0, 0, 0, 0, 0)

  lemma {:induction false} DivOfSum(x: nat, y: nat, d: nat)
    requires d > 0
    ensures x / d + y / d <= (x + y) / d <= x / d + y / d + 1
  {
    DivMod(x, d);
    DivMod(y, d);
    QuotientOfSum(x, y, x / d, x % d, y / d, y % d, d);
  }

  lemma {:induction false} QuotientOfSum(x: nat, y: nat, qx: nat, rx: nat, qy: nat, ry: nat, d: nat)
    requires rx < d && ry < d
    requires x == qx * d + rx && y == qy * d + ry
    ensures qx + qy <= (x + y) / d <= qx + qy + 1
  {
    Distribute(qx, qy, d);
    if rx + ry < d {
      QuotientIs(x + y, d, qx + qy, rx + ry);
    } else {
      Distribute(qx + qy, 1, d);
      QuotientIs(x + y, d, qx + qy + 1, rx + ry - d);
    }
  }

  lemma {:induction false} DivMod(x: nat, d: nat)
    requires d > 0
    ensures x == (x / d) * d + x % d && 0 <= x % d < d
  {
  }

  lemma {:induction false} Distribute(a: int, b: int, d: int)
    ensures (a + b) * d == a * d + b * d
  {
  }

  lemma {:induction false} StrictlyMore(a: nat, b: nat, d: nat)
    requires a < b
    ensures a * d + d <= b * d
  {
    Distribute(a + 1, b - (a + 1), d);
    Distribute(a, 1, d);
  }

  lemma {:induction false} QuotientIs(x: nat, d: nat, q: nat, r: nat)
    requires d > 0 && r < d && x == q * d + r
    ensures x / d == q
  {
    DivMod(x, d);
    if x / d < q {
      StrictlyMore(x / d, q, d);
    } else if x / d > q {
      StrictlyMore(q, x / d, d);
    }
  }

  lemma {:induction false} ServiceOfSum(rate: nat, a: nat, b: nat, d: nat)
    requires d > 0
    ensures ServicePrice(rate, a, d) + ServicePrice(rate, b, d) <= ServicePrice(rate, a + b, d)
    ensures ServicePrice(rate, a + b, d) <= ServicePrice(rate, a, d) + ServicePrice(rate, b, d) + 1
  {
    assert rate * (a + b) == rate * a + rate * b;
    DivOfSum(rate * a, rate * b, d);
  }

  /** Billing two parts separately never charges more than billing them together, and at most six tokens less. */
  lemma {:induction false} PriceOfSum(r: ServiceRates, u: ServiceUsage, v: ServiceUsage)
    ensures Price(r, u) + Price(r, v) <= Price(r, Plus(u, v)) <= Price(r, u) + Price(r, v) + 6
  {
    ServiceOfSum(r.functionMbTeraInstructions, u.functionMbInstructions, v.functionMbInstructions, TERA);
    ServiceOfSum(r.dbGigabyteMonths, u.dbBytesSeconds, v.dbBytesSeconds, GIGABYTE_MONTH);
    ServiceOfSum(r.millionDbReads, u.dbReads, v.dbReads, MILLION);
    ServiceOfSum(r.millionDbWrites, u.dbWrites, v.dbWrites, MILLION);
    ServiceOfSum(r.millionGatewayRequests, u.gatewayRequests, v.gatewayRequests, MILLION);
    ServiceOfSum(r.gigabytesGatewayTraffic, u.gatewayTrafficBytes, v.gatewayTrafficBytes, GIGABYTE);
  }

  function TotalUsage(parts: seq<ServiceUsage>): ServiceUsage {
    if parts == [] then NO_USAGE else Plus(TotalUsage(parts[..|parts| - 1]), parts[|parts| - 1])
  }

  function TotalPrice(r: ServiceRates, parts: seq<ServiceUsage>): nat {
    if parts == [] then 0 else TotalPrice(r, parts[..|parts| - 1]) + Price(r, parts[|parts| - 1])
  }

  lemma {:induction false} PriceInParts(r: ServiceRates, parts: seq<ServiceUsage>)
    requires parts != []
    ensures TotalPrice(r, parts) <= Price(r, TotalUsage(parts)) <= TotalPrice(r, parts) + 6 * (|parts| - 1)
  {
    var init, last := parts[..|parts| - 1], parts[|parts| - 1];
    if init == [] {
      assert Plus(NO_USAGE, last) == last;
    } else {
      PriceInParts(r, init);
      PriceOfSum(r, TotalUsage(init), last);
    }
  }

  // ---- The aggregator ----

  datatype Usage =
    | FunctionMBInstructions(memoryMegabytes: U64, instructions: U64)
    | DBStorage(sizeBytes: U64, seconds: U64)
    | DBRead(weakReads: U64, strongReads: U64)
    | DBWrite(weakWrites: U64, strongWrites: U64)
    | GatewayRequests(count: U64)
    | GatewayTraffic(trafficBytes: U64)

  datatype Category = Instructions | Storage | Reads | Writes | Requests | Traffic

  /** A strong read or write counts as two weak ones. */
  function IntoCategory(u: Usage): (Category, nat) {
    match u
    case FunctionMBInstructions(memory, instructions) => (Instructions, memory * instructions)
    case DBStorage(size, seconds) => (Storage, size * seconds)
    case DBRead(weak, strong) => (Reads, weak + strong * 2)
    case DBWrite(weak, strong) => (Writes, weak + strong * 2)
    case GatewayRequests(count) => (Requests, count)
    case GatewayTraffic(size) => (Traffic, size)
  }

  type Amounts = map<Category, nat>
  type Usages = map<StackID, Amounts>

  function Of(m: Amounts, c: Category): nat {
    if c in m then m[c] else 0
  }

  function Amount(m: Usages, id: StackID, c: Category): nat {
    if id in m then Of(m[id], c) else 0
  }

  function Sum(list: seq<Usage>, c: Category): nat {
    if list == [] then 0
    else
      var (category, amount) := IntoCategory(list[|list| - 1]);
      Sum(list[..|list| - 1], c) + if category == c then amount else 0
  }

  class UsageAggregator {
    var usages: Usages

    constructor ()
      ensures usages == map[]
    {
      usages := map[];
    }

    method RegisterUsage(id: StackID, list: seq<Usage>)
      modifies this
      ensures usages.Keys == old(usages.Keys) + {id}
      ensures forall s: StackID, c: Category ::
        Amount(usages, s, c) == old(Amount(usages, s, c)) + if s == id then Sum(list, c) else 0
    {
      var amounts: Amounts := if id in usages then usages[id] else map[];
      for i := 0 to |list|
        invariant forall c: Category :: Of(amounts, c) == old(Amount(usages, id, c)) + Sum(list[..i], c)
      {
        var (category, amount) := IntoCategory(list[i]);
        assert list[..i + 1][..i] == list[..i];
        amounts := amounts[category := Of(amounts, category) + amount];
      }
      assert list[..|list|] == list;
      usages := usages[id := amounts];
    }

    method GetAndResetUsages() returns (r: Usages)
      modifies this
      ensures r == old(usages) && usages == map[]
    {
      r := usages;
      usages := map[];
    }
  }

  datatype Event = Register(id: StackID, list: seq<Usage>) | Drain

  function RegisteredTotal(events: seq<Event>, id: StackID, c: Category): nat {
    if events == [] then 0
    else
      var last := events[|events| - 1];
      RegisteredTotal(events[..|events| - 1], id, c) + if last.Register? && last.id == id then Sum(last.list, c) else 0
  }

  function Drains(events: seq<Event>): nat {
    if events == [] then 0
    else Drains(events[..|events| - 1]) + if events[|events| - 1].Drain? then 1 else 0
  }

  function DrainedTotal(drains: seq<Usages>, id: StackID, c: Category): nat {
    if drains == [] then 0
    else DrainedTotal(drains[..|drains| - 1], id, c) + Amount(drains[|drains| - 1], id, c)
  }

  /** The usage the node reports to the chain for one drained stack; four of the amounts are cut to 64 bits. */
  function Reported(m: Usages, id: StackID): ServiceUsage {
    ServiceUsage(
      Amount(m, id, Instructions), Amount(m, id, Storage),
      Amount(m, id, Reads) % TWO_64, Amount(m, id, Writes) % TWO_64,
      Amount(m, id, Requests) % TWO_64, Amount(m, id, Traffic) % TWO_64)
  }

  function AllReported(drains: seq<Usages>, id: StackID): seq<ServiceUsage> {
    if drains == [] then [] else AllReported(drains[..|drains| - 1], id) + [Reported(drains[|drains| - 1], id)]
  }

  function DrainedUsage(drains: seq<Usages>, id: StackID): ServiceUsage {
    ServiceUsage(
      DrainedTotal(drains, id, Instructions), DrainedTotal(drains, id, Storage),
      DrainedTotal(drains, id, Reads), DrainedTotal(drains, id, Writes),
      DrainedTotal(drains, id, Requests), DrainedTotal(drains, id, Traffic))
  }

  // ---- What is registered ----

  /** One usage, field by field, as the chain counts it: a strong read or write is two weak ones. */
  function FieldsOf(u: Usage): ServiceUsage {
    match u
    case FunctionMBInstructions(memory, instructions) => ServiceUsage(memory * instructions, 0, 0, 0, 0, 0)
    case DBStorage(size, seconds) => ServiceUsage(0, size * seconds, 0, 0, 0, 0)
    case DBRead(weak, strong) => ServiceUsage(0, 0, weak + 2 * strong, 0, 0, 0)
    case DBWrite(weak, strong) => ServiceUsage(0, 0, 0, weak + 2 * strong, 0, 0)
    case GatewayRequests(count) => ServiceUsage(0, 0, 0, 0, count, 0)
    case GatewayTraffic(size) => ServiceUsage(0, 0, 0, 0, 0, size)
  }

  function FieldsOfAll(list: seq<Usage>): ServiceUsage {
    if list == [] then NO_USAGE else Plus(FieldsOfAll(list[..|list| - 1]), FieldsOf(list[|list| - 1]))
  }

  /** Everything registered for a stack, added up field by field. */
  function FieldsRegistered(events: seq<Event>, id: StackID): ServiceUsage {
    if events == [] then NO_USAGE
    else
      var init, last := FieldsRegistered(events[..|events| - 1], id), events[|events| - 1];
      if last.Register? && last.id == id then Plus(init, FieldsOfAll(last.list)) else init
  }

  lemma {:induction false} SumByFields(list: seq<Usage>)
    ensures FieldsOfAll(list) == ServiceUsage(
      Sum(list, Instructions), Sum(list, Storage), Sum(list, Reads), Sum(list, Writes), Sum(list, Requests),
      Sum(list, Traffic))
  {
    if list != [] {
      SumByFields(list[..|list| - 1]);
    }
  }

  /** What is registered in the six categories is what the usages' own fields say. */
  lemma {:induction false} RegisteredByFields(events: seq<Event>, id: StackID)
    ensures RegisteredUsage(events, id) == FieldsRegistered(events, id)
  {
    if events != [] {
      var last := events[|events| - 1];
      RegisteredByFields(events[..|events| - 1], id);
      if last.Register? {
        SumByFields(last.list);
      }
    }
  }

  /** Any mailbox of registrations and drains: nothing is lost and nothing is counted twice. */
  method RunAggregator(events: seq<Event>) returns (drains: seq<Usages>, pending: Usages)
    ensures |drains| == Drains(events)
    ensures forall id: StackID, c: Category ::
      DrainedTotal(drains, id, c) + Amount(pending, id, c) == RegisteredTotal(events, id, c)
  {
    var aggregator := new UsageAggregator();
    drains := [];
    for i := 0 to |events|
      invariant fresh(aggregator)
      invariant |drains| == Drains(events[..i])
      invariant forall id: StackID, c: Category ::
        DrainedTotal(drains, id, c) + Amount(aggregator.usages, id, c) == RegisteredTotal(events[..i], id, c)
    {
      assert events[..i + 1][..i] == events[..i];
      match events[i]
      case Register(id, list) =>
        aggregator.RegisterUsage(id, list);
      case Drain =>
        var drained := aggregator.GetAndResetUsages();
        assert (drains + [drained])[..|drains|] == drains;
        drains := drains + [drained];
    }
    assert events[..|events|] == events;
    pending := aggregator.usages;
  }

  lemma {:induction false} ReportedFits(m: Usages, id: StackID)
    requires Amount(m, id, Reads) < TWO_64 && Amount(m, id, Writes) < TWO_64
    requires Amount(m, id, Requests) < TWO_64 && Amount(m, id, Traffic) < TWO_64
    ensures Reported(m, id) == ServiceUsage(
      Amount(m, id, Instructions), Amount(m, id, Storage), Amount(m, id, Reads), Amount(m, id, Writes),
      Amount(m, id, Requests), Amount(m, id, Traffic))
  {
    CastExact(Amount(m, id, Reads));
    CastExact(Amount(m, id, Writes));
    CastExact(Amount(m, id, Requests));
    CastExact(Amount(m, id, Traffic));
  }

  lemma {:induction false} ReportedTotal(drains: seq<Usages>, id: StackID)
    requires OnChain(DrainedUsage(drains, id))
    ensures |AllReported(drains, id)| == |drains|
    ensures TotalUsage(AllReported(drains, id)) == DrainedUsage(drains, id)
  {
    if drains != [] {
      var init, last := drains[..|drains| - 1], drains[|drains| - 1];
      ReportedTotal(init, id);
      ReportedFits(last, id);
      var all := AllReported(drains, id);
      assert all[..|all| - 1] == AllReported(init, id);
    }
  }

  // ---- What the program charges for the reports ----

  /** Component by component. */
  predicate AtMost(u: ServiceUsage, v: ServiceUsage) {
    && u.functionMbInstructions <= v.functionMbInstructions && u.dbBytesSeconds <= v.dbBytesSeconds
    && u.dbReads <= v.dbReads && u.dbWrites <= v.dbWrites
    && u.gatewayRequests <= v.gatewayRequests && u.gatewayTrafficBytes <= v.gatewayTrafficBytes
  }

  lemma {:induction false} PriceMonotone(r: ServiceRates, u: ServiceUsage, v: ServiceUsage)
    requires AtMost(u, v)
    ensures Price(r, u) <= Price(r, v)
  {
    var rest := ServiceUsage(
      v.functionMbInstructions - u.functionMbInstructions, v.dbBytesSeconds - u.dbBytesSeconds,
      v.dbReads - u.dbReads, v.dbWrites - u.dbWrites,
      v.gatewayRequests - u.gatewayRequests, v.gatewayTrafficBytes - u.gatewayTrafficBytes);
    assert Plus(u, rest) == v;
    PriceOfSum(r, u, rest);
  }

  lemma {:induction false} ProductMonotone(rate: nat, a: nat, b: nat)
    requires a <= b
    ensures rate * a <= rate * b
  {
    assert rate * b == rate * a + rate * (b - a);
  }

  /** The program can compute the price of the usage: every product and the price itself fit. */
  predicate Fits(r: ServiceRates, u: ServiceUsage) {
    ProductsFit(r, u) && Price(r, u) < TWO_64
  }

  lemma {:induction false} FitsMonotone(r: ServiceRates, u: ServiceUsage, v: ServiceUsage)
    requires AtMost(u, v) && Fits(r, v)
    ensures Fits(r, u)
  {
    ProductMonotone(r.functionMbTeraInstructions, u.functionMbInstructions, v.functionMbInstructions);
    ProductMonotone(r.dbGigabyteMonths, u.dbBytesSeconds, v.dbBytesSeconds);
    ProductMonotone(r.millionDbReads, u.dbReads, v.dbReads);
    ProductMonotone(r.millionDbWrites, u.dbWrites, v.dbWrites);
    ProductMonotone(r.millionGatewayRequests, u.gatewayRequests, v.gatewayRequests);
    ProductMonotone(r.gigabytesGatewayTraffic, u.gatewayTrafficBytes, v.gatewayTrafficBytes);
    PriceMonotone(r, u, v);
  }

  /** The program never charges more than the price: overflow charges nothing and casts only lose. */
  lemma {:induction false} CalcUsageAtMostPrice(r: ServiceRates, u: ServiceUsage)
    ensures CalcUsage(r, u).Some? ==> CalcUsage(r, u).value <= Price(r, u)
  {
    var a := MulDiv(r.functionMbTeraInstructions, u.functionMbInstructions, TWO_128, TERA);
    var b := MulDiv(r.dbGigabyteMonths, u.dbBytesSeconds, TWO_128, GIGABYTE_MONTH);
    var c := MulDiv(r.millionDbReads, u.dbReads, TWO_64, MILLION);
    var d := MulDiv(r.millionDbWrites, u.dbWrites, TWO_64, MILLION);
    var e := MulDiv(r.millionGatewayRequests, u.gatewayRequests, TWO_64, MILLION);
    var f := MulDiv(r.gigabytesGatewayTraffic, u.gatewayTrafficBytes, TWO_64, GIGABYTE);
    CheckedSum(CastU64(a), CastU64(b), c, d, e, f);
    if CalcUsage(r, u).Some? {
      CastExact(a.value);
      CastExact(b.value);
    }
  }

  // ---- The same without overflow checks ----

  function WrappedProduct(rate: nat, amount: nat, width: nat, divisor: nat): nat
    requires width > 0 && divisor > 0
  {
    rate * amount % width / divisor
  }

  /** The program's computation when products and sums wrap around instead of failing. */
  function CalcUsageWrapping(r: ServiceRates, u: ServiceUsage): nat {
    (WrappedProduct(r.functionMbTeraInstructions, u.functionMbInstructions, TWO_128, TERA) % TWO_64
     + WrappedProduct(r.dbGigabyteMonths, u.dbBytesSeconds, TWO_128, GIGABYTE_MONTH) % TWO_64
     + WrappedProduct(r.millionDbReads, u.dbReads, TWO_64, MILLION)
     + WrappedProduct(r.millionDbWrites, u.dbWrites, TWO_64, MILLION)
     + WrappedProduct(r.millionGatewayRequests, u.gatewayRequests, TWO_64, MILLION)
     + WrappedProduct(r.gigabytesGatewayTraffic, u.gatewayTrafficBytes, TWO_64, GIGABYTE)) % TWO_64
  }

  lemma {:induction false} WrappedAtMost(rate: nat, amount: nat, width: nat, divisor: nat)
    requires width > 0 && divisor > 0
    ensures WrappedProduct(rate, amount, width, divisor) <= ServicePrice(rate, amount, divisor)
  {
    ModAtMost(rate * amount, width);
    DivMonotone(rate * amount % width, rate * amount, divisor);
  }

  lemma {:induction false} ModAtMost(n: nat, d: nat)
    requires d > 0
    ensures n % d <= n
  {
  }

  lemma {:induction false} DivMonotone(a: nat, b: nat, d: nat)
    requires a <= b && d > 0
    ensures a / d <= b / d
  {
    DivOfSum(a, b - a, d);
  }

  /** Wrapping, too, only loses. */
  lemma {:induction false} WrappingAtMostPrice(r: ServiceRates, u: ServiceUsage)
    ensures CalcUsageWrapping(r, u) <= Price(r, u)
  {
    WrappedAtMost(r.functionMbTeraInstructions, u.functionMbInstructions, TWO_128, TERA);
    WrappedAtMost(r.dbGigabyteMonths, u.dbBytesSeconds, TWO_128, GIGABYTE_MONTH);
    WrappedAtMost(r.millionDbReads, u.dbReads, TWO_64, MILLION);
    WrappedAtMost(r.millionDbWrites, u.dbWrites, TWO_64, MILLION);
    WrappedAtMost(r.millionGatewayRequests, u.gatewayRequests, TWO_64, MILLION);
    WrappedAtMost(r.gigabytesGatewayTraffic, u.gatewayTrafficBytes, TWO_64, GIGABYTE);
    var a := WrappedProduct(r.functionMbTeraInstructions, u.functionMbInstructions, TWO_128, TERA);
    var b := WrappedProduct(r.dbGigabyteMonths, u.dbBytesSeconds, TWO_128, GIGABYTE_MONTH);
    var rest := WrappedProduct(r.millionDbReads, u.dbReads, TWO_64, MILLION)
      + WrappedProduct(r.millionDbWrites, u.dbWrites, TWO_64, MILLION)
      + WrappedProduct(r.millionGatewayRequests, u.gatewayRequests, TWO_64, MILLION)
      + WrappedProduct(r.gigabytesGatewayTraffic, u.gatewayTrafficBytes, TWO_64, GIGABYTE);
    ModAtMost(a, TWO_64);
    ModAtMost(b, TWO_64);
    ModAtMost(a % TWO_64 + b % TWO_64 + rest, TWO_64);
  }

  function TotalWrapped(r: ServiceRates, parts: seq<ServiceUsage>): nat {
    if parts == [] then 0 else TotalWrapped(r, parts[..|parts| - 1]) + CalcUsageWrapping(r, parts[|parts| - 1])
  }

  lemma {:induction false} WrappedPartsAtMostPrice(r: ServiceRates, parts: seq<ServiceUsage>)
    ensures TotalWrapped(r, parts) <= TotalPrice(r, parts)
  {
    if parts != [] {
      WrappedPartsAtMostPrice(r, parts[..|parts| - 1]);
      WrappingAtMostPrice(r, parts[|parts| - 1]);
    }
  }

  /** What a charge takes; a failed one takes nothing. */
  function Taken(r: ServiceRates, u: ServiceUsage): nat {
    var charge := CalcUsage(r, u);
    if charge.Some? then charge.value else 0
  }

  function TotalTaken(r: ServiceRates, parts: seq<ServiceUsage>): nat {
    if parts == [] then 0 else TotalTaken(r, parts[..|parts| - 1]) + Taken(r, parts[|parts| - 1])
  }

  lemma {:induction false} TakenAtMostPrice(r: ServiceRates, parts: seq<ServiceUsage>)
    ensures TotalTaken(r, parts) <= TotalPrice(r, parts)
  {
    if parts != [] {
      TakenAtMostPrice(r, parts[..|parts| - 1]);
      CalcUsageAtMostPrice(r, parts[|parts| - 1]);
    }
  }

  /** When the total fits, every part is charged its full price. */
  lemma {:induction false} TakenIsPrice(r: ServiceRates, parts: seq<ServiceUsage>)
    requires Fits(r, TotalUsage(parts))
    ensures forall u <- parts :: CalcUsage(r, u) == Some(Price(r, u))
    ensures TotalTaken(r, parts) == TotalPrice(r, parts)
  {
    if parts != [] {
      var init, last := parts[..|parts| - 1], parts[|parts| - 1];
      assert parts == init + [last];
      FitsMonotone(r, TotalUsage(init), TotalUsage(parts));
      FitsMonotone(r, last, TotalUsage(parts));
      TakenIsPrice(r, init);
      CalcUsageExact(r, last);
    }
  }

  /** The casts of a report only lose. */
  lemma {:induction false} ReportedAtMostDrained(drains: seq<Usages>, id: StackID)
    ensures |AllReported(drains, id)| == |drains|
    ensures AtMost(TotalUsage(AllReported(drains, id)), DrainedUsage(drains, id))
  {
    if drains != [] {
      var init, last := drains[..|drains| - 1], drains[|drains| - 1];
      ReportedAtMostDrained(init, id);
      CastExact(Amount(last, id, Reads));
      CastExact(Amount(last, id, Writes));
      CastExact(Amount(last, id, Requests));
      CastExact(Amount(last, id, Traffic));
      var all := AllReported(drains, id);
      assert all[..|all| - 1] == AllReported(init, id);
    }
  }

  /** Whatever the amounts and rates, the program takes at most the price of everything drained. */
  lemma {:induction false} NeverOvercharged(r: ServiceRates, drains: seq<Usages>, id: StackID)
    ensures TotalTaken(r, AllReported(drains, id)) <= Price(r, DrainedUsage(drains, id))
  {
    var reports := AllReported(drains, id);
    ReportedAtMostDrained(drains, id);
    TakenAtMostPrice(r, reports);
    if drains != [] {
      PriceInParts(r, reports);
      PriceMonotone(r, TotalUsage(reports), DrainedUsage(drains, id));
    }
  }

  /** Nor would it take more if its arithmetic wrapped around. */
  lemma {:induction false} NeverOverchargedWrapping(r: ServiceRates, drains: seq<Usages>, id: StackID)
    ensures TotalWrapped(r, AllReported(drains, id)) <= Price(r, DrainedUsage(drains, id))
  {
    var reports := AllReported(drains, id);
    ReportedAtMostDrained(drains, id);
    WrappedPartsAtMostPrice(r, reports);
    if drains != [] {
      PriceInParts(r, reports);
      PriceMonotone(r, TotalUsage(reports), DrainedUsage(drains, id));
    }
  }

  /** When the drained totals fit the chain's types and its arithmetic, every report is charged, and all charges
      together fall short of the price of everything drained by at most six tokens per extra drain. */
  lemma {:induction false} BillingBound(r: ServiceRates, drains: seq<Usages>, id: StackID)
    requires drains != [] && OnChain(DrainedUsage(drains, id)) && Fits(r, DrainedUsage(drains, id))
    ensures forall u <- AllReported(drains, id) :: CalcUsage(r, u).Some?
    ensures
      var charged, due := TotalTaken(r, AllReported(drains, id)), Price(r, DrainedUsage(drains, id));
      charged <= due <= charged + 6 * (|drains| - 1)
  {
    ReportedTotal(drains, id);
    TakenIsPrice(r, AllReported(drains, id));
    PriceInParts(r, AllReported(drains, id));
  }

  function RegisteredUsage(events: seq<Event>, id: StackID): ServiceUsage {
    ServiceUsage(
      RegisteredTotal(events, id, Instructions), RegisteredTotal(events, id, Storage),
      RegisteredTotal(events, id, Reads), RegisteredTotal(events, id, Writes),
      RegisteredTotal(events, id, Requests), RegisteredTotal(events, id, Traffic))
  }

  /** What was registered was drained or is pending. */
  ghost predicate Accounted(events: seq<Event>, drains: seq<Usages>, pending: Usages, id: StackID) {
    forall c: Category :: DrainedTotal(drains, id, c) + Amount(pending, id, c) == RegisteredTotal(events, id, c)
  }

  lemma {:induction false} DrainedAtMostRegistered(
    events: seq<Event>, drains: seq<Usages>, pending: Usages, id: StackID)
    requires Accounted(events, drains, pending, id)
    ensures AtMost(DrainedUsage(drains, id), RegisteredUsage(events, id))
    ensures (forall c: Category :: Amount(pending, id, c) == 0) ==>
      DrainedUsage(drains, id) == RegisteredUsage(events, id)
  {
  }

  /** End to end, for any mailbox, one stack and fixed rates. Each drain is reported and charged. The charges never
      exceed the price of what was registered. When what was registered fits, all of them succeed and fall short
      of what was drained by at most six tokens per extra drain; with nothing pending that is all that was
      registered. */
  method BillAggregator(events: seq<Event>, r: ServiceRates, id: StackID)
    returns (drains: seq<Usages>, pending: Usages, charges: seq<Option<nat>>, taken: nat)
    ensures |drains| == Drains(events) && Accounted(events, drains, pending, id)
    ensures |charges| == |drains|
    ensures forall k :: 0 <= k < |charges| ==> charges[k] == CalcUsage(r, Reported(drains[k], id))
    ensures taken == TotalTaken(r, AllReported(drains, id))
    ensures taken <= Price(r, RegisteredUsage(events, id))
    ensures OnChain(RegisteredUsage(events, id)) && Fits(r, RegisteredUsage(events, id)) && drains != [] ==>
      (forall charge <- charges :: charge.Some?) && Price(r, DrainedUsage(drains, id)) <= taken + 6 * (|drains| - 1)
    ensures (forall c: Category :: Amount(pending, id, c) == 0) ==>
      DrainedUsage(drains, id) == RegisteredUsage(events, id)
  {
    drains, pending := RunAggregator(events);
    ReportedAt(drains, id);
    charges, taken := ChargeAll(r, AllReported(drains, id));
    BilledBounds(events, r, drains, pending, id);
  }

  /** Charges every report. */
  method ChargeAll(r: ServiceRates, reports: seq<ServiceUsage>) returns (charges: seq<Option<nat>>, taken: nat)
    ensures |charges| == |reports|
    ensures forall k :: 0 <= k < |charges| ==> charges[k] == CalcUsage(r, reports[k])
    ensures taken == TotalTaken(r, reports)
  {
    charges, taken := [], 0;
    for k := 0 to |reports|
      invariant |charges| == k
      invariant forall j :: 0 <= j < k ==> charges[j] == CalcUsage(r, reports[j])
      invariant taken == TotalTaken(r, reports[..k])
    {
      var charge := CalcUsage(r, reports[k]);
      charges := charges + [charge];
      taken := taken + Taken(r, reports[k]);
      assert reports[..k + 1][..k] == reports[..k];
    }
    assert reports[..|reports|] == reports;
  }

  lemma {:induction false} BilledBounds(
    events: seq<Event>, r: ServiceRates, drains: seq<Usages>, pending: Usages, id: StackID)
    requires Accounted(events, drains, pending, id)
    ensures
      var taken, registered := TotalTaken(r, AllReported(drains, id)), RegisteredUsage(events, id);
      && taken <= Price(r, registered)
      && (OnChain(registered) && Fits(r, registered) && drains != [] ==>
            && (forall u <- AllReported(drains, id) :: CalcUsage(r, u).Some?)
            && Price(r, DrainedUsage(drains, id)) <= taken + 6 * (|drains| - 1))
      && ((forall c: Category :: Amount(pending, id, c) == 0) ==> DrainedUsage(drains, id) == registered)
  {
    DrainedAtMostRegistered(events, drains, pending, id);
    NeverOvercharged(r, drains, id);
    PriceMonotone(r, DrainedUsage(drains, id), RegisteredUsage(events, id));
    if OnChain(RegisteredUsage(events, id)) && Fits(r, RegisteredUsage(events, id)) && drains != [] {
      FitsMonotone(r, DrainedUsage(drains, id), RegisteredUsage(events, id));
      BillingBound(r, drains, id);
    }
  }

  lemma {:induction false} ReportedAt(drains: seq<Usages>, id: StackID)
    ensures |AllReported(drains, id)| == |drains|
    ensures forall k :: 0 <= k < |drains| ==> AllReported(drains, id)[k] == Reported(drains[k], id)
  {
    if drains != [] {
      ReportedAt(drains[..|drains| - 1], id);
    }
  }
}
