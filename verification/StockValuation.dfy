/** Valuation at average cost: how far the decimal quotients that the service computes may be from the exact
    average, and what that makes of issues and transfers. */
module StockValuation {
  import opened Options
  import opened StockPosting
  import opened StockReversal
  import opened StockTransfers

  const SCALE := 10000.0

  /** The average unit cost of a bucket in hundred-millionths. */
  function ExactCost(a: Amounts): real
    requires a.onHand > 0
  {
    SCALE * a.inventoryValue as real / a.onHand as real
  }

  /** What a quantity is worth at a unit cost. */
  function Worth(q: int, cost: real): real {
    q as real * cost / SCALE
  }

  predicate Near(x: real, y: real, distance: real) {
    -distance <= x - y <= distance
  }

  // --- products ---------------------------------------------------------------------------------------

  function Times(x: real, y: real): real {
    x * y
  }

  lemma TimesLaws(m: real, x: real, y: real)
    ensures Times(m, x - y) == Times(m, x) - Times(m, y)
    ensures Times(m, x) == Times(x, m)
    ensures m >= 0.0 && x >= 0.0 ==> Times(m, x) >= 0.0
    ensures Times(m, 0.5) == m / 2.0
  {
  }

  lemma ProductsApart(m: real, x: real, y: real, h: real)
    requires m >= 0.0 && Near(x, y, h)
    ensures Near(Times(m, x), Times(m, y), Times(m, h))
  {
    TimesLaws(m, x, y - h);
    TimesLaws(m, y, x - h);
    TimesLaws(m, x, h);
    TimesLaws(m, y, h);
    TimesLaws(m, x - (y - h), 0.0);
    TimesLaws(m, y - (x - h), 0.0);
    hide Times;
  }

  lemma WholeTimes(a: int, b: int)
    ensures Times(a as real, b as real) == (a * b) as real
  {
  }

  lemma WorthByTimes(q: int, cost: real)
    ensures Worth(q, cost) == Times(q as real, cost) / SCALE
  {
  }

  lemma RoundingIsNear(x: real)
    ensures Near(HalfEven(x) as real, x, 0.5) && Near(HalfAway(x) as real, x, 0.5)
  {
    HalfAwayByFloor(x);
  }

  // --- the average survives an issue --------------------------------------------------------------------

  lemma WorthOfPart(a: Amounts, q: int)
    requires 0 < q <= a.onHand
    ensures Times(Worth(q, ExactCost(a)), a.onHand as real) == (q * a.inventoryValue) as real
    ensures q == a.onHand ==> Worth(q, ExactCost(a)) == a.inventoryValue as real
  {
    var v, n, m := a.inventoryValue as real, a.onHand as real, q as real;
    var cost := SCALE * v / n;
    assert cost * n == SCALE * v;
    calc {
      m * cost / SCALE * n;
      m * (cost * n) / SCALE;
      m * (SCALE * v) / SCALE;
      m * v;
    }
    if q == a.onHand {
      SameFactor(Worth(q, cost), v, n);
    }
  }

  lemma SameFactor(x: real, y: real, n: real)
    requires n != 0.0 && x * n == n * y
    ensures x == y
  {
  }

  /** A value v of n pieces and a value w of m pieces have the same average, up to half a unit of value
      and e. */
  predicate SameAverage(v: int, n: int, w: int, m: int, e: real) {
    Near((w * n) as real, (v * m) as real, (0.5 + e) * n as real)
  }

  /** The bucket's value is as near to the old average as whole hundred-millionths allow, up to e; and a
      bucket that is emptied keeps no value at all when e is less than half a unit. */
  predicate KeepsAverage(before: Amounts, after: Amounts, e: real) {
    && SameAverage(before.inventoryValue, before.onHand, after.inventoryValue, after.onHand, e)
    && (after.onHand == 0 && e < 0.5 ==> after.inventoryValue == 0)
  }

  /** An issue or a dispatch whose worth is within e of the exact one keeps the average. */
  lemma OutflowKeepsAverage(st: Stock, key: Key, q: int, created: nat, returnOnly: bool, reserved: bool,
                            cost: real, w: real, e: real, op: Operation)
    requires q > 0 && Posted(st, op).Some?
    requires op == IssueLine(key, q, created, returnOnly, reserved, cost, w) || op == Dispatch(key, q, created, cost, w)
    requires Balance(st, key).onHand > 0 ==> Near(w, Worth(q, ExactCost(Balance(st, key))), e)
    ensures var before, after := Balance(st, key), Balance(Posted(st, op).value, key);
      0 < q <= before.onHand && after.onHand == before.onHand - q && KeepsAverage(before, after, e)
  {
    hide HalfEven, HalfAway, Worth, ExactCost, Near, KeepsAverage;
    SinglePosted(st, op, op.effects[0]);
    var before, after := Balance(st, key), Balance(Posted(st, op).value, key);
    assert before.inventoryValue as real + -w == before.inventoryValue as real - w;
    AverageIsKept(before, after, q, w, e);
  }

  lemma AverageIsKept(a: Amounts, b: Amounts, q: int, w: real, e: real)
    requires 0 < q <= a.onHand && Near(w, Worth(q, ExactCost(a)), e)
    requires b.inventoryValue == HalfEven(a.inventoryValue as real - w) && b.onHand == a.onHand - q
    ensures KeepsAverage(a, b, e)
  {
    hide HalfEven, Worth, ExactCost, Times, Near, SameAverage;
    WorthOfPart(a, q);
    RoundingIsNear(a.inventoryValue as real - w);
    NearAverage(a.onHand, q, a.inventoryValue, Worth(q, ExactCost(a)), w, e, b.inventoryValue, b.onHand);
    if b.onHand == 0 && e < 0.5 {
      NoValueLeft(a.inventoryValue as real, w, e);
    }
  }

  lemma NoValueLeft(value: real, w: real, e: real)
    requires Near(w, value, e) && e < 0.5
    ensures HalfEven(value - w) == 0
  {
  }

  lemma NearAverage(n: int, q: int, v: int, exact: real, w: real, e: real, value: int, rest: int)
    requires 0 < q <= n && rest == n - q && Times(exact, n as real) == (q * v) as real
    requires Near(w, exact, e) && Near(value as real, v as real - w, 0.5)
    ensures SameAverage(v, n, value, rest, e)
  {
    hide Times;
    ProductsApart(n as real, value as real, v as real - exact, 0.5 + e);
    TimesLaws(n as real, v as real, exact);
    TimesLaws(n as real, exact, 0.0);
    TimesLaws(n as real, 0.5 + e, 0.0);
    WholeTimes(n, value);
    WholeTimes(n, v);
    TimesIsProduct(0.5 + e, n as real);
    WholeRest(n, q, v, value, rest);
  }

  lemma WholeRest(n: int, q: int, v: int, value: int, rest: int)
    requires rest == n - q
    ensures n * value == value * n && n * v - q * v == v * rest
  {
  }

  lemma TimesIsProduct(x: real, y: real)
    ensures Times(x, y) == x * y
  {
  }

  // --- the residue of a transfer --------------------------------------------------------------------------

  /** With a unit cost and worths within e of the exact ones, what a transfer leaves in transit is at most
      one unit plus half a unit per whole unit of quantity, up to e. */
  lemma ResidueIsBounded(a: Amounts, q: int, cost: real, w: real, y: real, e: real)
    requires a.onHand > 0 && q >= 0 && Near(cost, ExactCost(a), e)
    requires Near(w, Worth(q, ExactCost(a)), e) && Near(y, Worth(q, HalfAway(cost) as real), e)
    ensures Near((20000 * HalfAway(w)) as real, (20000 * HalfAway(y)) as real, (1.0 + 2.0 * e) * (20000 + q) as real)
  {
    var c := HalfAway(cost) as real;
    RoundingIsNear(cost);
    RoundingIsNear(w);
    RoundingIsNear(y);
    hide HalfAway, HalfEven, Worth, ExactCost, Times;
    ProductsApart(q as real, ExactCost(a), c, 0.5 + e);
    WorthByTimes(q, ExactCost(a));
    WorthByTimes(q, c);
    TimesLaws(q as real, 0.5 + e, 0.0);
    Spread(q, e);
    assert (20000 * HalfAway(w)) as real == 20000.0 * HalfAway(w) as real;
    assert (20000 * HalfAway(y)) as real == 20000.0 * HalfAway(y) as real;
  }

  lemma Spread(q: int, e: real)
    ensures (1.0 + 2.0 * e) * (20000 + q) as real == 20000.0 + 40000.0 * e + 2.0 * Times(q as real, 0.5 + e)
  {
    assert (20000 + q) as real == 20000.0 + q as real;
  }

  /** With exact quotients, no residue is left when the average cost is a whole number of hundred-millionths. */
  lemma WholeCostLeavesNothing(a: Amounts, q: int)
    requires a.onHand > 0 && (10000 * a.inventoryValue) % a.onHand == 0
    ensures Worth(q, HalfAway(ExactCost(a)) as real) == Worth(q, ExactCost(a))
  {
    var n := 10000 * a.inventoryValue / a.onHand;
    assert n * a.onHand == 10000 * a.inventoryValue;
    assert ExactCost(a) * a.onHand as real == n as real * a.onHand as real;
    SameFactor(ExactCost(a), n as real, a.onHand as real);
    WholeDeltasDoNotDrift(0, n);
    hide HalfEven, HalfAway;
  }

  const THREE_UNITS := Amounts(30000, 0, 0, 0, 1, 0)

  /** Three whole units worth one hundred-millionth in all: a transfer that dispatches any worth from half
      a unit up to the exact one, as 28 digits do, leaves that value in transit, and the receiving bucket
      gets three units worth nothing. */
  lemma WholeValueCanStayBehind(cost: real, w: real)
    requires Near(cost, ExactCost(THREE_UNITS), 0.1) && 0.5 <= w <= 1.0
    ensures Worth(30000, ExactCost(THREE_UNITS)) == 1.0
    ensures HalfAway(w) == 1 && HalfAway(cost) == 0 && HalfAway(Worth(30000, HalfAway(cost) as real)) == 0
  {
    ThirdOfAUnit(ExactCost(THREE_UNITS));
    RoundedSmall(cost);
    RoundedSmall(0.0);
    HalfAwayByFloor(w);
    assert Worth(30000, 0.0) == 0.0;
    hide HalfAway, HalfEven, Worth;
  }

  lemma ThirdOfAUnit(cost: real)
    requires cost == SCALE * 1.0 / 30000.0
    ensures 0.3 < cost < 0.35 && Worth(30000, cost) == 1.0
  {
  }

  lemma RoundedSmall(x: real)
    requires 0.0 <= x < 0.5
    ensures HalfAway(x) == 0
  {
  }

  const TWENTY_EIGHT_UNITS := Amounts(280000, 0, 0, 0, 1, 0)
  const DIGITS := 0.03571428571428571428571428571

  /** On a tie the digits decide: half of 28 units worth one hundred-millionth is exactly half of it, which
      the ledger would round up, but at the 28-digit quotient it is worth less and is rounded down; nothing
      leaves with the goods and nothing stays in transit. */
  lemma DigitsDecideTies()
    ensures Worth(140000, ExactCost(TWENTY_EIGHT_UNITS)) == 0.5 && HalfAway(0.5) == 1
    ensures DIGITS < ExactCost(TWENTY_EIGHT_UNITS) < DIGITS + 0.00000000000000000000000000001
    ensures HalfAway(Worth(140000, DIGITS)) == 0 && HalfAway(DIGITS) == 0
  {
    var exact := SCALE * 1.0 / 280000.0;
    assert ExactCost(TWENTY_EIGHT_UNITS) == exact;
    assert 28.0 * exact == 1.0;
    assert Worth(140000, exact) == 0.5 && 0.0 <= Worth(140000, DIGITS) < 0.5;
    assert (0.5).Floor == 0;
    HalfAwayByFloor(0.5);
    RoundedSmall(Worth(140000, DIGITS));
    RoundedSmall(DIGITS);
    hide HalfAway, HalfEven, Worth;
  }

  // --- arithmetic with 28 digits ----------------------------------------------------------------------------

  /** What rounding to 28 significant digits guarantees: a relative error below one in 10^27. */
  ghost predicate Accurate(round: real -> real) {
    forall x :: Near(round(x), x, Size(x) / 1_000_000_000_000_000_000_000_000_000.0)
  }

  function Size(x: real): real {
    if x >= 0.0 then x else -x
  }

  /** For values, quantities and costs that their columns can hold, what the service computes with such
      arithmetic is within a hundredth of a unit of the exact cost and worths. */
  lemma DigitsAreNear(round: real -> real, a: Amounts, q: int)
    requires Accurate(round) && 0 < q <= a.onHand < 1_000_000_000_000_000_000
    requires Size(a.inventoryValue as real) < 1_000_000_000_000_000_000_000_000.0
    requires Size(ExactCost(a)) < 1_000_000_000_000_000_000.0
    ensures var cost := round(ExactCost(a));
      && Near(cost, ExactCost(a), 0.01)
      && Near(round(Worth(q, cost)), Worth(q, ExactCost(a)), 0.01)
      && Near(round(Worth(q, HalfAway(cost) as real)), Worth(q, HalfAway(cost) as real), 0.01)
  {
    var exact := ExactCost(a);
    var cost := round(exact);
    var c := HalfAway(cost) as real;
    RoundingIsNear(cost);
    WorthIsPart(a, q);
    hide HalfAway, HalfEven, ExactCost, Worth, Times;
    RelativeError(q, exact);
    ProductsApart(q as real, cost, exact, Size(exact) / 1_000_000_000_000_000_000_000_000_000.0);
    ProductsApart(q as real, c, exact, 0.51);
    WorthByTimes(q, cost);
    WorthByTimes(q, exact);
    WorthByTimes(q, c);
    SmallFactor(q as real);
  }

  lemma SmallFactor(m: real)
    ensures Times(m, 0.51) == m * 0.51
  {
  }

  lemma RelativeError(q: int, x: real)
    requires q >= 0
    ensures Times(q as real, Size(x) / 1_000_000_000_000_000_000_000_000_000.0) ==
            Size(Times(q as real, x)) / 1_000_000_000_000_000_000_000_000_000.0
  {
    var m := q as real;
    assert x >= 0.0 ==> m * x >= 0.0;
    assert x < 0.0 ==> m * x <= 0.0;
    assert m * -x == -(m * x);
  }

  /** Part of a bucket is worth no more than all of it. */
  lemma WorthIsPart(a: Amounts, q: int)
    requires 0 < q <= a.onHand
    ensures Size(Worth(q, ExactCost(a))) <= Size(a.inventoryValue as real)
  {
    var w, v, n, m := Worth(q, ExactCost(a)), a.inventoryValue as real, a.onHand as real, q as real;
    WorthOfPart(a, q);
    assert w * n == m * v by { WholeTimes(q, a.inventoryValue); }
    hide Worth, ExactCost;
    PartOf(w, v, n, m);
  }

  lemma PartOf(w: real, v: real, n: real, m: real)
    requires 0.0 < m <= n && w * n == m * v
    ensures Size(w) <= Size(v)
  {
    if v >= 0.0 {
      assert m * v <= n * v;
      assert w * n <= v * n;
    } else {
      assert m * v >= n * v;
      assert w * n >= v * n;
    }
  }
}
