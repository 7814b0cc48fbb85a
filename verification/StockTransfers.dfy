/** Issues, and transfers that are dispatched at one worth and received at another. Unit costs and worths
    are given here as the decimal arithmetic computed them, whatever its precision. */
module StockTransfers {
  import opened Options
  import opened StockPosting
  import opened StockProjection
  import opened StockReversal

  function IssueLine(key: Key, q: int, created: nat, returnOnly: bool, reserved: bool, cost: real,
                     worth: real): Operation {
    Post(key.item, Issue, created, returnOnly, cost,
         [Effect(key, Deltas(-q, if reserved then -q else 0, 0, 0, -worth, 0.0))])
  }

  function Dispatch(from: Key, q: int, created: nat, cost: real, worth: real): Operation {
    Post(from.item, TransferOut, created, false, cost, [Effect(from, Deltas(-q, 0, 0, q, -worth, worth))])
  }

  /** The receipt of a dispatched line stores the unit cost that the dispatch stored. */
  function Receive(st: Stock, dispatch: nat, from: Key, to: Key, q: int, created: nat, worth: real): Operation
    requires dispatch < |st.transactions|
  {
    Post(from.item, TransferIn, created, false, st.transactions[dispatch].unitCost as real,
         [Effect(from, Deltas(0, 0, 0, -q, 0.0, -worth)), Effect(to, Deltas(q, 0, 0, 0, worth, 0.0))])
  }

  /** An issue takes its quantity from what is on hand, from what is reserved too when it draws on a
      reservation, and nothing else. */
  lemma IssueTakesStock(st: Stock, key: Key, q: int, created: nat, returnOnly: bool, reserved: bool, cost: real,
                        worth: real)
    requires Posted(st, IssueLine(key, q, created, returnOnly, reserved, cost, worth)).Some?
    ensures var was := Balance(st, key);
      var now := Balance(Posted(st, IssueLine(key, q, created, returnOnly, reserved, cost, worth)).value, key);
      && now.onHand == was.onHand - q && now.quarantined == was.quarantined && now.inTransit == was.inTransit
      && now.reserved == (if reserved then was.reserved - q else was.reserved)
      && now.onHand >= now.reserved + now.quarantined
  {
    var op := IssueLine(key, q, created, returnOnly, reserved, cost, worth);
    SinglePosted(st, op, op.effects[0]);
    hide HalfEven;
  }

  // --- what a transfer leaves behind ----------------------------------------------------------------------

  /** The ledger rows of a dispatch worth w and its receipt worth y, on one bucket. */
  function Flow(from: Key, to: Key, q: int, w: real, y: real, key: Key, f: Field): int {
    (if key != from then 0
     else match f
       case OnHand => -q
       case InventoryValue => -HalfAway(w)
       case TransitValue => HalfAway(w) - HalfAway(y)
       case _ => 0)
    +
    (if key != to then 0
     else match f
       case OnHand => q
       case InventoryValue => HalfAway(y)
       case _ => 0)
  }

  lemma HalfAwayIsOdd(x: real)
    ensures HalfAway(-x) == -HalfAway(x)
  {
  }

  lemma SumOfOne(t: nat, e: Effect, key: Key, f: Field)
    ensures Sum(Booked(t, [e]), key, f) == if e.key == key then Recorded(e.deltas).Get(f) else 0
  {
    hide Recorded;
    var booked := Booked(t, [e]);
    assert booked[..0] == [] && Sum([], key, f) == 0;
  }

  lemma SumOfTwo(t: nat, a: Effect, b: Effect, key: Key, f: Field)
    ensures Sum(Booked(t, [a, b]), key, f) ==
            (if a.key == key then Recorded(a.deltas).Get(f) else 0) +
            (if b.key == key then Recorded(b.deltas).Get(f) else 0)
  {
    hide Recorded, Sum;
    assert Booked(t, [a, b]) == Booked(t, [a]) + Booked(t, [b]);
    SumJoins(Booked(t, [a]), Booked(t, [b]), key, f);
    SumOfOne(t, a, key, f);
    SumOfOne(t, b, key, f);
  }

  lemma FlowOfRows(from: Key, to: Key, q: int, w: real, y: real, key: Key, f: Field)
    ensures Flow(from, to, q, w, y, key, f) ==
            (if from == key then Recorded(Deltas(-q, 0, 0, q, -w, w)).Get(f) else 0) +
            (if from == key then Recorded(Deltas(0, 0, 0, -q, 0.0, -y)).Get(f) else 0) +
            (if to == key then Recorded(Deltas(q, 0, 0, 0, y, 0.0)).Get(f) else 0)
  {
    HalfAwayIsOdd(w);
    HalfAwayIsOdd(y);
    WholeDeltasDoNotDrift(0, 0);
    assert HalfAway(0.0) == 0;
    hide HalfAway;
  }

  /** Any run, a dispatch, any run, and its receipt. */
  ghost predicate Transferred(before: seq<Operation>, dispatch: Operation, from: Key, to: Key, q: int,
                              between: seq<Operation>, arrived: nat, y: real) {
    var st := Run(EMPTY, before);
    var posted := Posted(st, dispatch);
    && q > 0 && from.item == to.item && posted.Some?
    && |st.transactions| < |Run(posted.value, between).transactions|
    && var later := Run(posted.value, between);
       Posted(later, Receive(later, |st.transactions|, from, to, q, arrived, y)).Some?
  }

  /** Whatever happens between dispatch and receipt, and whatever the two worths w and y are, the
      transfer's own ledger rows move the quantity from one bucket to the other and leave nothing in
      transit; what leaves one inventory value and what enters the other are the rounded worths, and
      their difference stays in transit. The receipt works from the stored unit cost of the dispatch. */
  lemma TransferLeavesResidue(before: seq<Operation>, from: Key, to: Key, q: int, sent: nat, cost: real, w: real,
                              between: seq<Operation>, arrived: nat, y: real, key: Key, f: Field)
    requires Transferred(before, Dispatch(from, q, sent, cost, w), from, to, q, between, arrived, y)
    ensures var st := Run(EMPTY, before);
      var posted := Posted(st, Dispatch(from, q, sent, cost, w)).value;
      var later := Run(posted, between);
      var after := Posted(later, Receive(later, |st.transactions|, from, to, q, arrived, y)).value;
      var moved := Sum(later.entries, key, f) - Sum(posted.entries, key, f);
      var flow := Flow(from, to, q, w, y, key, f);
      && Balance(st, from).onHand >= q
      && later.transactions[|st.transactions|].unitCost == HalfAway(cost)
      && Sum(after.entries, key, f) - Sum(st.entries, key, f) == moved + flow
      && (Quantity(f) ==> Balance(after, key).Get(f) - Balance(st, key).Get(f) == moved + flow)
  {
    hide Sum, Run, Recorded, Flow, HalfAway, Orderly, Booked;
    var st := Run(EMPTY, before);
    var dispatch := Dispatch(from, q, sent, cost, w);
    SinglePosted(st, dispatch, dispatch.effects[0]);
    StepBooks(st, dispatch);
    var posted, t := Posted(st, dispatch).value, |st.transactions|;
    var later := Run(posted, between);
    RunGrows(posted, between);
    assert later.transactions[t] == posted.transactions[t];
    var receive := Receive(later, t, from, to, q, arrived, y);
    StepBooks(later, receive);
    var after := Posted(later, receive).value;
    SumJoins(st.entries, Booked(t, dispatch.effects), key, f);
    SumOfOne(t, dispatch.effects[0], key, f);
    SumJoins(later.entries, Booked(|later.transactions|, receive.effects), key, f);
    SumOfTwo(|later.transactions|, receive.effects[0], receive.effects[1], key, f);
    FlowOfRows(from, to, q, w, y, key, f);
    EmptyIsOrderly();
    RunsAreOrderly(EMPTY, before);
    PostedIsOrderly(st, dispatch);
    RunsAreOrderly(posted, between);
    PostedIsOrderly(later, receive);
    QuantitiesAgree(st, key, f);
    QuantitiesAgree(after, key, f);
  }

  /** The three values of a transfer add up to nothing: no value is made or lost, only left behind. */
  lemma ValueIsConserved(from: Key, to: Key, q: int, w: real, y: real)
    requires from != to
    ensures Flow(from, to, q, w, y, from, InventoryValue) + Flow(from, to, q, w, y, from, TransitValue) +
            Flow(from, to, q, w, y, to, InventoryValue) + Flow(from, to, q, w, y, to, TransitValue) == 0
    ensures forall f :: Quantity(f) ==> Flow(from, to, q, w, y, from, f) + Flow(from, to, q, w, y, to, f) == 0
    ensures forall key, f :: key != from && key != to ==> Flow(from, to, q, w, y, key, f) == 0
  {
    hide HalfAway;
  }
}
