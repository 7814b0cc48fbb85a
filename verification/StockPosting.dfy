/** Inventory posting: bucket balances kept beside a ledger of signed effects, and reversals that
    post a transaction's ledger entries with the opposite sign. Quantities are integers in
    ten-thousandths; stored values are integers in hundred-millionths, computed ones are reals. */
module StockPosting {
  import opened Options

  type Uuid = nat

  datatype Key = Key(item: Uuid, store: Uuid, bin: Option<Uuid>, lot: Option<Uuid>)

  datatype Field = OnHand | Reserved | Quarantined | InTransit | InventoryValue | TransitValue

  datatype Amounts = Amounts(onHand: int, reserved: int, quarantined: int, inTransit: int,
                             inventoryValue: int, transitValue: int) {
    function Get(f: Field): int {
      match f
      case OnHand => onHand
      case Reserved => reserved
      case Quarantined => quarantined
      case InTransit => inTransit
      case InventoryValue => inventoryValue
      case TransitValue => transitValue
    }
  }

  const ZERO := Amounts(0, 0, 0, 0, 0, 0)

  /** Signed changes of one bucket; values as computed, before any rounding. */
  datatype Deltas = Deltas(onHand: int, reserved: int, quarantined: int, inTransit: int,
                           inventoryValue: real, transitValue: real)

  function Exact(a: Amounts): Deltas {
    Deltas(a.onHand, a.reserved, a.quarantined, a.inTransit, a.inventoryValue as real, a.transitValue as real)
  }

  function Negated(a: Amounts): Deltas {
    Exact(Amounts(-a.onHand, -a.reserved, -a.quarantined, -a.inTransit, -a.inventoryValue, -a.transitValue))
  }

  // --- two roundings ----------------------------------------------------------------------------

  /** The quantize of the balance update: ties go to the even neighbour. */
  function HalfEven(x: real): int {
    var below := x.Floor;
    if x - below as real < 0.5 then below
    else if x - below as real > 0.5 then below + 1
    else if below % 2 == 0 then below else below + 1
  }

  /** The rounding of the ledger column on insert: ties go away from zero. */
  function HalfAway(x: real): int {
    if x >= 0.0 then (x + 0.5).Floor else -((-x + 0.5).Floor)
  }

  predicate Tie(d: real) {
    d - d.Floor as real == 0.5
  }

  /** How far the two roundings part when d is added to a stored value v. */
  function Drift(v: int, d: real): int {
    HalfEven(v as real + d) - v - HalfAway(d)
  }

  lemma FloorShift(v: int, d: real)
    ensures (v as real + d).Floor == v + d.Floor
  {
  }

  lemma HalfAwayByFloor(d: real)
    ensures d - d.Floor as real < 0.5 ==> HalfAway(d) == d.Floor
    ensures d - d.Floor as real > 0.5 ==> HalfAway(d) == d.Floor + 1
    ensures Tie(d) ==> HalfAway(d) == if d >= 0.0 then d.Floor + 1 else d.Floor
  {
    var n := d.Floor;
    if d >= 0.0 {
      var m := (d + 0.5).Floor;
    } else {
      var m := (-d + 0.5).Floor;
    }
  }

  /** They part by one, and only on a tie: an increase that lands after an even neighbour below, or
      a decrease that lands after an odd one. */
  lemma DriftExactly(v: int, d: real)
    ensures Drift(v, d) ==
            if !Tie(d) then 0
            else if d >= 0.0 then (if (v + d.Floor) % 2 == 0 then -1 else 0)
            else (if (v + d.Floor) % 2 == 0 then 0 else 1)
  {
    FloorShift(v, d);
    HalfAwayByFloor(d);
  }

  lemma WholeDeltasDoNotDrift(v: int, n: int)
    ensures Drift(v, n as real) == 0 && HalfEven(v as real + n as real) == v + n
  {
    assert (n as real).Floor == n;
    DriftExactly(v, n as real);
    HalfAwayByFloor(n as real);
  }

  /** Both roundings go to a nearest whole number; on a tie one takes the even neighbour, the other the one
      further from zero. */
  lemma RoundingsAreNearest(x: real)
    ensures -0.5 <= HalfEven(x) as real - x <= 0.5 && -0.5 <= HalfAway(x) as real - x <= 0.5
    ensures Tie(x) ==> HalfEven(x) % 2 == 0
    ensures Tie(x) ==> if x >= 0.0 then HalfAway(x) as real > x else (HalfAway(x) as real) < x
  {
    HalfAwayByFloor(x);
  }

  // --- effects on one bucket ----------------------------------------------------------------------

  function After(a: Amounts, d: Deltas): Amounts {
    Amounts(a.onHand + d.onHand, a.reserved + d.reserved, a.quarantined + d.quarantined,
            a.inTransit + d.inTransit,
            HalfEven(a.inventoryValue as real + d.inventoryValue),
            HalfEven(a.transitValue as real + d.transitValue))
  }

  /** The ledger row of an effect as the database stores it. */
  function Recorded(d: Deltas): Amounts {
    Amounts(d.onHand, d.reserved, d.quarantined, d.inTransit,
            HalfAway(d.inventoryValue), HalfAway(d.transitValue))
  }

  predicate Overdrawn(a: Amounts) {
    a.onHand < 0 || a.reserved < 0 || a.quarantined < 0 || a.inTransit < 0
    || a.onHand - a.reserved - a.quarantined < 0
  }

  function FieldDrift(a: Amounts, d: Deltas, f: Field): int {
    match f
    case InventoryValue => Drift(a.inventoryValue, d.inventoryValue)
    case TransitValue => Drift(a.transitValue, d.transitValue)
    case _ => 0
  }

  // --- transactions -------------------------------------------------------------------------------

  datatype Kind = OpeningBalance | PurchaseReceipt | OtherReceipt | Issue
                | TransferOut | TransferIn | OtherMovement | Reversal

  /** Unit costs are stored in hundred-millionths. */
  datatype Transaction = Transaction(item: Uuid, kind: Kind, created: nat, returnOnly: bool, unitCost: int,
                                     reversalOf: Option<nat>)
  datatype Entry = Entry(transaction: nat, key: Key, amounts: Amounts)
  datatype Effect = Effect(key: Key, deltas: Deltas)

  /** Transactions are identified by their position. */
  datatype Stock = Stock(transactions: seq<Transaction>, balances: map<Key, Amounts>, entries: seq<Entry>)

  const EMPTY := Stock([], map[], [])

  function Balance(st: Stock, key: Key): Amounts {
    if key in st.balances then st.balances[key] else ZERO
  }

  /** One effect: the bucket is updated and the ledger row added, unless stock would be short. */
  function PostOne(st: Stock, transaction: nat, e: Effect): Option<Stock> {
    var after := After(Balance(st, e.key), e.deltas);
    if Overdrawn(after) then None
    else Some(st.(balances := st.balances[e.key := after],
                  entries := st.entries + [Entry(transaction, e.key, Recorded(e.deltas))]))
  }

  /** An effect is refused if and only if it would leave a quantity negative, or less on hand than is
      reserved or quarantined. */
  lemma RefusedExactly(st: Stock, transaction: nat, e: Effect)
    ensures var b, d := Balance(st, e.key), e.deltas;
      PostOne(st, transaction, e).None? <==>
        || b.onHand + d.onHand < 0 || b.reserved + d.reserved < 0 || b.quarantined + d.quarantined < 0
        || b.inTransit + d.inTransit < 0
        || b.onHand + d.onHand < b.reserved + d.reserved + b.quarantined + d.quarantined
  {
  }

  /** Otherwise the bucket's quantities move by the deltas and its values to a nearest whole number, and no
      other bucket moves. */
  lemma EffectIsBooked(st: Stock, transaction: nat, e: Effect, other: Key)
    requires PostOne(st, transaction, e).Some?
    ensures var b, d, after := Balance(st, e.key), e.deltas, PostOne(st, transaction, e).value;
      var now := Balance(after, e.key);
      && now.onHand == b.onHand + d.onHand && now.reserved == b.reserved + d.reserved
      && now.quarantined == b.quarantined + d.quarantined && now.inTransit == b.inTransit + d.inTransit
      && -0.5 <= now.inventoryValue as real - (b.inventoryValue as real + d.inventoryValue) <= 0.5
      && -0.5 <= now.transitValue as real - (b.transitValue as real + d.transitValue) <= 0.5
      && (other != e.key ==> Balance(after, other) == Balance(st, other))
      && after.transactions == st.transactions
  {
    var b, d := Balance(st, e.key), e.deltas;
    RoundingsAreNearest(b.inventoryValue as real + d.inventoryValue);
    RoundingsAreNearest(b.transitValue as real + d.transitValue);
    hide HalfEven;
  }

  function PostAll(st: Stock, transaction: nat, effects: seq<Effect>): Option<Stock>
    decreases |effects|
  {
    if effects == [] then Some(st)
    else
      var before := PostAll(st, transaction, effects[..|effects| - 1]);
      if before.None? then None else PostOne(before.value, transaction, effects[|effects| - 1])
  }

  datatype Operation =
    | Post(item: Uuid, kind: Kind, created: nat, returnOnly: bool, unitCost: real, effects: seq<Effect>)
    | Reverse(original: nat, created: nat)

  function EntriesOf(entries: seq<Entry>, transaction: nat): seq<Entry>
    decreases |entries|
  {
    if entries == [] then []
    else
      var last := entries[|entries| - 1];
      EntriesOf(entries[..|entries| - 1], transaction) + if last.transaction == transaction then [last] else []
  }

  function Undo(entries: seq<Entry>): seq<Effect> {
    seq(|entries|, i requires 0 <= i < |entries| => Effect(entries[i].key, Negated(entries[i].amounts)))
  }

  predicate Reversed(st: Stock, original: nat) {
    exists t :: t in st.transactions && t.reversalOf == Some(original)
  }

  predicate MovedSince(st: Stock, original: nat)
    requires original < |st.transactions|
  {
    var o := st.transactions[original];
    exists t :: t in st.transactions && t.item == o.item && t.created > o.created
  }

  /** The guards of a reversal. */
  predicate Reversible(st: Stock, original: nat) {
    && original < |st.transactions|
    && !Reversed(st, original)
    && st.transactions[original].kind in {Issue, OpeningBalance, PurchaseReceipt, OtherReceipt}
    && !MovedSince(st, original)
    && (st.transactions[original].kind == Issue ==> !st.transactions[original].returnOnly)
  }

  /** A posting books effects on its own item's buckets, and is never booked as a reversal. */
  predicate Allowed(st: Stock, op: Operation) {
    match op
    case Post(item, kind, _, _, _, effects) => kind != Reversal && forall e :: e in effects ==> e.key.item == item
    case Reverse(original, _) => Reversible(st, original)
  }

  /** The transaction row an operation books. */
  function Row(st: Stock, op: Operation): Transaction
    requires Allowed(st, op)
  {
    match op
    case Post(item, kind, created, returnOnly, unitCost, _) =>
      Transaction(item, kind, created, returnOnly, HalfAway(unitCost), None)
    case Reverse(original, created) =>
      var o := st.transactions[original];
      Transaction(o.item, Reversal, created, o.returnOnly, o.unitCost, Some(original))
  }

  /** The effects it books: those of a movement, or a transaction's ledger rows turned round. */
  function Effects(st: Stock, op: Operation): seq<Effect> {
    if op.Post? then op.effects else Undo(EntriesOf(st.entries, op.original))
  }

  function Begin(st: Stock, op: Operation): Stock
    requires Allowed(st, op)
  {
    st.(transactions := st.transactions + [Row(st, op)])
  }

  function Posted(st: Stock, op: Operation): Option<Stock> {
    if Allowed(st, op) then PostAll(Begin(st, op), |st.transactions|, Effects(st, op)) else None
  }

  // --- what it takes to be posted ------------------------------------------------------------------

  datatype Quantities = Quantities(onHand: int, reserved: int, quarantined: int, inTransit: int)

  /** What effects add to one bucket's quantities. */
  function Moved(effects: seq<Effect>, key: Key): Quantities
    decreases |effects|
  {
    if effects == [] then Quantities(0, 0, 0, 0)
    else
      var before, last := Moved(effects[..|effects| - 1], key), effects[|effects| - 1];
      if last.key != key then before
      else Quantities(before.onHand + last.deltas.onHand, before.reserved + last.deltas.reserved,
                      before.quarantined + last.deltas.quarantined, before.inTransit + last.deltas.inTransit)
  }

  /** After these effects the bucket would have a negative quantity, or less on hand than is reserved or
      quarantined. */
  predicate Short(st: Stock, effects: seq<Effect>, key: Key) {
    var b, m := Balance(st, key), Moved(effects, key);
    || b.onHand + m.onHand < 0 || b.reserved + m.reserved < 0 || b.quarantined + m.quarantined < 0
    || b.inTransit + m.inTransit < 0
    || b.onHand + m.onHand < b.reserved + m.reserved + b.quarantined + m.quarantined
  }

  /** The first effects, one after another, leave none of their buckets short. */
  predicate Covered(st: Stock, effects: seq<Effect>) {
    forall n :: 0 < n <= |effects| ==> !Short(st, effects[..n], effects[n - 1].key)
  }

  /** Every bucket's quantities moved as the effects say. */
  ghost predicate MovedBy(was: Stock, now: Stock, effects: seq<Effect>) {
    forall key :: var b, m, a := Balance(was, key), Moved(effects, key), Balance(now, key);
      && a.onHand == b.onHand + m.onHand && a.reserved == b.reserved + m.reserved
      && a.quarantined == b.quarantined + m.quarantined && a.inTransit == b.inTransit + m.inTransit
  }

  /** A posting succeeds if and only if it is allowed and none of its effects, in their order, leaves its
      bucket short; then every bucket has moved by the sums of its deltas, and the transaction is there. */
  lemma PostedIff(st: Stock, op: Operation)
    ensures Posted(st, op).Some? <==> Allowed(st, op) && Covered(st, Effects(st, op))
    ensures Posted(st, op).Some? ==> MovedBy(st, Posted(st, op).value, Effects(st, op))
  {
    hide PostAll, Allowed, Covered, Effects, Moved, Short;
    if Allowed(st, op) {
      var begun := Begin(st, op);
      EffectsAreBooked(begun, |st.transactions|, Effects(st, op));
      SameBalances(st, begun, Effects(st, op));
    }
  }

  lemma SameBalances(st: Stock, begun: Stock, effects: seq<Effect>)
    requires begun.balances == st.balances
    ensures Covered(begun, effects) <==> Covered(st, effects)
    ensures forall key :: Balance(begun, key) == Balance(st, key)
  {
    forall n | 0 < n <= |effects|
      ensures Short(begun, effects[..n], effects[n - 1].key) <==> Short(st, effects[..n], effects[n - 1].key)
    {
    }
    hide Short;
  }

  /** What a posting writes into its transaction row, and what a reversal does. */
  lemma PostingIsRecorded(st: Stock, op: Operation)
    requires Allowed(st, op)
    ensures var row := Row(st, op);
      && row.created == op.created
      && (op.Post? ==> row.item == op.item && row.kind == op.kind && row.returnOnly == op.returnOnly
                       && row.reversalOf == None && -0.5 <= row.unitCost as real - op.unitCost <= 0.5)
      && (op.Reverse? ==> row.item == st.transactions[op.original].item && row.kind == Reversal
                          && row.unitCost == st.transactions[op.original].unitCost
                          && row.reversalOf == Some(op.original))
  {
    if op.Post? {
      RoundingsAreNearest(op.unitCost);
    }
    hide HalfAway;
  }

  lemma {:induction false} EffectsAreBooked(st: Stock, transaction: nat, effects: seq<Effect>)
    ensures PostAll(st, transaction, effects).Some? <==> Covered(st, effects)
    ensures PostAll(st, transaction, effects).Some? ==>
      MovedBy(st, PostAll(st, transaction, effects).value, effects)
    decreases |effects|
  {
    if effects == [] {
    } else {
      var front, last := effects[..|effects| - 1], effects[|effects| - 1];
      EffectsAreBooked(st, transaction, front);
      CoveredFront(st, effects);
      hide Covered, MovedBy, PostOne, Short;
      if PostAll(st, transaction, front).Some? {
        LastIsBooked(st, PostAll(st, transaction, front).value, transaction, effects);
      }
    }
  }

  lemma LastIsBooked(st: Stock, mid: Stock, transaction: nat, effects: seq<Effect>)
    requires effects != [] && MovedBy(st, mid, effects[..|effects| - 1])
    ensures var last := effects[|effects| - 1];
      && (PostOne(mid, transaction, last).Some? <==> !Short(st, effects, last.key))
      && (PostOne(mid, transaction, last).Some? ==> MovedBy(st, PostOne(mid, transaction, last).value, effects))
  {
    var last := effects[|effects| - 1];
    RefusedExactly(mid, transaction, last);
    assert Balance(mid, last.key).onHand + last.deltas.onHand ==
           Balance(st, last.key).onHand + Moved(effects, last.key).onHand;
    hide PostOne;
    if PostOne(mid, transaction, last).Some? {
      var after := PostOne(mid, transaction, last).value;
      forall key ensures key != last.key ==> Balance(after, key) == Balance(mid, key) {
        EffectIsBooked(mid, transaction, last, key);
      }
      EffectIsBooked(mid, transaction, last, last.key);
    }
  }

  lemma CoveredFront(st: Stock, effects: seq<Effect>)
    requires effects != []
    ensures Covered(st, effects) <==>
            Covered(st, effects[..|effects| - 1]) && !Short(st, effects, effects[|effects| - 1].key)
  {
    hide Short;
    var front := effects[..|effects| - 1];
    assert forall n :: 0 < n <= |front| ==> front[..n] == effects[..n] && front[n - 1] == effects[n - 1];
    assert effects[..|effects|] == effects;
  }

  /** The stock after an operation; a refused or failing one leaves it alone. */
  function Step(st: Stock, op: Operation): Stock {
    var posted := Posted(st, op);
    if posted.Some? then posted.value else st
  }

  function Run(st: Stock, ops: seq<Operation>): Stock
    decreases |ops|
  {
    if ops == [] then st else Step(Run(st, ops[..|ops| - 1]), ops[|ops| - 1])
  }
}
