/** What the balances have to do with the ledger, over every run of postings and reversals. */
module StockProjection {
  import opened Options
  import opened StockPosting

  /** The sum of a bucket's ledger rows. */
  function Sum(entries: seq<Entry>, key: Key, f: Field): int
    decreases |entries|
  {
    if entries == [] then 0
    else
      var last := entries[|entries| - 1];
      Sum(entries[..|entries| - 1], key, f) + if last.key == key then last.amounts.Get(f) else 0
  }

  function Count(entries: seq<Entry>, key: Key): nat
    decreases |entries|
  {
    if entries == [] then 0
    else Count(entries[..|entries| - 1], key) + if entries[|entries| - 1].key == key then 1 else 0
  }

  /** How far a balance is from its ledger. */
  function Gap(st: Stock, key: Key, f: Field): int {
    Balance(st, key).Get(f) - Sum(st.entries, key, f)
  }

  /** Each effect moves its bucket's gap by exactly the drift of the two roundings, and no other. */
  lemma EffectMovesGap(st: Stock, transaction: nat, e: Effect, key: Key, f: Field)
    requires PostOne(st, transaction, e).Some?
    ensures Gap(PostOne(st, transaction, e).value, key, f) ==
            Gap(st, key, f) + if e.key == key then FieldDrift(Balance(st, key), e.deltas, f) else 0
  {
    var after := PostOne(st, transaction, e).value;
    assert after.entries[..|st.entries|] == st.entries;
  }

  predicate Quantity(f: Field) {
    f.OnHand? || f.Reserved? || f.Quarantined? || f.InTransit?
  }

  ghost predicate Kept(st: Stock) {
    && (forall key :: key in st.balances ==> !Overdrawn(st.balances[key]))
    && (forall key, f :: Quantity(f) ==> Gap(st, key, f) == 0)
    && (forall key, f :: 0 - Count(st.entries, key) <= Gap(st, key, f) <= Count(st.entries, key))
  }

  lemma DriftIsSmall(a: Amounts, d: Deltas, f: Field)
    ensures -1 <= FieldDrift(a, d, f) <= 1
    ensures Quantity(f) ==> FieldDrift(a, d, f) == 0
  {
    hide Drift;
    DriftExactly(a.inventoryValue, d.inventoryValue);
    DriftExactly(a.transitValue, d.transitValue);
  }

  lemma OneKeeps(st: Stock, transaction: nat, e: Effect)
    requires Kept(st) && PostOne(st, transaction, e).Some?
    ensures Kept(PostOne(st, transaction, e).value)
  {
    hide After, Recorded, FieldDrift, Gap;
    var after := PostOne(st, transaction, e).value;
    forall key, f
      ensures Quantity(f) ==> Gap(after, key, f) == 0
      ensures 0 - Count(after.entries, key) <= Gap(after, key, f) <= Count(after.entries, key)
    {
      EffectMovesGap(st, transaction, e, key, f);
      DriftIsSmall(Balance(st, key), e.deltas, f);
      assert after.entries[..|st.entries|] == st.entries;
    }
  }

  lemma {:induction false} AllKeep(st: Stock, transaction: nat, effects: seq<Effect>)
    requires Kept(st) && PostAll(st, transaction, effects).Some?
    ensures Kept(PostAll(st, transaction, effects).value)
    decreases |effects|
  {
    hide Kept, PostOne;
    if effects == [] {
    } else {
      AllKeep(st, transaction, effects[..|effects| - 1]);
      OneKeeps(PostAll(st, transaction, effects[..|effects| - 1]).value, transaction, effects[|effects| - 1]);
    }
  }

  lemma OpeningKeeps(st: Stock, transactions: seq<Transaction>)
    requires Kept(st)
    ensures Kept(st.(transactions := transactions))
  {
    var begun := st.(transactions := transactions);
    forall key, f ensures Gap(begun, key, f) == Gap(st, key, f) {}
  }

  lemma StepKeeps(st: Stock, op: Operation)
    requires Kept(st)
    ensures Kept(Step(st, op))
  {
    hide Kept, PostAll, Allowed;
    if Posted(st, op).Some? {
      OpeningKeeps(st, Begin(st, op).transactions);
      AllKeep(Begin(st, op), |st.transactions|, Effects(st, op));
    }
  }

  /** The ledger is authoritative for stock: after every run of postings and reversals, each bucket's
      quantities are exactly the sums of its ledger rows and never overdrawn, and each value is
      within one hundred-millionth per ledger row of its sum. */
  lemma {:induction false} BalancesProjectTheLedger(ops: seq<Operation>)
    ensures Kept(Run(EMPTY, ops))
    ensures forall key :: key in Run(EMPTY, ops).balances ==>
      var b := Run(EMPTY, ops).balances[key];
      && b.onHand >= 0 && b.reserved >= 0 && b.quarantined >= 0 && b.inTransit >= 0
      && b.onHand >= b.reserved + b.quarantined
    decreases |ops|
  {
    hide Step;
    if ops == [] {
      assert forall key, f :: Gap(EMPTY, key, f) == 0;
    } else {
      BalancesProjectTheLedger(ops[..|ops| - 1]);
      StepKeeps(Run(EMPTY, ops[..|ops| - 1]), ops[|ops| - 1]);
    }
  }

  // --- exactly when values agree -----------------------------------------------------------------

  ghost predicate Agrees(st: Stock) {
    forall key, f :: Gap(st, key, f) == 0
  }

  /** From agreeing books, an effect keeps them agreeing exactly when neither value drifts: it is no
      tie, or it is a tie that both roundings resolve the same way. */
  lemma AgreementIsNoDrift(st: Stock, transaction: nat, e: Effect)
    requires Agrees(st) && PostOne(st, transaction, e).Some?
    ensures var a, d := Balance(st, e.key), e.deltas;
      Agrees(PostOne(st, transaction, e).value) <==>
        && (Tie(d.inventoryValue) ==>
              (d.inventoryValue >= 0.0) != ((a.inventoryValue + d.inventoryValue.Floor) % 2 == 0))
        && (Tie(d.transitValue) ==>
              (d.transitValue >= 0.0) != ((a.transitValue + d.transitValue.Floor) % 2 == 0))
  {
    hide Gap, After, Recorded, Drift, Tie;
    var after := PostOne(st, transaction, e).value;
    var a := Balance(st, e.key);
    DriftExactly(a.inventoryValue, e.deltas.inventoryValue);
    DriftExactly(a.transitValue, e.deltas.transitValue);
    forall key, f
      ensures Gap(after, key, f) == if e.key == key then FieldDrift(a, e.deltas, f) else 0
    {
      EffectMovesGap(st, transaction, e, key, f);
    }
    if FieldDrift(a, e.deltas, InventoryValue) == 0 && FieldDrift(a, e.deltas, TransitValue) == 0 {
      forall f ensures FieldDrift(a, e.deltas, f) == 0 { DriftIsSmall(a, e.deltas, f); }
      assert Agrees(after);
    } else {
      assert Gap(after, e.key, InventoryValue) != 0 || Gap(after, e.key, TransitValue) != 0;
    }
  }

  const SHELF := Key(1, 1, None, None)

  function Receipt(worth: int): Effect {
    Effect(SHELF, Deltas(1, 0, 0, 0, worth as real, 0.0))
  }

  const HALF_ISSUE := Effect(SHELF, Deltas(-1, 0, 0, 0, -1.5, 0.0))

  lemma ReceiptAmounts(a: Amounts, worth: int)
    requires a.onHand >= 0 && a.reserved == a.quarantined == a.inTransit == 0
    ensures After(a, Receipt(worth).deltas) == a.(onHand := a.onHand + 1, inventoryValue := a.inventoryValue + worth)
    ensures Recorded(Receipt(worth).deltas) == Amounts(1, 0, 0, 0, worth, 0)
    ensures !Overdrawn(After(a, Receipt(worth).deltas))
  {
    WholeDeltasDoNotDrift(a.inventoryValue, worth);
    WholeDeltasDoNotDrift(a.transitValue, 0);
    hide HalfEven, HalfAway;
  }

  lemma HalfIssueAmounts()
    ensures After(Amounts(2, 0, 0, 0, 3, 0), HALF_ISSUE.deltas) == Amounts(1, 0, 0, 0, 2, 0)
    ensures Recorded(HALF_ISSUE.deltas) == Amounts(-1, 0, 0, 0, -2, 0)
  {
    assert (1.5).Floor == 1 && (2.0).Floor == 2 && (0.0).Floor == 0 && (0.5).Floor == 0;
  }

  /** The books of the smallest stock: two receipts of one ten-thousandth, worth one and two
      hundred-millionths, then an issue of half at the average cost. The balance says two, the
      ledger says one. */
  lemma ValuesCanDisagree() returns (ops: seq<Operation>)
    ensures var st := Run(EMPTY, ops);
      Balance(st, SHELF).inventoryValue == 2 && Sum(st.entries, SHELF, InventoryValue) == 1
    ensures |ops| == 3 && ops[2] == Post(1, Issue, 2, false, 15000.0, [HALF_ISSUE])
  {
    hide After, Recorded, Step, Run, Sum;
    var receive1 := Post(1, PurchaseReceipt, 0, false, 10000.0, [Receipt(1)]);
    var receive2 := Post(1, PurchaseReceipt, 1, false, 20000.0, [Receipt(2)]);
    var issue := Post(1, Issue, 2, false, 15000.0, [HALF_ISSUE]);
    ops := [] + [receive1] + [receive2] + [issue];
    var one := Step(EMPTY, receive1);
    var two := Step(one, receive2);
    NoRun(EMPTY);
    RunOneMore(EMPTY, [], receive1);
    RunOneMore(EMPTY, [] + [receive1], receive2);
    RunOneMore(EMPTY, [] + [receive1] + [receive2], issue);
    ReceiptAmounts(ZERO, 1);
    SingleBooks(EMPTY, receive1, Receipt(1));
    ReceiptAmounts(Balance(one, SHELF), 2);
    SingleBooks(one, receive2, Receipt(2));
    HalfIssueAmounts();
    SingleBooks(two, issue, HALF_ISSUE);
  }

  lemma NoRun(st: Stock)
    ensures Run(st, []) == st && forall key, f :: Sum([], key, f) == 0
  {
  }

  /** A run of one more operation is a step after the run. */
  lemma RunOneMore(st: Stock, ops: seq<Operation>, op: Operation)
    ensures Run(st, ops + [op]) == Step(Run(st, ops), op)
  {
    hide Step;
    assert (ops + [op])[..|ops|] == ops;
  }

  /** An operation with one effect, on a bucket with enough stock. */
  lemma SingleBooks(st: Stock, op: Operation, e: Effect)
    requires Allowed(st, op) && Effects(st, op) == [e] && !Overdrawn(After(Balance(st, e.key), e.deltas))
    ensures Posted(st, op) == Some(Step(st, op))
    ensures var after := Step(st, op);
      && after.transactions == st.transactions + [Row(st, op)]
      && after.entries == st.entries + [Entry(|st.transactions|, e.key, Recorded(e.deltas))]
      && after.balances == st.balances[e.key := After(Balance(st, e.key), e.deltas)]
      && forall f :: Sum(after.entries, e.key, f) == Sum(st.entries, e.key, f) + Recorded(e.deltas).Get(f)
  {
    hide After, Recorded, Overdrawn;
    assert [e][..0] == [];
    assert PostAll(Begin(st, op), |st.transactions|, []) == Some(Begin(st, op));
    assert Step(st, op).entries[..|st.entries|] == st.entries;
  }
}
