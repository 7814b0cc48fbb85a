/** The inventory books, changed in place by postings and reversals and rolled back on a conflict. */
module StockBooks {
  import opened Options
  import opened Prefixes
  import opened StockPosting
  import opened StockProjection
  import opened StockReversal

  /** What the caller is given: a new transaction, the reversal that was there already, or an error. */
  datatype Answer = New(transaction: nat) | Existing(reversal: nat) | Refused

  class Books {
    var transactions: seq<Transaction>
    var balances: map<Key, Amounts>
    var entries: seq<Entry>

    ghost function State(): Stock
      reads this
    {
      Stock(transactions, balances, entries)
    }

    constructor ()
      ensures State() == EMPTY && Orderly(State())
    {
      transactions, balances, entries := [], map[], [];
      new;
      EmptyIsOrderly();
    }

    /** Changes one bucket, then objects if it is overdrawn; the change is then still there. */
    method Effect(transaction: nat, e: Effect) returns (ok: bool)
      modifies this`balances, this`entries
      ensures ok == PostOne(old(State()), transaction, e).Some?
      ensures var b, d := Balance(old(State()), e.key), e.deltas;
        ok <==>
          && b.onHand + d.onHand >= 0 && b.reserved + d.reserved >= 0 && b.quarantined + d.quarantined >= 0
          && b.inTransit + d.inTransit >= 0
          && b.onHand + d.onHand >= b.reserved + d.reserved + b.quarantined + d.quarantined
      ensures ok ==> State() == PostOne(old(State()), transaction, e).value
    {
      if e.key !in balances {
        balances := balances[e.key := ZERO];
      }
      var bucket := balances[e.key];
      bucket := bucket.(onHand := bucket.onHand + e.deltas.onHand,
                        reserved := bucket.reserved + e.deltas.reserved,
                        quarantined := bucket.quarantined + e.deltas.quarantined,
                        inTransit := bucket.inTransit + e.deltas.inTransit);
      bucket := bucket.(inventoryValue := HalfEven(bucket.inventoryValue as real + e.deltas.inventoryValue),
                        transitValue := HalfEven(bucket.transitValue as real + e.deltas.transitValue));
      balances := balances[e.key := bucket];
      if Overdrawn(bucket) {
        return false;
      }
      entries := entries + [Entry(transaction, e.key, Recorded(e.deltas))];
      ok := true;
    }

    method EffectAll(transaction: nat, effects: seq<StockPosting.Effect>) returns (ok: bool)
      modifies this`balances, this`entries
      ensures ok == PostAll(old(State()), transaction, effects).Some?
      ensures ok ==> State() == PostAll(old(State()), transaction, effects).value
    {
      ghost var start := State();
      for i := 0 to |effects|
        invariant PostAll(start, transaction, effects[..i]) == Some(State())
      {
        assert effects[..i + 1][..i] == effects[..i];
        ok := Effect(transaction, effects[i]);
        if !ok {
          FailedStaysFailed(start, transaction, effects, i + 1);
          return;
        }
      }
      assert effects[..|effects|] == effects;
      ok := true;
    }

    /** Collects a transaction's ledger rows, as the query of a reversal does. */
    method LedgerRows(transaction: nat) returns (rows: seq<Entry>)
      ensures rows == EntriesOf(entries, transaction)
    {
      rows := [];
      for i := 0 to |entries|
        invariant rows == EntriesOf(entries[..i], transaction)
      {
        assert entries[..i + 1][..i] == entries[..i];
        if entries[i].transaction == transaction {
          rows := rows + [entries[i]];
        }
      }
      assert entries[..|entries|] == entries;
    }

    /** The reversal of a transaction, when there is one. */
    method ReversalOf(original: nat) returns (found: Option<nat>)
      requires Shallow(State())
      ensures found.None? <==> !Reversed(State(), original)
      ensures found.Some? ==> forall i :: 0 <= i < |transactions| ==>
                (transactions[i].reversalOf == Some(original) <==> i == found.value)
    {
      for i := 0 to |transactions|
        invariant forall j :: 0 <= j < i ==> transactions[j].reversalOf != Some(original)
      {
        if transactions[i].reversalOf == Some(original) {
          assert transactions[i] in transactions;
          return Some(i);
        }
      }
      found := None;
    }

    /** Books a posting or a reversal, or leaves the books as they were. A transaction reversed before
        is answered with its reversal. */
    method Book(op: Operation) returns (answer: Answer)
      requires Orderly(State())
      modifies this
      ensures State() == Step(old(State()), op) && Orderly(State())
      ensures answer.New? <==> Posted(old(State()), op).Some?
      ensures answer.New? ==> State() == Posted(old(State()), op).value
      ensures !answer.New? ==> State() == old(State())
      ensures answer.New? ==> answer.transaction == |old(transactions)| == |transactions| - 1
      ensures answer.Existing? <==> op.Reverse? && Reversed(old(State()), op.original)
      ensures answer.Existing? ==>
                answer.reversal < |transactions| && transactions[answer.reversal].reversalOf == Some(op.original)
    {
      ghost var start := State();
      StepIsOrderly(start, op);
      if op.Reverse? {
        var found := ReversalOf(op.original);
        if found.Some? {
          return Existing(found.value);
        }
      }
      hide Kept, Owned, Shallow, Cancelled, PostAll;
      if !Allowed(Stock(transactions, balances, entries), op) {
        return Refused;
      }
      var savedTransactions, savedBalances, savedEntries := transactions, balances, entries;
      var n := |transactions|;
      var effects;
      match op {
        case Post(item, kind, created, returnOnly, unitCost, given) =>
          effects := given;
          transactions := transactions + [Transaction(item, kind, created, returnOnly, HalfAway(unitCost), None)];
        case Reverse(original, created) =>
          var o := transactions[original];
          var rows := LedgerRows(original);
          effects := Undo(rows);
          transactions := transactions + [Transaction(o.item, Reversal, created, o.returnOnly, o.unitCost,
                                                      Some(original))];
      }
      assert State() == Begin(start, op) && effects == Effects(start, op);
      var ok := EffectAll(n, effects);
      if ok {
        PostingBooks(Begin(start, op), n, effects);
        answer := New(n);
      } else {
        transactions, balances, entries := savedTransactions, savedBalances, savedEntries;
        answer := Refused;
      }
    }
  }

  lemma StepIsOrderly(st: Stock, op: Operation)
    requires Orderly(st)
    ensures Orderly(Step(st, op))
  {
    hide Kept, Owned, Shallow, Cancelled, Posted;
    if Posted(st, op).Some? { PostedIsOrderly(st, op); }
  }

  lemma FailedStaysFailed(st: Stock, transaction: nat, effects: seq<Effect>, n: nat)
    requires n <= |effects| && PostAll(st, transaction, effects[..n]).None?
    ensures PostAll(st, transaction, effects).None?
  {
    var failed := (s: seq<Effect>) => PostAll(st, transaction, s).None?;
    forall s: seq<Effect>, e: Effect | failed(s) ensures failed(s + [e]) {
      assert (s + [e])[..|s|] == s;
    }
    FailureIsFinal(failed, effects, n);
  }
}
