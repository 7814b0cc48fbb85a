/** Reversals: what one undoes, and which transactions can ever be reversed. */
module StockReversal {
  import opened Options
  import opened StockPosting
  import opened StockProjection

  // --- what posting a list of effects adds to the ledger ------------------------------------------

  function Booked(transaction: nat, effects: seq<Effect>): seq<Entry> {
    seq(|effects|, i requires 0 <= i < |effects| =>
      Entry(transaction, effects[i].key, Recorded(effects[i].deltas)))
  }

  lemma {:induction false} PostingBooks(st: Stock, transaction: nat, effects: seq<Effect>)
    requires PostAll(st, transaction, effects).Some?
    ensures var after := PostAll(st, transaction, effects).value;
      after.transactions == st.transactions && after.entries == st.entries + Booked(transaction, effects)
    decreases |effects|
  {
    hide Recorded, After, Overdrawn;
    if effects == [] {
    } else {
      var n := |effects| - 1;
      PostingBooks(st, transaction, effects[..n]);
      assert Booked(transaction, effects) ==
             Booked(transaction, effects[..n]) + [Entry(transaction, effects[n].key, Recorded(effects[n].deltas))];
    }
  }

  /** An operation that succeeds adds one transaction and the rows of its effects. */
  lemma StepBooks(st: Stock, op: Operation)
    requires Posted(st, op).Some?
    ensures Allowed(st, op)
    ensures var after := Posted(st, op).value;
      && after.transactions == st.transactions + [Row(st, op)]
      && after.entries == st.entries + Booked(|st.transactions|, Effects(st, op))
  {
    hide Allowed, PostAll, Row, Effects;
    PostingBooks(Begin(st, op), |st.transactions|, Effects(st, op));
  }

  /** What an operation with one effect leaves in its bucket, when it succeeds. */
  lemma SinglePosted(st: Stock, op: Operation, e: Effect)
    requires Posted(st, op).Some? && Effects(st, op) == [e]
    ensures Balance(Posted(st, op).value, e.key) == After(Balance(st, e.key), e.deltas)
    ensures !Overdrawn(After(Balance(st, e.key), e.deltas)) && Allowed(st, op)
    ensures Posted(st, op).value.transactions == st.transactions + [Row(st, op)]
  {
    hide After, Overdrawn, Recorded;
    assert [e][..0] == [];
    assert PostAll(Begin(st, op), |st.transactions|, []) == Some(Begin(st, op));
  }

  lemma {:induction false} SumJoins(a: seq<Entry>, b: seq<Entry>, key: Key, f: Field)
    ensures Sum(a + b, key, f) == Sum(a, key, f) + Sum(b, key, f)
    decreases |b|
  {
    if b == [] {
      assert a + b == a;
    } else {
      SumJoins(a, b[..|b| - 1], key, f);
      assert (a + b)[..|a + b| - 1] == a + b[..|b| - 1];
    }
  }

  lemma {:induction false} EntriesJoin(a: seq<Entry>, b: seq<Entry>, t: nat)
    ensures EntriesOf(a + b, t) == EntriesOf(a, t) + EntriesOf(b, t)
    decreases |b|
  {
    if b == [] {
      assert a + b == a;
    } else {
      EntriesJoin(a, b[..|b| - 1], t);
      assert (a + b)[..|a + b| - 1] == a + b[..|b| - 1];
    }
  }

  lemma {:induction false} EntriesOfOne(entries: seq<Entry>, t: nat)
    ensures (forall e :: e in entries ==> e.transaction == t) ==> EntriesOf(entries, t) == entries
    ensures (forall e :: e in entries ==> e.transaction != t) ==> EntriesOf(entries, t) == []
    ensures forall e :: e in EntriesOf(entries, t) ==> e in entries
    decreases |entries|
  {
    if entries == [] {
    } else {
      EntriesOfOne(entries[..|entries| - 1], t);
    }
  }

  /** The ledger rows of the undoing effects cancel the rows they undo. */
  lemma {:induction false} UndoCancels(entries: seq<Entry>, transaction: nat, key: Key, f: Field)
    ensures Sum(Booked(transaction, Undo(entries)), key, f) == -Sum(entries, key, f)
    decreases |entries|
  {
    if entries == [] {
    } else {
      hide Recorded, Negated, HalfAway, HalfEven;
      var n := |entries| - 1;
      UndoCancels(entries[..n], transaction, key, f);
      var booked, shorter := Booked(transaction, Undo(entries)), Booked(transaction, Undo(entries[..n]));
      assert booked[..n] == shorter;
      assert booked[n] == Entry(transaction, entries[n].key, Recorded(Negated(entries[n].amounts)));
      NegatedIsRecorded(entries[n].amounts, f);
    }
  }

  lemma NegatedIsRecorded(a: Amounts, f: Field)
    ensures Recorded(Negated(a)).Get(f) == -a.Get(f)
  {
    WholeDeltasDoNotDrift(0, -a.inventoryValue);
    WholeDeltasDoNotDrift(0, -a.transitValue);
    hide HalfAway, HalfEven;
  }

  /** A reversal never widens or narrows a gap: the amounts it undoes are already rounded. */
  lemma {:induction false} UndoKeepsGap(st: Stock, transaction: nat, entries: seq<Entry>, key: Key, f: Field)
    requires PostAll(st, transaction, Undo(entries)).Some?
    ensures Gap(PostAll(st, transaction, Undo(entries)).value, key, f) == Gap(st, key, f)
    decreases |entries|
  {
    if entries == [] {
    } else {
      hide PostOne, Gap, Negated, Drift;
      var n := |entries| - 1;
      assert Undo(entries)[..n] == Undo(entries[..n]);
      UndoKeepsGap(st, transaction, entries[..n], key, f);
      var before := PostAll(st, transaction, Undo(entries[..n])).value;
      EffectMovesGap(before, transaction, Undo(entries)[n], key, f);
      NegatedDoesNotDrift(Balance(before, entries[n].key), entries[n].amounts, f);
    }
  }

  lemma NegatedDoesNotDrift(a: Amounts, undone: Amounts, f: Field)
    ensures FieldDrift(a, Negated(undone), f) == 0
  {
    WholeDeltasDoNotDrift(a.inventoryValue, -undone.inventoryValue);
    WholeDeltasDoNotDrift(a.transitValue, -undone.transitValue);
    hide Drift, HalfEven;
  }

  // --- what every run keeps about transactions ----------------------------------------------------

  /** Ledger rows belong to a transaction of their own item. */
  ghost predicate Owned(st: Stock) {
    forall e :: e in st.entries ==>
      e.transaction < |st.transactions| && e.key.item == st.transactions[e.transaction].item
  }

  /** A reversal names an earlier transaction of its item, of a kind that may be reversed and hence
      no reversal itself, which no other row names. */
  ghost predicate Shallow(st: Stock) {
    && (forall i :: 0 <= i < |st.transactions| ==>
          (st.transactions[i].kind == Reversal <==> st.transactions[i].reversalOf.Some?))
    && (forall i :: 0 <= i < |st.transactions| && st.transactions[i].reversalOf.Some? ==>
          var o := st.transactions[i].reversalOf.value;
          && o < i && st.transactions[o].item == st.transactions[i].item
          && st.transactions[o].kind in {Issue, OpeningBalance, PurchaseReceipt, OtherReceipt})
    && (forall i, j :: 0 <= i < j < |st.transactions| && st.transactions[i].reversalOf.Some? ==>
          st.transactions[i].reversalOf != st.transactions[j].reversalOf)
  }

  /** The ledger rows of a reversal and of what it reverses add up to nothing. */
  ghost predicate Cancelled(st: Stock) {
    forall i, key, f :: 0 <= i < |st.transactions| && st.transactions[i].reversalOf.Some? ==>
      Sum(EntriesOf(st.entries, i), key, f) +
      Sum(EntriesOf(st.entries, st.transactions[i].reversalOf.value), key, f) == 0
  }

  lemma EffectsStayHome(st: Stock, op: Operation)
    requires Owned(st) && Allowed(st, op)
    ensures forall e :: e in Effects(st, op) ==> e.key.item == Row(st, op).item
  {
    if op.Reverse? {
      OwnersOfEntries(st, op.original);
    }
  }

  lemma OwnersOfEntries(st: Stock, t: nat)
    requires Owned(st) && t < |st.transactions|
    ensures forall e :: e in EntriesOf(st.entries, t) ==> e.key.item == st.transactions[t].item
  {
    EntriesBelong(st.entries, t);
  }

  lemma {:induction false} EntriesBelong(entries: seq<Entry>, t: nat)
    ensures forall e :: e in EntriesOf(entries, t) ==> e in entries && e.transaction == t
    decreases |entries|
  {
    if entries == [] {
    } else {
      EntriesBelong(entries[..|entries| - 1], t);
    }
  }

  lemma StepStaysOwned(st: Stock, op: Operation)
    requires Owned(st) && Posted(st, op).Some?
    ensures Owned(Posted(st, op).value)
  {
    hide Row, Effects, PostAll;
    EffectsStayHome(st, op);
    StepBooks(st, op);
  }

  lemma StepStaysShallow(st: Stock, op: Operation)
    requires Shallow(st) && Posted(st, op).Some?
    ensures Shallow(Posted(st, op).value)
  {
    hide PostAll, Booked;
    StepBooks(st, op);
  }

  /** Ledger rows of earlier transactions are never added to; the new one's are exactly its effects. */
  lemma StepEntries(st: Stock, op: Operation, t: nat)
    requires Owned(st) && Posted(st, op).Some?
    ensures t < |st.transactions| ==> EntriesOf(Posted(st, op).value.entries, t) == EntriesOf(st.entries, t)
    ensures t == |st.transactions| ==>
      EntriesOf(Posted(st, op).value.entries, t) == Booked(t, Effects(st, op))
  {
    hide PostAll, Row, Effects, EntriesOf, Posted;
    var n := |st.transactions|;
    var added := Booked(n, Effects(st, op));
    StepBooks(st, op);
    EntriesJoin(st.entries, added, t);
    EntriesOfOne(st.entries, t);
    EntriesOfOne(added, t);
  }

  lemma StepStaysCancelled(st: Stock, op: Operation)
    requires Owned(st) && Shallow(st) && Cancelled(st) && Posted(st, op).Some?
    ensures Cancelled(Posted(st, op).value)
  {
    hide PostAll, Sum, EntriesOf, Booked, Undo, Reversed, MovedSince;
    var after := Posted(st, op).value;
    StepBooks(st, op);
    forall i, key, f | 0 <= i < |after.transactions| && after.transactions[i].reversalOf.Some?
      ensures Sum(EntriesOf(after.entries, i), key, f) +
              Sum(EntriesOf(after.entries, after.transactions[i].reversalOf.value), key, f) == 0
    {
      var o := after.transactions[i].reversalOf.value;
      StepEntries(st, op, i);
      StepEntries(st, op, o);
      if i == |st.transactions| {
        UndoCancels(EntriesOf(st.entries, op.original), i, key, f);
      }
    }
  }

  ghost predicate Orderly(st: Stock) {
    Kept(st) && Owned(st) && Shallow(st) && Cancelled(st)
  }

  /** Every run of postings and reversals keeps the balances projecting the ledger, reverses each
      transaction at most once, never reverses a reversal, and leaves the rows of a reversed
      transaction and of its reversal summing to zero on every bucket. */
  lemma {:induction false} RunsAreOrderly(st: Stock, ops: seq<Operation>)
    requires Orderly(st)
    ensures Orderly(Run(st, ops))
    decreases |ops|
  {
    hide Kept, Owned, Shallow, Cancelled, Posted;
    if ops == [] {
    } else {
      var before, op := Run(st, ops[..|ops| - 1]), ops[|ops| - 1];
      RunsAreOrderly(st, ops[..|ops| - 1]);
      StepKeeps(before, op);
      if Posted(before, op).Some? {
        StepStaysOwned(before, op);
        StepStaysShallow(before, op);
        StepStaysCancelled(before, op);
      }
    }
  }

  lemma EmptyIsOrderly()
    ensures Orderly(EMPTY)
  {
    assert forall key, f :: Gap(EMPTY, key, f) == 0;
  }

  // --- what stays unchanged -------------------------------------------------------------------------

  lemma {:induction false} PostingElsewhere(st: Stock, transaction: nat, effects: seq<Effect>, key: Key)
    requires PostAll(st, transaction, effects).Some? && forall e :: e in effects ==> e.key != key
    ensures Balance(PostAll(st, transaction, effects).value, key) == Balance(st, key)
    decreases |effects|
  {
    if effects == [] {
    } else {
      hide After, Overdrawn, Recorded;
      PostingElsewhere(st, transaction, effects[..|effects| - 1], key);
    }
  }

  lemma {:induction false} SumElsewhere(entries: seq<Entry>, key: Key, f: Field)
    requires forall e :: e in entries ==> e.key != key
    ensures Sum(entries, key, f) == 0
    decreases |entries|
  {
    if entries == [] {
    } else {
      SumElsewhere(entries[..|entries| - 1], key, f);
    }
  }

  /** A movement of one item leaves every bucket of another alone, and its ledger sum too. */
  lemma StepElsewhere(st: Stock, op: Operation, key: Key, f: Field)
    requires Owned(st) && Posted(st, op).Some? && Row(st, op).item != key.item
    ensures Balance(Posted(st, op).value, key) == Balance(st, key)
    ensures Sum(Posted(st, op).value.entries, key, f) == Sum(st.entries, key, f)
  {
    hide PostAll, Sum, Effects, Row;
    EffectsStayHome(st, op);
    StepBooks(st, op);
    PostingElsewhere(Begin(st, op), |st.transactions|, Effects(st, op), key);
    SumJoins(st.entries, Booked(|st.transactions|, Effects(st, op)), key, f);
    SumElsewhere(Booked(|st.transactions|, Effects(st, op)), key, f);
  }

  lemma {:induction false} RunGrows(st: Stock, ops: seq<Operation>)
    ensures st.transactions <= Run(st, ops).transactions
    decreases |ops|
  {
    hide Posted;
    if ops == [] {
    } else {
      var before, op := Run(st, ops[..|ops| - 1]), ops[|ops| - 1];
      RunGrows(st, ops[..|ops| - 1]);
      if Posted(before, op).Some? { StepBooks(before, op); }
    }
  }

  /** The transactions that a run adds. */
  function Added(st: Stock, ops: seq<Operation>): seq<Transaction> {
    RunGrows(st, ops);
    Run(st, ops).transactions[|st.transactions|..]
  }

  /** The ledger rows of a transaction stay as they are over every run. */
  lemma {:induction false} RunKeepsEntries(st: Stock, ops: seq<Operation>, t: nat)
    requires Orderly(st) && t < |st.transactions|
    ensures EntriesOf(Run(st, ops).entries, t) == EntriesOf(st.entries, t)
    decreases |ops|
  {
    if ops == [] {
    } else {
      hide Kept, Shallow, Cancelled, Owned, Posted, EntriesOf;
      var shorter, op := ops[..|ops| - 1], ops[|ops| - 1];
      RunKeepsEntries(st, shorter, t);
      RunsAreOrderly(st, shorter);
      RunGrows(st, shorter);
      if Posted(Run(st, shorter), op).Some? { StepEntries(Run(st, shorter), op, t); }
    }
  }

  /** An item that no added transaction moves keeps its balances and sums over a run. */
  lemma {:induction false} RunElsewhere(st: Stock, ops: seq<Operation>, key: Key, f: Field)
    requires Orderly(st)
    requires forall r :: r in Added(st, ops) ==> r.item != key.item
    ensures Balance(Run(st, ops), key) == Balance(st, key)
    ensures Sum(Run(st, ops).entries, key, f) == Sum(st.entries, key, f)
    decreases |ops|
  {
    if ops == [] {
    } else {
      hide Kept, Shallow, Cancelled, Owned, Posted, Sum, Row, Allowed;
      var shorter := ops[..|ops| - 1];
      var before, op := Run(st, shorter), ops[|ops| - 1];
      RunsAreOrderly(st, shorter);
      RunGrows(st, shorter);
      if Posted(before, op).Some? {
        StepBooks(before, op);
        assert Added(st, ops) == Added(st, shorter) + [Row(before, op)];
        StepElsewhere(before, op, key, f);
      }
      RunElsewhere(st, shorter, key, f);
    }
  }

  // --- what a reversal undoes -------------------------------------------------------------------

  /** Whatever happened in between, a reversal takes from every bucket exactly what the ledger says
      its transaction put there, in every field. */
  lemma ReversalTakesBack(st: Stock, op: Operation, key: Key, f: Field)
    requires op.Reverse? && Posted(st, op).Some?
    ensures var after := Posted(st, op).value;
      && Gap(after, key, f) == Gap(st, key, f)
      && Sum(after.entries, key, f) == Sum(st.entries, key, f) - Sum(EntriesOf(st.entries, op.original), key, f)
      && Balance(after, key).Get(f) == Balance(st, key).Get(f) - Sum(EntriesOf(st.entries, op.original), key, f)
  {
    hide PostAll, Sum, EntriesOf, Allowed, Booked, Undo;
    var n := |st.transactions|;
    var undone := EntriesOf(st.entries, op.original);
    StepBooks(st, op);
    UndoKeepsGap(Begin(st, op), n, undone, key, f);
    SumJoins(st.entries, Booked(n, Undo(undone)), key, f);
    UndoCancels(undone, n, key, f);
  }

  /** Any run, a posting, any run, and a reversal of that posting that is accepted. */
  ghost predicate Story(before: seq<Operation>, post: Operation, between: seq<Operation>, rev: Operation) {
    && post.Post? && Posted(Run(EMPTY, before), post).Some?
    && rev.Reverse? && rev.original == |Run(EMPTY, before).transactions|
    && Posted(Run(Posted(Run(EMPTY, before), post).value, between), rev).Some?
  }

  /** With no assumption on clocks or on what happened in between: the balance after the reversal
      differs from the one before the posting by exactly what the ledger booked in between, plus, for
      values, the rounding gap opened since. A quantity is restored if and only if the movements in
      between add up to nothing on its bucket. */
  lemma ReversalUndoesExactly(before: seq<Operation>, post: Operation, between: seq<Operation>, rev: Operation,
                              key: Key, f: Field)
    requires Story(before, post, between, rev)
    ensures var st := Run(EMPTY, before);
      var posted := Posted(st, post).value;
      var later := Run(posted, between);
      var after := Posted(later, rev).value;
      var moved := Sum(later.entries, key, f) - Sum(posted.entries, key, f);
      && Sum(after.entries, key, f) - Sum(st.entries, key, f) == moved
      && Balance(after, key).Get(f) - Balance(st, key).Get(f) == moved + Gap(later, key, f) - Gap(st, key, f)
      && (Quantity(f) ==> (Balance(after, key).Get(f) == Balance(st, key).Get(f) <==> moved == 0))
  {
    hide Kept, Owned, Shallow, Cancelled, Sum, EntriesOf, Run, Posted, Booked, Effects;
    var st := Run(EMPTY, before);
    var posted, t := Posted(st, post).value, |st.transactions|;
    var later := Run(posted, between);
    EmptyIsOrderly();
    RunsAreOrderly(EMPTY, before);
    PostedIsOrderly(st, post);
    RunsAreOrderly(posted, between);
    StepBooks(st, post);
    StepEntries(st, post, t);
    SumJoins(st.entries, Booked(t, Effects(st, post)), key, f);
    RunKeepsEntries(posted, between, t);
    ReversalTakesBack(later, rev, key, f);
    QuantitiesAgree(st, key, f);
    QuantitiesAgree(later, key, f);
  }

  /** Which later rows a reversal is still accepted after: those of other items, and those of the item
      that carry the original's time or an earlier one, as lines of the same document do. */
  lemma LaterRowPasses(st: Stock, original: nat, row: Transaction)
    requires Reversible(st, original) && row.reversalOf != Some(original)
    ensures Reversible(st.(transactions := st.transactions + [row]), original) <==>
            row.item != st.transactions[original].item || row.created <= st.transactions[original].created
  {
    var o, all := st.transactions[original], st.transactions + [row];
    assert all[original] == o && row in all;
    assert forall t :: t in all <==> t in st.transactions || t == row;
  }

  /** When each movement of the item in between carries a later time, the guards imply that there was
      none: every bucket of the item returns to the quantities and ledger sums before the posting, and
      a value is off by exactly the gap that the posting's own rounding opened. */
  lemma ReversalRestores(before: seq<Operation>, post: Operation, between: seq<Operation>, rev: Operation,
                         key: Key, f: Field)
    requires Story(before, post, between, rev) && key.item == post.item
    requires forall r :: r in Added(Posted(Run(EMPTY, before), post).value, between) && r.item == post.item ==>
      r.created > post.created
    ensures var st := Run(EMPTY, before);
      var posted := Posted(st, post).value;
      var after := Posted(Run(posted, between), rev).value;
      && Sum(after.entries, key, f) == Sum(st.entries, key, f)
      && Balance(after, key).Get(f) - Balance(st, key).Get(f) == Gap(posted, key, f) - Gap(st, key, f)
      && (Quantity(f) ==> Balance(after, key).Get(f) == Balance(st, key).Get(f))
  {
    hide Kept, Owned, Shallow, Cancelled, Sum, EntriesOf, Run, Posted, Booked, Effects;
    var st := Run(EMPTY, before);
    var posted := Posted(st, post).value;
    var later := Run(posted, between);
    EmptyIsOrderly();
    RunsAreOrderly(EMPTY, before);
    PostedIsOrderly(st, post);
    StepBooks(st, post);
    RunGrows(posted, between);
    NothingMovedSince(posted, later, rev);
    RunElsewhere(posted, between, key, f);
    ReversalUndoesExactly(before, post, between, rev, key, f);
  }

  /** A posting with one effect can be reversed at once if and only if its kind may be reversed, it is no
      issue that must be returned, and no row of the item carries a later time; the reversal then restores
      the bucket's quantities. */
  lemma ReversedAtOnce(before: seq<Operation>, post: Operation, e: Effect, c: nat)
    requires post.Post? && post.effects == [e] && Posted(Run(EMPTY, before), post).Some?
    ensures var st := Run(EMPTY, before);
      var posted := Posted(st, post).value;
      var rev := Reverse(|st.transactions|, c);
      && (Posted(posted, rev).Some? <==>
            && post.kind in {Issue, OpeningBalance, PurchaseReceipt, OtherReceipt}
            && !(post.kind == Issue && post.returnOnly)
            && forall t :: t in st.transactions && t.item == post.item ==> t.created <= post.created)
      && (Posted(posted, rev).Some? ==>
            var now, was := Balance(Posted(posted, rev).value, e.key), Balance(st, e.key);
            && now.onHand == was.onHand && now.reserved == was.reserved
            && now.quarantined == was.quarantined && now.inTransit == was.inTransit)
  {
    hide Run, Posted, Kept, Owned, Shallow, Cancelled;
    EmptyIsOrderly();
    RunsAreOrderly(EMPTY, before);
    var st := Run(EMPTY, before);
    SinglePosted(st, post, e);
    PostedIsOrderly(st, post);
    ReversibleAtOnce(st, post, Posted(st, post).value, |st.transactions|);
    UndoOfOne(st, post, e, c);
    NotOverdrawn(st, e.key);
    UndoneAtOnce(st, Posted(st, post).value, Reverse(|st.transactions|, c), e);
  }

  /** What reversing the posting just booked would book. */
  lemma UndoOfOne(st: Stock, post: Operation, e: Effect, c: nat)
    requires Orderly(st) && post.Post? && post.effects == [e] && Posted(st, post).Some?
    ensures Effects(Posted(st, post).value, Reverse(|st.transactions|, c)) ==
            [Effect(e.key, Negated(Recorded(e.deltas)))]
  {
    hide Posted, Kept, Shallow, Cancelled, Recorded, Negated, Undo, EntriesOf;
    StepEntries(st, post, |st.transactions|);
    UndoOne(|st.transactions|, e);
  }

  lemma UndoneAtOnce(st: Stock, posted: Stock, rev: Operation, e: Effect)
    requires Balance(posted, e.key) == After(Balance(st, e.key), e.deltas) && !Overdrawn(Balance(st, e.key))
    requires rev.Reverse? && Effects(posted, rev) == [Effect(e.key, Negated(Recorded(e.deltas)))]
    ensures Posted(posted, rev).Some? <==> Reversible(posted, rev.original)
    ensures Posted(posted, rev).Some? ==>
      var now, was := Balance(Posted(posted, rev).value, e.key), Balance(st, e.key);
      && now.onHand == was.onHand && now.reserved == was.reserved
      && now.quarantined == was.quarantined && now.inTransit == was.inTransit
  {
    UndoneQuantities(Balance(st, e.key), e.deltas);
    hide After, Recorded, Negated, Posted, PostAll, Reversible, Effects, Overdrawn;
    if Allowed(posted, rev) {
      SingleBooks(posted, rev, Effect(e.key, Negated(Recorded(e.deltas))));
    } else {
      NotPosted(posted, rev);
    }
  }

  lemma NotPosted(st: Stock, op: Operation)
    requires !Allowed(st, op)
    ensures Posted(st, op).None?
  {
  }

  lemma UndoOne(n: nat, e: Effect)
    ensures Undo(Booked(n, [e])) == [Effect(e.key, Negated(Recorded(e.deltas)))]
  {
    hide Recorded, Negated;
  }

  lemma NotOverdrawn(st: Stock, key: Key)
    requires Orderly(st)
    ensures !Overdrawn(Balance(st, key))
  {
  }

  lemma UndoneQuantities(b: Amounts, d: Deltas)
    ensures var now := After(After(b, d), Negated(Recorded(d)));
      && now.onHand == b.onHand && now.reserved == b.reserved
      && now.quarantined == b.quarantined && now.inTransit == b.inTransit
      && Overdrawn(now) == Overdrawn(b)
  {
    hide HalfEven, HalfAway;
  }

  lemma ReversibleAtOnce(st: Stock, post: Operation, posted: Stock, n: nat)
    requires Shallow(st) && Allowed(st, post) && post.Post? && n == |st.transactions|
    requires posted.transactions == st.transactions + [Row(st, post)]
    ensures Reversible(posted, n) <==>
      && post.kind in {Issue, OpeningBalance, PurchaseReceipt, OtherReceipt}
      && !(post.kind == Issue && post.returnOnly)
      && forall t :: t in st.transactions && t.item == post.item ==> t.created <= post.created
  {
    var row := Row(st, post);
    assert posted.transactions[n] == row;
    assert forall t :: t in posted.transactions <==> t in st.transactions || t == row;
    forall t | t in st.transactions ensures t.reversalOf != Some(n) {
      var i :| 0 <= i < |st.transactions| && st.transactions[i] == t;
    }
  }

  /** Two lines of one document receive the same item at the same time. The first line's reversal is
      accepted although the second moved the item since, and does not restore the empty bucket. */
  lemma SameTimeMovementPasses() returns (post: Operation, between: seq<Operation>, rev: Operation)
    ensures Story([], post, between, rev)
    ensures |between| == 1 && between[0].Post? && between[0].item == post.item && between[0].created == post.created
    ensures var after := Posted(Run(Posted(EMPTY, post).value, between), rev).value;
      Balance(EMPTY, SHELF).onHand == 0 && Balance(after, SHELF).onHand == 1
  {
    hide After, Recorded, Run, Step, Sum, PostAll, EntriesOf, Negated;
    post := Post(1, PurchaseReceipt, 0, false, 10000.0, [Receipt(1)]);
    rev := Reverse(0, 5);
    between := [] + [post];
    var one := Posted(EMPTY, post);
    NoRun(EMPTY);
    ReceiptAmounts(ZERO, 1);
    SingleBooks(EMPTY, post, Receipt(1));
    NoRun(one.value);
    RunOneMore(one.value, [], post);
    var two := Run(one.value, between);
    ReceiptAmounts(Balance(one.value, SHELF), 1);
    SingleBooks(one.value, post, Receipt(1));
    var entry := Entry(0, SHELF, Amounts(1, 0, 0, 0, 1, 0));
    FirstOfTwo(two.entries, entry);
    var undo := Effect(SHELF, Negated(entry.amounts));
    assert Effects(two, rev) == [undo];
    AfterUndo(Balance(two, SHELF), entry.amounts);
    SingleBooks(two, rev, undo);
  }

  lemma FirstOfTwo(entries: seq<Entry>, first: Entry)
    requires |entries| == 2 && entries[0] == first && first.transaction == 0 && entries[1].transaction == 1
    ensures EntriesOf(entries, 0) == [first]
  {
    assert entries[..1][..0] == [];
    assert EntriesOf(entries[..1], 0) == [first];
  }

  lemma AfterUndo(a: Amounts, undone: Amounts)
    ensures After(a, Negated(undone)) ==
            Amounts(a.onHand - undone.onHand, a.reserved - undone.reserved, a.quarantined - undone.quarantined,
                    a.inTransit - undone.inTransit, a.inventoryValue - undone.inventoryValue,
                    a.transitValue - undone.transitValue)
  {
    WholeDeltasDoNotDrift(a.inventoryValue, -undone.inventoryValue);
    WholeDeltasDoNotDrift(a.transitValue, -undone.transitValue);
    hide HalfEven;
  }

  lemma PostedIsOrderly(st: Stock, op: Operation)
    requires Orderly(st) && Posted(st, op).Some?
    ensures Orderly(Posted(st, op).value)
  {
    hide Kept, Owned, Shallow, Cancelled, Posted;
    assert [op][..0] == [];
    assert Run(st, []) == st;
    RunsAreOrderly(st, [op]);
  }

  lemma QuantitiesAgree(st: Stock, key: Key, f: Field)
    requires Orderly(st)
    ensures Quantity(f) ==> Gap(st, key, f) == 0
  {
  }

  lemma NothingMovedSince(posted: Stock, later: Stock, rev: Operation)
    requires rev.Reverse? && Posted(later, rev).Some? && posted.transactions <= later.transactions
    requires rev.original < |posted.transactions|
    requires var o := posted.transactions[rev.original];
      forall r :: r in later.transactions[|posted.transactions|..] && r.item == o.item ==> r.created > o.created
    ensures forall r :: r in later.transactions[|posted.transactions|..] ==>
      r.item != posted.transactions[rev.original].item
  {
    hide PostAll;
    assert !MovedSince(later, rev.original);
    forall r | r in later.transactions[|posted.transactions|..]
      ensures r.item != posted.transactions[rev.original].item
    {
      assert r in later.transactions;
    }
  }
}
