/** Operational expenses, their payments, and the deferred trigger that re-checks at commit only
    the expenses named by queued row events. Amounts are integers in hundredths. */
module ExpenseBalance {
  import opened AsciiText
  import opened Sums

  type Uuid = nat

  datatype Expense = Expense(organization: Uuid, total: int, status: string)
  datatype Payment = Payment(expense: Uuid, organization: Uuid, amount: int)
  datatype Database = Database(expenses: map<Uuid, Expense>, payments: map<Uuid, Payment>)

  /** A numeric(18, 2) holds fewer than 10^18 hundredths. */
  const NUMERIC_18_2 := 1_000_000_000_000_000_000

  predicate Fits(hundredths: int) {
    -NUMERIC_18_2 < hundredths < NUMERIC_18_2
  }

  predicate Completed(e: Expense) {
    Upper(e.status) == "COMPLETED"
  }

  /** The column checks on a payment row, and its foreign key. */
  predicate ValidPayment(p: Payment, expenses: map<Uuid, Expense>) {
    p.amount > 0 && Fits(p.amount) && p.expense in expenses
  }

  ghost predicate Valid(db: Database) {
    && (forall e :: e in db.expenses ==> Fits(db.expenses[e].total))
    && (forall p :: p in db.payments ==> ValidPayment(db.payments[p], db.expenses))
  }

  // --- what the trigger measures ---------------------------------------------------------

  function PaymentsOf(payments: map<Uuid, Payment>, expense: Uuid): map<Uuid, int> {
    map p | p in payments && payments[p].expense == expense :: payments[p].amount
  }

  /** COALESCE(SUM(amount), 0) over all payments of an expense, whatever their organization. */
  ghost function Paid(db: Database, expense: Uuid): int {
    Total(PaymentsOf(db.payments, expense))
  }

  /** The rule the trigger exists for, at one expense. */
  ghost predicate Settled(db: Database, id: Uuid) {
    id in db.expenses && Completed(db.expenses[id]) ==> Paid(db, id) >= db.expenses[id].total
  }

  /** The sum of a completed expense's payments can be stored in the trigger's local variable. */
  ghost predicate Countable(db: Database, id: Uuid) {
    id in db.expenses && Completed(db.expenses[id]) ==> Paid(db, id) < NUMERIC_18_2
  }

  /** The global invariant: every completed expense is fully paid. */
  ghost predicate Balanced(db: Database) {
    forall id :: id in db.expenses ==> Settled(db, id)
  }

  // --- row changes and the events they queue ----------------------------------------------

  datatype RowEvent =
    | ExpenseInserted(newId: Uuid)
    | ExpenseUpdated(oldId: Uuid, newId: Uuid)
    | ExpenseDeleted(oldId: Uuid)
    | PaymentInserted(newExpense: Uuid)
    | PaymentUpdated(oldExpense: Uuid, newExpense: Uuid)
    | PaymentDeleted(oldExpense: Uuid)

  /** The trigger's expense_ids array. */
  function ExpenseIds(event: RowEvent): seq<Uuid> {
    match event
    case ExpenseInserted(newId) => [newId]
    case ExpenseUpdated(_, newId) => [newId]
    case ExpenseDeleted(oldId) => [oldId]
    case PaymentInserted(newExpense) => [newExpense]
    case PaymentUpdated(oldExpense, newExpense) => [oldExpense, newExpense]
    case PaymentDeleted(oldExpense) => [oldExpense]
  }

  datatype Statement =
    | InsertExpense(id: Uuid, expense: Expense)
    | UpdateExpense(id: Uuid, expense: Expense)
    | DeleteExpense(id: Uuid)
    | InsertPayment(id: Uuid, payment: Payment)
    | UpdatePayment(id: Uuid, payment: Payment)
    | DeletePayment(id: Uuid)

  /** The rows after a statement and the row events it queues, or a violated constraint. */
  datatype Outcome = Refused | Done(db: Database, events: set<RowEvent>)

  /** One event for each payment removed by ON DELETE CASCADE. */
  function Deletions(victims: set<Uuid>, id: Uuid): set<RowEvent> {
    set p | p in victims :: PaymentDeleted(id)
  }

  function Execute(db: Database, s: Statement): Outcome {
    match s
    case InsertExpense(id, row) =>
      if id in db.expenses || !Fits(row.total) then Refused
      else Done(db.(expenses := db.expenses[id := row]), {ExpenseInserted(id)})
    case UpdateExpense(id, row) =>
      if id !in db.expenses then Done(db, {})
      else if !Fits(row.total) then Refused
      else Done(db.(expenses := db.expenses[id := row]), {ExpenseUpdated(id, id)})
    case DeleteExpense(id) =>
      if id !in db.expenses then Done(db, {})
      else
        var victims := PaymentsOf(db.payments, id).Keys;
        Done(Database(db.expenses - {id}, db.payments - victims),
             {ExpenseDeleted(id)} + Deletions(victims, id))
    case InsertPayment(id, row) =>
      if id in db.payments || !ValidPayment(row, db.expenses) then Refused
      else Done(db.(payments := db.payments[id := row]), {PaymentInserted(row.expense)})
    case UpdatePayment(id, row) =>
      if id !in db.payments then Done(db, {})
      else if !ValidPayment(row, db.expenses) then Refused
      else Done(db.(payments := db.payments[id := row]),
                {PaymentUpdated(db.payments[id].expense, row.expense)})
    case DeletePayment(id) =>
      if id !in db.payments then Done(db, {})
      else Done(db.(payments := db.payments - {id}), {PaymentDeleted(db.payments[id].expense)})
  }

  /** What each statement does to every expense's paid sum, moves between expenses included. */
  lemma PaidMoves(db: Database, s: Statement, id: Uuid)
    requires Execute(db, s).Done?
    ensures var after := Execute(db, s).db;
      match s
      case InsertExpense(e, row) => after == Database(db.expenses + map[e := row], db.payments)
      case UpdateExpense(e, row) =>
        && Paid(after, id) == Paid(db, id)
        && after.expenses.Keys == db.expenses.Keys && (e in db.expenses ==> after.expenses[e] == row)
      case DeleteExpense(e) =>
        && e !in after.expenses
        && (e in db.expenses ==> Paid(after, id) == if id == e then 0 else Paid(db, id))
      case InsertPayment(p, row) => Paid(after, id) == Paid(db, id) + Share(row, id)
      case UpdatePayment(p, row) =>
        p in db.payments ==>
          Paid(after, id) == Paid(db, id) - Share(db.payments[p], id) + Share(row, id)
      case DeletePayment(p) =>
        p in db.payments ==> Paid(after, id) == Paid(db, id) - Share(db.payments[p], id)
  {
    match s
    case InsertExpense(_, _) =>
    case UpdateExpense(_, _) =>
    case DeleteExpense(e) =>
      if e in db.expenses && id != e {
        assert PaymentsOf(Execute(db, s).db.payments, id) == PaymentsOf(db.payments, id);
      }
    case InsertPayment(p, row) => PaidWith(db.payments, p, row, id);
    case UpdatePayment(p, row) =>
      if p in db.payments {
        PaidWithout(db.payments, p, id);
        PaidWith(db.payments - {p}, p, row, id);
        assert (db.payments - {p})[p := row] == db.payments[p := row];
      }
    case DeletePayment(p) =>
      if p in db.payments { PaidWithout(db.payments, p, id); }
  }

  lemma PaidWith(payments: map<Uuid, Payment>, p: Uuid, row: Payment, id: Uuid)
    requires p !in payments
    ensures Total(PaymentsOf(payments[p := row], id)) == Total(PaymentsOf(payments, id)) + Share(row, id)
  {
    var before, now := PaymentsOf(payments, id), PaymentsOf(payments[p := row], id);
    if row.expense == id {
      assert now == before[p := row.amount];
      TotalAdd(before, p, row.amount);
    } else {
      assert now == before;
    }
  }

  lemma PaidWithout(payments: map<Uuid, Payment>, p: Uuid, id: Uuid)
    requires p in payments
    ensures Total(PaymentsOf(payments - {p}, id)) == Total(PaymentsOf(payments, id)) - Share(payments[p], id)
  {
    var before, now := PaymentsOf(payments, id), PaymentsOf(payments - {p}, id);
    assert now == before - {p};
    if p in before { TotalTake(before, p); } else { assert now == before; }
  }

  /** The part of a payment that counts toward an expense. */
  function Share(p: Payment, expense: Uuid): int {
    if p.expense == expense then p.amount else 0
  }

  function ExecuteAll(db: Database, statements: seq<Statement>): Outcome
    decreases |statements|
  {
    if statements == [] then Done(db, {})
    else
      match ExecuteAll(db, statements[..|statements| - 1])
      case Refused => Refused
      case Done(mid, queued) =>
        match Execute(mid, statements[|statements| - 1])
        case Refused => Refused
        case Done(after, more) => Done(after, queued + more)
  }

  /** The trigger lets a queued event pass when every expense it names passes. */
  ghost predicate Passes(db: Database, event: RowEvent) {
    forall id :: id in ExpenseIds(event) ==> Settled(db, id) && Countable(db, id)
  }

  /** A commit runs the deferred trigger once per queued event, against the final rows. */
  ghost predicate Accepted(db: Database, events: set<RowEvent>) {
    forall event :: event in events ==> Passes(db, event)
  }

  /** What a transaction leaves behind: its final rows if it commits, its first rows if not. */
  ghost function Transact(db: Database, statements: seq<Statement>): Database {
    match ExecuteAll(db, statements)
    case Refused => db
    case Done(after, events) => if Accepted(after, events) then after else db
  }

  // --- the incremental check is the global check -------------------------------------------

  ghost predicate Named(events: set<RowEvent>, id: Uuid) {
    exists event :: event in events && id in ExpenseIds(event)
  }

  /** An expense and all its payments are the same in two states. */
  ghost predicate SameAt(a: Database, b: Database, id: Uuid) {
    && (id in a.expenses <==> id in b.expenses)
    && (id in a.expenses ==> a.expenses[id] == b.expenses[id])
    && PaymentsOf(a.payments, id) == PaymentsOf(b.payments, id)
  }

  lemma ExecuteKeepsUnnamed(db: Database, s: Statement, id: Uuid)
    requires Valid(db)
    requires Execute(db, s).Done? && !Named(Execute(db, s).events, id)
    ensures SameAt(db, Execute(db, s).db, id)
  {
    var Done(after, events) := Execute(db, s);
    forall event | event in events ensures id !in ExpenseIds(event) {}
    match s
    case DeleteExpense(gone) =>
      if gone in db.expenses {
        assert ExpenseDeleted(gone) in events;
        assert PaymentsOf(db.payments, id) == PaymentsOf(after.payments, id);
      }
    case InsertExpense(_, _) =>
    case UpdateExpense(_, _) =>
    case InsertPayment(p, row) =>
      assert PaymentInserted(row.expense) in events;
      assert PaymentsOf(db.payments, id) == PaymentsOf(after.payments, id);
    case UpdatePayment(p, row) =>
      if p in db.payments {
        assert PaymentUpdated(db.payments[p].expense, row.expense) in events;
        assert PaymentsOf(db.payments, id) == PaymentsOf(after.payments, id);
      }
    case DeletePayment(p) =>
      if p in db.payments {
        assert PaymentDeleted(db.payments[p].expense) in events;
        assert PaymentsOf(db.payments, id) == PaymentsOf(after.payments, id);
      }
  }

  /** Constraints checked row by row hold after every statement, cascades included. */
  lemma ExecuteKeepsConstraints(db: Database, s: Statement)
    requires Valid(db) && Execute(db, s).Done?
    ensures Valid(Execute(db, s).db)
  {
  }

  /** Whatever a transaction does, an expense it never names is untouched, payments included. */
  lemma {:induction false} UnnamedIsUntouched(db: Database, statements: seq<Statement>)
    requires Valid(db) && ExecuteAll(db, statements).Done?
    ensures Valid(ExecuteAll(db, statements).db)
    ensures forall id :: !Named(ExecuteAll(db, statements).events, id) ==>
              SameAt(db, ExecuteAll(db, statements).db, id)
    decreases |statements|
  {
    if statements == [] {
    } else {
      var before, last := statements[..|statements| - 1], statements[|statements| - 1];
      UnnamedIsUntouched(db, before);
      var Done(mid, queued) := ExecuteAll(db, before);
      var Done(after, more) := Execute(mid, last);
      ExecuteKeepsConstraints(mid, last);
      forall id | !Named(queued + more, id) ensures SameAt(db, after, id) {
        forall event | event in queued ensures id !in ExpenseIds(event) {
          assert event in queued + more;
        }
        forall event | event in more ensures id !in ExpenseIds(event) {
          assert event in queued + more;
        }
        assert !Named(queued, id) && !Named(more, id);
        assert SameAt(db, mid, id);
        ExecuteKeepsUnnamed(mid, last, id);
        assert SameAt(mid, after, id);
      }
    }
  }

  /** From ANY start: the final rows are balanced exactly when every named expense is settled now
      and every unnamed one was settled before. */
  lemma BalanceSplitsByNaming(db: Database, statements: seq<Statement>)
    requires Valid(db) && ExecuteAll(db, statements).Done?
    ensures var Done(after, events) := ExecuteAll(db, statements);
      Balanced(after) <==>
        && (forall id :: Named(events, id) ==> Settled(after, id))
        && (forall id :: !Named(events, id) ==> Settled(db, id))
  {
    UnnamedIsUntouched(db, statements);
    var Done(after, events) := ExecuteAll(db, statements);
    forall id | !Named(events, id) ensures Settled(db, id) <==> Settled(after, id) {
      assert SameAt(db, after, id);
    }
    if Balanced(after) {
      forall id ensures Settled(after, id) {}
    }
  }

  /** The core result. From a balanced state, the per-event check at commit accepts exactly when
      the WHOLE final state is balanced and no named sum overflows the trigger's variable. */
  lemma DeferredCheckIsGlobalCheck(db: Database, statements: seq<Statement>)
    requires Valid(db) && Balanced(db) && ExecuteAll(db, statements).Done?
    ensures var Done(after, events) := ExecuteAll(db, statements);
      Accepted(after, events) <==>
        Balanced(after) && forall id :: Named(events, id) ==> Countable(after, id)
  {
    BalanceSplitsByNaming(db, statements);
    var Done(after, events) := ExecuteAll(db, statements);
    if Accepted(after, events) {
      forall id | Named(events, id) ensures Settled(after, id) && Countable(after, id) {
        var event :| event in events && id in ExpenseIds(event);
        assert Passes(after, event);
      }
    }
    if Balanced(after) && forall id :: Named(events, id) ==> Countable(after, id) {
      forall event | event in events ensures Passes(after, event) {
        forall id | id in ExpenseIds(event) ensures Settled(after, id) && Countable(after, id) {
          assert Named(events, id);
        }
      }
    }
  }

  /** A transaction keeps the invariant, whether it commits or is rolled back. */
  lemma TransactKeepsBalance(db: Database, statements: seq<Statement>)
    requires Valid(db) && Balanced(db)
    ensures Valid(Transact(db, statements)) && Balanced(Transact(db, statements))
  {
    if ExecuteAll(db, statements).Done? {
      UnnamedIsUntouched(db, statements);
      DeferredCheckIsGlobalCheck(db, statements);
    }
  }

  /** An accepted transaction stays stored, all of it; any other leaves nothing. */
  lemma AcceptedIsStored(db: Database, statements: seq<Statement>)
    ensures ExecuteAll(db, statements).Done? ==>
      var Done(after, events) := ExecuteAll(db, statements);
      Transact(db, statements) == if Accepted(after, events) then after else db
    ensures ExecuteAll(db, statements).Refused? ==> Transact(db, statements) == db
  {
  }

  /** A statement is refused only for the row it brings: a taken key, a total or an amount that does not
      fit, an amount that is not positive, or an expense that does not exist. */
  lemma RefusedExactly(db: Database, s: Statement)
    ensures Execute(db, s).Refused? <==>
      match s
      case InsertExpense(e, row) =>
        e in db.expenses || row.total <= -1_000_000_000_000_000_000 || row.total >= 1_000_000_000_000_000_000
      case UpdateExpense(e, row) =>
        e in db.expenses && (row.total <= -1_000_000_000_000_000_000 || row.total >= 1_000_000_000_000_000_000)
      case InsertPayment(p, row) =>
        p in db.payments || row.amount <= 0 || row.amount >= 1_000_000_000_000_000_000 || row.expense !in db.expenses
      case UpdatePayment(p, row) =>
        p in db.payments &&
        (row.amount <= 0 || row.amount >= 1_000_000_000_000_000_000 || row.expense !in db.expenses)
      case DeleteExpense(_) => false
      case DeletePayment(_) => false
  {
  }

  /** Otherwise the row is there, or gone, with the payments of a deleted expense; and nothing else moves. */
  lemma StatementIsStored(db: Database, s: Statement)
    requires Execute(db, s).Done?
    ensures var after := Execute(db, s).db;
      match s
      case InsertExpense(e, row) => after.payments == db.payments && after.expenses == db.expenses[e := row]
      case UpdateExpense(e, row) =>
        && after.payments == db.payments
        && after.expenses == if e in db.expenses then db.expenses[e := row] else db.expenses
      case DeleteExpense(e) =>
        && after.expenses == db.expenses - {e}
        && (e in db.expenses ==>
              forall p :: p in after.payments <==> p in db.payments && db.payments[p].expense != e)
        && (forall p :: p in after.payments ==> p in db.payments && after.payments[p] == db.payments[p])
      case InsertPayment(p, row) => after.expenses == db.expenses && after.payments == db.payments[p := row]
      case UpdatePayment(p, row) =>
        && after.expenses == db.expenses
        && after.payments == if p in db.payments then db.payments[p := row] else db.payments
      case DeletePayment(p) => after.expenses == db.expenses && after.payments == db.payments - {p}
  {
  }

  /** A new payment on a balanced table is kept unless the completed expense it pays would no longer fit the
      trigger's variable: paying more never leaves anybody short. */
  lemma PaymentIsKept(db: Database, p: Uuid, row: Payment)
    requires Valid(db) && Balanced(db) && p !in db.payments && ValidPayment(row, db.expenses)
    ensures Transact(db, [InsertPayment(p, row)]) ==
            if Completed(db.expenses[row.expense]) && Paid(db, row.expense) + row.amount >= NUMERIC_18_2
            then db else db.(payments := db.payments[p := row])
  {
    var s := InsertPayment(p, row);
    assert [s][..0] == [] && ExecuteAll(db, []) == Done(db, {});
    var Done(after, events) := Execute(db, s);
    assert ExecuteAll(db, [s]) == Done(after, {} + events) && {} + events == {PaymentInserted(row.expense)};
    PaidMoves(db, s, row.expense);
    assert Settled(db, row.expense);
    assert Passes(after, PaymentInserted(row.expense)) <==> Countable(after, row.expense) by {
      assert row.expense in ExpenseIds(PaymentInserted(row.expense));
    }
    assert PaymentInserted(row.expense) in events;
  }

  /** Balance alone is not enough: two payments that together exceed numeric(18, 2) make the
      trigger refuse a balanced final state. */
  lemma BalancedYetRefused()
    returns (db: Database, statements: seq<Statement>)
    ensures Valid(db) && Balanced(db) && ExecuteAll(db, statements).Done?
    ensures var Done(after, events) := ExecuteAll(db, statements);
      Balanced(after) && !Accepted(after, events)
  {
    var most := NUMERIC_18_2 - 1;
    db := Database(map[1 := Expense(7, 0, "completed")], map[2 := Payment(1, 7, most)]);
    var insert := InsertPayment(3, Payment(1, 7, most));
    statements := [insert];
    assert Upper("completed") == "COMPLETED";
    var one: map<Uuid, int>, both: map<Uuid, int> := map[2 := most], map[2 := most, 3 := most];
    assert PaymentsOf(db.payments, 1) == one;
    TotalTake(one, 2);
    assert one - {2} == map[];
    assert Paid(db, 1) == most;
    assert statements[..0] == [];
    assert ExecuteAll(db, []) == Done(db, {});
    var Done(after, events) := Execute(db, insert);
    assert ExecuteAll(db, statements) == Done(after, {} + events);
    assert PaymentsOf(after.payments, 1) == both;
    TotalTake(both, 3);
    assert both - {3} == one;
    assert PaymentInserted(1) in events && 1 in ExpenseIds(PaymentInserted(1));
    assert Paid(after, 1) == 2 * most;
    assert !Countable(after, 1);
    assert !Passes(after, PaymentInserted(1));
  }
}
