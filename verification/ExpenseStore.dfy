/** The two tables and the queue of deferred trigger events, changed in place. */
module ExpenseTables {
  import opened Sums
  import opened ExpenseBalance
  import opened ExpenseRepairs
  import opened Prefixes

  datatype Verdict =
    | Committed
    | StatementError
    | Underpaid(expense: Uuid, paid: int, total: int)
    | Overflow(expense: Uuid)

  class ExpenseStore {
    var expenses: map<Uuid, Expense>
    var payments: map<Uuid, Payment>
    var queue: seq<RowEvent>

    ghost function Rows(): Database
      reads this
    {
      Database(expenses, payments)
    }

    ghost function Queued(): set<RowEvent>
      reads this
    {
      Events(queue)
    }

    constructor (expenses: map<Uuid, Expense>, payments: map<Uuid, Payment>)
      ensures Rows() == Database(expenses, payments) && queue == []
    {
      this.expenses, this.payments, queue := expenses, payments, [];
    }

    /** The trigger function, fired for one queued row event. */
    method EnforcePaidBalance(event: RowEvent) returns (verdict: Verdict)
      ensures verdict.Committed? <==> Passes(Rows(), event)
      ensures !verdict.StatementError?
      ensures verdict.Underpaid? ==>
                && verdict.expense in ExpenseIds(event) && verdict.expense in expenses
                && Completed(expenses[verdict.expense])
                && verdict.paid == Paid(Rows(), verdict.expense)
                && verdict.total == expenses[verdict.expense].total && verdict.paid < verdict.total
      ensures verdict.Overflow? ==>
                verdict.expense in ExpenseIds(event) && !Countable(Rows(), verdict.expense)
    {
      var expenseIds := ExpenseIds(event);
      for i := 0 to |expenseIds|
        invariant forall j :: 0 <= j < i ==>
                    Settled(Rows(), expenseIds[j]) && Countable(Rows(), expenseIds[j])
      {
        var target := expenseIds[i];
        if target !in expenses || !Completed(expenses[target]) {
          continue;
        }
        var paid := SumValues(PaymentsOf(payments, target));
        if paid >= NUMERIC_18_2 {
          assert !Countable(Rows(), target);
          return Overflow(target);
        }
        if paid < expenses[target].total {
          assert !Settled(Rows(), target);
          return Underpaid(target, paid, expenses[target].total);
        }
      }
      verdict := Committed;
    }

    /** ON DELETE CASCADE: the payments of a deleted expense go one row at a time, an event each. */
    method CascadeDelete(id: Uuid)
      modifies this`payments, this`queue
      ensures payments == old(payments) - PaymentsOf(old(payments), id).Keys
      ensures queue == old(queue) + Copies(PaymentDeleted(id), |PaymentsOf(old(payments), id).Keys|)
      ensures Queued() == old(Queued()) + Deletions(PaymentsOf(old(payments), id).Keys, id)
    {
      hide Copies, Events, Deletions;
      var victims := PaymentsOf(payments, id).Keys;
      ghost var all := victims;
      assert forall p :: p in all ==> p in payments && payments[p].expense == id;
      hide PaymentsOf, Remaining;
      NoCopies(PaymentDeleted(id));
      assert old(queue) + [] == old(queue);
      Untouched(payments, all);
      while victims != {}
        invariant victims <= all && Remaining(old(payments), payments, all, victims)
        invariant queue == old(queue) + Copies(PaymentDeleted(id), |all| - |victims|)
        decreases |victims|
      {
        var p :| p in victims;
        RemoveOne(old(payments), payments, all, victims, p);
        OneMoreCopy(old(queue), PaymentDeleted(id), |all| - |victims|);
        queue := queue + [PaymentDeleted(payments[p].expense)];
        payments := payments - {p};
        victims := victims - {p};
      }
      AllRemoved(old(payments), payments, all);
      QueuedCopies(old(queue), all, id);
    }

    /** A row event is queued for the commit. */
    method Enqueue(event: RowEvent)
      modifies this`queue
      ensures queue == old(queue) + [event]
      ensures Queued() == old(Queued()) + {event}
    {
      queue := queue + [event];
    }

    method Apply(s: Statement) returns (ok: bool)
      requires Valid(Rows())
      modifies this
      ensures ok <==> Execute(old(Rows()), s).Done?
      ensures ok ==> Rows() == Execute(old(Rows()), s).db
      ensures ok ==> Queued() == old(Queued()) + Execute(old(Rows()), s).events
    {
      hide Copies, Deletions, Events, Valid, PaymentsOf;
      ok := true;
      match s
      case InsertExpense(id, row) =>
        if id in expenses || !Fits(row.total) { return false; }
        expenses := expenses[id := row];
        Enqueue(ExpenseInserted(id));
      case UpdateExpense(id, row) =>
        if id !in expenses { return; }
        if !Fits(row.total) { return false; }
        expenses := expenses[id := row];
        Enqueue(ExpenseUpdated(id, id));
      case DeleteExpense(id) =>
        if id !in expenses { return; }
        expenses := expenses - {id};
        Enqueue(ExpenseDeleted(id));
        CascadeDelete(id);
      case InsertPayment(id, row) =>
        if id in payments || !ValidPayment(row, expenses) { return false; }
        payments := payments[id := row];
        Enqueue(PaymentInserted(row.expense));
      case UpdatePayment(id, row) =>
        if id !in payments { return; }
        if !ValidPayment(row, expenses) { return false; }
        Enqueue(PaymentUpdated(payments[id].expense, row.expense));
        payments := payments[id := row];
      case DeletePayment(id) =>
        if id !in payments { return; }
        Enqueue(PaymentDeleted(payments[id].expense));
        payments := payments - {id};
    }

    /** Fires the deferred trigger for every queued event, stopping at the first refusal. */
    method FireDeferred() returns (verdict: Verdict)
      modifies this`queue
      ensures verdict.Committed? <==> Accepted(Rows(), old(Queued()))
      ensures !verdict.StatementError? && queue == []
      ensures verdict.Underpaid? ==> !Settled(Rows(), verdict.expense)
      ensures verdict.Overflow? ==> !Countable(Rows(), verdict.expense)
    {
      var events := queue;
      queue := [];
      for i := 0 to |events|
        invariant queue == [] && Rows() == old(Rows())
        invariant forall j :: 0 <= j < i ==> Passes(Rows(), events[j])
      {
        verdict := EnforcePaidBalance(events[i]);
        if !verdict.Committed? {
          assert events[i] in old(Queued());
          return;
        }
      }
      verdict := Committed;
    }

    /** One transaction: its statements, then the deferred checks, or a full rollback. */
    method Run(statements: seq<Statement>) returns (verdict: Verdict)
      requires Valid(Rows()) && queue == []
      modifies this
      ensures Rows() == Transact(old(Rows()), statements) && queue == []
      ensures verdict.Committed? ==> ExecuteAll(old(Rows()), statements).Done?
                                     && Rows() == ExecuteAll(old(Rows()), statements).db
      ensures !verdict.Committed? ==> Rows() == old(Rows())
      ensures Valid(Rows()) && (Balanced(old(Rows())) ==> Balanced(Rows()))
      ensures verdict.StatementError? <==> ExecuteAll(old(Rows()), statements).Refused?
      ensures ExecuteAll(old(Rows()), statements).Done? ==>
                var Done(after, events) := ExecuteAll(old(Rows()), statements);
                verdict.Committed? <==> Accepted(after, events)
    {
      ghost var start := Rows();
      if Balanced(start) { TransactKeepsBalance(start, statements); }
      var savedExpenses, savedPayments := expenses, payments;
      for i := 0 to |statements|
        invariant ExecuteAll(start, statements[..i]) == Done(Rows(), Queued())
        invariant Valid(Rows())
      {
        assert statements[..i + 1][..i] == statements[..i];
        ghost var mid := Rows();
        var ok := Apply(statements[i]);
        if !ok {
          RefusedStaysRefused(start, statements, i + 1);
          expenses, payments, queue := savedExpenses, savedPayments, [];
          return StatementError;
        }
        ExecuteKeepsConstraints(mid, statements[i]);
      }
      assert statements[..|statements|] == statements;
      verdict := FireDeferred();
      if !verdict.Committed? {
        expenses, payments := savedExpenses, savedPayments;
      }
    }

    /** The reconciliation UPDATE, before the triggers exist: no event is queued. */
    method ReconcileStatuses()
      modifies this`expenses
      ensures Rows() == Reconciled(old(Rows()))
      ensures Valid(old(Rows())) ==> Valid(Rows()) && Balanced(Rows())
    {
      ghost var start := Rows();
      if Valid(start) { ReconcileEstablishesBalance(start); }
      var todo := expenses.Keys;
      while todo != {}
        invariant todo <= expenses.Keys == start.expenses.Keys
        invariant forall id :: id in expenses ==>
                    expenses[id] == if id in todo then start.expenses[id] else ReconciledRow(start, id)
      {
        var id :| id in todo;
        if Legacy(expenses[id]) {
          assert OwnPaymentsOf(Rows(), id) == OwnPaymentsOf(start, id);
          var paid := SumValues(OwnPaymentsOf(Database(expenses, payments), id));
          expenses := expenses[id := expenses[id].(status :=
            if paid >= expenses[id].total then "COMPLETED" else "PARTIALLY_PAID")];
        }
        todo := todo - {id};
      }
    }

    /** The second repair, run as one transaction under the triggers: it always commits. */
    method ResetUnpaidLabels() returns (verdict: Verdict)
      requires Valid(Rows()) && Balanced(Rows()) && queue == []
      modifies this
      ensures verdict.Committed? && queue == []
      ensures Rows() == LabelsReset(old(Rows())) && Balanced(Rows())
    {
      ghost var start := Rows();
      var unpaid := set id | id in expenses && Unpaid(Database(expenses, payments), id);
      var todo := unpaid;
      while todo != {}
        invariant todo <= unpaid && payments == start.payments
        invariant expenses.Keys == start.expenses.Keys
        invariant forall id :: id in expenses ==>
                    expenses[id] == if id in unpaid - todo
                                    then start.expenses[id].(status := "SUBMITTED")
                                    else start.expenses[id]
        invariant forall event :: event in queue ==>
                    event.ExpenseUpdated? && event.newId in unpaid
      {
        var id :| id in todo;
        expenses := expenses[id := expenses[id].(status := "SUBMITTED")];
        queue := queue + [ExpenseUpdated(id, id)];
        todo := todo - {id};
      }
      assert Rows().expenses == LabelsReset(start).expenses;
      ResetLabelsKeepsBalance(start);
      forall event | event in queue ensures Passes(Rows(), event) {
        assert Passes(Rows(), ExpenseUpdated(event.newId, event.newId));
      }
      verdict := FireDeferred();
    }
  }

  function Events(queue: seq<RowEvent>): set<RowEvent> {
    set event | event in queue
  }

  function Copies<T>(x: T, n: nat): seq<T> {
    seq(n, i => x)
  }

  lemma NoCopies<T>(x: T)
    ensures Copies(x, 0) == []
  {
  }

  lemma OneMoreCopy<T>(before: seq<T>, x: T, n: nat)
    ensures before + Copies(x, n) + [x] == before + Copies(x, n + 1)
  {
  }

  /** All rows but those of a set that are no longer waiting to be removed. */
  predicate Remaining<V(==)>(before: map<Uuid, V>, now: map<Uuid, V>, all: set<Uuid>, waiting: set<Uuid>) {
    now == before - (all - waiting) && |waiting| <= |all|
  }

  lemma Untouched<V>(before: map<Uuid, V>, all: set<Uuid>)
    ensures Remaining(before, before, all, all)
  {
    assert all - all == {};
  }

  lemma AllRemoved<V>(before: map<Uuid, V>, now: map<Uuid, V>, all: set<Uuid>)
    requires Remaining(before, now, all, {})
    ensures now == before - all
  {
    assert all - {} == all;
  }

  lemma RemoveOne<V>(before: map<Uuid, V>, now: map<Uuid, V>, all: set<Uuid>, waiting: set<Uuid>, p: Uuid)
    requires p in waiting && waiting <= all <= before.Keys && Remaining(before, now, all, waiting)
    ensures p in now && now[p] == before[p]
    ensures Remaining(before, now - {p}, all, waiting - {p}) && |waiting - {p}| == |waiting| - 1
  {
    assert all - (waiting - {p}) == (all - waiting) + {p};
  }

  lemma QueuedCopies(before: seq<RowEvent>, victims: set<Uuid>, id: Uuid)
    ensures Events(before + Copies(PaymentDeleted(id), |victims|)) == Events(before) + Deletions(victims, id)
  {
    var copies := Copies(PaymentDeleted(id), |victims|);
    if p :| p in victims {
      assert copies[0] == PaymentDeleted(id);
    }
    assert forall event :: event in copies <==> event in Deletions(victims, id);
  }

  /** A statement error ends the transaction, whatever statements follow it. */
  lemma RefusedStaysRefused(db: Database, statements: seq<Statement>, n: nat)
    requires n <= |statements| && ExecuteAll(db, statements[..n]).Refused?
    ensures ExecuteAll(db, statements).Refused?
  {
    var refused := (s: seq<Statement>) => ExecuteAll(db, s).Refused?;
    forall s: seq<Statement>, a: Statement | refused(s) ensures refused(s + [a]) {
      assert (s + [a])[..|s|] == s;
    }
    FailureIsFinal(refused, statements, n);
  }
}
