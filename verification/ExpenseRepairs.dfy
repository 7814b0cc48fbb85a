/** The two status repairs, and every later history of transactions. */
module ExpenseRepairs {
  import opened AsciiText
  import opened Sums
  import opened ExpenseBalance

  /** Statuses the reconciliation recomputes, compared without regard to case. */
  predicate Legacy(e: Expense) {
    Upper(e.status) in {"PAID", "COMPLETED", "PARTIALLY_PAID"}
  }

  predicate PartlyPaid(e: Expense) {
    Upper(e.status) == "PARTIALLY_PAID"
  }

  /** The join of the repairs: payments of the expense booked under the expense's organization. */
  function OwnPaymentsOf(db: Database, id: Uuid): map<Uuid, int>
    requires id in db.expenses
  {
    map p | && p in db.payments && db.payments[p].expense == id
            && db.payments[p].organization == db.expenses[id].organization
      :: db.payments[p].amount
  }

  ghost function OwnPaid(db: Database, id: Uuid): int
    requires id in db.expenses
  {
    Total(OwnPaymentsOf(db, id))
  }

  ghost function ReconciledRow(db: Database, id: Uuid): Expense
    requires id in db.expenses
  {
    var e := db.expenses[id];
    if !Legacy(e) then e
    else e.(status := if OwnPaid(db, id) >= e.total then "COMPLETED" else "PARTIALLY_PAID")
  }

  ghost function Reconciled(db: Database): Database {
    db.(expenses := map id | id in db.expenses :: ReconciledRow(db, id))
  }

  predicate Unpaid(db: Database, id: Uuid)
    requires id in db.expenses
  {
    PartlyPaid(db.expenses[id]) && OwnPaymentsOf(db, id) == map[]
  }

  ghost function LabelsReset(db: Database): Database {
    db.(expenses := map id | id in db.expenses ::
      if Unpaid(db, id) then db.expenses[id].(status := "SUBMITTED") else db.expenses[id])
  }

  // --- the reconciliation establishes what the trigger then keeps ---------------------------

  /** Payments of one organization never sum to more than all payments. */
  lemma OwnPaidBound(db: Database, id: Uuid)
    requires Valid(db) && id in db.expenses
    ensures 0 <= OwnPaid(db, id) <= Paid(db, id)
    ensures OwnPaid(db, id) == 0 <==> OwnPaymentsOf(db, id) == map[]
  {
    TotalOfSelection(OwnPaymentsOf(db, id), PaymentsOf(db.payments, id));
  }

  /** From any rows the constraints allow, the reconciled table is balanced: although it counts
      only the expense's own organization, no completed expense is short of the trigger's sum. */
  lemma ReconcileEstablishesBalance(db: Database)
    requires Valid(db)
    ensures Valid(Reconciled(db)) && Balanced(Reconciled(db))
  {
    var after := Reconciled(db);
    forall id | id in after.expenses ensures Settled(after, id) {
      OwnPaidBound(db, id);
      assert Upper("PARTIALLY_PAID") == "PARTIALLY_PAID";
      assert Upper("PARTIALLY_PAID")[0] != "COMPLETED"[0];
    }
  }

  lemma UpperOfLabels()
    ensures Upper("COMPLETED") == "COMPLETED"
    ensures Upper("PARTIALLY_PAID") == "PARTIALLY_PAID"
    ensures Upper("SUBMITTED") == "SUBMITTED"
    ensures "COMPLETED" != "PARTIALLY_PAID" && "PARTIALLY_PAID" != "SUBMITTED"
    ensures "COMPLETED" != "SUBMITTED" && "PAID" != "SUBMITTED"
  {
    assert |"SUBMITTED"| == |"COMPLETED"| && "COMPLETED"[0] != "SUBMITTED"[0];
    assert |"PAID"| == 4;
  }

  /** One repair after the other labels every legacy expense exactly, and nothing else changes. */
  lemma RepairsClassify(db: Database, id: Uuid)
    requires Valid(db) && id in db.expenses
    ensures OwnPaid(db, id) ==
            Total(map p: Uuid | p in db.payments && db.payments[p].expense == id
                                && db.payments[p].organization == db.expenses[id].organization
                    :: db.payments[p].amount)
    ensures Reconciled(db).payments == db.payments == LabelsReset(db).payments
    ensures Reconciled(db).expenses.Keys == db.expenses.Keys == LabelsReset(db).expenses.Keys
    ensures Reconciled(db).expenses[id].status ==
            if !Legacy(db.expenses[id]) then db.expenses[id].status
            else if OwnPaid(db, id) >= db.expenses[id].total then "COMPLETED" else "PARTIALLY_PAID"
    ensures var before := db.expenses[id];
      var after := LabelsReset(Reconciled(db)).expenses[id];
      && after == before.(status := after.status)
      && (Legacy(before) <==> Upper(before.status) in {"PAID", "COMPLETED", "PARTIALLY_PAID"})
      && (!Legacy(before) ==> after == before)
      && (Legacy(before) ==>
            && (after.status == "COMPLETED" <==> OwnPaid(db, id) >= before.total)
            && (after.status == "PARTIALLY_PAID" <==> 0 < OwnPaid(db, id) < before.total)
            && (after.status == "SUBMITTED" <==> 0 == OwnPaid(db, id) < before.total))
  {
    UpperOfLabels();
    OwnPaidBound(db, id);
    assert OwnPaymentsOf(Reconciled(db), id) == OwnPaymentsOf(db, id);
    assert OwnPaymentsOf(db, id) ==
           map p: Uuid | p in db.payments && db.payments[p].expense == id
                         && db.payments[p].organization == db.expenses[id].organization
             :: db.payments[p].amount;
  }

  /** Payments of other organizations do not count for the repairs, and payments of the own one all do: an
      expense paid by strangers only is reset, however much they paid. */
  lemma OnlyOwnPaymentsCount(db: Database, id: Uuid)
    requires Valid(db) && id in db.expenses
    ensures (forall p :: p in db.payments && db.payments[p].expense == id ==>
               db.payments[p].organization == db.expenses[id].organization) ==> OwnPaid(db, id) == Paid(db, id)
    ensures (forall p :: p in db.payments && db.payments[p].expense == id ==>
               db.payments[p].organization != db.expenses[id].organization) ==>
      && OwnPaid(db, id) == 0
      && (Upper(db.expenses[id].status) == "PARTIALLY_PAID" ==> LabelsReset(db).expenses[id].status == "SUBMITTED")
  {
    if forall p :: p in db.payments && db.payments[p].expense == id ==>
         db.payments[p].organization == db.expenses[id].organization {
      assert OwnPaymentsOf(db, id) == PaymentsOf(db.payments, id);
    }
    OwnPaidBound(db, id);
  }

  /** Running both repairs again changes nothing. */
  lemma RepairsIdempotent(db: Database)
    requires Valid(db)
    ensures var once := LabelsReset(Reconciled(db));
      Valid(once) && LabelsReset(Reconciled(once)) == once
  {
    var once := LabelsReset(Reconciled(db));
    var twice := LabelsReset(Reconciled(once));
    RepairsStayValid(db);
    hide Valid;
    forall id | id in db.expenses ensures twice.expenses[id] == once.expenses[id] {
      RepairsAgain(db, id);
    }
    assert twice.expenses == once.expenses;
  }

  lemma RepairsStayValid(db: Database)
    requires Valid(db)
    ensures Valid(LabelsReset(Reconciled(db)))
  {
  }

  lemma RepairsAgain(db: Database, id: Uuid)
    requires Valid(db) && id in db.expenses
    ensures var once := LabelsReset(Reconciled(db));
      LabelsReset(Reconciled(once)).expenses[id] == once.expenses[id]
  {
    var once := LabelsReset(Reconciled(db));
    RepairsStayValid(db);
    UpperOfLabels();
    RepairsClassify(db, id);
    RepairsClassify(once, id);
    assert OwnPaymentsOf(once, id) == OwnPaymentsOf(db, id);
  }

  // --- histories ----------------------------------------------------------------------------

  datatype Step = Transaction(statements: seq<Statement>) | ResetLabels

  ghost function History(db: Database, steps: seq<Step>): Database
    decreases |steps|
  {
    if steps == [] then db
    else
      var before := History(db, steps[..|steps| - 1]);
      match steps[|steps| - 1]
      case Transaction(statements) => Transact(before, statements)
      case ResetLabels => LabelsReset(before)
  }

  /** The events of the second repair never make the trigger refuse it, and it keeps balance. */
  lemma ResetLabelsKeepsBalance(db: Database)
    requires Valid(db) && Balanced(db)
    ensures Valid(LabelsReset(db)) && Balanced(LabelsReset(db))
    ensures forall id :: id in db.expenses && Unpaid(db, id) ==>
              Passes(LabelsReset(db), ExpenseUpdated(id, id))
  {
    UpperOfLabels();
    var after := LabelsReset(db);
    forall id | id in after.expenses ensures Settled(after, id) {
      assert Settled(db, id);
    }
  }

  /** However broken the labels were, after the reconciliation every serial history of committed
      and rolled-back transactions and of label resets ends with all completed expenses paid. */
  lemma {:induction false} CompletedMeansPaidForever(db: Database, steps: seq<Step>)
    requires Valid(db)
    ensures var now := History(Reconciled(db), steps);
      && Valid(now) && Balanced(now)
      && forall id :: id in now.expenses && Upper(now.expenses[id].status) == "COMPLETED" ==>
           Total(map p: Uuid | p in now.payments && now.payments[p].expense == id :: now.payments[p].amount)
             >= now.expenses[id].total
    decreases |steps|
  {
    if steps == [] {
      ReconcileEstablishesBalance(db);
    } else {
      var before := History(Reconciled(db), steps[..|steps| - 1]);
      CompletedMeansPaidForever(db, steps[..|steps| - 1]);
      match steps[|steps| - 1]
      case Transaction(statements) => TransactKeepsBalance(before, statements);
      case ResetLabels => ResetLabelsKeepsBalance(before);
    }
    BalancedMeansPaid(History(Reconciled(db), steps));
  }

  /** The invariant, spelled out: the payments of every completed expense, of whatever organization, add up
      to its total at least. */
  lemma BalancedMeansPaid(db: Database)
    ensures Balanced(db) <==>
      forall id :: id in db.expenses && Upper(db.expenses[id].status) == "COMPLETED" ==>
        Total(map p: Uuid | p in db.payments && db.payments[p].expense == id :: db.payments[p].amount)
          >= db.expenses[id].total
  {
    forall id ensures PaymentsOf(db.payments, id) ==
                      map p: Uuid | p in db.payments && db.payments[p].expense == id :: db.payments[p].amount
    {
    }
    if !Balanced(db) {
      var id :| id in db.expenses && !Settled(db, id);
    } else {
      forall id | id in db.expenses && Upper(db.expenses[id].status) == "COMPLETED" ensures Settled(db, id) {}
    }
  }
}
