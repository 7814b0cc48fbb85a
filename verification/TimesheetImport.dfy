/** The import script: classify every record, then write all of them or nothing. */
module TimesheetImport {
  import opened AsciiText
  import opened Options
  import opened NameMatching
  import opened HoursGrid
  import opened TimesheetPlan

  class TimesheetStore {
    var sheets: seq<SheetRow>
    var days: map<DayKey, int>

    ghost function Tables(): Database
      reads this
    {
      Database(sheets, days)
    }

    constructor (db: Database)
      ensures Tables() == db
    {
      sheets, days := db.sheets, db.days;
    }

    /** The classification loop. */
    method Classify(job: Job) returns (pending: seq<Planned>, unmatched: seq<Record>, already: seq<Record>)
      ensures var plan := PlanFor(job.records, sheets, job);
        pending == plan.pending && unmatched == plan.unresolved && already == plan.already
    {
      hide MatchEmployee, Existing;
      pending, unmatched, already := [], [], [];
      var matchedEmployees: map<Uuid, string> := map[];
      for i := 0 to |job.records|
        invariant PlanFor(job.records[..i], sheets, job) == Plan(pending, unmatched, already, matchedEmployees)
      {
        var record := job.records[i];
        ghost var plan := Plan(pending, unmatched, already, matchedEmployees);
        assert job.records[..i + 1][..i] == job.records[..i];
        assert PlanFor(job.records[..i + 1], sheets, job) == Consider(plan, record, sheets, job);
        var m := MatchEmployee(record.sourceName, job.employees, job.mapping);
        if !m.Matched? {
          unmatched := unmatched + [record];
          continue;
        }
        var employee := m.employee;
        if employee.id in matchedEmployees && matchedEmployees[employee.id] != "" {
          unmatched := unmatched + [record];
          continue;
        }
        matchedEmployees := matchedEmployees[employee.id := record.sourceName];
        var existing := Existing(sheets, job, employee.id);
        if existing.Some? {
          if existing.value.sourceFile == Some(job.file) {
            already := already + [record];
            continue;
          }
          unmatched := unmatched + [record];
          continue;
        }
        pending := pending + [Planned(record, employee.id)];
      }
      assert job.records[..|job.records|] == job.records;
    }

    /** INSERT of a sheet: the caller must not meet the one-per-employee-and-period index. */
    method InsertSheet(row: SheetRow) returns (id: nat)
      requires forall s :: s in sheets ==> !SamePerson(s, row)
      modifies this`sheets
      ensures id == |old(sheets)| && sheets == old(sheets) + [row]
    {
      id := |sheets|;
      sheets := sheets + [row];
    }

    /** INSERT of a day row: its sheet exists, the date is new there, the hours are in range. */
    method InsertDay(key: DayKey, hours: int)
      requires key.sheet < |sheets| && key !in days && 0 <= hours <= 2400
      modifies this`days
      ensures days == old(days)[key := hours]
    {
      days := days[key := hours];
    }

    method WriteDays(id: nat, period: Period, daily: map<nat, int>)
      requires id < |sheets| && forall k :: k in days ==> k.sheet < id
      requires forall d :: d in daily ==> 0 <= daily[d] <= 2400
      modifies this`days
      ensures days == old(days) + DayRows(id, period, daily)
    {
      hide DayRows;
      var todo := daily.Keys;
      NoDayRows(id, period, daily);
      while todo != {}
        invariant todo <= daily.Keys
        invariant days == old(days) + DayRows(id, period, daily - todo)
      {
        var d :| d in todo;
        DayRowsGrow(id, period, daily, todo, d);
        InsertDay(DayKey(id, period, d), daily[d]);
        todo := todo - {d};
      }
      assert daily - {} == daily;
    }

    method Write(job: Job, p: Planned)
      requires Valid(Tables()) && Existing(sheets, job, p.employee).None?
      requires DailyInRange(p.record)
      modifies this
      ensures Tables() == InsertOne(old(Tables()), job, p) && Valid(Tables())
    {
      NoneExisting(sheets, job, p.employee);
      InsertOneIsValid(Tables(), job, p);
      var id := InsertSheet(RowFor(job, p.employee, p.record.siteName));
      WriteDays(id, job.period, p.record.daily);
    }

    /** The insert loop: no insert of a planned record meets a constraint. */
    method WriteAll(job: Job, pending: seq<Planned>)
      requires Valid(Tables()) && Insertable(Tables(), job, pending)
      modifies this
      ensures Tables() == InsertAll(old(Tables()), job, pending) && Valid(Tables())
    {
      hide Existing, Valid, Insertable;
      ghost var start := Tables();
      for i := 0 to |pending|
        invariant Valid(Tables()) && Tables() == InsertAll(start, job, pending[..i])
      {
        assert pending[..i + 1][..i] == pending[..i];
        PrefixInsertable(start, job, pending, i + 1);
        LastIsNew(start, job, pending[..i + 1]);
        Write(job, pending[i]);
      }
      assert pending[..|pending|] == pending;
    }

    method Run(job: Job) returns (outcome: Outcome)
      requires Valid(Tables()) && ReadFromGrid(job)
      modifies this
      ensures (Tables(), outcome) == RunJob(old(Tables()), job)
      ensures Valid(Tables())
    {
      hide Existing, Valid, PlanFor;
      var pending, unmatched, _ := Classify(job);
      if unmatched != [] { return Exit(2); }
      if !job.apply && !job.applyLocal { return Exit(0); }
      if job.apply && !job.production { return RefusedEnvironment; }
      if job.applyLocal && job.production { return RefusedEnvironment; }
      PendingIsNew(job.records, sheets, job);
      WriteAll(job, pending);
      outcome := Exit(0);
    }
  }

  /** What the grid parser accepts, the importer may write: names are present, hours fit the table's
      check, and every day is a date of the month. */
  lemma GridIsImportable(rows: seq<seq<string>>, read: Reader, job: Job)
    requires 1 <= job.period.month <= 12
    requires Accounted(rows, |rows|, DaysInMonth(job.period.year, job.period.month), read, job.records)
    ensures ReadFromGrid(job)
    ensures forall r :: r in job.records ==>
              forall d :: d in r.daily ==> 1 <= d <= DaysInMonth(job.period.year, job.period.month)
  {
    hide IsRecord, Skipped, Strip;
    var days := DaysInMonth(job.period.year, job.period.month);
    forall r | r in job.records
      ensures r.sourceName != "" && DailyInRange(r) && forall d :: d in r.daily ==> 1 <= d <= days
    {
      RecordInRange(rows[r.line - 1], days, read, r);
      RecordIsNamed(rows[r.line - 1], days, read, r);
    }
  }

  lemma RecordIsNamed(cells: seq<string>, days: nat, read: Reader, r: Record)
    requires IsRecord(cells, days, read, r)
    ensures r.sourceName != ""
  {
    hide Strip;
  }

  lemma NoDayRows(sheet: nat, period: Period, daily: map<nat, int>)
    ensures DayRows(sheet, period, daily - daily.Keys) == map[]
  {
  }

  lemma DayRowsGrow(sheet: nat, period: Period, daily: map<nat, int>, todo: set<nat>, d: nat)
    requires d in todo && todo <= daily.Keys
    ensures DayKey(sheet, period, d) !in DayRows(sheet, period, daily - todo)
    ensures DayRows(sheet, period, daily - (todo - {d})) ==
            DayRows(sheet, period, daily - todo)[DayKey(sheet, period, d) := daily[d]]
  {
  }

  lemma PrefixInsertable(db: Database, job: Job, pending: seq<Planned>, n: nat)
    requires Insertable(db, job, pending) && n <= |pending|
    ensures Insertable(db, job, pending[..n])
    ensures n > 0 ==> DailyInRange(pending[n - 1].record)
  {
    hide Existing;
    assert forall p :: p in pending[..n] ==> p in pending;
    if n > 0 { assert pending[n - 1] in pending; }
  }
}
