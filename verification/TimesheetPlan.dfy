/** The monthly timesheet import as one decision: which records are inserted, which are already
    there, which block the whole run, and what the tables hold afterwards. */
module TimesheetPlan {
  import opened Options
  import opened NameMatching
  import opened HoursGrid

  // --- the two tables -------------------------------------------------------------------------------

  datatype SheetRow = SheetRow(organization: Uuid, employee: Option<Uuid>, period: Period,
                               site: Option<string>, sourceFile: Option<string>)
  datatype DayKey = DayKey(sheet: nat, period: Period, day: nat)

  /** Sheets are identified by their position; a day row by its sheet and its date. */
  datatype Database = Database(sheets: seq<SheetRow>, days: map<DayKey, int>)

  predicate SamePerson(a: SheetRow, b: SheetRow) {
    a.organization == b.organization && a.period == b.period && a.employee.Some? && a.employee == b.employee
  }

  /** One sheet per employee and period, day rows of existing sheets only, hours in range. */
  ghost predicate Valid(db: Database) {
    && (forall i, j :: 0 <= i < j < |db.sheets| ==> !SamePerson(db.sheets[i], db.sheets[j]))
    && (forall k :: k in db.days ==> k.sheet < |db.sheets| && 0 <= db.days[k] <= 2400)
  }

  datatype Job = Job(organization: Uuid, period: Period, file: string, records: seq<Record>,
                     employees: seq<Employee>, mapping: Mapping,
                     apply: bool, applyLocal: bool, production: bool)

  /** What the grid parser guarantees of its records. */
  predicate ReadFromGrid(job: Job) {
    forall r :: r in job.records ==>
      r.sourceName != "" && DailyInRange(r)
  }

  predicate DailyInRange(r: Record) {
    forall d :: d in r.daily ==> 0 <= r.daily[d] <= 2400
  }

  function RowFor(job: Job, employee: Uuid, site: Option<string>): SheetRow {
    SheetRow(job.organization, Some(employee), job.period, site, Some(job.file))
  }

  /** The dictionary of existing sheets by employee: the last one listed wins. */
  function Existing(sheets: seq<SheetRow>, job: Job, employee: Uuid): Option<SheetRow>
    decreases |sheets|
  {
    if sheets == [] then None
    else if SamePerson(sheets[|sheets| - 1], RowFor(job, employee, None)) then Some(sheets[|sheets| - 1])
    else Existing(sheets[..|sheets| - 1], job, employee)
  }

  // --- classification -------------------------------------------------------------------------------

  datatype Planned = Planned(record: Record, employee: Uuid)

  datatype Plan = Plan(pending: seq<Planned>, unresolved: seq<Record>, already: seq<Record>,
                       seen: map<Uuid, string>)

  /** The employee a record resolves to, if to one. */
  function Who(record: Record, job: Job): Option<Uuid> {
    var m := MatchEmployee(record.sourceName, job.employees, job.mapping);
    if m.Matched? then Some(m.employee.id) else None
  }

  function Consider(plan: Plan, record: Record, sheets: seq<SheetRow>, job: Job): Plan {
    var who := Who(record, job);
    if who.None? || (who.value in plan.seen && plan.seen[who.value] != "") then
      plan.(unresolved := plan.unresolved + [record])
    else
      var e := who.value;
      var noted := plan.(seen := plan.seen[e := record.sourceName]);
      var existing := Existing(sheets, job, e);
      if existing.None? then noted.(pending := plan.pending + [Planned(record, e)])
      else if existing.value.sourceFile == Some(job.file) then noted.(already := plan.already + [record])
      else noted.(unresolved := plan.unresolved + [record])
  }

  function PlanFor(records: seq<Record>, sheets: seq<SheetRow>, job: Job): Plan
    decreases |records|
  {
    if records == [] then Plan([], [], [], map[])
    else Consider(PlanFor(records[..|records| - 1], sheets, job), records[|records| - 1], sheets, job)
  }

  // --- writing --------------------------------------------------------------------------------------

  function DayKeys(sheet: nat, period: Period, days: set<nat>): set<DayKey> {
    set d | d in days :: DayKey(sheet, period, d)
  }

  function DayRows(sheet: nat, period: Period, daily: map<nat, int>): map<DayKey, int> {
    map k | k in DayKeys(sheet, period, daily.Keys) :: daily[k.day]
  }

  function InsertOne(db: Database, job: Job, p: Planned): Database {
    Database(db.sheets + [RowFor(job, p.employee, p.record.siteName)],
             db.days + DayRows(|db.sheets|, job.period, p.record.daily))
  }

  function InsertAll(db: Database, job: Job, pending: seq<Planned>): Database
    decreases |pending|
  {
    if pending == [] then db
    else InsertOne(InsertAll(db, job, pending[..|pending| - 1]), job, pending[|pending| - 1])
  }

  datatype Outcome = Exit(code: int) | RefusedEnvironment

  function RunJob(db: Database, job: Job): (Database, Outcome) {
    var plan := PlanFor(job.records, db.sheets, job);
    if plan.unresolved != [] then (db, Exit(2))
    else if !job.apply && !job.applyLocal then (db, Exit(0))
    else if job.apply && !job.production then (db, RefusedEnvironment)
    else if job.applyLocal && job.production then (db, RefusedEnvironment)
    else (InsertAll(db, job, plan.pending), Exit(0))
  }

  // --- no record is lost ------------------------------------------------------------------------------

  function RecordsOf(pending: seq<Planned>): seq<Record> {
    seq(|pending|, i requires 0 <= i < |pending| => pending[i].record)
  }

  function Listed(plan: Plan): multiset<Record> {
    multiset(RecordsOf(plan.pending)) + multiset(plan.unresolved) + multiset(plan.already)
  }

  lemma ConsiderLists(plan: Plan, record: Record, sheets: seq<SheetRow>, job: Job)
    ensures Listed(Consider(plan, record, sheets, job)) == Listed(plan) + multiset{record}
  {
    hide Who, Existing;
    var after := Consider(plan, record, sheets, job);
    if after.pending != plan.pending {
      assert RecordsOf(after.pending) == RecordsOf(plan.pending) + [record];
    }
  }

  /** Every record is in exactly one of the three lists, as often as the file has it. */
  lemma {:induction false} NoRecordIsLost(records: seq<Record>, sheets: seq<SheetRow>, job: Job)
    ensures multiset(records) == Listed(PlanFor(records, sheets, job))
    decreases |records|
  {
    hide Consider;
    if records == [] {
    } else {
      var front, last := records[..|records| - 1], records[|records| - 1];
      NoRecordIsLost(front, sheets, job);
      assert records == front + [last];
      ConsiderLists(PlanFor(front, sheets, job), last, sheets, job);
    }
  }

  // --- the inserts never meet a constraint --------------------------------------------------------------

  ghost predicate Distinct(pending: seq<Planned>) {
    forall i, j :: 0 <= i < j < |pending| ==> pending[i].employee != pending[j].employee
  }

  /** Pending employees are pairwise different and have no sheet of the period yet. */
  lemma {:induction false} PendingIsNew(records: seq<Record>, sheets: seq<SheetRow>, job: Job)
    requires forall r :: r in records ==> r.sourceName != ""
    ensures var plan := PlanFor(records, sheets, job);
      && Distinct(plan.pending)
      && (forall p :: p in plan.pending ==>
            p.record in records && p.employee in plan.seen && Existing(sheets, job, p.employee).None?)
      && (forall e :: e in plan.seen ==> plan.seen[e] != "")
    decreases |records|
  {
    hide Who;
    if records == [] {
    } else {
      PendingIsNew(records[..|records| - 1], sheets, job);
      assert records[|records| - 1] in records;
    }
  }

  lemma {:induction false} NoneExisting(sheets: seq<SheetRow>, job: Job, employee: Uuid)
    ensures Existing(sheets, job, employee).None? <==>
              forall s :: s in sheets ==> !SamePerson(s, RowFor(job, employee, None))
    ensures Existing(sheets, job, employee).Some? ==>
              Existing(sheets, job, employee).value in sheets
              && SamePerson(Existing(sheets, job, employee).value, RowFor(job, employee, None))
    decreases |sheets|
  {
    if sheets == [] {
    } else {
      NoneExisting(sheets[..|sheets| - 1], job, employee);
      assert sheets == sheets[..|sheets| - 1] + [sheets[|sheets| - 1]];
    }
  }

  lemma InsertOneIsValid(db: Database, job: Job, p: Planned)
    requires Valid(db) && Existing(db.sheets, job, p.employee).None?
    requires DailyInRange(p.record)
    ensures Valid(InsertOne(db, job, p))
    ensures forall k :: k in DayRows(|db.sheets|, job.period, p.record.daily) ==> k !in db.days
  {
    NoneExisting(db.sheets, job, p.employee);
    var after := InsertOne(db, job, p);
    forall i, j | 0 <= i < j < |after.sheets| ensures !SamePerson(after.sheets[i], after.sheets[j]) {
      if j == |db.sheets| { assert db.sheets[i] in db.sheets; }
    }
  }

  lemma ExistingAfterInsert(db: Database, job: Job, p: Planned, employee: Uuid)
    ensures Existing(InsertOne(db, job, p).sheets, job, employee) ==
              if p.employee == employee then Some(RowFor(job, p.employee, p.record.siteName))
              else Existing(db.sheets, job, employee)
  {
    var after := InsertOne(db, job, p).sheets;
    assert after[..|after| - 1] == db.sheets;
  }

  /** An employee's sheet after the inserts: this file's when the employee was pending, otherwise
      the one that was there. */
  lemma {:induction false} ExistingAfterAll(db: Database, job: Job, pending: seq<Planned>, employee: Uuid)
    ensures var row := Existing(InsertAll(db, job, pending).sheets, job, employee);
      if exists p :: p in pending && p.employee == employee
      then row.Some? && row.value.sourceFile == Some(job.file)
      else row == Existing(db.sheets, job, employee)
    decreases |pending|
  {
    if pending == [] {
    } else {
      var front, last := pending[..|pending| - 1], pending[|pending| - 1];
      ExistingAfterAll(db, job, front, employee);
      ExistingAfterInsert(InsertAll(db, job, front), job, last, employee);
      assert pending == front + [last];
    }
  }

  /** Inserting distinct new employees keeps every table constraint, keeps all old rows, and stores
      each planned record under its own new sheet, day for day. */
  lemma {:induction false} InsertsAreSafe(db: Database, job: Job, pending: seq<Planned>)
    requires Valid(db) && Insertable(db, job, pending)
    ensures var after := InsertAll(db, job, pending);
      && Valid(after)
      && |after.sheets| == |db.sheets| + |pending| && after.sheets[..|db.sheets|] == db.sheets
      && (forall k :: k in db.days ==> k in after.days && after.days[k] == db.days[k])
      && (forall i :: 0 <= i < |pending| ==> Stored(after, |db.sheets| + i, job, pending[i]))
    decreases |pending|
  {
    hide Existing, Valid, Stored, InsertOne, Insertable;
    if pending == [] {
    } else {
      var front, last := pending[..|pending| - 1], pending[|pending| - 1];
      FrontIsInsertable(db, job, pending);
      InsertsAreSafe(db, job, front);
      var mid := InsertAll(db, job, front);
      LastIsNew(db, job, pending);
      InsertOneIsValid(mid, job, last);
      InsertOneKeeps(mid, job, last);
      forall i | 0 <= i < |front| ensures Stored(InsertOne(mid, job, last), |db.sheets| + i, job, pending[i]) {
        StoredStays(mid, job, last, |db.sheets| + i, front[i]);
      }
    }
  }

  ghost predicate Insertable(db: Database, job: Job, pending: seq<Planned>) {
    && Distinct(pending)
    && (forall p :: p in pending ==> Existing(db.sheets, job, p.employee).None?)
    && (forall p :: p in pending ==> DailyInRange(p.record))
  }

  lemma FrontIsInsertable(db: Database, job: Job, pending: seq<Planned>)
    requires Insertable(db, job, pending) && pending != []
    ensures Insertable(db, job, pending[..|pending| - 1]) && DailyInRange(pending[|pending| - 1].record)
  {
    hide Existing, DailyInRange;
    var front, last := pending[..|pending| - 1], pending[|pending| - 1];
    assert last in pending;
    assert forall i :: 0 <= i < |front| ==> front[i] == pending[i];
    assert forall p :: p in front ==> p in pending;
  }

  lemma LastIsNew(db: Database, job: Job, pending: seq<Planned>)
    requires Insertable(db, job, pending) && pending != []
    ensures var front, last := pending[..|pending| - 1], pending[|pending| - 1];
      Existing(InsertAll(db, job, front).sheets, job, last.employee).None?
  {
    hide Existing;
    var front, last := pending[..|pending| - 1], pending[|pending| - 1];
    ExistingAfterAll(db, job, front, last.employee);
    forall p | p in front ensures p.employee != last.employee {
      var i :| 0 <= i < |front| && front[i] == p;
      assert pending[i] == p;
    }
    assert last in pending;
  }

  lemma InsertOneKeeps(db: Database, job: Job, p: Planned)
    requires Valid(db)
    ensures var after := InsertOne(db, job, p);
      && |after.sheets| == |db.sheets| + 1 && after.sheets[..|db.sheets|] == db.sheets
      && Stored(after, |db.sheets|, job, p)
      && (forall k :: k in db.days ==> k in after.days && after.days[k] == db.days[k])
  {
  }

  lemma StoredStays(db: Database, job: Job, p: Planned, sheet: nat, earlier: Planned)
    requires Valid(db) && Stored(db, sheet, job, earlier)
    ensures Stored(InsertOne(db, job, p), sheet, job, earlier)
  {
  }

  /** A sheet holds exactly a planned record. */
  ghost predicate Stored(db: Database, sheet: nat, job: Job, p: Planned) {
    && sheet < |db.sheets|
    && db.sheets[sheet] == RowFor(job, p.employee, p.record.siteName)
    && (forall k :: k in db.days && k.sheet == sheet ==> k.period == job.period && k.day in p.record.daily)
    && (forall d :: d in p.record.daily ==>
          DayKey(sheet, job.period, d) in db.days && db.days[DayKey(sheet, job.period, d)] == p.record.daily[d])
  }

  // --- all or nothing, and rerun --------------------------------------------------------------------------

  /** What a plan without unresolved records knows of each employee met: that this file was imported
      for them, or that they are pending. */
  ghost predicate Knows(plan: Plan, records: seq<Record>, sheets: seq<SheetRow>, job: Job) {
    && (forall e :: e in plan.seen <==> exists r :: r in records && Who(r, job) == Some(e))
    && (forall e :: e in plan.seen && Existing(sheets, job, e).None? ==>
          exists p :: p in plan.pending && p.employee == e)
    && (forall e :: e in plan.seen && Existing(sheets, job, e).Some? ==>
          Existing(sheets, job, e).value.sourceFile == Some(job.file))
  }

  /** A plan without unresolved records resolves every record, each to another employee. */
  lemma {:induction false} ResolvedPlan(records: seq<Record>, sheets: seq<SheetRow>, job: Job)
    requires forall r :: r in records ==> r.sourceName != ""
    requires PlanFor(records, sheets, job).unresolved == []
    ensures EachOwn(records, job) && Knows(PlanFor(records, sheets, job), records, sheets, job)
    decreases |records|
  {
    hide Who, Existing, Consider;
    if records == [] {
    } else {
      hide EachOwn, Knows;
      var front, last := records[..|records| - 1], records[|records| - 1];
      assert records == front + [last];
      ConsiderResolved(PlanFor(front, sheets, job), last, sheets, job);
      ResolvedPlan(front, sheets, job);
      PendingIsNew(front, sheets, job);
      ConsiderKnows(PlanFor(front, sheets, job), front, last, sheets, job);
      OwnAppend(front, last, job);
    }
  }

  lemma ConsiderKnows(plan: Plan, front: seq<Record>, last: Record, sheets: seq<SheetRow>, job: Job)
    requires Knows(plan, front, sheets, job) && Consider(plan, last, sheets, job).unresolved == []
    requires forall e :: e in plan.seen ==> plan.seen[e] != ""
    ensures Knows(Consider(plan, last, sheets, job), front + [last], sheets, job)
    ensures Who(last, job).Some? && forall r :: r in front ==> Who(r, job) != Who(last, job)
  {
    hide Who, Existing, Consider;
    ConsiderResolved(plan, last, sheets, job);
    var records, after, who := front + [last], Consider(plan, last, sheets, job), Who(last, job).value;
    assert last in records && forall r :: r in front ==> r in records;
    forall e | e in after.seen ensures exists r :: r in records && Who(r, job) == Some(e) {
      if e != who {
        var r :| r in front && Who(r, job) == Some(e);
        assert r in records;
      }
    }
    forall e | e in after.seen && Existing(sheets, job, e).None?
      ensures exists p :: p in after.pending && p.employee == e
    {
      if e != who {
        var p :| p in plan.pending && p.employee == e;
        assert p in after.pending;
      }
    }
  }

  /** A record that leaves nothing unresolved is for a new employee. */
  lemma ConsiderResolved(plan: Plan, record: Record, sheets: seq<SheetRow>, job: Job)
    requires Consider(plan, record, sheets, job).unresolved == []
    ensures plan.unresolved == [] && Who(record, job).Some?
    ensures var who, after := Who(record, job).value, Consider(plan, record, sheets, job);
      && (who in plan.seen ==> plan.seen[who] == "")
      && after.seen == plan.seen[who := record.sourceName]
      && (forall p :: p in plan.pending ==> p in after.pending)
      && (if Existing(sheets, job, who).None? then Planned(record, who) in after.pending
          else Existing(sheets, job, who).value.sourceFile == Some(job.file))
  {
    hide Who, Existing;
  }

  /** Every record resolves, and no two to the same employee. */
  ghost predicate EachOwn(records: seq<Record>, job: Job) {
    && (forall r :: r in records ==> Who(r, job).Some?)
    && (forall i, j :: 0 <= i < j < |records| ==> Who(records[i], job) != Who(records[j], job))
  }

  lemma OwnAppend(front: seq<Record>, last: Record, job: Job)
    requires EachOwn(front, job) && Who(last, job).Some?
    requires forall r :: r in front ==> Who(r, job) != Who(last, job)
    ensures EachOwn(front + [last], job)
  {
  }

  /** Nothing but the employee's sheet of the period, from another file, stands in the way of a record that
      resolves to an employee of its own. */
  predicate Welcome(sheets: seq<SheetRow>, job: Job, employee: Uuid) {
    Existing(sheets, job, employee).Some? ==> Existing(sheets, job, employee).value.sourceFile == Some(job.file)
  }

  /** In terms of the rows: an employee has no sheet of the period when no row says so, and is welcome when
      every row that does is from this file. */
  lemma WelcomeByRows(db: Database, job: Job, employee: Uuid)
    requires Valid(db)
    ensures Existing(db.sheets, job, employee).None? <==>
      forall s :: s in db.sheets ==>
        !(s.organization == job.organization && s.period == job.period && s.employee == Some(employee))
    ensures Welcome(db.sheets, job, employee) <==>
      forall s ::
        s in db.sheets && s.organization == job.organization && s.period == job.period && s.employee == Some(employee)
        ==> s.sourceFile == Some(job.file)
  {
    NoneExisting(db.sheets, job, employee);
    hide Existing;
    forall s, t | s in db.sheets && t in db.sheets && SamePerson(s, t) ensures s == t {
      var i :| 0 <= i < |db.sheets| && db.sheets[i] == s;
      var j :| 0 <= j < |db.sheets| && db.sheets[j] == t;
      assert SamePerson(t, s);
    }
  }

  /** A plan leaves nothing unresolved if and only if every record resolves, no two to the same employee,
      and each employee has no sheet of the period, or one from this file. Then it is pending for exactly
      the employees who have none. */
  lemma ResolvedIff(records: seq<Record>, sheets: seq<SheetRow>, job: Job)
    requires forall r :: r in records ==> r.sourceName != ""
    ensures PlanFor(records, sheets, job).unresolved == [] <==>
      && (forall r :: r in records ==> Who(r, job).Some?)
      && (forall i, j :: 0 <= i < j < |records| ==> Who(records[i], job) != Who(records[j], job))
      && (forall r :: r in records && Who(r, job).Some? ==> Welcome(sheets, job, Who(r, job).value))
    ensures PlanFor(records, sheets, job).unresolved == [] ==>
      forall r :: r in records && Who(r, job).Some? && Existing(sheets, job, Who(r, job).value).None? ==>
        Planned(r, Who(r, job).value) in PlanFor(records, sheets, job).pending
  {
    var plan := PlanFor(records, sheets, job);
    if plan.unresolved == [] {
      ResolvedPlan(records, sheets, job);
      AllWelcome(records, sheets, job);
      AllPlanned(records, sheets, job);
    }
    var welcome := forall r :: r in records && Who(r, job).Some? ==> Welcome(sheets, job, Who(r, job).value);
    if EachOwn(records, job) && welcome {
      NothingUnresolved(records, sheets, job);
    }
    hide Who, Existing, PlanFor, Welcome;
  }

  lemma AllWelcome(records: seq<Record>, sheets: seq<SheetRow>, job: Job)
    requires EachOwn(records, job) && Knows(PlanFor(records, sheets, job), records, sheets, job)
    ensures forall r :: r in records && Who(r, job).Some? ==> Welcome(sheets, job, Who(r, job).value)
  {
    hide Who, Existing, PlanFor;
    forall r | r in records && Who(r, job).Some? ensures Welcome(sheets, job, Who(r, job).value) {
      assert Who(r, job).value in PlanFor(records, sheets, job).seen;
    }
  }

  lemma AllPlanned(records: seq<Record>, sheets: seq<SheetRow>, job: Job)
    requires PlanFor(records, sheets, job).unresolved == []
    ensures forall r :: r in records && Who(r, job).Some? && Existing(sheets, job, Who(r, job).value).None? ==>
      Planned(r, Who(r, job).value) in PlanFor(records, sheets, job).pending
  {
    hide Who, Existing, PlanFor;
    forall r | r in records && Who(r, job).Some? && Existing(sheets, job, Who(r, job).value).None?
      ensures Planned(r, Who(r, job).value) in PlanFor(records, sheets, job).pending
    {
      NewIsPlanned(records, sheets, job, r);
    }
  }

  lemma {:induction false} NewIsPlanned(records: seq<Record>, sheets: seq<SheetRow>, job: Job, r: Record)
    requires PlanFor(records, sheets, job).unresolved == [] && r in records
    requires Who(r, job).Some? && Existing(sheets, job, Who(r, job).value).None?
    ensures Planned(r, Who(r, job).value) in PlanFor(records, sheets, job).pending
    decreases |records|
  {
    hide Who, Existing, Consider;
    var front, last := records[..|records| - 1], records[|records| - 1];
    ConsiderResolved(PlanFor(front, sheets, job), last, sheets, job);
    if r != last {
      assert r in front;
      NewIsPlanned(front, sheets, job, r);
    }
  }

  lemma {:induction false} NothingUnresolved(records: seq<Record>, sheets: seq<SheetRow>, job: Job)
    requires EachOwn(records, job)
    requires forall r :: r in records && Who(r, job).Some? ==> Welcome(sheets, job, Who(r, job).value)
    ensures var plan := PlanFor(records, sheets, job);
      plan.unresolved == [] && forall e :: e in plan.seen ==> exists r :: r in records && Who(r, job) == Some(e)
    decreases |records|
  {
    if records == [] {
    } else {
      hide Who, Existing, Consider, Welcome, EachOwn;
      var front, last := records[..|records| - 1], records[|records| - 1];
      assert records == front + [last];
      OwnFront(records, job);
      NothingUnresolved(front, sheets, job);
      assert Who(last, job).value !in PlanFor(front, sheets, job).seen;
      ConsiderWelcome(PlanFor(front, sheets, job), last, sheets, job);
      assert last in records;
    }
  }

  lemma OwnFront(records: seq<Record>, job: Job)
    requires EachOwn(records, job) && records != []
    ensures var front, last := records[..|records| - 1], records[|records| - 1];
      && EachOwn(front, job) && Who(last, job).Some?
      && forall r :: r in front ==> r in records && Who(r, job) != Who(last, job)
  {
    hide Who;
    var front, last := records[..|records| - 1], records[|records| - 1];
    assert last in records;
    forall r | r in front ensures r in records && Who(r, job) != Who(last, job) {
      var i :| 0 <= i < |front| && front[i] == r;
      assert records[i] == r && records[|front|] == last;
    }
  }

  lemma ConsiderWelcome(plan: Plan, record: Record, sheets: seq<SheetRow>, job: Job)
    requires Who(record, job).Some? && Who(record, job).value !in plan.seen
    requires Welcome(sheets, job, Who(record, job).value)
    ensures Consider(plan, record, sheets, job).unresolved == plan.unresolved
    ensures Consider(plan, record, sheets, job).seen == plan.seen[Who(record, job).value := record.sourceName]
  {
  }

  /** When every record resolves to its own employee and this file's sheet is there for each of
      them, planning again finds everything already imported. */
  lemma {:induction false} PlanAgain(records: seq<Record>, sheets: seq<SheetRow>, job: Job)
    requires EachOwn(records, job)
    requires forall r :: r in records ==> Imported(Database(sheets, map[]), job, r)
    ensures var plan := PlanFor(records, sheets, job);
      && plan.pending == [] && plan.unresolved == [] && plan.already == records
      && (forall e :: e in plan.seen ==> exists r :: r in records && Who(r, job) == Some(e))
    decreases |records|
  {
    hide Who, Existing, Consider;
    if records == [] {
    } else {
      var front, last := records[..|records| - 1], records[|records| - 1];
      assert records == front + [last];
      OwnFront(records, job);
      PlanAgain(front, sheets, job);
      var before := PlanFor(front, sheets, job);
      assert Imported(Database(sheets, map[]), job, last);
      ConsiderAlready(before, last, sheets, job);
      assert forall r :: r in front ==> r in records;
    }
  }

  lemma ConsiderAlready(plan: Plan, record: Record, sheets: seq<SheetRow>, job: Job)
    requires Who(record, job).Some? && Who(record, job).value !in plan.seen
    requires var row := Existing(sheets, job, Who(record, job).value);
      row.Some? && row.value.sourceFile == Some(job.file)
    ensures Consider(plan, record, sheets, job) ==
            plan.(already := plan.already + [record],
                  seen := plan.seen[Who(record, job).value := record.sourceName])
  {
  }

  /** After a run that wrote, the same run again, with the employees delivered in any order, finds every
      record already imported, exits with 0 and leaves the tables as they are. */
  lemma RerunChangesNothing(db: Database, job: Job, again: Job)
    requires ReadFromGrid(job) && (job.apply || job.applyLocal)
    requires RunJob(db, job).1 == Exit(0)
    requires again == job.(employees := again.employees) && multiset(again.employees) == multiset(job.employees)
    ensures var once := RunJob(db, job).0;
      && RunJob(once, again) == (once, Exit(0))
      && PlanFor(job.records, once.sheets, again).already == job.records
  {
    EveryRecordIsThere(db, job);
    ResolvedPlan(job.records, db.sheets, job);
    PlanAgain(job.records, RunJob(db, job).0.sheets, job);
    SamePlan(job.records, RunJob(db, job).0.sheets, job, again);
    hide Who, Existing, PlanFor;
  }

  /** A plan does not depend on the order of the employees. */
  lemma {:induction false} SamePlan(records: seq<Record>, sheets: seq<SheetRow>, job: Job, again: Job)
    requires again == job.(employees := again.employees) && multiset(again.employees) == multiset(job.employees)
    ensures PlanFor(records, sheets, again) == PlanFor(records, sheets, job)
    decreases |records|
  {
    if records == [] {
    } else {
      var last := records[|records| - 1];
      SamePlan(records[..|records| - 1], sheets, job, again);
      MatchIgnoresOrder(last.sourceName, job.employees, again.employees, job.mapping);
      SameExisting(sheets, job, again);
      assert Who(last, again) == Who(last, job);
      hide Who, Existing;
    }
  }

  lemma {:induction false} SameExisting(sheets: seq<SheetRow>, job: Job, again: Job)
    requires again == job.(employees := again.employees)
    ensures forall e :: Existing(sheets, again, e) == Existing(sheets, job, e)
    decreases |sheets|
  {
    if sheets == [] {
    } else {
      SameExisting(sheets[..|sheets| - 1], job, again);
    }
  }

  /** The record's employee has a sheet of the period that came from this file. */
  predicate Imported(db: Database, job: Job, r: Record) {
    Who(r, job).Some? &&
    var row := Existing(db.sheets, job, Who(r, job).value);
    row.Some? && row.value.sourceFile == Some(job.file)
  }

  lemma EveryRecordIsThere(db: Database, job: Job)
    requires ReadFromGrid(job) && (job.apply || job.applyLocal)
    requires RunJob(db, job).1 == Exit(0)
    ensures forall r :: r in job.records ==> Imported(RunJob(db, job).0, job, r)
  {
    hide Who, Existing;
    var plan := PlanFor(job.records, db.sheets, job);
    ResolvedPlan(job.records, db.sheets, job);
    forall r | r in job.records ensures Imported(RunJob(db, job).0, job, r) {
      ExistingAfterAll(db, job, plan.pending, Who(r, job).value);
    }
  }

  /** All or nothing: the tables change only when every record resolved and writing was asked for in
      the right environment; then every record of the file has its employee's sheet from this file,
      each pending one stored day for day. Constraints hold in either case. */
  lemma AllOrNothing(db: Database, job: Job)
    requires Valid(db) && ReadFromGrid(job)
    ensures var (after, outcome) := RunJob(db, job);
      var plan := PlanFor(job.records, db.sheets, job);
      && Valid(after)
      && (outcome == Exit(2) <==> plan.unresolved != [])
      && (outcome == RefusedEnvironment <==>
            plan.unresolved == [] && (if job.production then job.applyLocal else job.apply))
      && (outcome.Exit? ==> outcome.code in {0, 2})
      && (after != db ==>
            outcome == Exit(0) && plan.unresolved == []
            && (job.apply ==> job.production) && (job.applyLocal ==> !job.production)
            && (job.apply || job.applyLocal))
      && (outcome == Exit(0) && (job.apply || job.applyLocal) ==>
            && (forall i :: 0 <= i < |plan.pending| ==> Stored(after, |db.sheets| + i, job, plan.pending[i]))
            && (forall r :: r in job.records ==> Imported(after, job, r)))
  {
    hide Who, Existing;
    var plan := PlanFor(job.records, db.sheets, job);
    PendingIsNew(job.records, db.sheets, job);
    InsertsAreSafe(db, job, plan.pending);
    if RunJob(db, job).1 == Exit(0) && (job.apply || job.applyLocal) {
      EveryRecordIsThere(db, job);
    }
  }

  /** The employee's new sheet, field by field, and exactly the record's days under it. */
  ghost predicate SheetHolds(db: Database, sheet: nat, job: Job, e: Uuid, r: Record) {
    && sheet < |db.sheets|
    && db.sheets[sheet].organization == job.organization && db.sheets[sheet].employee == Some(e)
    && db.sheets[sheet].period == job.period && db.sheets[sheet].site == r.siteName
    && db.sheets[sheet].sourceFile == Some(job.file)
    && (forall k :: k in db.days && k.sheet == sheet <==>
          k.sheet == sheet && k.period == job.period && k.day in r.daily)
    && (forall k :: k in db.days && k.sheet == sheet ==> db.days[k] == r.daily[k.day])
  }

  /** When every record resolves to an employee of its own who has no sheet of the period, or one from this
      file, and writing is asked for in the right environment, the run succeeds, and every record whose
      employee had no sheet is stored. */
  lemma ResolvedIsWritten(db: Database, job: Job)
    requires Valid(db) && ReadFromGrid(job)
    requires EachOwn(job.records, job)
    requires forall r :: r in job.records && Who(r, job).Some? ==> Welcome(db.sheets, job, Who(r, job).value)
    requires (job.apply && job.production && !job.applyLocal) || (job.applyLocal && !job.production && !job.apply)
    ensures var (after, outcome) := RunJob(db, job);
      && outcome == Exit(0)
      && forall r :: r in job.records && Who(r, job).Some? && Existing(db.sheets, job, Who(r, job).value).None? ==>
           exists sheet :: |db.sheets| <= sheet && SheetHolds(after, sheet, job, Who(r, job).value, r)
  {
    hide Who, Existing, Valid, Welcome, EachOwn, RunJob, Insertable, SheetHolds;
    var plan := PlanFor(job.records, db.sheets, job);
    NothingUnresolved(job.records, db.sheets, job);
    ResolvedRun(db, job);
    AllPlanned(job.records, db.sheets, job);
    hide PlanFor, InsertAll;
    PlannedAreStored(db, job);
    forall r | r in job.records && Who(r, job).Some? && Existing(db.sheets, job, Who(r, job).value).None?
      ensures exists sheet :: |db.sheets| <= sheet && SheetHolds(RunJob(db, job).0, sheet, job, Who(r, job).value, r)
    {
      var p := Planned(r, Who(r, job).value);
      var i :| 0 <= i < |plan.pending| && plan.pending[i] == p;
      StoredHolds(RunJob(db, job).0, |db.sheets| + i, job, p);
    }
  }

  lemma ResolvedRun(db: Database, job: Job)
    requires PlanFor(job.records, db.sheets, job).unresolved == []
    requires (job.apply && job.production && !job.applyLocal) || (job.applyLocal && !job.production && !job.apply)
    ensures RunJob(db, job) == (InsertAll(db, job, PlanFor(job.records, db.sheets, job).pending), Exit(0))
  {
  }

  lemma PlannedAreStored(db: Database, job: Job)
    requires Valid(db) && ReadFromGrid(job)
    ensures var pending := PlanFor(job.records, db.sheets, job).pending;
      forall i :: 0 <= i < |pending| ==> Stored(InsertAll(db, job, pending), |db.sheets| + i, job, pending[i])
  {
    hide Existing, Valid, Stored, InsertAll;
    PendingIsNew(job.records, db.sheets, job);
    InsertsAreSafe(db, job, PlanFor(job.records, db.sheets, job).pending);
  }

  lemma StoredHolds(db: Database, sheet: nat, job: Job, p: Planned)
    requires Stored(db, sheet, job, p)
    ensures SheetHolds(db, sheet, job, p.employee, p.record)
  {
  }
}
