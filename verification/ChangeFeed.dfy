/** The tenant change feed: row triggers count changes per organization and table, and clients
    take an unchanged revision to mean that nothing of theirs changed. */
module ChangeFeed {
  import opened Options
  import opened Sums

  type Uuid = nat
  type Table = string

  /** A tracked row: its organization_id, possibly null, and everything else. */
  datatype Row = Row(organization: Option<Uuid>, content: seq<int>)
  datatype RowId = RowId(table: Table, id: Uuid)
  datatype Counter = Counter(organization: Uuid, table: Table)

  type Rows = map<RowId, Row>
  type Feed = map<Counter, int>
  datatype State = State(rows: Rows, feed: Feed)

  /** The revision a client sees; no row means nothing was ever counted. */
  function Revision(feed: Feed, c: Counter): int {
    if c in feed then feed[c] else 0
  }

  /** Everything an organization has in a table. */
  function View(rows: Rows, c: Counter): Rows {
    map r | r in rows && r.table == c.table && rows[r].organization == Some(c.organization) :: rows[r]
  }

  // --- the trigger ---------------------------------------------------------------------------

  /** INSERT ... ON CONFLICT DO UPDATE SET revision = revision + 1. */
  function Upsert(feed: Feed, c: Counter): Feed {
    feed[c := if c in feed then feed[c] + 1 else 1]
  }

  function Fire(feed: Feed, table: Table, oldOrg: Option<Uuid>, newOrg: Option<Uuid>): Feed {
    var afterOld := if oldOrg.Some? then Upsert(feed, Counter(oldOrg.value, table)) else feed;
    if newOrg.Some? && newOrg != oldOrg then Upsert(afterOld, Counter(newOrg.value, table)) else afterOld
  }

  datatype Statement =
    | Insert(row: RowId, value: Row)
    | Update(row: RowId, value: Row)
    | Delete(row: RowId)

  /** One row event: the table and the organizations before and after. */
  datatype Event = Event(table: Table, oldOrg: Option<Uuid>, newOrg: Option<Uuid>)

  datatype Outcome = Refused | Done(rows: Rows, events: seq<Event>)

  function Execute(rows: Rows, s: Statement): Outcome {
    match s
    case Insert(r, value) =>
      if r in rows then Refused
      else Done(rows[r := value], [Event(r.table, None, value.organization)])
    case Update(r, value) =>
      if r !in rows then Done(rows, [])
      else Done(rows[r := value], [Event(r.table, rows[r].organization, value.organization)])
    case Delete(r) =>
      if r !in rows then Done(rows, [])
      else Done(rows - {r}, [Event(r.table, rows[r].organization, None)])
  }

  /** The feed after events, given the tables that carry the trigger. */
  function FireAll(feed: Feed, events: seq<Event>, tracked: set<Table>): Feed
    decreases |events|
  {
    if events == [] then feed
    else
      var before, last := FireAll(feed, events[..|events| - 1], tracked), events[|events| - 1];
      if last.table in tracked then Fire(before, last.table, last.oldOrg, last.newOrg) else before
  }

  function ExecuteAll(rows: Rows, statements: seq<Statement>): Outcome
    decreases |statements|
  {
    if statements == [] then Done(rows, [])
    else
      match ExecuteAll(rows, statements[..|statements| - 1])
      case Refused => Refused
      case Done(mid, events) =>
        match Execute(mid, statements[|statements| - 1])
        case Refused => Refused
        case Done(after, more) => Done(after, events + more)
  }

  datatype Transaction = Transaction(statements: seq<Statement>, commits: bool)

  /** The row events a transaction leaves committed; none when it fails or rolls back. */
  function Committed(st: State, t: Transaction): seq<Event> {
    var outcome := ExecuteAll(st.rows, t.statements);
    if outcome.Done? && t.commits then outcome.events else []
  }

  function Transact(st: State, t: Transaction, tracked: set<Table>): State {
    var outcome := ExecuteAll(st.rows, t.statements);
    if outcome.Done? && t.commits
    then State(outcome.rows, FireAll(st.feed, outcome.events, tracked)) else st
  }

  function History(st: State, history: seq<Transaction>, tracked: set<Table>): State
    decreases |history|
  {
    if history == [] then st
    else Transact(History(st, history[..|history| - 1], tracked), history[|history| - 1], tracked)
  }

  /** All row events committed over a history, in order. */
  function Log(st: State, history: seq<Transaction>, tracked: set<Table>): seq<Event>
    decreases |history|
  {
    if history == [] then []
    else
      var before := history[..|history| - 1];
      Log(st, before, tracked) + Committed(History(st, before, tracked), history[|history| - 1])
  }

  // --- counting --------------------------------------------------------------------------------

  /** The distinct non-null organizations a row event concerns. */
  function Concerned(e: Event): set<Uuid> {
    (if e.oldOrg.Some? then {e.oldOrg.value} else {}) + (if e.newOrg.Some? then {e.newOrg.value} else {})
  }

  predicate Concerns(e: Event, c: Counter) {
    e.table == c.table && c.organization in Concerned(e)
  }

  function Count(events: seq<Event>, c: Counter): nat
    decreases |events|
  {
    if events == [] then 0
    else Count(events[..|events| - 1], c) + if Concerns(events[|events| - 1], c) then 1 else 0
  }

  /** An event adds one to each counter it concerns, once when OLD and NEW agree, and to no other. */
  lemma FireCounts(feed: Feed, e: Event, c: Counter)
    ensures Revision(Fire(feed, e.table, e.oldOrg, e.newOrg), c) ==
            Revision(feed, c) + if Concerns(e, c) then 1 else 0
  {
  }

  lemma {:induction false} FireAllCounts(feed: Feed, events: seq<Event>, tracked: set<Table>, c: Counter)
    ensures Revision(FireAll(feed, events, tracked), c) ==
            Revision(feed, c) + if c.table in tracked then Count(events, c) else 0
    decreases |events|
  {
    if events == [] {
    } else {
      FireAllCounts(feed, events[..|events| - 1], tracked, c);
      FireCounts(FireAll(feed, events[..|events| - 1], tracked), events[|events| - 1], c);
    }
  }

  lemma {:induction false} CountJoins(a: seq<Event>, b: seq<Event>, c: Counter)
    ensures Count(a + b, c) == Count(a, c) + Count(b, c)
    decreases |b|
  {
    if b == [] {
      assert a + b == a;
    } else {
      CountJoins(a, b[..|b| - 1], c);
      assert (a + b)[..|a + b| - 1] == a + b[..|b| - 1];
    }
  }

  /** A revision is its starting value plus the number of committed row events concerning it. */
  lemma {:induction false} RevisionCountsCommittedEvents(
      st: State, history: seq<Transaction>, tracked: set<Table>, c: Counter)
    requires c.table in tracked
    ensures Revision(History(st, history, tracked).feed, c) ==
            Revision(st.feed, c) + Count(Log(st, history, tracked), c)
    decreases |history|
  {
    if history == [] {
    } else {
      var before, last := history[..|history| - 1], history[|history| - 1];
      RevisionCountsCommittedEvents(st, before, tracked, c);
      var mid := History(st, before, tracked);
      CountJoins(Log(st, before, tracked), Committed(mid, last), c);
      if Committed(mid, last) != [] || ExecuteAll(mid.rows, last.statements).Done? {
        FireAllCounts(mid.feed, Committed(mid, last), tracked, c);
      }
    }
  }

  function Weight(events: seq<Event>, tracked: set<Table>): nat
    decreases |events|
  {
    if events == [] then 0
    else Weight(events[..|events| - 1], tracked)
         + if events[|events| - 1].table in tracked then |Concerned(events[|events| - 1])| else 0
  }

  lemma UpsertAddsOne(feed: Feed, c: Counter)
    ensures Total(Upsert(feed, c)) == Total(feed) + 1
  {
    if c in feed {
      TotalReplace(feed, c, feed[c] + 1);
    } else {
      TotalAdd(feed, c, 1);
    }
  }

  lemma FireAddsConcerned(feed: Feed, e: Event)
    ensures Total(Fire(feed, e.table, e.oldOrg, e.newOrg)) == Total(feed) + |Concerned(e)|
  {
    var afterOld := feed;
    if e.oldOrg.Some? {
      afterOld := Upsert(feed, Counter(e.oldOrg.value, e.table));
      UpsertAddsOne(feed, Counter(e.oldOrg.value, e.table));
    }
    if e.newOrg.Some? && e.newOrg != e.oldOrg {
      UpsertAddsOne(afterOld, Counter(e.newOrg.value, e.table));
      if e.oldOrg.Some? {
        assert Concerned(e) == {e.oldOrg.value, e.newOrg.value};
      }
    } else if e.oldOrg.Some? {
      assert Concerned(e) == {e.oldOrg.value};
    }
  }

  lemma {:induction false} FireAllAddsWeight(feed: Feed, events: seq<Event>, tracked: set<Table>)
    ensures Total(FireAll(feed, events, tracked)) == Total(feed) + Weight(events, tracked)
    decreases |events|
  {
    if events == [] {
    } else {
      FireAllAddsWeight(feed, events[..|events| - 1], tracked);
      FireAddsConcerned(FireAll(feed, events[..|events| - 1], tracked), events[|events| - 1]);
    }
  }

  lemma {:induction false} WeightJoins(a: seq<Event>, b: seq<Event>, tracked: set<Table>)
    ensures Weight(a + b, tracked) == Weight(a, tracked) + Weight(b, tracked)
    decreases |b|
  {
    if b == [] {
      assert a + b == a;
    } else {
      WeightJoins(a, b[..|b| - 1], tracked);
      assert (a + b)[..|a + b| - 1] == a + b[..|b| - 1];
    }
  }

  /** Conservation: all revisions together grow by the number of distinct organizations concerned,
      summed over the committed events of tracked tables. No increase is lost or invented. */
  lemma {:induction false} RevisionsGrowByConcernedOrganizations(
      st: State, history: seq<Transaction>, tracked: set<Table>)
    ensures Total(History(st, history, tracked).feed) ==
            Total(st.feed) + Weight(Log(st, history, tracked), tracked)
    decreases |history|
  {
    if history == [] {
    } else {
      var before, last := history[..|history| - 1], history[|history| - 1];
      RevisionsGrowByConcernedOrganizations(st, before, tracked);
      var mid := History(st, before, tracked);
      WeightJoins(Log(st, before, tracked), Committed(mid, last), tracked);
      FireAllAddsWeight(mid.feed, Committed(mid, last), tracked);
    }
  }

  // --- soundness -------------------------------------------------------------------------------

  lemma ExecuteOutsideView(rows: Rows, s: Statement, c: Counter)
    requires Execute(rows, s).Done? && Count(Execute(rows, s).events, c) == 0
    ensures View(Execute(rows, s).rows, c) == View(rows, c)
  {
    var Done(after, events) := Execute(rows, s);
    if events != [] {
      assert events[..0] == [];
      assert !Concerns(events[0], c);
    }
  }

  lemma {:induction false} ExecuteAllOutsideView(rows: Rows, statements: seq<Statement>, c: Counter)
    requires ExecuteAll(rows, statements).Done? && Count(ExecuteAll(rows, statements).events, c) == 0
    ensures View(ExecuteAll(rows, statements).rows, c) == View(rows, c)
    decreases |statements|
  {
    if statements == [] {
    } else {
      var before, last := statements[..|statements| - 1], statements[|statements| - 1];
      var Done(mid, events) := ExecuteAll(rows, before);
      CountJoins(events, Execute(mid, last).events, c);
      ExecuteAllOutsideView(rows, before, c);
      ExecuteOutsideView(mid, last, c);
    }
  }

  /** Between any two committed points of any history, revisions never fall, and an equal revision
      means that exactly the same rows with the same contents belong to the organization. */
  lemma {:induction false} EqualRevisionMeansEqualView(
      st: State, history: seq<Transaction>, tracked: set<Table>, c: Counter)
    requires c.table in tracked
    ensures var later := History(st, history, tracked);
      && Revision(later.feed, c) >= Revision(st.feed, c)
      && (Revision(later.feed, c) == Revision(st.feed, c) ==> View(later.rows, c) == View(st.rows, c))
    decreases |history|
  {
    if history == [] {
    } else {
      var before, last := history[..|history| - 1], history[|history| - 1];
      EqualRevisionMeansEqualView(st, before, tracked, c);
      var mid := History(st, before, tracked);
      FireAllCounts(mid.feed, Committed(mid, last), tracked, c);
      if Committed(mid, last) != [] && Count(Committed(mid, last), c) == 0 {
        ExecuteAllOutsideView(mid.rows, last.statements, c);
      } else if Transact(mid, last, tracked) != mid && Committed(mid, last) == [] {
        ExecuteAllOutsideView(mid.rows, last.statements, c);
      }
    }
  }

  /** A statement that succeeds stores its row, or removes it, touches no other, and queues one event for a
      row it meets, with the organizations before and after. An INSERT on a taken key is the one failure. */
  lemma StatementIsStored(rows: Rows, s: Statement)
    ensures Execute(rows, s).Refused? <==> s.Insert? && s.row in rows
    ensures Execute(rows, s).Done? ==>
      var Done(after, events) := Execute(rows, s);
      && (forall r :: r != s.row ==> (r in after <==> r in rows) && (r in after ==> after[r] == rows[r]))
      && (s.row in after <==> !s.Delete? && (s.Insert? || s.row in rows))
      && (s.row in after ==> after[s.row] == s.value)
      && events == if !s.Insert? && s.row !in rows then []
                   else [Event(s.row.table,
                               if s.Insert? then None else rows[s.row].organization,
                               if s.Delete? then None else s.value.organization)]
  {
  }

  /** A transaction that commits leaves all its rows, any other leaves the rows and the feed as they were. */
  lemma CommittedIsStored(st: State, t: Transaction, tracked: set<Table>)
    ensures t.commits && ExecuteAll(st.rows, t.statements).Done? ==>
      Transact(st, t, tracked).rows == ExecuteAll(st.rows, t.statements).rows
    ensures !t.commits || ExecuteAll(st.rows, t.statements).Refused? ==> Transact(st, t, tracked) == st
  {
  }

  /** A transaction of one statement does what the statement does. */
  lemma ExecuteOne(rows: Rows, s: Statement)
    ensures ExecuteAll(rows, [s]) == Execute(rows, s)
  {
    var statements := [s];
    hide Execute;
    assert statements[..0] == [];
    assert ExecuteAll(rows, []) == Done(rows, []);
    var outcome := Execute(rows, s);
    if outcome.Done? {
      assert [] + outcome.events == outcome.events;
    }
  }

  lemma OneEventCounts(feed: Feed, e: Event, tracked: set<Table>, c: Counter)
    requires e.table in tracked
    ensures Revision(FireAll(feed, [e], tracked), c) == Revision(feed, c) + if Concerns(e, c) then 1 else 0
  {
    hide FireAll, Revision, Concerns;
    FireAllCounts(feed, [e], tracked, c);
    CountOne(e, c);
    TrackedWhenConcerned(e, c);
  }

  lemma CountOne(e: Event, c: Counter)
    ensures Count([e], c) == if Concerns(e, c) then 1 else 0
  {
    hide Concerns;
    var events := [e];
    assert events[..0] == [] && Count([], c) == 0;
  }

  lemma TrackedWhenConcerned(e: Event, c: Counter)
    ensures Concerns(e, c) ==> c.table == e.table
  {
  }

  /** One UPDATE of a row inside its organization: the value is stored, the organization's revision for
      that table rises by exactly one, and no other. */
  lemma UpdateCountsOnce(st: State, r: RowId, value: Row, tracked: set<Table>, c: Counter)
    requires r in st.rows && r.table in tracked && value.organization == st.rows[r].organization
    ensures var later := Transact(st, Transaction([Update(r, value)], true), tracked);
      && later.rows == st.rows[r := value]
      && Revision(later.feed, c) ==
           Revision(st.feed, c) + if c.table == r.table && value.organization == Some(c.organization) then 1 else 0
  {
    hide ExecuteAll, FireAll, Revision;
    ExecuteOne(st.rows, Update(r, value));
    OneEventCounts(st.feed, Event(r.table, value.organization, value.organization), tracked, c);
  }

  /** Why every tenant table needs the trigger: on a table without it, any new row changes the
      organization's view and leaves every revision as it was. */
  lemma UntrackedChangeIsInvisible(st: State, r: RowId, value: Row, tracked: set<Table>)
    requires r.table !in tracked && r !in st.rows && value.organization.Some?
    ensures var later := Transact(st, Transaction([Insert(r, value)], true), tracked);
      later.feed == st.feed
      && View(later.rows, Counter(value.organization.value, r.table)) !=
         View(st.rows, Counter(value.organization.value, r.table))
  {
    hide ExecuteAll, FireAll;
    ExecuteOne(st.rows, Insert(r, value));
    UntrackedIsSilent(st.feed, Event(r.table, None, value.organization), tracked);
    var c := Counter(value.organization.value, r.table);
    assert r in View(st.rows[r := value], c) && r !in View(st.rows, c);
  }

  lemma UntrackedIsSilent(feed: Feed, e: Event, tracked: set<Table>)
    requires e.table !in tracked
    ensures FireAll(feed, [e], tracked) == feed
  {
    var events := [e];
    assert events[..0] == [] && FireAll(feed, [], tracked) == feed;
  }
}
