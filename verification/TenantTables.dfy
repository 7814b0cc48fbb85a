/** Tracked tables and the feed, changed in place by row statements and their triggers. */
module TenantTables {
  import opened ChangeFeed
  import opened Options
  import opened Prefixes

  class TenantStore {
    var rows: Rows
    var feed: Feed
    const tracked: set<Table>

    constructor (rows: Rows, feed: Feed, tracked: set<Table>)
      ensures this.rows == rows && this.feed == feed && this.tracked == tracked
    {
      this.rows, this.feed, this.tracked := rows, feed, tracked;
    }

    /** One upsert of the trigger function. */
    method Bump(c: Counter)
      modifies this`feed
      ensures Revision(feed, c) == Revision(old(feed), c) + 1
      ensures feed == Upsert(old(feed), c)
    {
      if c in feed {
        feed := feed[c := feed[c] + 1];
      } else {
        feed := feed[c := 1];
      }
    }

    /** The trigger function: OLD is absent on INSERT, NEW on DELETE. */
    method TrackChange(table: Table, before: Option<Row>, after: Option<Row>)
      modifies this`feed
      ensures feed == Fire(old(feed), table, OrganizationOf(before), OrganizationOf(after))
      ensures forall c: Counter :: Revision(feed, c) == Revision(old(feed), c) +
                if Concerns(Event(table, OrganizationOf(before), OrganizationOf(after)), c) then 1 else 0
    {
      var oldOrg, newOrg := None, None;
      if before.Some? { oldOrg := before.value.organization; }
      if after.Some? { newOrg := after.value.organization; }
      if oldOrg.Some? {
        Bump(Counter(oldOrg.value, table));
      }
      if newOrg.Some? && newOrg != oldOrg {
        Bump(Counter(newOrg.value, table));
      }
    }

    method Apply(s: Statement) returns (ok: bool)
      modifies this
      ensures ok <==> Execute(old(rows), s).Done?
      ensures ok ==> rows == Execute(old(rows), s).rows
      ensures ok ==> feed == FireAll(old(feed), Execute(old(rows), s).events, tracked)
    {
      FireOne(feed, s, rows, tracked);
      ok := true;
      match s
      case Insert(r, value) =>
        if r in rows { return false; }
        rows := rows[r := value];
        if r.table in tracked { TrackChange(r.table, None, Some(value)); }
      case Update(r, value) =>
        if r !in rows { return; }
        var before := rows[r];
        rows := rows[r := value];
        if r.table in tracked { TrackChange(r.table, Some(before), Some(value)); }
      case Delete(r) =>
        if r !in rows { return; }
        var before := rows[r];
        rows := rows - {r};
        if r.table in tracked { TrackChange(r.table, Some(before), None); }
    }

    /** A transaction: rows and counters commit together or roll back together. */
    method Run(t: Transaction) returns (committed: bool)
      modifies this
      ensures State(rows, feed) == Transact(old(State(rows, feed)), t, tracked)
      ensures committed == (t.commits && ExecuteAll(old(rows), t.statements).Done?)
      ensures committed ==> rows == ExecuteAll(old(rows), t.statements).rows
      ensures !committed ==> rows == old(rows) && feed == old(feed)
    {
      hide Execute, FireAll, ExecuteAll;
      ghost var start := State(rows, feed);
      var savedRows, savedFeed := rows, feed;
      Nothing(start, tracked);
      assert t.statements[..0] == [];
      for i := 0 to |t.statements|
        invariant ExecuteAll(start.rows, t.statements[..i]).Done?
        invariant rows == ExecuteAll(start.rows, t.statements[..i]).rows
        invariant feed == FireAll(start.feed, ExecuteAll(start.rows, t.statements[..i]).events, tracked)
      {
        assert t.statements[..i + 1][..i] == t.statements[..i];
        OneMore(start, t.statements, i, tracked);
        var ok := Apply(t.statements[i]);
        if !ok {
          RefusedStaysRefused(start.rows, t.statements, i + 1);
          rows, feed := savedRows, savedFeed;
          return false;
        }
      }
      assert t.statements[..|t.statements|] == t.statements;
      committed := t.commits;
      if !committed {
        rows, feed := savedRows, savedFeed;
      }
    }
  }

  function OrganizationOf(row: Option<Row>): Option<Uuid> {
    if row.Some? then row.value.organization else None
  }

  lemma Nothing(start: State, tracked: set<Table>)
    ensures ExecuteAll(start.rows, []) == Done(start.rows, [])
    ensures FireAll(start.feed, [], tracked) == start.feed
  {
  }

  /** What one more statement that succeeds adds to the rows and to the feed. */
  lemma OneMore(start: State, statements: seq<Statement>, i: nat, tracked: set<Table>)
    requires i < |statements| && ExecuteAll(start.rows, statements[..i]).Done?
    ensures var before := ExecuteAll(start.rows, statements[..i]);
      var one, after := Execute(before.rows, statements[i]), ExecuteAll(start.rows, statements[..i + 1]);
      && (one.Refused? <==> after.Refused?)
      && (one.Done? ==>
            && after.rows == one.rows
            && FireAll(start.feed, after.events, tracked) ==
                 FireAll(FireAll(start.feed, before.events, tracked), one.events, tracked))
  {
    hide Execute, FireAll;
    assert statements[..i + 1][..i] == statements[..i];
    var before := ExecuteAll(start.rows, statements[..i]);
    var one := Execute(before.rows, statements[i]);
    if one.Done? {
      FireAllJoins(start.feed, before.events, one.events, tracked);
    }
  }

  lemma FireOne(feed: Feed, s: Statement, rows: Rows, tracked: set<Table>)
    ensures Execute(rows, s).Done? && |Execute(rows, s).events| == 1 ==>
      var e := Execute(rows, s).events[0];
      FireAll(feed, Execute(rows, s).events, tracked) ==
        if e.table in tracked then Fire(feed, e.table, e.oldOrg, e.newOrg) else feed
  {
    if Execute(rows, s).Done? && |Execute(rows, s).events| == 1 {
      assert Execute(rows, s).events[..0] == [];
    }
  }

  lemma {:induction false} FireAllJoins(feed: Feed, a: seq<Event>, b: seq<Event>, tracked: set<Table>)
    ensures FireAll(feed, a + b, tracked) == FireAll(FireAll(feed, a, tracked), b, tracked)
    decreases |b|
  {
    if b == [] {
      assert a + b == a;
    } else {
      FireAllJoins(feed, a, b[..|b| - 1], tracked);
      assert (a + b)[..|a + b| - 1] == a + b[..|b| - 1];
    }
  }

  lemma RefusedStaysRefused(rows: Rows, statements: seq<Statement>, n: nat)
    requires n <= |statements| && ExecuteAll(rows, statements[..n]).Refused?
    ensures ExecuteAll(rows, statements).Refused?
  {
    var refused := (s: seq<Statement>) => ExecuteAll(rows, s).Refused?;
    forall s: seq<Statement>, a: Statement | refused(s) ensures refused(s + [a]) {
      assert (s + [a])[..|s|] == s;
    }
    FailureIsFinal(refused, statements, n);
  }
}
