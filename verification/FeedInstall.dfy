/** Installing the change feed, and the repair that re-creates it from any schema state. */
module FeedInstall {
  import opened ChangeFeed
  import opened Options

  const FEED_TABLE := "platform_data_changes"
  const TRIGGER := "cestos_track_data_change"
  const ORGANIZATION := "organization_id"

  /** What a trigger runs: the tracking function, or something else. */
  datatype Action = TracksChanges | RunsOther(name: string)

  datatype Relation = Relation(isView: bool, columns: set<string>, triggers: map<string, Action>)

  /** The public schema, and the rows of the feed table when it exists. */
  datatype Catalog = Catalog(relations: map<Table, Relation>, feed: Option<Feed>)

  const FEED_RELATION :=
    Relation(false, {ORGANIZATION, "table_name", "revision", "changed_at"}, map[])

  /** information_schema.columns lists tables and views alike. */
  predicate Tenant(relations: map<Table, Relation>, t: Table) {
    t in relations && ORGANIZATION in relations[t].columns && t != FEED_TABLE
  }

  function Tenants(relations: map<Table, Relation>): set<Table> {
    set t | t in relations && Tenant(relations, t)
  }

  /** The feed's rows and its table exist together. */
  predicate Consistent(c: Catalog) {
    && (c.feed.Some? <==> FEED_TABLE in c.relations)
    && (FEED_TABLE in c.relations ==> !c.relations[FEED_TABLE].isView)
  }

  /** PostgreSQL refuses row-level AFTER triggers on a view. */
  predicate Installable(c: Catalog) {
    forall t :: t in Tenants(c.relations) ==> !c.relations[t].isView
  }

  /** Tables whose row changes reach the feed. */
  function Tracked(c: Catalog): set<Table> {
    set t | t in c.relations && TRIGGER in c.relations[t].triggers
            && c.relations[t].triggers[TRIGGER] == TracksChanges
  }

  function WithTrigger(r: Relation): Relation {
    r.(triggers := r.triggers[TRIGGER := TracksChanges])
  }

  function WithFeed(c: Catalog): Catalog {
    if c.feed.Some? then c else Catalog(c.relations[FEED_TABLE := FEED_RELATION], Some(map[]))
  }

  function Retriggered(relations: map<Table, Relation>, targets: set<Table>): map<Table, Relation> {
    map t | t in relations :: if t in targets then WithTrigger(relations[t]) else relations[t]
  }

  /** What the repair leaves when it succeeds. */
  function Repaired(c: Catalog): Catalog {
    var created := WithFeed(c);
    Catalog(Retriggered(created.relations, Tenants(created.relations)), created.feed)
  }

  lemma FeedAddsNoTenant(c: Catalog)
    requires Consistent(c)
    ensures Tenants(WithFeed(c).relations) == Tenants(c.relations)
    ensures forall t :: t in Tenants(c.relations) ==>
              t in c.relations && WithFeed(c).relations[t] == c.relations[t]
  {
  }

  lemma TenantsByColumns(c: Catalog)
    ensures forall t :: t in Tenants(c.relations) <==>
              t in c.relations && "organization_id" in c.relations[t].columns && t != "platform_data_changes"
    ensures Installable(c) <==> forall t ::
      t in c.relations && "organization_id" in c.relations[t].columns && t != "platform_data_changes"
      ==> !c.relations[t].isView
  {
    forall t | t in c.relations && "organization_id" in c.relations[t].columns && t != "platform_data_changes"
      ensures t in Tenants(c.relations)
    {
    }
  }

  lemma TenantsAreRelations(relations: map<Table, Relation>)
    ensures Tenants(relations) <= relations.Keys
  {
  }

  lemma NoneRetriggered(relations: map<Table, Relation>, all: set<Table>)
    ensures Retriggered(relations, all - all) == relations
  {
  }

  lemma RetriggerOne(relations: map<Table, Relation>, targets: set<Table>, t: Table)
    requires t in relations && t !in targets
    ensures Retriggered(relations, targets).Keys == relations.Keys
    ensures Retriggered(relations, targets)[t] == relations[t]
    ensures Retriggered(relations, targets)[t := WithTrigger(relations[t])] ==
            Retriggered(relations, targets + {t})
    ensures WithTrigger(relations[t].(triggers := relations[t].triggers - {TRIGGER})) == WithTrigger(relations[t])
  {
  }

  class Database {
    var relations: map<Table, Relation>
    var feed: Option<Feed>

    ghost function Schema(): Catalog
      reads this
    {
      Catalog(relations, feed)
    }

    constructor (c: Catalog)
      ensures Schema() == c
    {
      relations, feed := c.relations, c.feed;
    }

    /** CREATE TRIGGER: an error on a view, and an error when the name is taken. */
    method CreateTrigger(t: Table) returns (ok: bool)
      requires t in relations
      modifies this`relations
      ensures ok == (!old(relations)[t].isView && TRIGGER !in old(relations)[t].triggers)
      ensures relations == if ok then old(relations)[t := WithTrigger(old(relations)[t])] else old(relations)
    {
      if relations[t].isView || TRIGGER in relations[t].triggers { return false; }
      relations := relations[t := WithTrigger(relations[t])];
      ok := true;
    }

    /** DROP TRIGGER IF EXISTS. */
    method DropTrigger(t: Table)
      requires t in relations
      modifies this`relations
      ensures relations == old(relations)[t := old(relations)[t].(triggers := old(relations)[t].triggers - {TRIGGER})]
    {
      relations := relations[t := relations[t].(triggers := relations[t].triggers - {TRIGGER})];
    }

    /** The repair migration, one transaction: it succeeds exactly when no view shows an
        organization_id column, and otherwise leaves the schema alone. */
    method Repair() returns (ok: bool)
      requires Consistent(Schema())
      modifies this
      ensures ok == Installable(old(Schema()))
      ensures ok <==> forall t ::
        t in old(relations) && "organization_id" in old(relations)[t].columns && t != "platform_data_changes"
        ==> !old(relations)[t].isView
      ensures Schema() == if ok then Repaired(old(Schema())) else old(Schema())
    {
      TenantsByColumns(Schema());
      hide Retriggered, Tenants;
      var savedRelations, savedFeed := relations, feed;
      FeedAddsNoTenant(Schema());
      if feed.None? {
        relations, feed := relations[FEED_TABLE := FEED_RELATION], Some(map[]);
      }
      ghost var created := relations;
      TenantsAreRelations(created);
      NoneRetriggered(created, Tenants(created));
      var todo := Tenants(relations);
      while todo != {}
        invariant todo <= Tenants(created)
        invariant relations == Retriggered(created, Tenants(created) - todo)
        invariant forall t :: t in Tenants(created) - todo ==> !created[t].isView
        invariant feed == WithFeed(Catalog(savedRelations, savedFeed)).feed
      {
        var t :| t in todo;
        RetriggerOne(created, Tenants(created) - todo, t);
        DropTrigger(t);
        var created1 := CreateTrigger(t);
        if !created1 {
          relations, feed := savedRelations, savedFeed;
          return false;
        }
        assert Tenants(created) - todo + {t} == Tenants(created) - (todo - {t});
        todo := todo - {t};
      }
      assert Tenants(created) - {} == Tenants(created);
      ok := true;
    }

    /** The first migration: it also fails when the table or any trigger is already there. */
    method Install() returns (ok: bool)
      requires Consistent(Schema())
      modifies this
      ensures ok == (old(feed).None? && Installable(old(Schema()))
                     && forall t :: t in Tenants(old(relations)) ==> TRIGGER !in old(relations)[t].triggers)
      ensures ok <==>
        && "platform_data_changes" !in old(relations)
        && forall t :: t in old(relations) && "organization_id" in old(relations)[t].columns ==>
             !old(relations)[t].isView && "cestos_track_data_change" !in old(relations)[t].triggers
      ensures Schema() == if ok then Repaired(old(Schema())) else old(Schema())
    {
      TenantsByColumns(Schema());
      hide Retriggered, Tenants;
      if feed.Some? { return false; }
      var savedRelations, savedFeed := relations, feed;
      FeedAddsNoTenant(Schema());
      relations, feed := relations[FEED_TABLE := FEED_RELATION], Some(map[]);
      ghost var created := relations;
      TenantsAreRelations(created);
      NoneRetriggered(created, Tenants(created));
      var todo := Tenants(relations);
      while todo != {}
        invariant todo <= Tenants(created)
        invariant relations == Retriggered(created, Tenants(created) - todo)
        invariant forall t :: t in Tenants(created) - todo ==>
                    !created[t].isView && TRIGGER !in created[t].triggers
        invariant feed == Some(map[])
      {
        var t :| t in todo;
        RetriggerOne(created, Tenants(created) - todo, t);
        var ok1 := CreateTrigger(t);
        if !ok1 {
          relations, feed := savedRelations, savedFeed;
          return false;
        }
        assert Tenants(created) - todo + {t} == Tenants(created) - (todo - {t});
        todo := todo - {t};
      }
      assert Tenants(created) - {} == Tenants(created);
      ok := true;
    }
  }

  /** Whatever triggers were there, the repair adds the tracking trigger to every tenant table and to
      no other; it keeps every other trigger and column, and keeps every existing revision. */
  lemma RepairTracksEveryTenant(c: Catalog)
    requires Consistent(c)
    ensures var r := Repaired(c);
      && Consistent(r) && r.feed.Some?
      && r.feed.value == (if c.feed.Some? then c.feed.value else map[])
      && Tenants(r.relations) == Tenants(c.relations)
      && Tracked(r) == Tracked(c) + Tenants(c.relations)
      && (forall t :: t in Tenants(c.relations) <==>
            t in c.relations && "organization_id" in c.relations[t].columns && t != "platform_data_changes")
      && r.relations.Keys == c.relations.Keys + {"platform_data_changes"}
      && (c.feed.None? ==> r.relations["platform_data_changes"] == FEED_RELATION)
      && (forall t :: t in c.relations ==>
            && r.relations[t].columns == c.relations[t].columns && r.relations[t].isView == c.relations[t].isView
            && r.relations[t].triggers - {TRIGGER} == c.relations[t].triggers - {TRIGGER})
  {
    var r := Repaired(c);
    assert Tenants(WithFeed(c).relations) == Tenants(c.relations);
    assert Tenants(r.relations) == Tenants(c.relations);
    forall t ensures t in Tracked(r) <==> t in Tracked(c) + Tenants(c.relations) {
      if t in Tenants(c.relations) { assert r.relations[t].triggers[TRIGGER] == TracksChanges; }
    }
  }

  /** It ends with the trigger on exactly the tenant tables if and only if no other table carried it:
      the repair visits tenant tables only, and drops the trigger nowhere else. */
  lemma TracksExactlyTenantsIff(c: Catalog)
    requires Consistent(c)
    ensures Tracked(Repaired(c)) == Tenants(c.relations) <==> Tracked(c) <= Tenants(c.relations)
  {
    RepairTracksEveryTenant(c);
  }

  /** A trigger left behind on a table that has lost its organization_id column survives the repair. */
  lemma StrayTriggerStays() returns (c: Catalog)
    ensures Consistent(c) && Installable(c) && Tenants(c.relations) == {}
    ensures Tracked(Repaired(c)) == {"stray"}
  {
    var stray := Relation(false, {"id"}, map[TRIGGER := TracksChanges]);
    c := Catalog(map["stray" := stray], None);
    assert FEED_TABLE[0] != "stray"[0];
    assert Tenants(c.relations) == {} && Tracked(c) == {"stray"};
    RepairTracksEveryTenant(c);
  }

  /** A second repair is allowed whenever the first was, and changes nothing. */
  lemma RepairIdempotent(c: Catalog)
    requires Consistent(c)
    ensures Installable(Repaired(c)) == Installable(c)
    ensures Repaired(Repaired(c)) == Repaired(c)
  {
    RepairTracksEveryTenant(c);
    var r := Repaired(c);
    assert Tenants(r.relations) == Tenants(c.relations);
    forall t | t in Tenants(c.relations) ensures r.relations[t].isView == c.relations[t].isView {}
    forall t | t in r.relations ensures Repaired(r).relations[t] == r.relations[t] {
      if t in Tenants(c.relations) {
        assert r.relations[t].triggers[TRIGGER := TracksChanges] == r.relations[t].triggers;
      }
    }
    assert Repaired(r).relations == r.relations;
  }

  // --- histories after the repair -----------------------------------------------------------------

  /** With the trigger on the feed table itself, the first upsert of an event fires it again, and so on
      without end: the statement fails, and its transaction with it. */
  predicate Recurses(events: seq<Event>, tracked: set<Table>) {
    FEED_TABLE in tracked && exists i :: 0 <= i < |events| && events[i].table in tracked && Concerned(events[i]) != {}
  }

  function LiveTransact(st: State, t: Transaction, tracked: set<Table>): State {
    if Recurses(Committed(st, t), tracked) then st else Transact(st, t, tracked)
  }

  function LiveHistory(st: State, history: seq<Transaction>, tracked: set<Table>): State
    decreases |history|
  {
    if history == [] then st
    else LiveTransact(LiveHistory(st, history[..|history| - 1], tracked), history[|history| - 1], tracked)
  }

  lemma OnlyTheFeedRecurses(events: seq<Event>, tracked: set<Table>)
    ensures Recurses(events, tracked) ==> FEED_TABLE in tracked
  {
  }

  /** A live history is the plain history of the transactions that do not recurse. */
  lemma {:induction false} LiveHistoryIsHistory(st: State, history: seq<Transaction>, tracked: set<Table>)
    returns (kept: seq<Transaction>)
    ensures LiveHistory(st, history, tracked) == History(st, kept, tracked)
    decreases |history|
  {
    if history == [] {
      kept := [];
    } else {
      hide Committed, Transact, Recurses, History;
      var front, last := history[..|history| - 1], history[|history| - 1];
      var before := LiveHistoryIsHistory(st, front, tracked);
      OneMoreTransaction(st, before, last, tracked);
      kept := if Recurses(Committed(LiveHistory(st, front, tracked), last), tracked) then before else before + [last];
    }
  }

  /** When the feed does not track itself, every transaction is as the plain history has it. */
  lemma {:induction false} LiveHistoryIsPlain(st: State, history: seq<Transaction>, tracked: set<Table>)
    requires FEED_TABLE !in tracked
    ensures LiveHistory(st, history, tracked) == History(st, history, tracked)
    decreases |history|
  {
    if history == [] {
    } else {
      hide Committed, Transact, Recurses;
      var front, last := history[..|history| - 1], history[|history| - 1];
      LiveHistoryIsPlain(st, front, tracked);
      OnlyTheFeedRecurses(Committed(LiveHistory(st, front, tracked), last), tracked);
    }
  }

  lemma OneMoreTransaction(st: State, history: seq<Transaction>, last: Transaction, tracked: set<Table>)
    ensures History(st, history + [last], tracked) == Transact(History(st, history, tracked), last, tracked)
  {
    hide Transact;
    assert (history + [last])[..|history|] == history;
  }

  /** From any schema state the repair accepts, every later history is counted soundly for every
      organization and every table that has an organization_id. */
  lemma RepairedFeedIsSound(c: Catalog, rows: Rows, history: seq<Transaction>, counter: Counter)
    requires Consistent(c) && counter.table in Tenants(c.relations)
    ensures var start := State(rows, Repaired(c).feed.value);
      var later := LiveHistory(start, history, Tracked(Repaired(c)));
      && Revision(later.feed, counter) >= Revision(start.feed, counter)
      && (Revision(later.feed, counter) == Revision(start.feed, counter) ==>
            View(later.rows, counter) == View(rows, counter))
  {
    RepairTracksEveryTenant(c);
    var start := State(rows, Repaired(c).feed.value);
    var kept := LiveHistoryIsHistory(start, history, Tracked(Repaired(c)));
    EqualRevisionMeansEqualView(start, kept, Tracked(Repaired(c)), counter);
  }

  /** On a feed that tracks itself, no tenant's rows can change any more. */
  lemma {:induction false} SelfTrackingFreezesTenants(st: State, history: seq<Transaction>, tracked: set<Table>,
                                                      counter: Counter)
    requires FEED_TABLE in tracked && counter.table in tracked
    ensures var later := LiveHistory(st, history, tracked);
      Revision(later.feed, counter) == Revision(st.feed, counter) && View(later.rows, counter) == View(st.rows, counter)
    decreases |history|
  {
    if history == [] {
    } else {
      var front, last := history[..|history| - 1], history[|history| - 1];
      SelfTrackingFreezesTenants(st, front, tracked, counter);
      var mid := LiveHistory(st, front, tracked);
      if !Recurses(Committed(mid, last), tracked) {
        NoneConcerned(Committed(mid, last), counter);
        FireAllCounts(mid.feed, Committed(mid, last), tracked, counter);
        assert [last][..0] == [] && History(mid, [], tracked) == mid;
        EqualRevisionMeansEqualView(mid, [last], tracked, counter);
      }
    }
  }

  lemma {:induction false} NoneConcerned(events: seq<Event>, c: Counter)
    requires forall i :: 0 <= i < |events| && events[i].table == c.table ==> Concerned(events[i]) == {}
    ensures Count(events, c) == 0
    decreases |events|
  {
    if events == [] {
    } else {
      NoneConcerned(events[..|events| - 1], c);
    }
  }
}
