/** Which answers of the dynamic query tool are confined to the caller's organization. */
module QueryScope {
  import opened Options
  import opened Grouping
  import opened DynamicQuery
  import opened QueryProperties

  // --- organizations ------------------------------------------------------------------------------------

  function OfOrganization(organization: string): Row -> bool {
    (r: Row) => At(r, "organization_id") == Text(organization)
  }

  ghost predicate SameComparisons(db: Database, other: Database) {
    other == db.(tables := other.tables, unregistered := other.unregistered)
  }

  /** Two databases that differ only in rows of other organizations. */
  ghost predicate SameForOrganization(db: Database, other: Database, organization: string) {
    && SameComparisons(db, other)
    && other.tables.Keys == db.tables.Keys && other.unregistered.Keys == db.unregistered.Keys
    && (forall t :: t in db.tables ==>
          var m, o := db.tables[t], other.tables[t];
          && o == m.(rows := o.rows)
          && Select(o.rows, OfOrganization(organization)) == Select(m.rows, OfOrganization(organization)))
    && (forall t :: t in db.unregistered ==>
          Select(other.unregistered[t], OfOrganization(organization)) ==
          Select(db.unregistered[t], OfOrganization(organization)))
  }

  /** No name selected or grouped by adds a table to the statement. */
  predicate StaysInTable(db: Database, args: Args) {
    args.table in db.tables ==>
      var model := db.tables[args.table];
      forall name :: name in UsedNames(model, args) ==> !Joins(model, name)
  }

  /** As long as no name adds a table, which is so for every count and for every table but that of the
      employees, the answer depends on no row of another organization. */
  lemma AnswersAreIsolated(db: Database, other: Database, args: Args, organization: string)
    requires HasScope(db) && SameForOrganization(db, other, organization) && StaysInTable(db, args)
    ensures Query(other, args, organization) == Query(db, args, organization)
  {
    hide HasScope, Select, Matching, FirstUnknown, FilterTrouble, AnswerFrom, OfOrganization, UsedNames, Joins;
    if args.table in db.tables {
      var m, o := db.tables[args.table], other.tables[args.table];
      HasOrganization(db, args.table);
      SameMatching(db, other, m, o, organization, args.filters);
      SameTrouble(args.filters, m, o);
      SameAnswer(db, other, m, o, args, Matching(db, m, organization, args.filters));
    }
  }

  lemma HasOrganization(db: Database, t: string)
    requires HasScope(db) && t in db.tables
    ensures "organization_id" in db.tables[t].columns
  {
  }

  /** Counts, and all queries on tables without relationships, stay in their table. */
  lemma CountsStayInTable(db: Database, args: Args)
    requires Registered(db) && (args.operation == "count" || args.table != "employees")
    ensures StaysInTable(db, args)
  {
    hide HasScope, ListedColumns;
  }

  lemma {:induction false} SameTrouble(filters: seq<Filter>, m: Model, o: Model)
    requires o == m.(rows := o.rows)
    ensures FilterTrouble(filters, o) == FilterTrouble(filters, m)
  {
    if filters == [] {
    } else {
      SameTrouble(filters[1..], m, o);
    }
  }

  lemma SameAnswer(db: Database, other: Database, m: Model, o: Model, args: Args, rows: seq<Row>)
    requires SameComparisons(db, other) && o == m.(rows := o.rows)
    requires forall name :: name in UsedNames(m, args) ==> !Joins(m, name)
    ensures AnswerFrom(other, o, args, rows) == AnswerFrom(db, m, args, rows)
  {
    SameNames(m, o, args);
    assert UsedNames(o, args) == UsedNames(m, args);
    SameJoined(db, other, m, o, rows, UsedNames(m, args));
    hide Joined, Joins, UsedNames, CountAnswer, AggregateAnswer, DistinctAnswer, ListAnswer;
    var joined := Joined(db, m, rows, UsedNames(m, args));
    SameShown(db, other, m, o, args, joined);
    SameAggregates(db, other, m, o, args, joined);
  }

  lemma SameShown(db: Database, other: Database, m: Model, o: Model, args: Args, rows: seq<Row>)
    requires SameComparisons(db, other) && o == m.(rows := o.rows)
    ensures CountAnswer(other, args, rows) == CountAnswer(db, args, rows)
    ensures DistinctAnswer(other, o, args, rows) == DistinctAnswer(db, m, args, rows)
    ensures ListAnswer(other, o, args, rows) == ListAnswer(db, m, args, rows)
  {
    SameNames(m, o, args);
    hide FirstUnknown, ListedColumns, Unrepeated, Attributes, Sortable, Projected;
  }

  lemma SameAggregates(db: Database, other: Database, m: Model, o: Model, args: Args, rows: seq<Row>)
    requires SameComparisons(db, other) && o == m.(rows := o.rows)
    ensures AggregateAnswer(other, o, args, rows) == AggregateAnswer(db, m, args, rows)
  {
    SameNames(m, o, args);
    SameGroups(db, other, args, rows);
    SameValue(db, other, AggregateOf(args.aggregateFunction), args.aggregateColumn, rows);
    hide ValuesByGroup, ValueOf, AggregateOf, Attributes;
  }

  lemma SameGroups(db: Database, other: Database, args: Args, rows: seq<Row>)
    requires SameComparisons(db, other)
    ensures var f, c := AggregateOf(args.aggregateFunction), args.aggregateColumn;
      ValuesByGroup(other, f, c, rows, args.groupBy) == ValuesByGroup(db, f, c, rows, args.groupBy)
  {
    hide ValueOf, AggregateOf;
    forall f, column, part ensures ValueOf(other, f, column, part) == ValueOf(db, f, column, part) {
      SameValue(db, other, f, column, part);
    }
  }

  lemma {:induction false} SameJoined(db: Database, other: Database, m: Model, o: Model, rows: seq<Row>,
                                      names: seq<string>)
    requires SameComparisons(db, other) && o == m.(rows := o.rows)
    requires forall name :: name in names ==> !Joins(m, name)
    ensures Joined(other, o, rows, names) == Joined(db, m, rows, names)
    decreases |names|
  {
    if names == [] {
    } else {
      var front, name := names[..|names| - 1], names[|names| - 1];
      hide Expanded;
      SameJoined(db, other, m, o, rows, front);
      SameExpanded(db, other, Joined(db, m, rows, front), name);
      assert name in names && Relates(o, name) == Relates(m, name);
      if Relates(m, name) {
        assert m.relationships[name] == OwnRow;
      }
      hide SameComparisons;
    }
  }

  lemma {:induction false} SameExpanded(db: Database, other: Database, rows: seq<Row>, name: string)
    requires SameComparisons(db, other)
    ensures Expanded(other, rows, name, OwnRow) == Expanded(db, rows, name, OwnRow)
    decreases |rows|
  {
    if rows == [] {
    } else {
      SameExpanded(db, other, rows[..|rows| - 1], name);
    }
  }

  lemma SameValue(db: Database, other: Database, f: Aggregate, column: string, rows: seq<Row>)
    requires SameComparisons(db, other)
    ensures ValueOf(other, f, column, rows) == ValueOf(db, f, column, rows)
  {
    SameExtreme(db, other, rows, column, true);
    SameExtreme(db, other, rows, column, false);
    hide Extreme, SumOf, Select, KeysOf;
  }

  lemma {:induction false} SameExtreme(db: Database, other: Database, rows: seq<Row>, column: string, least: bool)
    requires SameComparisons(db, other)
    ensures Extreme(other, rows, column, least) == Extreme(db, rows, column, least)
    decreases |rows|
  {
    if rows == [] {
    } else {
      SameExtreme(db, other, rows[..|rows| - 1], column, least);
    }
  }

  lemma SameMatching(db: Database, other: Database, m: Model, o: Model, organization: string, filters: seq<Filter>)
    requires SameComparisons(db, other)
    requires o == m.(rows := o.rows) && "organization_id" in m.columns
    requires Select(o.rows, OfOrganization(organization)) == Select(m.rows, OfOrganization(organization))
    ensures Matching(other, o, organization, filters) == Matching(db, m, organization, filters)
  {
    var conditions := Conditions(m, organization, filters);
    OwnRowsSuffice(db, m, organization, filters);
    OwnRowsSuffice(other, o, organization, filters);
    forall r ensures Passing(db, conditions)(r) == Passing(other, conditions)(r) {
      SameTruth(db, other, conditions, r);
    }
    hide Passing, OfOrganization, Matching;
    SelectAgrees(Select(o.rows, OfOrganization(organization)), Passing(db, conditions), Passing(other, conditions));
    hide Select;
  }

  lemma OwnRowsSuffice(db: Database, model: Model, organization: string, filters: seq<Filter>)
    requires "organization_id" in model.columns
    ensures Matching(db, model, organization, filters) ==
            Where(db, Conditions(model, organization, filters), Select(model.rows, OfOrganization(organization)))
  {
    var passing := Passing(db, Conditions(model, organization, filters));
    forall r: Row ensures passing(r) == (OfOrganization(organization)(r) && passing(r)) {
      PassingIsContributing(db, model, organization, filters, r);
    }
    hide Passing, OfOrganization;
    SelectTwice(model.rows, OfOrganization(organization), passing, passing);
  }

  lemma {:induction false} SameTruth(db: Database, other: Database, conditions: seq<Condition>, row: Row)
    requires SameComparisons(db, other)
    ensures All(other, conditions, row) == All(db, conditions, row)
    decreases |conditions|
  {
    if conditions == [] {
    } else {
      SameTruth(db, other, conditions[..|conditions| - 1], row);
      SameCondition(db, other, conditions[|conditions| - 1], row);
      hide TruthOf;
    }
  }

  lemma SameCondition(db: Database, other: Database, c: Condition, row: Row)
    requires SameComparisons(db, other)
    ensures TruthOf(other, c, row) == TruthOf(db, c, row)
  {
    if c.Asked? && OpOf(c.filter.op).In? {
      hide OpOf;
    }
  }

  // --- rows of nobody ---------------------------------------------------------------------------------------

  function Owned(r: Row): bool {
    !At(r, "organization_id").Null?
  }

  function WithoutUnowned(db: Database): Database {
    db.(tables := map t | t in db.tables :: db.tables[t].(rows := Select(db.tables[t].rows, Owned)))
  }

  /** A row whose organization is null, as a row of `skills` may have, is in nobody's answers: dropping
      all of them changes no answer that stays in its table. */
  lemma UnownedRowsAreInvisible(db: Database, args: Args, organization: string)
    requires HasScope(db) && StaysInTable(db, args)
    ensures Query(WithoutUnowned(db), args, organization) == Query(db, args, organization)
  {
    SameWithoutUnowned(db, organization);
    hide *;
    AnswersAreIsolated(db, WithoutUnowned(db), args, organization);
  }

  lemma SameWithoutUnowned(db: Database, organization: string)
    ensures SameForOrganization(db, WithoutUnowned(db), organization)
  {
    var other := WithoutUnowned(db);
    forall t | t in db.tables
      ensures Select(other.tables[t].rows, OfOrganization(organization)) ==
              Select(db.tables[t].rows, OfOrganization(organization))
    {
      SelectTwice(db.tables[t].rows, Owned, OfOrganization(organization), OfOrganization(organization));
    }
    hide Select, OfOrganization;
  }

  // --- where the promise fails --------------------------------------------------------------------------------

  function MapRows(db: Database, f: seq<Row> -> seq<Row>): Database {
    db.(tables := map t | t in db.tables :: db.tables[t].(rows := f(db.tables[t].rows)),
        unregistered := map t | t in db.unregistered :: f(db.unregistered[t]))
  }

  /** The database with the rows of one organization only. */
  function Alone(db: Database, organization: string): Database {
    MapRows(db, rows => Select(rows, OfOrganization(organization)))
  }

  function Strangers(organization: string, n: nat): seq<Row> {
    seq(n, i => map["organization_id" := Text(organization + "'"), "id" := Number(i)])
  }

  /** The database with n rows of another organization more in every table. */
  function WithStrangers(db: Database, organization: string, n: nat): Database {
    MapRows(db, rows => rows + Strangers(organization, n))
  }

  lemma StrangersAreOthers(organization: string, n: nat)
    ensures forall r :: r in Strangers(organization, n) ==> !OfOrganization(organization)(r)
  {
    assert |organization + "'"| != |organization|;
  }

  lemma BothAreTheSameForIt(db: Database, organization: string, n: nat)
    ensures SameForOrganization(db, Alone(db, organization), organization)
    ensures SameForOrganization(db, WithStrangers(db, organization, n), organization)
  {
    var own := OfOrganization(organization);
    forall rows ensures Select(Select(rows, own), own) == Select(rows, own) {
      SelectTwice(rows, own, own, own);
    }
    forall rows ensures Select(rows + Strangers(organization, n), own) == Select(rows, own) {
      StrangersAreOthers(organization, n);
      SelectJoins(rows, Strangers(organization, n), own);
      SelectConstant(Strangers(organization, n), own, false);
    }
    hide Select, OfOrganization, Strangers;
  }

  predicate Exists(db: Database, table: string) {
    table in db.tables || table in db.unregistered
  }

  /** The fan-out with the rows of one organization only: the least that it can be. */
  function OwnFanout(db: Database, model: Model, names: seq<string>, organization: string): nat {
    Fanout(Alone(db, organization), model, names)
  }

  /** Sorting neither loses nor adds rows. */
  ghost predicate KeepsRows(db: Database) {
    forall rows, column, descending :: |db.arrange(rows, column, descending)| == |rows|
  }

  /** How many rows a listing shows, whatever rows of other organizations there are. */
  lemma ListingCount(db: Database, other: Database, args: Args, organization: string)
    requires HasScope(db) && KeepsRows(db) && SameForOrganization(db, other, organization)
    requires Query(db, args, organization).Listed?
    ensures args.table in db.tables && args.limit >= 0 && Query(other, args, organization).Listed?
    ensures var model := db.tables[args.table];
      var matching := |Matching(db, model, organization, args.filters)|;
      Query(other, args, organization).count ==
        Lesser(matching * Fanout(other, model, ListedColumns(model, args)), Lesser(args.limit, MAX_ROWS))
  {
    hide HasScope, Select, Matching, FirstUnknown, FilterTrouble, OfOrganization, Joined, Fanout, Attributes, Query,
         Sortable, ListedColumns;
    ListedQuery(db, args, organization);
    var m, o := db.tables[args.table], other.tables[args.table];
    HasOrganization(db, args.table);
    SameMatching(db, other, m, o, organization, args.filters);
    SameTrouble(args.filters, m, o);
    SameNames(m, o, args);
    ListingOf(other, args, organization);
    JoinedLength(other, o, Matching(db, m, organization, args.filters), ListedColumns(m, args));
    SameFanout(other, m, o, ListedColumns(m, args));
  }

  lemma SameNames(m: Model, o: Model, args: Args)
    requires o == m.(rows := o.rows)
    ensures ListedColumns(o, args) == ListedColumns(m, args) && Attributes(o) == Attributes(m)
    ensures Sortable(o, args.orderBy) == Sortable(m, args.orderBy)
  {
    hide DefaultColumns;
  }

  lemma ListingOf(db: Database, args: Args, organization: string)
    requires KeepsRows(db) && args.operation !in {"count", "aggregate", "distinct"} && args.table in db.tables
    requires var model := db.tables[args.table];
      && FilterTrouble(args.filters, model).None? && Accepted(db, args.filters) && args.limit >= 0
      && FirstUnknown(ListedColumns(model, args), Attributes(model)).None? && Sortable(model, args.orderBy)
    ensures var model := db.tables[args.table];
      var joined := Joined(db, model, Matching(db, model, organization, args.filters), ListedColumns(model, args));
      && Query(db, args, organization).Listed?
      && Query(db, args, organization).count == Lesser(|joined|, Lesser(args.limit, MAX_ROWS))
  {
    hide FilterTrouble, FirstUnknown, Attributes, Matching, Joined, DefaultColumns;
  }

  lemma {:induction false} SameFanout(db: Database, m: Model, o: Model, names: seq<string>)
    requires o == m.(rows := o.rows)
    ensures Fanout(db, o, names) == Fanout(db, m, names)
    decreases |names|
  {
    if names == [] {
    } else {
      SameFanout(db, m, o, names[..|names| - 1]);
    }
  }

  lemma {:induction false} FanoutWithoutJoins(db: Database, model: Model, names: seq<string>)
    requires forall name :: name in names ==> !Joins(model, name)
    ensures Fanout(db, model, names) == 1
    decreases |names|
  {
    if names == [] {
    } else {
      FanoutWithoutJoins(db, model, names[..|names| - 1]);
      assert !Joins(model, names[|names| - 1]);
    }
  }

  /** With more rows in every table, the fan-out is no smaller. */
  lemma {:induction false} FanoutGrows(few: Database, many: Database, model: Model, names: seq<string>)
    requires forall t :: |Stored(few, t)| <= |Stored(many, t)|
    ensures Fanout(few, model, names) <= Fanout(many, model, names)
    decreases |names|
  {
    if names == [] {
    } else {
      var front, name := names[..|names| - 1], names[|names| - 1];
      FanoutGrows(few, many, model, front);
      if Relates(model, name) && name !in front {
        var source := model.relationships[name];
        ProductGrows(Fanout(few, model, front), Fanout(many, model, front), Width(few, source), Width(many, source));
      }
    }
  }

  lemma ProductGrows(a: nat, b: nat, c: nat, d: nat)
    requires a <= b && c <= d
    ensures a * c <= b * d
  {
    assert a * c <= b * c <= b * d;
  }

  /** Where every table that a name adds has n rows, the fan-out is at least n as soon as one is added. */
  lemma {:induction false} FanoutAtLeast(db: Database, model: Model, names: seq<string>, n: nat)
    requires n >= 1
    requires forall name :: name in names && Joins(model, name) ==> |Stored(db, model.relationships[name].table)| >= n
    ensures Fanout(db, model, names) >= 1
    ensures (exists name :: name in names && Joins(model, name)) ==> Fanout(db, model, names) >= n
    decreases |names|
  {
    if names == [] {
    } else {
      var front, name := names[..|names| - 1], names[|names| - 1];
      FanoutAtLeast(db, model, front, n);
      assert names == front + [name];
      var before := Fanout(db, model, front);
      if Relates(model, name) && name !in front {
        ProductGrows(1, before, Width(db, model.relationships[name]), Width(db, model.relationships[name]));
        ProductGrows(before, before, 1, Width(db, model.relationships[name]));
      }
      hide Stored;
      if other :| other in names && Joins(model, other) {
        if other in front {
          assert before >= n;
        } else {
          assert other == name;
        }
      }
    }
  }

  lemma StoredOfMapped(db: Database, f: seq<Row> -> seq<Row>, table: string)
    requires f([]) == [] || Exists(db, table)
    ensures Stored(MapRows(db, f), table) == f(Stored(db, table))
  {
  }

  lemma OwnRowsAreLeast(db: Database, other: Database, organization: string)
    requires SameForOrganization(db, other, organization)
    ensures forall t :: |Stored(Alone(db, organization), t)| <= |Stored(other, t)|
  {
    var own := OfOrganization(organization);
    forall t ensures |Stored(Alone(db, organization), t)| <= |Stored(other, t)| {
      StoredOfMapped(db, rows => Select(rows, own), t);
      SelectedAtMost(Stored(other, t), own);
      assert Select(Stored(other, t), own) == Select(Stored(db, t), own);
    }
    hide Select, OfOrganization;
  }

  /** What a caller can check before a listing: no name adds a table, or nothing matches, or the caller's
      own rows alone fill the limit. */
  ghost predicate CountIsConfined(db: Database, args: Args, organization: string)
    requires args.table in db.tables
  {
    var model := db.tables[args.table];
    var columns, matching := ListedColumns(model, args), |Matching(db, model, organization, args.filters)|;
    || (forall name :: name in columns ==> !Joins(model, name))
    || matching == 0
    || matching * OwnFanout(db, model, columns, organization) >= Lesser(args.limit, MAX_ROWS)
  }

  /** The number of rows listed is the same whatever rows other organizations have, if and only if that
      condition holds. */
  lemma CountIsIsolatedIff(db: Database, args: Args, organization: string)
    requires Registered(db) && KeepsRows(db) && Query(db, args, organization).Listed?
    ensures args.table in db.tables
    ensures CountIsConfined(db, args, organization) <==>
      forall other :: SameForOrganization(db, other, organization) ==>
        Query(other, args, organization).Listed?
        && Query(other, args, organization).count == Query(db, args, organization).count
  {
    SameItself(db, organization);
    ListingCount(db, db, args, organization);
    if CountIsConfined(db, args, organization) {
      forall other | SameForOrganization(db, other, organization)
        ensures Query(other, args, organization).Listed?
        ensures Query(other, args, organization).count == Query(db, args, organization).count
      {
        ConfinedCount(db, other, args, organization);
      }
    } else {
      StrangersChangeTheCount(db, args, organization);
      BothAreTheSameForIt(db, organization, Lesser(args.limit, MAX_ROWS));
    }
    hide *;
  }

  lemma SameItself(db: Database, organization: string)
    ensures SameForOrganization(db, db, organization)
  {
  }

  lemma ConfinedCount(db: Database, other: Database, args: Args, organization: string)
    requires Registered(db) && KeepsRows(db) && SameForOrganization(db, other, organization)
    requires Query(db, args, organization).Listed? && args.table in db.tables
    requires CountIsConfined(db, args, organization)
    ensures Query(other, args, organization).Listed?
    ensures Query(other, args, organization).count == Query(db, args, organization).count
  {
    hide Query, Matching, Fanout, ListedColumns, Registered, HasScope, SameForOrganization, KeepsRows, Joins, Stored,
         Alone;
    RegisteredHasScope(db);
    SameItself(db, organization);
    ListingCount(db, db, args, organization);
    ListingCount(db, other, args, organization);
    OwnRowsAreLeast(db, db, organization);
    OwnRowsAreLeast(db, other, organization);
    var model := db.tables[args.table];
    var columns, matching := ListedColumns(model, args), |Matching(db, model, organization, args.filters)|;
    if forall name :: name in columns ==> !Joins(model, name) {
      FanoutWithoutJoins(db, model, columns);
      FanoutWithoutJoins(other, model, columns);
    } else {
      FanoutGrows(Alone(db, organization), db, model, columns);
      FanoutGrows(Alone(db, organization), other, model, columns);
      FilledAlike(matching, OwnFanout(db, model, columns, organization), Fanout(db, model, columns),
                  Fanout(other, model, columns), Lesser(args.limit, MAX_ROWS));
    }
  }

  lemma FilledAlike(matching: nat, own: nat, a: nat, b: nat, limit: nat)
    requires own <= a && own <= b && (matching == 0 || matching * own >= limit)
    ensures Lesser(matching * a, limit) == Lesser(matching * b, limit)
  {
    ProductGrows(matching, matching, own, a);
    ProductGrows(matching, matching, own, b);
  }

  /** Otherwise other organizations' rows are counted: alone the caller sees fewer rows than the limit,
      and enough strangers fill it. */
  lemma StrangersChangeTheCount(db: Database, args: Args, organization: string)
    requires Registered(db) && KeepsRows(db)
    requires Query(db, args, organization).Listed? && args.table in db.tables
    requires !CountIsConfined(db, args, organization)
    ensures args.limit >= 0
    ensures var limit := Lesser(args.limit, MAX_ROWS);
      var model := db.tables[args.table];
      var few := Query(Alone(db, organization), args, organization);
      var many := Query(WithStrangers(db, organization, limit), args, organization);
      && few.Listed? && many.Listed? && few.count < many.count == limit
      && few.count == |Matching(db, model, organization, args.filters)|
                      * OwnFanout(db, model, ListedColumns(model, args), organization)
  {
    hide Query, Matching, Fanout, ListedColumns, Registered, HasScope, SameForOrganization, KeepsRows, Joins, Stored,
         Alone, WithStrangers;
    RegisteredHasScope(db);
    SameItself(db, organization);
    ListingCount(db, db, args, organization);
    var limit := Lesser(args.limit, MAX_ROWS);
    BothAreTheSameForIt(db, organization, limit);
    ListingCount(db, Alone(db, organization), args, organization);
    ListingCount(db, WithStrangers(db, organization, limit), args, organization);
    var model := db.tables[args.table];
    var matching := |Matching(db, model, organization, args.filters)|;
    assert limit >= 1;
    StrangersFill(db, args.table, ListedColumns(model, args), organization, limit);
    ProductGrows(1, matching, limit, Fanout(WithStrangers(db, organization, limit), model, ListedColumns(model, args)));
  }

  lemma StrangersFill(db: Database, table: string, columns: seq<string>, organization: string, n: nat)
    requires Registered(db) && table in db.tables && n >= 1
    requires exists name :: name in columns && Joins(db.tables[table], name)
    ensures Fanout(WithStrangers(db, organization, n), db.tables[table], columns) >= n
  {
    hide Registered, Fanout, Stored, WithStrangers, Joins;
    var model := db.tables[table];
    forall name | name in columns && Joins(model, name)
      ensures Relates(model, name) && model.relationships[name].EveryRowOf?
      ensures |Stored(WithStrangers(db, organization, n), model.relationships[name].table)| >= n
    {
      JoinedTableIsFilled(db, table, name, organization, n);
    }
    FanoutAtLeast(WithStrangers(db, organization, n), model, columns, n);
  }

  lemma RegisteredHasScope(db: Database)
    requires Registered(db)
    ensures HasScope(db)
  {
  }

  lemma JoinedTableIsFilled(db: Database, table: string, name: string, organization: string, n: nat)
    requires Registered(db) && table in db.tables && Joins(db.tables[table], name)
    ensures Relates(db.tables[table], name) && db.tables[table].relationships[name].EveryRowOf?
    ensures |Stored(WithStrangers(db, organization, n), db.tables[table].relationships[name].table)| >= n
  {
    hide HasScope;
    StoredOfMapped(db, rows => rows + Strangers(organization, n), db.tables[table].relationships[name].table);
  }

  /** A condition on the count is needed: a name that adds a table can leave the whole answer as it is. One
      matching row that is related to nobody, and own rows enough to fill the limit, show the same cells
      over and over, whoever else there is. */
  lemma FilledListingsAgree(db: Database, other: Database, args: Args, organization: string, r: Row, name: string)
    requires Registered(db) && KeepsRows(db) && SameForOrganization(db, other, organization)
    requires Query(db, args, organization).Listed? && args.table in db.tables
    requires args.columns == [name] && args.orderBy == "" && Joins(db.tables[args.table], name)
    requires Matching(db, db.tables[args.table], organization, args.filters) == [r]
    requires forall b :: db.related(name, r, b) == Boolean(false)
    requires OwnFanout(db, db.tables[args.table], [name], organization) >= Lesser(args.limit, MAX_ROWS)
    ensures Query(other, args, organization) == Query(db, args, organization)
  {
    hide Query, Matching, Fanout, Registered, HasScope, SameForOrganization, KeepsRows, Joins, Stored, Alone, OwnFanout;
    assert ListedColumns(db.tables[args.table], args) == [name];
    assert CountIsConfined(db, args, organization);
    hide CountIsConfined;
    ConfinedCount(db, other, args, organization);
    SameItself(db, organization);
    RepeatedListing(db, db, args, organization, r, name);
    RepeatedListing(db, other, args, organization, r, name);
  }

  lemma RepeatedListing(db: Database, other: Database, args: Args, organization: string, r: Row, name: string)
    requires Registered(db) && SameForOrganization(db, other, organization)
    requires args.table in db.tables && Query(other, args, organization).Listed?
    requires args.columns == [name] && args.orderBy == "" && Joins(db.tables[args.table], name)
    requires Matching(db, db.tables[args.table], organization, args.filters) == [r]
    requires forall b :: db.related(name, r, b) == Boolean(false)
    ensures Query(other, args, organization).rows == seq(Query(other, args, organization).count, i => [Boolean(false)])
  {
    hide Query, Matching, Registered, HasScope, Joined, Select, OfOrganization;
    var m, o := db.tables[args.table], other.tables[args.table];
    RegisteredHasScope(db);
    HasOrganization(db, args.table);
    SameMatching(db, other, m, o, organization, args.filters);
    RepeatedRows(other, o, r, name);
    UniformListing(other, args, organization, name, r[name := Boolean(false)]);
  }

  lemma UniformListing(db: Database, args: Args, organization: string, name: string, x: Row)
    requires args.table in db.tables && Query(db, args, organization).Listed?
    requires args.columns == [name] && args.orderBy == ""
    requires var model := db.tables[args.table];
      forall j :: j in Joined(db, model, Matching(db, model, organization, args.filters), [name]) ==> j == x
    ensures Query(db, args, organization).rows == seq(Query(db, args, organization).count, i => [At(x, name)])
  {
    hide Query, Matching, Joined;
    ListedQuery(db, args, organization);
    var model := db.tables[args.table];
    var joined := Joined(db, model, Matching(db, model, organization, args.filters), [name]);
    forall i | 0 <= i < |joined| ensures joined[i] == x {
      assert joined[i] in joined;
    }
    assert forall i :: 0 <= i < |joined| ==> Project(joined[i], [name]) == [At(x, name)];
  }

  lemma RepeatedRows(db: Database, model: Model, r: Row, name: string)
    requires Joins(model, name) && forall b :: db.related(name, r, b) == Boolean(false)
    ensures forall j :: j in Joined(db, model, [r], [name]) ==> j == r[name := Boolean(false)]
  {
    var source := model.relationships[name];
    assert [name][..0] == [] && [] + [r] == [r];
    ExpandedGrows(db, [], r, name, source);
    assert Expanded(db, [], name, source) == [];
    assert Joined(db, model, [r], [name]) == Expanded(db, [r], name, source);
    hide Expanded, Joined;
  }

  // --- the smallest example -------------------------------------------------------------------------------

  function SmallModel(table: string, supervisor: Source): Model {
    Model(["id", "organization_id"] + if table in ARCHIVABLE then ["archived_at"] else [], {}, {},
          if table == "employees" then map["user" := EveryRowOf("users"), "supervisor" := supervisor] else map[],
          if table == "employees" then [map["id" := Number(1), "organization_id" := Text("own")]] else [])
  }

  /** One employee of one organization, and nothing else. */
  function SmallDatabase(supervisor: Source): Database {
    Database(map t | t in ARCHIVABLE + UNARCHIVED :: SmallModel(t, supervisor), map["users" := []],
             (name, a, b) => Boolean(false), (cell, value) => 0, (exactCase, cell, value) => false, (a, b) => false,
             f => true, (rows, column, descending) => rows)
  }

  function ListEmployees(name: string): Args {
    Args("employees", "list", [], ["id", name], 50, "", false, "", "", "")
  }

  const ONE := SmallDatabase(EveryRowOf("employees"))

  lemma OneIsRegistered()
    ensures Registered(ONE) && KeepsRows(ONE)
    ensures "employees" in ONE.tables && ONE.tables["employees"] == SmallModel("employees", EveryRowOf("employees"))
  {
    EmployeesExist();
    OneHasEveryTable();
    forall t: string { SmallColumns(t, EveryRowOf("employees")); }
    hide SmallModel, SmallDatabase, ONE;
  }

  lemma OneHasEveryTable()
    ensures ONE.tables.Keys == ARCHIVABLE + UNARCHIVED && "users" in ONE.unregistered && KeepsRows(ONE)
    ensures forall t :: t in ONE.tables ==> ONE.tables[t] == SmallModel(t, EveryRowOf("employees"))
  {
    hide SmallModel;
  }

  lemma EmployeesExist()
    ensures "employees" in ARCHIVABLE
  {
  }

  lemma SmallColumns(t: string, supervisor: Source)
    ensures "organization_id" in SmallModel(t, supervisor).columns && "id" in SmallModel(t, supervisor).columns
    ensures "archived_at" in SmallModel(t, supervisor).columns <==> t in ARCHIVABLE
    ensures SmallModel(t, supervisor).relationships ==
            if t == "employees" then map["user" := EveryRowOf("users"), "supervisor" := supervisor] else map[]
  {
    var columns := SmallModel(t, supervisor).columns;
    assert columns[0] == "id" && columns[1] == "organization_id";
    assert |"archived_at"| == 11 && |"id"| == 2 && |"organization_id"| == 15;
    if t in ARCHIVABLE {
      assert columns[2] == "archived_at";
    }
  }

  lemma OneMatches()
    ensures |Matching(ONE, SmallModel("employees", EveryRowOf("employees")), "own", [])| == 1
  {
    var model := SmallModel("employees", EveryRowOf("employees"));
    var row := model.rows[0];
    PassingIsContributing(ONE, model, "own", [], row);
    assert Contributes(ONE, model, "own", [], row);
    hide Passing;
    SelectConstant(model.rows, Passing(ONE, Conditions(model, "own", [])), true);
  }

  lemma OneStored()
    ensures |Stored(Alone(ONE, "own"), "users")| == 0 && |Stored(Alone(ONE, "own"), "employees")| == 1
  {
    var own := OfOrganization("own");
    OneHasEveryTable();
    EmployeesExist();
    StoredOfMapped(ONE, rows => Select(rows, own), "users");
    StoredOfMapped(ONE, rows => Select(rows, own), "employees");
    UsersAreNotRegistered();
    var rows := SmallModel("employees", EveryRowOf("employees")).rows;
    SelectConstant(rows, own, true);
    assert Stored(ONE, "users") == [] && Stored(ONE, "employees") == rows;
    hide MapRows, OfOrganization, ONE;
  }

  lemma UsersAreNotRegistered()
    ensures "users" !in ARCHIVABLE + UNARCHIVED && ONE.unregistered["users"] == []
  {
    assert "users" !in ARCHIVABLE;
    assert "users" !in UNARCHIVED;
  }

  lemma OneFanout(name: string)
    requires name == "user" || name == "supervisor"
    ensures var model := SmallModel("employees", EveryRowOf("employees"));
      && Joins(model, name)
      && OwnFanout(ONE, model, ["id", name], "own") == if name == "user" then 0 else 1
  {
    var model := SmallModel("employees", EveryRowOf("employees"));
    OneStored();
    assert ["id", name][..1] == ["id"] && ["id"][..0] == [];
    SmallColumns("employees", EveryRowOf("employees"));
    OneRelates(name);
    hide SmallModel, Alone, Stored;
    assert Fanout(Alone(ONE, "own"), model, ["id"]) == 1;
  }

  lemma OneRelates(name: string)
    requires name == "user" || name == "supervisor"
    ensures var model := SmallModel("employees", EveryRowOf("employees"));
      && !Relates(model, "id") && Relates(model, name) && name != "id"
      && model.relationships[name] == EveryRowOf(if name == "user" then "users" else "employees")
  {
    EmployeesExist();
    assert |"user"| == 4 && |"supervisor"| == 10 && |"archived_at"| == 11 && |"id"| == 2 && |"organization_id"| == 15;
  }

  lemma OneIsListed(name: string)
    requires name == "user" || name == "supervisor"
    ensures Query(ONE, ListEmployees(name), "own").Listed?
  {
    hide SmallModel, Registered, Matching, Joined, Query;
    OneIsRegistered();
    OneHasEveryTable();
    EmployeesExist();
    OneNames(name);
    ListingOf(ONE, ListEmployees(name), "own");
  }

  lemma OneNames(name: string)
    requires name == "user" || name == "supervisor"
    ensures FirstUnknown(["id", name], Attributes(SmallModel("employees", EveryRowOf("employees")))).None?
  {
    var model := SmallModel("employees", EveryRowOf("employees"));
    SmallColumns("employees", EveryRowOf("employees"));
    OneRelates(name);
    hide SmallModel;
    assert ["id", name][1..] == [name] && [name][1..] == [];
    assert FirstUnknown([name], Attributes(model)).None?;
  }

  /** Listing the identifier and the user, or the supervisor where that adds the table once more, of the one
      employee there is: no row, or one; with fifty strangers elsewhere, fifty rows. */
  lemma StrangersAreCounted(name: string)
    requires name == "user" || name == "supervisor"
    ensures var args := ListEmployees(name);
      var few, many := Query(Alone(ONE, "own"), args, "own"), Query(WithStrangers(ONE, "own", 50), args, "own");
      && Registered(ONE) && SameForOrganization(ONE, Alone(ONE, "own"), "own")
      && SameForOrganization(ONE, WithStrangers(ONE, "own", 50), "own")
      && few.Listed? && many.Listed? && few.count == (if name == "user" then 0 else 1) && many.count == 50
  {
    OneHasEmployees();
    OneIsListed(name);
    OneMatches();
    OneFanout(name);
    OneIsRegistered();
    BothAreTheSameForIt(ONE, "own", 50);
    hide *;
    StrangersFillListing(ONE, name, if name == "user" then 0 else 1);
  }

  lemma OneHasEmployees()
    ensures "employees" in ONE.tables
  {
    EmployeesExist();
  }

  lemma StrangersFillListing(db: Database, name: string, own: nat)
    requires Registered(db) && KeepsRows(db) && "employees" in db.tables && own < 50
    requires Query(db, ListEmployees(name), "own").Listed?
    requires var model := db.tables["employees"];
      && |Matching(db, model, "own", [])| == 1 && Joins(model, name)
      && OwnFanout(db, model, ["id", name], "own") == own
    ensures var args := ListEmployees(name);
      var few, many := Query(Alone(db, "own"), args, "own"), Query(WithStrangers(db, "own", 50), args, "own");
      few.Listed? && many.Listed? && few.count == own && many.count == 50
  {
    hide Registered, KeepsRows, Query, Matching, OwnFanout, Joins, ListedColumns, Alone, WithStrangers;
    var args, model := ListEmployees(name), db.tables["employees"];
    ArgsOfListing(model, name);
    assert !CountIsConfined(db, args, "own");
    hide CountIsConfined, ListEmployees;
    StrangersChangeTheCount(db, args, "own");
  }

  lemma ArgsOfListing(model: Model, name: string)
    ensures var args := ListEmployees(name);
      && args.filters == [] && Lesser(args.limit, MAX_ROWS) == 50
      && ListedColumns(model, args) == ["id", name] && name in ["id", name]
  {
    assert ["id", name][1] == name;
  }
}
