/** What the dynamic query tool promises, for every argument list. */
module QueryProperties {
  import opened AsciiText
  import opened Options
  import opened Sums
  import opened Grouping
  import opened DynamicQuery

  lemma {:induction false} AllMeansEach(db: Database, conditions: seq<Condition>, row: Row)
    ensures All(db, conditions, row) == Some(true) <==> forall c :: c in conditions ==> Meets(db, c, row)
    decreases |conditions|
  {
    if conditions == [] {
    } else {
      var shorter, last := conditions[..|conditions| - 1], conditions[|conditions| - 1];
      AllMeansEach(db, shorter, row);
      assert conditions == shorter + [last];
      assert last in conditions && forall c :: c in shorter ==> c in conditions;
      hide TruthOf;
      if All(db, conditions, row) == Some(true) {
        assert forall c :: c in conditions ==> c in shorter || c == last;
      } else {
        assert All(db, shorter, row) == Some(true) ==> !Meets(db, last, row);
      }
    }
  }

  // --- which rows contribute ----------------------------------------------------------------------

  /** Scope as the tables allow it, no archived rows, and every filter. */
  predicate Contributes(db: Database, model: Model, organization: string, filters: seq<Filter>, row: Row) {
    && ("organization_id" in model.columns ==> At(row, "organization_id") == Text(organization))
    && ("archived_at" in model.columns ==> At(row, "archived_at") == Null)
    && forall f :: f in filters ==> Test(db, f, At(row, f.column)) == Some(true)
  }

  lemma PassingIsContributing(db: Database, model: Model, organization: string, filters: seq<Filter>, row: Row)
    ensures Passing(db, Conditions(model, organization, filters))(row) <==>
            Contributes(db, model, organization, filters, row)
  {
    hide Test;
    var conditions := Conditions(model, organization, filters);
    AllMeansEach(db, conditions, row);
    if forall c :: c in conditions ==> Meets(db, c, row) {
      forall f | f in filters ensures Test(db, f, At(row, f.column)) == Some(true) {
        var i :| 0 <= i < |filters| && filters[i] == f;
        assert AskedOf(filters)[i] == Asked(f) && Asked(f) in conditions;
        assert Meets(db, Asked(f), row);
      }
      assert "organization_id" in model.columns ==> OwnedBy(organization) in conditions;
      assert "archived_at" in model.columns ==> NotArchived in conditions;
    }
  }

  /** A query is about exactly the rows that contribute, each as often as the table holds it. */
  lemma MatchingExactly(db: Database, model: Model, organization: string, filters: seq<Filter>, row: Row)
    ensures multiset(Matching(db, model, organization, filters))[row] ==
            if Contributes(db, model, organization, filters, row) then multiset(model.rows)[row] else 0
  {
    PassingIsContributing(db, model, organization, filters, row);
    SelectedExactly(model.rows, Passing(db, Conditions(model, organization, filters)), row);
  }

  // --- relationships ------------------------------------------------------------------------------------

  function Width(db: Database, source: Source): nat {
    if source.OwnRow? then 1 else |Stored(db, source.table)|
  }

  /** How many rows of the statement come from each row of the query. */
  function Fanout(db: Database, model: Model, names: seq<string>): nat
    decreases |names|
  {
    if names == [] then 1
    else
      var front, name := names[..|names| - 1], names[|names| - 1];
      var before := Fanout(db, model, front);
      if Relates(model, name) && name !in front then before * Width(db, model.relationships[name]) else before
  }

  /** Two rows with the same cells in the columns of the model. */
  ghost predicate Agree(model: Model, a: Row, b: Row) {
    forall c :: c in model.columns ==> At(a, c) == At(b, c)
  }

  lemma ExtendedIsWide(db: Database, model: Model, row: Row, name: string, source: Source)
    requires name !in model.columns
    ensures |Extended(db, row, name, source)| == Width(db, source)
    ensures forall j :: j in Extended(db, row, name, source) ==> Agree(model, j, row)
  {
  }

  lemma {:induction false} ExpandedLength(db: Database, model: Model, rows: seq<Row>, name: string, source: Source)
    requires name !in model.columns
    ensures |Expanded(db, rows, name, source)| == |rows| * Width(db, source)
    decreases |rows|
  {
    if rows == [] {
    } else {
      ExpandedLength(db, model, rows[..|rows| - 1], name, source);
      ExtendedIsWide(db, model, rows[|rows| - 1], name, source);
      OneMoreTimes(|rows| - 1, Width(db, source));
      hide Extended;
    }
  }

  lemma OneMoreTimes(n: int, w: int)
    ensures (n + 1) * w == n * w + w
  {
  }

  lemma {:induction false} JoinedLength(db: Database, model: Model, rows: seq<Row>, names: seq<string>)
    ensures |Joined(db, model, rows, names)| == |rows| * Fanout(db, model, names)
    decreases |names|
  {
    if names == [] {
    } else {
      var front, name := names[..|names| - 1], names[|names| - 1];
      JoinedLength(db, model, rows, front);
      if Relates(model, name) && name !in front {
        ExpandedLength(db, model, Joined(db, model, rows, front), name, model.relationships[name]);
        Associates(|rows|, Fanout(db, model, front), Width(db, model.relationships[name]));
      }
      hide Expanded, Width;
    }
  }

  lemma Associates(a: int, b: int, c: int)
    ensures a * b * c == a * (b * c)
  {
  }

  /** A property that depends on the columns of a row only. */
  ghost predicate OfColumns<T(!new)>(model: Model, p: Row -> T) {
    forall a: Row, b: Row :: Agree(model, a, b) ==> p(a) == p(b)
  }

  lemma ColumnsAreOfColumns(model: Model, column: string)
    requires column in model.columns
    ensures OfColumns(model, CellAt(column)) && OfColumns(model, AmountAt(column))
  {
  }

  /** Joining keeps the columns of the rows it repeats. */
  lemma {:induction false} JoinedRowsAreRows(db: Database, model: Model, rows: seq<Row>, names: seq<string>, j: Row)
    requires j in Joined(db, model, rows, names)
    ensures exists r :: r in rows && Agree(model, j, r)
    decreases |names|
  {
    if names == [] {
      assert Agree(model, j, j);
    } else {
      var front, name := names[..|names| - 1], names[|names| - 1];
      if Relates(model, name) && name !in front {
        var before := Joined(db, model, rows, front);
        var b := ExpandedFrom(db, model, before, name, model.relationships[name], j);
        JoinedRowsAreRows(db, model, rows, front, b);
        var r :| r in rows && Agree(model, b, r);
        assert Agree(model, j, r);
      } else {
        JoinedRowsAreRows(db, model, rows, front, j);
      }
      hide Expanded, Joined;
    }
  }

  lemma {:induction false} ExpandedFrom(db: Database, model: Model, rows: seq<Row>, name: string, source: Source,
                                        j: Row)
    returns (row: Row)
    requires j in Expanded(db, rows, name, source) && name !in model.columns
    ensures row in rows && Agree(model, j, row)
    decreases |rows|
  {
    var front, last := rows[..|rows| - 1], rows[|rows| - 1];
    ExtendedIsWide(db, model, last, name, source);
    if j in Expanded(db, front, name, source) {
      row := ExpandedFrom(db, model, front, name, source, j);
    } else {
      row := last;
    }
  }

  /** SQL's sum of two sums. */
  function Plus(a: Option<int>, b: Option<int>): Option<int> {
    if a.None? && b.None? then None else Some(Amount(a) + Amount(b))
  }

  /** A sum of what another sum adds up, each part a number of times. */
  predicate Scales(whole: Option<int>, part: Option<int>, times: nat) {
    && Amount(whole) == Amount(part) * times
    && (whole.None? <==> part.None? || times == 0)
  }

  lemma ScalesAdd(x: Option<int>, a: Option<int>, y: Option<int>, b: Option<int>, times: nat)
    requires Scales(x, a, times) && Scales(y, b, times)
    ensures Scales(Plus(x, y), Plus(a, b), times)
  {
    assert Amount(a) * times + Amount(b) * times == (Amount(a) + Amount(b)) * times;
  }

  lemma ScalesTwice(x: Option<int>, y: Option<int>, z: Option<int>, a: nat, b: nat)
    requires Scales(x, y, a) && Scales(y, z, b)
    ensures Scales(x, z, b * a)
  {
    Associates(Amount(z), b, a);
    if a > 0 && b > 0 {
      assert b * a > 0;
    }
  }

  lemma {:induction false} SumJoinsPlus(a: seq<Row>, b: seq<Row>, weight: Row -> Option<int>)
    ensures SumOf(a + b, weight) == Plus(SumOf(a, weight), SumOf(b, weight))
    decreases |b|
  {
    if b == [] {
      assert a + b == a;
    } else {
      SumJoinsPlus(a, b[..|b| - 1], weight);
      assert (a + b)[..|a + b| - 1] == a + b[..|b| - 1];
    }
  }

  lemma {:induction false} JoinedSum(db: Database, model: Model, rows: seq<Row>, names: seq<string>,
                                     weight: Row -> Option<int>)
    requires OfColumns(model, weight)
    ensures Scales(SumOf(Joined(db, model, rows, names), weight), SumOf(rows, weight), Fanout(db, model, names))
    decreases |names|
  {
    if names == [] {
    } else {
      hide Expanded, Width, SumOf, OfColumns, Scales;
      var front, name := names[..|names| - 1], names[|names| - 1];
      JoinedSum(db, model, rows, front, weight);
      if Relates(model, name) && name !in front {
        var before, source := Joined(db, model, rows, front), model.relationships[name];
        ExpandedSum(db, model, before, name, source, weight);
        ScalesTwice(SumOf(Expanded(db, before, name, source), weight), SumOf(before, weight), SumOf(rows, weight),
                    Width(db, source), Fanout(db, model, front));
      }
    }
  }

  lemma {:induction false} ExpandedSum(db: Database, model: Model, rows: seq<Row>, name: string, source: Source,
                                       weight: Row -> Option<int>)
    requires OfColumns(model, weight) && name !in model.columns
    ensures Scales(SumOf(Expanded(db, rows, name, source), weight), SumOf(rows, weight), Width(db, source))
    decreases |rows|
  {
    if rows == [] {
    } else {
      hide Extended, Expanded, OfColumns, Width, SumOf, Scales;
      var front, last := rows[..|rows| - 1], rows[|rows| - 1];
      ExpandedSum(db, model, front, name, source, weight);
      ExtendedSum(db, model, last, name, source, weight);
      ExpandedOfLast(db, front, last, name, source, weight);
      assert rows == front + [last];
      ScalesAdd(SumOf(Expanded(db, front, name, source), weight), SumOf(front, weight),
                SumOf(Extended(db, last, name, source), weight), weight(last), Width(db, source));
    }
  }

  lemma ExpandedOfLast(db: Database, front: seq<Row>, last: Row, name: string, source: Source,
                       weight: Row -> Option<int>)
    ensures SumOf(Expanded(db, front + [last], name, source), weight) ==
            Plus(SumOf(Expanded(db, front, name, source), weight), SumOf(Extended(db, last, name, source), weight))
    ensures SumOf(front + [last], weight) == Plus(SumOf(front, weight), weight(last))
  {
    hide SumOf, Extended, Expanded;
    ExpandedGrows(db, front, last, name, source);
    SumOfLast(front, last, weight);
    SumJoinsPlus(Expanded(db, front, name, source), Extended(db, last, name, source), weight);
  }

  lemma ExpandedGrows(db: Database, front: seq<Row>, last: Row, name: string, source: Source)
    ensures Expanded(db, front + [last], name, source) ==
            Expanded(db, front, name, source) + Extended(db, last, name, source)
  {
    assert (front + [last])[..|front|] == front;
    hide Extended;
  }

  lemma ExtendedSum(db: Database, model: Model, row: Row, name: string, source: Source, weight: Row -> Option<int>)
    requires OfColumns(model, weight) && name !in model.columns
    ensures Scales(SumOf(Extended(db, row, name, source), weight), weight(row), Width(db, source))
  {
    ExtendedIsWide(db, model, row, name, source);
    hide Extended, SumOf;
    SumOfSame(Extended(db, row, name, source), weight, weight(row));
  }

  lemma {:induction false} SumOfSame(rows: seq<Row>, weight: Row -> Option<int>, each: Option<int>)
    requires forall r :: r in rows ==> weight(r) == each
    ensures Scales(SumOf(rows, weight), each, |rows|)
    decreases |rows|
  {
    if rows == [] {
    } else {
      SumOfSame(rows[..|rows| - 1], weight, each);
      OneMoreTimes(|rows| - 1, Amount(each));
    }
  }

  /** Selecting by columns before joining or after it. */
  lemma {:induction false} JoinedOfSelected(db: Database, model: Model, rows: seq<Row>, names: seq<string>,
                                            p: Row -> bool)
    requires OfColumns(model, p)
    ensures Joined(db, model, Select(rows, p), names) == Select(Joined(db, model, rows, names), p)
    decreases |names|
  {
    if names == [] {
    } else {
      var front, name := names[..|names| - 1], names[|names| - 1];
      JoinedOfSelected(db, model, rows, front, p);
      if Relates(model, name) && name !in front {
        ExpandedOfSelected(db, model, Joined(db, model, rows, front), name, model.relationships[name], p);
      }
      hide Expanded, Select, OfColumns;
    }
  }

  lemma {:induction false} ExpandedOfSelected(db: Database, model: Model, rows: seq<Row>, name: string,
                                              source: Source, p: Row -> bool)
    requires OfColumns(model, p) && name !in model.columns
    ensures Expanded(db, Select(rows, p), name, source) == Select(Expanded(db, rows, name, source), p)
    decreases |rows|
  {
    if rows == [] {
    } else {
      var front, last := rows[..|rows| - 1], rows[|rows| - 1];
      var extended := Extended(db, last, name, source);
      ExpandedOfSelected(db, model, front, name, source, p);
      ExtendedIsWide(db, model, last, name, source);
      assert forall j :: j in extended ==> p(j) == p(last);
      hide Extended, OfColumns;
      SelectConstant(extended, p, p(last));
      SelectJoins(Expanded(db, front, name, source), extended, p);
      if p(last) {
        ExpandedGrows(db, Select(front, p), last, name, source);
      }
    }
  }

  // --- counting and listing -----------------------------------------------------------------------------

  /** A null counts as greater than every value. */
  predicate Precedes(db: Database, a: Cell, b: Cell) {
    !a.Null? && (b.Null? || db.below(a, b))
  }

  /** What ORDER BY promises: the same rows, none before one that precedes it. */
  ghost predicate Sorts(db: Database) {
    forall rows, column, descending ::
      var sorted := db.arrange(rows, column, descending);
      && multiset(sorted) == multiset(rows)
      && forall i, j :: 0 <= i < j < |sorted| ==>
           if descending then !Precedes(db, At(sorted[i], column), At(sorted[j], column))
           else !Precedes(db, At(sorted[j], column), At(sorted[i], column))
  }

  /** A listing shows as many rows as the count reports, times the fan-out of its relationships, up to
      its limit and the tool's own. It shows rows of the statement, each no more often than the statement
      has it; with an order, none of those left out precedes one that is shown. */
  lemma ListingIsPartOfCounted(db: Database, args: Args, organization: string)
    returns (shown: seq<Row>, rest: seq<Row>)
    requires Sorts(db) && Query(db, args, organization).Listed?
    ensures var counted, listed := Query(db, args.(operation := "count"), organization),
                                   Query(db, args, organization);
      var model := db.tables[args.table];
      var columns := ListedColumns(model, args);
      && args.limit >= 0 && counted.Counted?
      && listed.count == |listed.rows|
      && listed.count == Lesser(counted.count * Fanout(db, model, columns), Lesser(args.limit, MAX_ROWS))
      && listed.rows == Projected(shown, columns)
      && (forall i :: 0 <= i < |shown| ==>
            && |listed.rows[i]| == |columns|
            && forall j :: 0 <= j < |columns| ==> listed.rows[i][j] == At(shown[i], columns[j]))
      && multiset(shown) + multiset(rest) ==
           multiset(Joined(db, model, Matching(db, model, organization, args.filters), columns))
      && (args.orderBy != "" && args.orderBy in model.columns ==>
            forall i, j :: 0 <= i < |shown| && 0 <= j < |rest| ==>
              if args.descending then !Precedes(db, At(shown[i], args.orderBy), At(rest[j], args.orderBy))
              else !Precedes(db, At(rest[j], args.orderBy), At(shown[i], args.orderBy)))
  {
    hide Matching, Precedes, Joined, Fanout, Query, ListedColumns;
    ListedQuery(db, args, organization);
    CountedQuery(db, args.(operation := "count"), organization);
    var model := db.tables[args.table];
    var columns := ListedColumns(model, args);
    var rows := Matching(db, model, organization, args.filters);
    var joined := Joined(db, model, rows, columns);
    JoinedLength(db, model, rows, columns);
    var ordered := Ordered(db, model, args, joined);
    shown := FirstOf(ordered, Lesser(args.limit, MAX_ROWS));
    rest := ordered[|shown|..];
    assert ordered == shown + rest;
    assert |ordered| == |joined| by {
      assert multiset(ordered) == multiset(joined);
      assert |multiset(ordered)| == |ordered|;
    }
    hide Sorts;
    if args.orderBy != "" && args.orderBy in model.columns {
      SplitSorted(db, joined, args.orderBy, args.descending, shown, rest);
    }
  }

  /** What is known of a query that answers with a listing. */
  lemma ListedQuery(db: Database, args: Args, organization: string)
    requires Query(db, args, organization).Listed?
    ensures args.operation !in {"count", "aggregate", "distinct"} && args.table in db.tables && args.limit >= 0
    ensures var model := db.tables[args.table];
      var columns := ListedColumns(model, args);
      var joined := Joined(db, model, Matching(db, model, organization, args.filters), columns);
      var shown := FirstOf(Ordered(db, model, args, joined), Lesser(args.limit, MAX_ROWS));
      && FilterTrouble(args.filters, model).None? && Accepted(db, args.filters)
      && FirstUnknown(columns, Attributes(model)).None? && Sortable(model, args.orderBy)
      && Query(db, args, organization) == Listed(Projected(shown, columns), |shown|)
  {
    hide FilterTrouble, FirstUnknown, Attributes, Matching, Joined, DefaultColumns;
  }

  lemma CountedQuery(db: Database, args: Args, organization: string)
    requires args.operation == "count" && args.table in db.tables
    requires FilterTrouble(args.filters, db.tables[args.table]).None? && Accepted(db, args.filters)
    ensures Query(db, args, organization) ==
            Counted(|Matching(db, db.tables[args.table], organization, args.filters)|)
  {
    hide FilterTrouble, Matching, Joined;
  }

  lemma SplitSorted(db: Database, rows: seq<Row>, column: string, descending: bool, shown: seq<Row>, rest: seq<Row>)
    requires Sorts(db) && db.arrange(rows, column, descending) == shown + rest
    ensures forall i, j :: 0 <= i < |shown| && 0 <= j < |rest| ==>
              if descending then !Precedes(db, At(shown[i], column), At(rest[j], column))
              else !Precedes(db, At(rest[j], column), At(shown[i], column))
  {
    hide Precedes, At;
    var sorted := db.arrange(rows, column, descending);
    forall i, j | 0 <= i < |shown| && 0 <= j < |rest|
      ensures if descending then !Precedes(db, At(shown[i], column), At(rest[j], column))
              else !Precedes(db, At(rest[j], column), At(shown[i], column))
    {
      assert sorted[i] == shown[i] && sorted[|shown| + j] == rest[j];
    }
  }

  /** Distinct values: no repetition, each is that of a row of the statement, and all of them are there
      unless the limit cut them off. */
  lemma DistinctValuesOfCounted(db: Database, args: Args, organization: string)
    requires Query(db, args, organization).Distinct?
    ensures var values := Query(db, args, organization).values;
      var model := db.tables[args.table];
      var rows := Joined(db, model, Matching(db, model, organization, args.filters), args.columns);
      && (forall i, j :: 0 <= i < j < |values| ==> values[i] != values[j])
      && (forall v :: v in values ==> exists r :: r in rows && Project(r, args.columns) == v)
      && |values| <= Lesser(args.limit, MAX_ROWS)
      && (|values| < Lesser(args.limit, MAX_ROWS) ==> forall r :: r in rows ==> Project(r, args.columns) in values)
  {
    hide Matching, FirstUnknown, FilterTrouble, Project, Joined;
    var model := db.tables[args.table];
    var rows := Joined(db, model, Matching(db, model, organization, args.filters), args.columns);
    var all := Projected(rows, args.columns);
    UnrepeatedExactly(all);
    assert forall v :: v in Query(db, args, organization).values ==> v in Unrepeated(all);
    forall v | v in all ensures exists r :: r in rows && Project(r, args.columns) == v {
      var i :| 0 <= i < |all| && all[i] == v;
      assert rows[i] in rows;
    }
    forall r | r in rows ensures Project(r, args.columns) in all {
      var i :| 0 <= i < |rows| && rows[i] == r;
      assert all[i] == Project(r, args.columns);
    }
    hide Unrepeated, Projected;
  }

  lemma {:induction false} UnrepeatedExactly<T>(xs: seq<T>)
    ensures forall x :: x in Unrepeated(xs) <==> x in xs
    ensures forall i, j :: 0 <= i < j < |Unrepeated(xs)| ==> Unrepeated(xs)[i] != Unrepeated(xs)[j]
    decreases |xs|
  {
    if xs == [] {
    } else {
      UnrepeatedExactly(xs[..|xs| - 1]);
      assert xs == xs[..|xs| - 1] + [xs[|xs| - 1]];
    }
  }

  // --- filters ------------------------------------------------------------------------------------------

  /** One more filter narrows the rows to those of before that meet it. */
  lemma FilterNarrows(db: Database, model: Model, organization: string, filters: seq<Filter>, f: Filter)
    ensures Matching(db, model, organization, filters + [f]) ==
            Select(Matching(db, model, organization, filters), r => Test(db, f, At(r, f.column)) == Some(true))
  {
    var p := Passing(db, Conditions(model, organization, filters));
    var both := Passing(db, Conditions(model, organization, filters + [f]));
    var q := (r: Row) => Test(db, f, At(r, f.column)) == Some(true);
    forall r: Row ensures both(r) == (p(r) && q(r)) {
      PassingIsContributing(db, model, organization, filters, r);
      PassingIsContributing(db, model, organization, filters + [f], r);
      hide Test, Passing;
    }
    hide Passing, Test;
    SelectTwice(model.rows, p, q, both);
    SelectAgrees(Select(model.rows, p), q, r => Test(db, f, At(r, f.column)) == Some(true));
  }

  /** Neither the order nor the repetition of filters matters. */
  lemma FiltersAreASet(db: Database, model: Model, organization: string, a: seq<Filter>, b: seq<Filter>)
    requires forall f :: f in a <==> f in b
    ensures Matching(db, model, organization, a) == Matching(db, model, organization, b)
  {
    forall r: Row
      ensures Passing(db, Conditions(model, organization, a))(r) == Passing(db, Conditions(model, organization, b))(r)
    {
      PassingIsContributing(db, model, organization, a, r);
      PassingIsContributing(db, model, organization, b, r);
      hide Passing, Test;
    }
    SelectAgrees(model.rows, Passing(db, Conditions(model, organization, a)),
                 Passing(db, Conditions(model, organization, b)));
  }

  /** What each operator asks of a cell that is not null, by its name; any other name asks for equality. */
  lemma OperatorsCompare(db: Database, column: string, op: string, value: string, cell: Cell)
    requires !cell.Null?
    ensures var passes := Test(db, Filter(column, op, value), cell) == Some(true);
      var order := db.order(cell, value);
      && (op == "neq" ==> (passes <==> order != 0))
      && (op == "gt" ==> (passes <==> order > 0)) && (op == "gte" ==> (passes <==> order >= 0))
      && (op == "lt" ==> (passes <==> order < 0)) && (op == "lte" ==> (passes <==> order <= 0))
      && (op == "like" ==> (passes <==> db.like(true, cell, value)))
      && (op == "ilike" ==> (passes <==> db.like(false, cell, value)))
      && (op == "is_null" ==> !passes) && (op == "not_null" ==> passes)
      && (op !in {"neq", "gt", "gte", "lt", "lte", "like", "ilike", "in", "is_null", "not_null"} ==>
            (passes <==> order == 0))
  {
    hide SplitOn, Strip;
  }

  /** A null passes the test for null, and no other. */
  lemma NullPassesOnly(db: Database, column: string, op: string, value: string)
    ensures Test(db, Filter(column, op, value), Null) == Some(true) <==> op == "is_null"
  {
    hide SplitOn, Strip;
  }

  /** A list of values separated by commas asks for equality with one of them, white space around it
      aside. */
  lemma InAsksForAny(db: Database, column: string, values: seq<string>, cell: Cell)
    requires !cell.Null? && values != [] && forall v :: v in values ==> ',' !in v
    ensures Test(db, Filter(column, "in", JoinWith(values, ',')), cell) == Some(true) <==>
            exists v :: v in values && db.order(cell, Strip(v)) == 0
  {
    JoinThenSplit(values, ',');
    hide SplitOn, JoinWith, Strip;
  }

  /** The first name that is unknown is reported, if there is one. */
  lemma {:induction false} FirstUnknownIsFirst(names: seq<string>, known: set<string>)
    ensures FirstUnknown(names, known).None? <==> forall i :: 0 <= i < |names| ==> names[i] in known
    ensures FirstUnknown(names, known).Some? ==>
      exists i :: 0 <= i < |names| && names[i] == FirstUnknown(names, known).value && names[i] !in known
                  && forall j :: 0 <= j < i ==> names[j] in known
  {
    if names == [] {
    } else {
      var tail := names[1..];
      FirstUnknownIsFirst(tail, known);
      assert forall i :: 1 <= i < |names| ==> names[i] == tail[i - 1];
      if names[0] in known && FirstUnknown(tail, known).Some? {
        var i :| 0 <= i < |tail| && tail[i] == FirstUnknown(tail, known).value && tail[i] !in known
                 && forall j :: 0 <= j < i ==> tail[j] in known;
        assert names[i + 1] == tail[i];
      }
    }
  }

  /** Filters cause no trouble if and only if each names a column. */
  lemma {:induction false} NoTroubleIff(filters: seq<Filter>, model: Model)
    ensures FilterTrouble(filters, model).None? <==>
            forall i :: 0 <= i < |filters| ==> filters[i].column in model.columns
  {
    if filters == [] {
    } else {
      NoTroubleIff(filters[1..], model);
      assert forall i :: 1 <= i < |filters| ==> filters[i] == filters[1..][i - 1];
    }
  }

  function CountWith(db: Database, model: Model, organization: string, filters: seq<Filter>,
                     column: string, op: string, value: string): nat {
    |Matching(db, model, organization, filters + [Filter(column, op, value)])|
  }

  /** Nulls are never lost silently: what is below, equal to, above a value and null add up to
      everything, while neq leaves the nulls out. */
  lemma ComparisonsPartition(db: Database, model: Model, organization: string, filters: seq<Filter>,
                             column: string, value: string)
    ensures var count := (op: string) => CountWith(db, model, organization, filters, column, op, value);
      && |Matching(db, model, organization, filters)| ==
           count("lt") + count("eq") + count("gt") + count("is_null")
      && count("not_null") == count("lt") + count("eq") + count("gt")
      && count("neq") == count("lt") + count("gt")
      && count("lte") == count("lt") + count("eq") && count("gte") == count("gt") + count("eq")
  {
    var rows := Matching(db, model, organization, filters);
    hide Matching, CountWith, CountOp, Check, OpOf;
    PartitionOf(db, rows, column, value);
    OpNames();
    CountsAgree(db, model, organization, filters, column, "lt", value);
    CountsAgree(db, model, organization, filters, column, "eq", value);
    CountsAgree(db, model, organization, filters, column, "gt", value);
    CountsAgree(db, model, organization, filters, column, "is_null", value);
    CountsAgree(db, model, organization, filters, column, "not_null", value);
    CountsAgree(db, model, organization, filters, column, "neq", value);
    CountsAgree(db, model, organization, filters, column, "lte", value);
    CountsAgree(db, model, organization, filters, column, "gte", value);
  }

  lemma OpNames()
    ensures OpOf("lt") == Lt && OpOf("eq") == Eq && OpOf("gt") == Gt && OpOf("is_null") == IsNull
    ensures OpOf("not_null") == NotNull && OpOf("neq") == Neq && OpOf("lte") == Lte && OpOf("gte") == Gte
  {
  }

  function CountOp(db: Database, rows: seq<Row>, column: string, op: Op, value: string): nat {
    |Select(rows, r => Check(db, op, value, At(r, column)) == Some(true))|
  }

  lemma CountsAgree(db: Database, model: Model, organization: string, filters: seq<Filter>,
                    column: string, op: string, value: string)
    ensures CountWith(db, model, organization, filters, column, op, value) ==
            CountOp(db, Matching(db, model, organization, filters), column, OpOf(op), value)
  {
    var f, rows := Filter(column, op, value), Matching(db, model, organization, filters);
    FilterNarrows(db, model, organization, filters, f);
    SelectAgrees(rows, r => Test(db, f, At(r, f.column)) == Some(true),
                 r => Check(db, OpOf(op), value, At(r, column)) == Some(true));
    hide OpOf, Check, Matching, Select;
  }

  lemma {:induction false} PartitionOf(db: Database, rows: seq<Row>, column: string, value: string)
    ensures var count := (op: Op) => CountOp(db, rows, column, op, value);
      && |rows| == count(Lt) + count(Eq) + count(Gt) + count(IsNull)
      && count(NotNull) == count(Lt) + count(Eq) + count(Gt)
      && count(Neq) == count(Lt) + count(Gt)
      && count(Lte) == count(Lt) + count(Eq) && count(Gte) == count(Gt) + count(Eq)
    decreases |rows|
  {
    if rows == [] {
    } else {
      var shorter, last := rows[..|rows| - 1], rows[|rows| - 1];
      PartitionOf(db, shorter, column, value);
      forall op: Op
        ensures CountOp(db, rows, column, op, value) == CountOp(db, shorter, column, op, value) +
                One(db, op, value, At(last, column))
      {}
      Trichotomy(db, At(last, column), value);
      hide CountOp, One;
    }
  }

  function One(db: Database, op: Op, value: string, cell: Cell): nat {
    if Check(db, op, value, cell) == Some(true) then 1 else 0
  }

  /** The operators on one cell. */
  lemma Trichotomy(db: Database, cell: Cell, value: string)
    ensures var one := (op: Op) => One(db, op, value, cell);
      && 1 == one(Lt) + one(Eq) + one(Gt) + one(IsNull)
      && one(NotNull) == one(Lt) + one(Eq) + one(Gt)
      && one(Neq) == one(Lt) + one(Gt)
      && one(Lte) == one(Lt) + one(Eq) && one(Gte) == one(Gt) + one(Eq)
  {
  }

  // --- aggregates -----------------------------------------------------------------------------------------

  function SumIn(v: Value): int {
    if v.SumIs? then v.sum else 0
  }

  function SumsIn(results: map<Cell, Value>): map<Cell, int> {
    map k | k in results :: SumIn(results[k])
  }

  /** For every query, the sums by group add up to the sum without groups, times the fan-out of the name
      grouped by, which is one for every column. All groups are null when the whole is, and only then
      unless the fan-out is zero. */
  lemma GroupsAddUp(db: Database, args: Args, organization: string)
    requires AggregateOf(args.aggregateFunction) == Aggregate.Sum
    requires Query(db, args, organization).Grouped?
    ensures var model := db.tables[args.table];
      var fanout := Fanout(db, model, [args.aggregateColumn, args.groupBy]);
      var whole := Query(db, args.(groupBy := ""), organization);
      var results := Query(db, args, organization).results;
      && whole.Aggregated? && Total(SumsIn(results)) == SumIn(whole.value) * fanout
      && ((forall k :: k in results ==> results[k] == Nothing) <==> whole.value == Nothing || fanout == 0)
      && (!Joins(model, args.groupBy) ==> fanout == 1)
  {
    hide Matching, SumOf, FilterTrouble, CellAt, AmountAt, OfGroup, KeysOf, Joined, Fanout, OfColumns, Query;
    GroupedQuery(db, args, organization);
    UngroupedQuery(db, args.(groupBy := ""), organization);
    var model := db.tables[args.table];
    var rows := Matching(db, model, organization, args.filters);
    var names := [args.aggregateColumn, args.groupBy];
    ColumnIsNotJoined(db, model, rows, args.aggregateColumn, args.groupBy);
    ColumnsAreOfColumns(model, args.aggregateColumn);
    var joined := Joined(db, model, rows, names);
    JoinedSum(db, model, rows, names, AmountAt(args.aggregateColumn));
    SumsOfGroups(db, args.aggregateColumn, joined, args.groupBy);
  }

  lemma SumsOfGroups(db: Database, column: string, rows: seq<Row>, groupBy: string)
    ensures var results := ValuesByGroup(db, Aggregate.Sum, column, rows, groupBy);
      && Total(SumsIn(results)) == Amount(SumOf(rows, AmountAt(column)))
      && ((forall k :: k in results ==> results[k] == Nothing) <==> SumOf(rows, AmountAt(column)).None?)
  {
    hide SumOf, CellAt, AmountAt, OfGroup, KeysOf;
    var groups := Groups(rows, CellAt(groupBy), AmountAt(column));
    GroupsConserve(rows, CellAt(groupBy), AmountAt(column));
    assert SumsIn(ValuesByGroup(db, Aggregate.Sum, column, rows, groupBy)) == Amounts(groups);
  }

  /** What is known of a query that answers by group. */
  lemma GroupedQuery(db: Database, args: Args, organization: string)
    requires Query(db, args, organization).Grouped?
    ensures args.operation == "aggregate" && args.table in db.tables && args.groupBy != ""
    ensures var model, f := db.tables[args.table], AggregateOf(args.aggregateFunction);
      && FilterTrouble(args.filters, model).None? && Accepted(db, args.filters)
      && args.aggregateColumn in Attributes(model) && Computes(model, f, args.aggregateColumn)
      && Query(db, args, organization).results ==
           ValuesByGroup(db, f, args.aggregateColumn,
                         Joined(db, model, Matching(db, model, organization, args.filters),
                                [args.aggregateColumn, args.groupBy]), args.groupBy)
  {
    hide FilterTrouble, ValuesByGroup, Matching, Joined, Attributes;
    assert [args.aggregateColumn] + [args.groupBy] == [args.aggregateColumn, args.groupBy];
  }

  lemma UngroupedQuery(db: Database, args: Args, organization: string)
    requires args.operation == "aggregate" && args.table in db.tables && args.groupBy == ""
    requires var model := db.tables[args.table];
      && FilterTrouble(args.filters, model).None? && Accepted(db, args.filters)
      && args.aggregateColumn in Attributes(model)
      && Computes(model, AggregateOf(args.aggregateFunction), args.aggregateColumn)
    ensures var model := db.tables[args.table];
      Query(db, args, organization) ==
        Aggregated(ValueOf(db, AggregateOf(args.aggregateFunction), args.aggregateColumn,
                           Joined(db, model, Matching(db, model, organization, args.filters), [args.aggregateColumn])))
  {
    hide FilterTrouble, ValueOf, Matching, Joined, Attributes;
    assert [args.aggregateColumn] + [] == [args.aggregateColumn];
  }

  /** A column among the names adds nothing. */
  lemma ColumnIsNotJoined(db: Database, model: Model, rows: seq<Row>, column: string, name: string)
    requires column in model.columns
    ensures Joined(db, model, rows, [column]) == rows
    ensures !Relates(model, name) ==> Joined(db, model, rows, [column, name]) == rows
    ensures !Joins(model, name) ==> Fanout(db, model, [column, name]) == 1
  {
    assert [column][..0] == [] && [column, name][..1] == [column];
    assert Fanout(db, model, [column]) == 1;
  }

  /** Whatever the function, the value of a group is what an equality filter for its key would give, for
      every column, which is all that a filter can name. */
  lemma GroupIsFiltered(db: Database, args: Args, organization: string, k: Cell, value: string)
    requires Query(db, args, organization).Grouped?
    requires args.groupBy in db.tables[args.table].columns
    requires db.accepts(Filter(args.groupBy, "eq", value)) && !k.Null?
    requires forall cell: Cell :: !cell.Null? ==> (db.order(cell, value) == 0 <==> cell == k)
    requires k in Query(db, args, organization).results
    ensures Query(db, args.(filters := args.filters + [Filter(args.groupBy, "eq", value)], groupBy := ""), organization)
            == Aggregated(Query(db, args, organization).results[k])
  {
    GroupedQuery(db, args, organization);
    FilteredIsGroup(db, db.tables[args.table], organization, args.filters, args.groupBy, k, value);
    GroupAnswered(db, args, organization, k, Filter(args.groupBy, "eq", value));
  }

  /** And the value of the group of nulls, where there is one, is what the filter for null would give. */
  lemma NullGroupAnswered(db: Database, args: Args, organization: string, value: string)
    requires Query(db, args, organization).Grouped?
    requires args.groupBy in db.tables[args.table].columns && db.accepts(Filter(args.groupBy, "is_null", value))
    requires Null in Query(db, args, organization).results
    ensures
      Query(db, args.(filters := args.filters + [Filter(args.groupBy, "is_null", value)], groupBy := ""), organization)
      == Aggregated(Query(db, args, organization).results[Null])
  {
    GroupedQuery(db, args, organization);
    NullGroupIsFiltered(db, db.tables[args.table], organization, args.filters, args.groupBy, value);
    GroupAnswered(db, args, organization, Null, Filter(args.groupBy, "is_null", value));
  }

  lemma GroupAnswered(db: Database, args: Args, organization: string, k: Cell, f: Filter)
    requires Query(db, args, organization).Grouped? && k in Query(db, args, organization).results
    requires args.table in db.tables && args.groupBy in db.tables[args.table].columns
    requires f.column == args.groupBy && db.accepts(f)
    requires var model := db.tables[args.table];
      Matching(db, model, organization, args.filters + [f]) ==
      OfGroup(Matching(db, model, organization, args.filters), CellAt(args.groupBy), k)
    ensures Query(db, args.(filters := args.filters + [f], groupBy := ""), organization)
            == Aggregated(Query(db, args, organization).results[k])
  {
    hide Matching, FilterTrouble, OfGroup, ValueOf, CellAt, KeysOf, Joined, Query, AggregateOf;
    GroupedQuery(db, args, organization);
    var model := db.tables[args.table];
    var filtered := args.(filters := args.filters + [f], groupBy := "");
    TroubleOfLonger(args.filters, f, model);
    UngroupedQuery(db, filtered, organization);
    GroupJoined(db, model, Matching(db, model, organization, args.filters), args.aggregateColumn, args.groupBy, k);
  }

  /** There is a group for exactly the cells that the column grouped by has in the rows of the statement; when
      both names are columns, in the rows of the query. */
  lemma GroupsAreTheCells(db: Database, args: Args, organization: string, k: Cell)
    requires Query(db, args, organization).Grouped?
    ensures args.table in db.tables
    ensures var model := db.tables[args.table];
      var rows := Matching(db, model, organization, args.filters);
      var joined := Joined(db, model, rows, [args.aggregateColumn, args.groupBy]);
      && (k in Query(db, args, organization).results <==>
            exists i :: 0 <= i < |joined| && At(joined[i], args.groupBy) == k)
      && (args.aggregateColumn in model.columns && args.groupBy in model.columns ==>
            (k in Query(db, args, organization).results <==> exists r :: r in rows && At(r, args.groupBy) == k))
  {
    hide Matching, Joined, Query, ValueOf, AggregateOf, OfGroup;
    GroupedQuery(db, args, organization);
    var model := db.tables[args.table];
    var rows := Matching(db, model, organization, args.filters);
    if args.aggregateColumn in model.columns {
      ColumnIsNotJoined(db, model, rows, args.aggregateColumn, args.groupBy);
    }
    assert forall r :: r in rows <==> exists i :: 0 <= i < |rows| && rows[i] == r;
  }

  // --- when there is an answer ----------------------------------------------------------------------------

  /** Every filter names a column and has a text that the database accepts for it. */
  predicate Sensible(db: Database, model: Model, filters: seq<Filter>) {
    forall i :: 0 <= i < |filters| ==> filters[i].column in model.columns && db.accepts(filters[i])
  }

  /** A column or a relationship. */
  predicate Nameable(model: Model, name: string) {
    name in model.columns || name in model.relationships
  }

  /** Exactly which queries are answered, and with what kind of answer: the table is registered, the filters
      are sensible, the names are those of columns or relationships, numbers are added up and only what has
      an order is compared, the limit is not negative, and nothing is sorted by a relationship. */
  lemma AnsweredIff(db: Database, args: Args, organization: string)
    ensures Query(db, args, organization) == UnknownTable <==> args.table !in db.tables
    ensures args.table in db.tables ==>
      var model, answer, op := db.tables[args.table], Query(db, args, organization), args.operation;
      var c, f, sensible := args.aggregateColumn, args.aggregateFunction, Sensible(db, model, args.filters);
      var computes := if f == "count_distinct" then Nameable(model, c)
                      else c in model.columns && c in if f in {"min", "max"} then model.ordered else model.numeric;
      && (answer.Counted? <==> sensible && op == "count")
      && (answer.Aggregated? <==> sensible && op == "aggregate" && computes && args.groupBy == "")
      && (answer.Grouped? <==>
            sensible && op == "aggregate" && computes && args.groupBy != "" && Nameable(model, args.groupBy))
      && (answer.Distinct? <==>
            sensible && op == "distinct" && args.columns != [] && args.limit >= 0
            && forall name :: name in args.columns ==> Nameable(model, name))
      && (answer.Listed? <==>
            sensible && op !in {"count", "aggregate", "distinct"} && args.limit >= 0
            && (forall name :: name in args.columns ==> Nameable(model, name))
            && (args.orderBy in model.relationships ==> args.orderBy == "" || args.orderBy in model.columns))
  {
    if args.table in db.tables {
      var model := db.tables[args.table];
      NoTroubleIff(args.filters, model);
      KnownNames(model, args.columns);
      DefaultsAreColumns(model);
      KnownNames(model, [args.aggregateColumn, args.groupBy]);
      WhatComputes(model, args.aggregateFunction, args.aggregateColumn);
      hide FilterTrouble, FirstUnknown, Attributes, Matching, Joined, DefaultColumns, ValuesByGroup, ValueOf, Projected;
      hide Computes, AggregateOf, Nameable;
    }
  }

  lemma WhatComputes(model: Model, f: string, c: string)
    ensures c in Attributes(model) && Computes(model, AggregateOf(f), c) <==>
            if f == "count_distinct" then Nameable(model, c)
            else c in model.columns && c in if f in {"min", "max"} then model.ordered else model.numeric
  {
  }

  lemma KnownNames(model: Model, names: seq<string>)
    ensures FirstUnknown(names, Attributes(model)).None? <==> forall name :: name in names ==> Nameable(model, name)
    ensures forall name :: name in Attributes(model) <==> Nameable(model, name)
  {
    FirstUnknownIsFirst(names, Attributes(model));
    hide FirstUnknown;
    assert forall name :: name in Attributes(model) <==> Nameable(model, name);
    assert forall i :: 0 <= i < |names| ==> names[i] in names;
  }

  lemma DefaultsAreColumns(model: Model)
    ensures FirstUnknown(DefaultColumns(model.columns), Attributes(model)).None?
  {
    DefaultsAreTheFirst(model.columns);
    KnownNames(model, DefaultColumns(model.columns));
    hide DefaultColumns, FirstUnknown;
  }

  /** A group of the statement comes from the group of the rows. */
  lemma GroupJoined(db: Database, model: Model, rows: seq<Row>, aggregate: string, groupBy: string, k: Cell)
    requires groupBy in model.columns
    ensures OfGroup(Joined(db, model, rows, [aggregate, groupBy]), CellAt(groupBy), k) ==
            Joined(db, model, OfGroup(rows, CellAt(groupBy), k), [aggregate])
  {
    var at := CellAt(groupBy);
    var p := (r: Row) => at(r) == k;
    assert [aggregate, groupBy][..1] == [aggregate];
    assert Joined(db, model, rows, [aggregate, groupBy]) == Joined(db, model, rows, [aggregate]);
    ColumnsAreOfColumns(model, groupBy);
    assert OfColumns(model, p);
    hide Joined, OfColumns, CellAt;
    GroupIsSelected(rows, at, k, p);
    GroupIsSelected(Joined(db, model, rows, [aggregate]), at, k, p);
    JoinedOfSelected(db, model, rows, [aggregate], p);
  }

  lemma {:induction false} TroubleOfLonger(filters: seq<Filter>, f: Filter, model: Model)
    requires f.column in model.columns
    ensures FilterTrouble(filters + [f], model) == FilterTrouble(filters, model)
  {
    if filters == [] {
      assert (filters + [f])[1..] == [];
    } else {
      TroubleOfLonger(filters[1..], f, model);
      assert (filters + [f])[1..] == filters[1..] + [f];
    }
  }

  /** The same for the group of nulls and the filter for null. */
  lemma NullGroupIsFiltered(db: Database, model: Model, organization: string, filters: seq<Filter>, column: string,
                            value: string)
    ensures Matching(db, model, organization, filters + [Filter(column, "is_null", value)]) ==
            OfGroup(Matching(db, model, organization, filters), CellAt(column), Null)
  {
    var f, rows := Filter(column, "is_null", value), Matching(db, model, organization, filters);
    FilterNarrows(db, model, organization, filters, f);
    OpNames();
    SelectGroup(rows, column, Null, f, db);
    hide Matching;
  }

  lemma FilteredIsGroup(db: Database, model: Model, organization: string, filters: seq<Filter>,
                        column: string, k: Cell, value: string)
    requires !k.Null? && forall cell: Cell :: !cell.Null? ==> (db.order(cell, value) == 0 <==> cell == k)
    ensures Matching(db, model, organization, filters + [Filter(column, "eq", value)]) ==
            OfGroup(Matching(db, model, organization, filters), CellAt(column), k)
  {
    var f, rows := Filter(column, "eq", value), Matching(db, model, organization, filters);
    FilterNarrows(db, model, organization, filters, f);
    OpNames();
    hide OpOf;
    forall cell ensures Test(db, f, cell) == Some(true) <==> cell == k {
      assert OpOf(f.op) == Eq;
    }
    hide Matching, Test;
    SelectGroup(rows, column, k, f, db);
  }

  lemma SelectGroup(rows: seq<Row>, column: string, k: Cell, f: Filter, db: Database)
    requires f.column == column && forall cell :: Test(db, f, cell) == Some(true) <==> cell == k
    ensures Select(rows, r => Test(db, f, At(r, f.column)) == Some(true)) == OfGroup(rows, CellAt(column), k)
  {
    hide Test, Select;
    var at := CellAt(column);
    var test, key := (r: Row) => Test(db, f, At(r, f.column)) == Some(true), (r: Row) => at(r) == k;
    forall r: Row ensures test(r) == key(r) {
      assert at(r) == At(r, column);
    }
    SelectAgrees(rows, r => Test(db, f, At(r, f.column)) == Some(true), test);
    SelectAgrees(rows, test, key);
    GroupIsSelected(rows, at, k, key);
  }

  lemma GroupIsSelected(rows: seq<Row>, key: Row -> Cell, k: Cell, keep: Row -> bool)
    requires forall r :: keep(r) == (key(r) == k)
    ensures OfGroup(rows, key, k) == Select(rows, keep)
  {
    SelectAgrees(rows, r => key(r) == k, keep);
  }

  /** The positions of the rows whose cell is not null. */
  function Filled(rows: seq<Row>, column: string): set<nat> {
    set i: nat | i < |rows| && !At(rows[i], column).Null?
  }

  /** A strict order of the cells that are not null. */
  ghost predicate OrdersCells(db: Database) {
    && (forall a :: !db.below(a, a))
    && (forall a, b, c :: db.below(a, b) && db.below(b, c) ==> db.below(a, c))
  }

  /** MIN and MAX are null exactly when every cell is; otherwise they are the cell of a row, and no
      row's cell lies beyond it. */
  lemma {:induction false} ExtremeIsExtreme(db: Database, rows: seq<Row>, column: string, least: bool)
    requires OrdersCells(db)
    ensures var best := Extreme(db, rows, column, least);
      && (best.Null? <==> forall r :: r in rows ==> At(r, column).Null?)
      && (!best.Null? ==> exists r :: r in rows && At(r, column) == best)
      && (forall r :: r in rows && !At(r, column).Null? ==>
            if least then !db.below(At(r, column), best) else !db.below(best, At(r, column)))
    decreases |rows|
  {
    if rows == [] {
    } else {
      hide At;
      var front, last := rows[..|rows| - 1], rows[|rows| - 1];
      ExtremeIsExtreme(db, front, column, least);
      assert rows == front + [last];
      assert forall r :: r in rows <==> r in front || r == last;
    }
  }

  lemma {:induction false} KnownAreFilled(rows: seq<Row>, column: string)
    ensures |Known(rows, column)| == |Filled(rows, column)|
    decreases |rows|
  {
    if rows == [] {
    } else {
      hide Known, Filled;
      var front, last := rows[..|rows| - 1], rows[|rows| - 1];
      assert rows == front + [last];
      KnownAreFilled(front, column);
      KnownGrows(front, last, column);
      FilledGrows(front, last, column);
    }
  }

  lemma KnownGrows(front: seq<Row>, last: Row, column: string)
    ensures |Known(front + [last], column)| == |Known(front, column)| + if At(last, column).Null? then 0 else 1
  {
    SelectLast(front, last, r => !At(r, column).Null?);
    hide Select;
  }

  lemma FilledGrows(front: seq<Row>, last: Row, column: string)
    ensures |Filled(front + [last], column)| == |Filled(front, column)| + if At(last, column).Null? then 0 else 1
  {
    var n := |front|;
    assert Filled(front + [last], column) == Filled(front, column) + if At(last, column).Null? then {} else {n};
    assert n !in Filled(front, column);
  }

  lemma DistinctCells(rows: seq<Row>, column: string)
    ensures KeysOf(Known(rows, column), CellAt(column)) == set i | i in Filled(rows, column) :: At(rows[i], column)
  {
    var known := Known(rows, column);
    SelectedAre(rows, r => !At(r, column).Null?);
    forall i | i in Filled(rows, column) ensures At(rows[i], column) in KeysOf(known, CellAt(column)) {
      SelectedExactly(rows, r => !At(r, column).Null?, rows[i]);
      assert rows[i] in multiset(rows);
      assert rows[i] in known;
      var k :| 0 <= k < |known| && known[k] == rows[i];
      assert CellAt(column)(known[k]) == At(rows[i], column);
    }
    forall k | 0 <= k < |known|
      ensures At(known[k], column) in set i | i in Filled(rows, column) :: At(rows[i], column)
    {
      assert known[k] in rows;
      var i :| 0 <= i < |rows| && rows[i] == known[k];
      assert i in Filled(rows, column);
    }
  }

  /** The rows an aggregate is taken over. */
  function AggregatedRows(db: Database, args: Args, organization: string): seq<Row>
    requires args.table in db.tables
  {
    var model := db.tables[args.table];
    Joined(db, model, Matching(db, model, organization, args.filters), [args.aggregateColumn])
  }

  /** What an aggregate without groups answers, by the name of its function, over the cells that are not null:
      the mean times their number is their sum; the minimum and the maximum are null when there is none, else
      one of them, with none below and none above; the distinct count is the size of the set of them; and
      any other name gives the sum, null when nothing is added. */
  lemma AggregateAnswers(db: Database, args: Args, organization: string)
    requires Query(db, args, organization).Aggregated? && OrdersCells(db)
    ensures args.table in db.tables
    ensures var rows, c := AggregatedRows(db, args, organization), args.aggregateColumn;
      var value, f := Query(db, args, organization).value, args.aggregateFunction;
      var filled, sum := Filled(rows, c), SumOf(rows, AmountAt(c));
      && (f == "avg" ==>
            && (value == Nothing <==> filled == {})
            && (filled != {} ==> value.MeanIs? && value.mean * |filled| as real == Amount(sum) as real))
      && (f == "min" || f == "max" ==>
            && value.CellIs? && (value.cell.Null? <==> filled == {})
            && (filled != {} ==> exists i :: i in filled && At(rows[i], c) == value.cell)
            && forall i :: i in filled ==>
                 if f == "min" then !db.below(At(rows[i], c), value.cell) else !db.below(value.cell, At(rows[i], c)))
      && (f == "count_distinct" ==> value == CountIs(|set i | i in filled :: At(rows[i], c)|))
      && (f !in {"avg", "min", "max", "count_distinct"} ==>
            if sum.None? then value == Nothing else value == SumIs(sum.value))
  {
    hide Query, Joined, Matching, Extreme, SumOf, OrdersCells;
    AggregatedQuery(db, args, organization);
    var rows := AggregatedRows(db, args, organization);
    KnownAreFilled(rows, args.aggregateColumn);
    DistinctCells(rows, args.aggregateColumn);
    ExtremeIsFilled(db, rows, args.aggregateColumn, true);
    ExtremeIsFilled(db, rows, args.aggregateColumn, false);
    MeanTimesCount(db, args.aggregateColumn, rows);
    hide Known, KeysOf, Filled, AmountAt;
  }

  lemma MeanTimesCount(db: Database, column: string, rows: seq<Row>)
    ensures Known(rows, column) == [] ==> ValueOf(db, Avg, column, rows) == Nothing
    ensures Known(rows, column) != [] ==>
      var value := ValueOf(db, Avg, column, rows);
      value.MeanIs? && value.mean * |Known(rows, column)| as real == Amount(SumOf(rows, AmountAt(column))) as real
  {
    hide SumOf, Known;
  }

  lemma ExtremeIsFilled(db: Database, rows: seq<Row>, column: string, least: bool)
    requires OrdersCells(db)
    ensures var best, filled := Extreme(db, rows, column, least), Filled(rows, column);
      && (best.Null? <==> filled == {})
      && (filled != {} ==> exists i :: i in filled && At(rows[i], column) == best)
      && forall i :: i in filled ==>
           if least then !db.below(At(rows[i], column), best) else !db.below(best, At(rows[i], column))
  {
    ExtremeIsExtreme(db, rows, column, least);
    hide Extreme, OrdersCells;
    var best, filled := Extreme(db, rows, column, least), Filled(rows, column);
    forall i | i in filled ensures rows[i] in rows && !best.Null? {}
    if !best.Null? {
      var r :| r in rows && At(r, column) == best;
      var i :| 0 <= i < |rows| && rows[i] == r;
      assert i in filled;
    }
  }

  lemma AggregatedQuery(db: Database, args: Args, organization: string)
    requires Query(db, args, organization).Aggregated?
    ensures args.operation == "aggregate" && args.table in db.tables && args.groupBy == ""
    ensures Query(db, args, organization).value ==
            ValueOf(db, AggregateOf(args.aggregateFunction), args.aggregateColumn,
                    AggregatedRows(db, args, organization))
  {
    hide FilterTrouble, ValueOf, Matching, Joined, Attributes, AggregateOf;
    assert [args.aggregateColumn] + [] == [args.aggregateColumn];
  }

  /** A listing that names no columns shows the first eight that are not bookkeeping, in their order. */
  lemma DefaultsAreTheFirst(columns: seq<string>)
    ensures var shown := DefaultColumns(columns);
      && shown <= Select(columns, c => c !in UNLISTED)
      && (forall c :: c in shown ==> c in columns && c != "organization_id" && c != "archived_at"
                                     && c != "created_by_id" && c != "updated_by_id"
                                     && c != "updated_at" && c != "created_at")
      && |shown| <= 8
      && (|shown| < 8 ==> forall c :: c in columns && c !in UNLISTED ==> c in shown)
  {
    var keep := (c: string) => c !in UNLISTED;
    SelectedAre(columns, c => c !in UNLISTED);
    forall c | c in columns && c !in UNLISTED ensures c in Select(columns, c => c !in UNLISTED) {
      SelectedExactly(columns, c => c !in UNLISTED, c);
      assert c in multiset(columns);
      assert c in multiset(Select(columns, c => c !in UNLISTED));
    }
    hide Select;
  }
}
