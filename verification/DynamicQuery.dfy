/** The assistant's dynamic query tool: conditions collected in a loop, then a count, an aggregate with or
    without groups, distinct values, or a limited listing. */
module DynamicQuery {
  import opened Options
  import opened Grouping
  import opened AsciiText

  datatype Cell = Null | Number(n: int) | Text(s: string) | Boolean(b: bool)
  type Row = map<string, Cell>

  /** Filters carry their operator and value as text. */
  datatype Filter = Filter(column: string, op: string, value: string)

  datatype Args = Args(table: string, operation: string, filters: seq<Filter>, columns: seq<string>, limit: int,
                       orderBy: string, descending: bool,
                       aggregateColumn: string, aggregateFunction: string, groupBy: string)

  /** What selecting a relationship of a class makes of a statement: its join condition is a column of
      truth values, over the row itself, or over every pair of the row and a row of another table, or of
      the same table once more, that is then added to the statement without any scope. */
  datatype Source = OwnRow | EveryRowOf(table: string)

  datatype Model = Model(columns: seq<string>, numeric: set<string>, ordered: set<string>,
                         relationships: map<string, Source>, rows: seq<Row>)

  /** The registered tables and the others, with rows in the order in which they are delivered; the value
      of a relationship's condition on two rows; and how the database compares cells that are not null:
      with a filter's text, by LIKE with and without case, with each other; whether it accepts a filter's
      text for its column at all; and how it sorts rows by a column. */
  datatype Database = Database(tables: map<string, Model>,
                               unregistered: map<string, seq<Row>>,
                               related: (string, Row, Row) -> Cell,
                               order: (Cell, string) -> int,
                               like: (bool, Cell, string) -> bool,
                               below: (Cell, Cell) -> bool,
                               accepts: Filter -> bool,
                               arrange: (seq<Row>, string, bool) -> seq<Row>)

  datatype Value = Nothing | SumIs(sum: int) | MeanIs(mean: real) | CellIs(cell: Cell) | CountIs(count: nat)

  datatype Answer =
    | UnknownTable
    | UnknownColumn(column: string)
    | NoColumns
    | Failed
    | Counted(count: nat)
    | Aggregated(value: Value)
    | Grouped(results: map<Cell, Value>)
    | Distinct(values: seq<seq<Cell>>)
    | Listed(rows: seq<seq<Cell>>, count: nat)

  const MAX_ROWS := 50

  // --- the tables that can be queried ---------------------------------------------------------------

  const ARCHIVABLE := {
    "employees", "departments", "positions", "projects", "assets", "asset_categories", "locations",
    "inventory_items", "inventory_stores", "inventory_categories", "employee_qualifications",
    "employee_documents", "employee_licenses"
  }

  const UNARCHIVED := {
    "inventory_balances", "employee_assignments", "employee_skills", "skills", "employee_salaries",
    "asset_fuel_logs", "asset_maintenance_jobs", "asset_defects", "leave_requests", "time_logs",
    "employee_rotations", "library_documents"
  }

  /** The registered tables, each with the columns that decide about scope: every one has an
      organization, which in `skills` may be null. Only employees have relationships: to every user, and
      to their supervisor, which may be rendered against the employee's own row or against the table once
      more. */
  predicate Registered(db: Database) {
    && HasScope(db)
    && "users" in db.unregistered && "employees" in db.tables
    && (forall t :: t in db.tables && t != "employees" ==> db.tables[t].relationships == map[])
    && (db.tables["employees"].relationships == map["user" := EveryRowOf("users"), "supervisor" := OwnRow] ||
        db.tables["employees"].relationships ==
          map["user" := EveryRowOf("users"), "supervisor" := EveryRowOf("employees")])
  }

  predicate HasScope(db: Database) {
    && db.tables.Keys == ARCHIVABLE + UNARCHIVED
    && (forall t :: t in db.tables ==> "organization_id" in db.tables[t].columns)
    && (forall t :: t in db.tables ==> ("archived_at" in db.tables[t].columns <==> t in ARCHIVABLE))
  }

  function At(row: Row, column: string): Cell {
    if column in row then row[column] else Null
  }

  function CellAt(column: string): Row -> Cell {
    (r: Row) => At(r, column)
  }

  function AmountAt(column: string): Row -> Option<int> {
    (r: Row) => if At(r, column).Number? then Some(At(r, column).n) else None
  }

  // --- conditions, with the third truth value of SQL ----------------------------------------------

  type Truth = Option<bool>

  datatype Op = Eq | Neq | Gt | Gte | Lt | Lte | Like | ILike | In | IsNull | NotNull

  /** An unknown operator means equality. */
  function OpOf(text: string): Op {
    if text == "neq" then Neq
    else if text == "gt" then Gt
    else if text == "gte" then Gte
    else if text == "lt" then Lt
    else if text == "lte" then Lte
    else if text == "like" then Like
    else if text == "ilike" then ILike
    else if text == "in" then In
    else if text == "is_null" then IsNull
    else if text == "not_null" then NotNull
    else Eq
  }

  /** An operator on a cell: a null makes all but two of them unknown. */
  function Check(db: Database, op: Op, value: string, cell: Cell): Truth {
    if op.IsNull? then Some(cell.Null?)
    else if op.NotNull? then Some(!cell.Null?)
    else if cell.Null? then None
    else
      match op
      case Neq => Some(db.order(cell, value) != 0)
      case Gt => Some(db.order(cell, value) > 0)
      case Gte => Some(db.order(cell, value) >= 0)
      case Lt => Some(db.order(cell, value) < 0)
      case Lte => Some(db.order(cell, value) <= 0)
      case Like => Some(db.like(true, cell, value))
      case ILike => Some(db.like(false, cell, value))
      case In =>
        Some(exists i :: 0 <= i < |SplitOn(value, ',')| && db.order(cell, Strip(SplitOn(value, ',')[i])) == 0)
      case _ => Some(db.order(cell, value) == 0)
  }

  function Test(db: Database, f: Filter, cell: Cell): Truth {
    Check(db, OpOf(f.op), f.value, cell)
  }

  datatype Condition = OwnedBy(organization: string) | NotArchived | Asked(filter: Filter)

  function TruthOf(db: Database, c: Condition, row: Row): Truth {
    match c
    case OwnedBy(organization) =>
      if At(row, "organization_id").Null? then None else Some(At(row, "organization_id") == Text(organization))
    case NotArchived => Some(At(row, "archived_at").Null?)
    case Asked(f) => Test(db, f, At(row, f.column))
  }

  function And(a: Truth, b: Truth): Truth {
    if a == Some(false) || b == Some(false) then Some(false)
    else if a == Some(true) then b
    else None
  }

  function All(db: Database, conditions: seq<Condition>, row: Row): Truth
    decreases |conditions|
  {
    if conditions == [] then Some(true)
    else And(All(db, conditions[..|conditions| - 1], row), TruthOf(db, conditions[|conditions| - 1], row))
  }

  predicate Meets(db: Database, c: Condition, row: Row) {
    TruthOf(db, c, row) == Some(true)
  }

  function Passing(db: Database, conditions: seq<Condition>): Row -> bool {
    (r: Row) => All(db, conditions, r) == Some(true)
  }

  function Where(db: Database, conditions: seq<Condition>, rows: seq<Row>): seq<Row> {
    Select(rows, Passing(db, conditions))
  }

  // --- the rows of a query ---------------------------------------------------------------------------

  /** What a name may denote: getattr finds columns and relationships alike. */
  function Attributes(model: Model): set<string> {
    (set c | c in model.columns) + model.relationships.Keys
  }

  function FirstUnknown(names: seq<string>, known: set<string>): Option<string> {
    if names == [] then None
    else if names[0] !in known then Some(names[0])
    else FirstUnknown(names[1..], known)
  }

  /** The first filter that ends the tool: its name is unknown, or it denotes a relationship, which cannot
      be compared with a text. */
  function FilterTrouble(filters: seq<Filter>, model: Model): (trouble: Option<Answer>)
    ensures trouble.Some? ==> trouble.value.Failed? || trouble.value.UnknownColumn?
  {
    if filters == [] then None
    else if filters[0].column in model.columns then FilterTrouble(filters[1..], model)
    else if filters[0].column in model.relationships then Some(Failed)
    else Some(UnknownColumn(filters[0].column))
  }

  function AskedOf(filters: seq<Filter>): seq<Condition> {
    seq(|filters|, i requires 0 <= i < |filters| => Asked(filters[i]))
  }

  function BaseConditions(model: Model, organization: string): seq<Condition> {
    (if "organization_id" in model.columns then [OwnedBy(organization)] else []) +
    (if "archived_at" in model.columns then [NotArchived] else [])
  }

  function Conditions(model: Model, organization: string, filters: seq<Filter>): seq<Condition> {
    BaseConditions(model, organization) + AskedOf(filters)
  }

  /** The rows a query is about. */
  function Matching(db: Database, model: Model, organization: string, filters: seq<Filter>): seq<Row> {
    Where(db, Conditions(model, organization, filters), model.rows)
  }

  // --- relationships among the names selected ---------------------------------------------------------

  function Stored(db: Database, table: string): seq<Row> {
    if table in db.tables then db.tables[table].rows
    else if table in db.unregistered then db.unregistered[table]
    else []
  }

  predicate Relates(model: Model, name: string) {
    name !in model.columns && name in model.relationships
  }

  /** A name that adds a table to the statement. */
  predicate Joins(model: Model, name: string) {
    Relates(model, name) && model.relationships[name].EveryRowOf?
  }

  /** What a relationship makes of one row. */
  function Extended(db: Database, row: Row, name: string, source: Source): seq<Row> {
    match source
    case OwnRow => [row[name := db.related(name, row, row)]]
    case EveryRowOf(table) =>
      var others := Stored(db, table);
      seq(|others|, i requires 0 <= i < |others| => row[name := db.related(name, row, others[i])])
  }

  function Expanded(db: Database, rows: seq<Row>, name: string, source: Source): seq<Row>
    decreases |rows|
  {
    if rows == [] then []
    else Expanded(db, rows[..|rows| - 1], name, source) + Extended(db, rows[|rows| - 1], name, source)
  }

  /** The rows of the statement: each row with a cell for every relationship named, once for each row of
      a table that one adds. */
  function Joined(db: Database, model: Model, rows: seq<Row>, names: seq<string>): seq<Row>
    decreases |names|
  {
    if names == [] then rows
    else
      var front, name := names[..|names| - 1], names[|names| - 1];
      var before := Joined(db, model, rows, front);
      if Relates(model, name) && name !in front then Expanded(db, before, name, model.relationships[name])
      else before
  }

  /** The names that a statement selects or groups by. */
  function UsedNames(model: Model, args: Args): seq<string> {
    if args.operation == "count" then []
    else if args.operation == "aggregate" then
      [args.aggregateColumn] + if args.groupBy == "" then [] else [args.groupBy]
    else if args.operation == "distinct" then args.columns
    else ListedColumns(model, args)
  }

  // --- aggregates -------------------------------------------------------------------------------------

  datatype Aggregate = Sum | Avg | Min | Max | CountDistinct

  /** An unknown function means the sum. */
  function AggregateOf(text: string): Aggregate {
    if text == "avg" then Avg
    else if text == "min" then Min
    else if text == "max" then Max
    else if text == "count_distinct" then CountDistinct
    else Sum
  }

  /** The database adds up numbers only, and compares only columns that have an order; it counts truth
      values too. */
  predicate Computes(model: Model, f: Aggregate, column: string) {
    match f
    case CountDistinct => true
    case Min => column in model.columns && column in model.ordered
    case Max => column in model.columns && column in model.ordered
    case _ => column in model.columns && column in model.numeric
  }

  /** MIN or MAX of a column, null when all its cells are. */
  function Extreme(db: Database, rows: seq<Row>, column: string, least: bool): Cell
    decreases |rows|
  {
    if rows == [] then Null
    else
      var best, cell := Extreme(db, rows[..|rows| - 1], column, least), At(rows[|rows| - 1], column);
      if cell.Null? then best
      else if best.Null? || (if least then db.below(cell, best) else db.below(best, cell)) then cell
      else best
  }

  function Known(rows: seq<Row>, column: string): seq<Row> {
    Select(rows, r => !At(r, column).Null?)
  }

  function ValueOf(db: Database, f: Aggregate, column: string, rows: seq<Row>): Value {
    match f
    case Sum =>
      var sum := SumOf(rows, AmountAt(column));
      if sum.None? then Nothing else SumIs(sum.value)
    case Avg =>
      if Known(rows, column) == [] then Nothing
      else MeanIs(Amount(SumOf(rows, AmountAt(column))) as real / |Known(rows, column)| as real)
    case Min => CellIs(Extreme(db, rows, column, true))
    case Max => CellIs(Extreme(db, rows, column, false))
    case CountDistinct => CountIs(|KeysOf(Known(rows, column), CellAt(column))|)
  }

  function ValuesByGroup(db: Database, f: Aggregate, column: string, rows: seq<Row>, groupBy: string)
    : map<Cell, Value>
  {
    map k | k in KeysOf(rows, CellAt(groupBy)) :: ValueOf(db, f, column, OfGroup(rows, CellAt(groupBy), k))
  }

  // --- what is shown --------------------------------------------------------------------------------------

  const UNLISTED :=
    {"organization_id", "archived_at", "created_by_id", "updated_by_id", "updated_at", "created_at"}

  /** The columns of a listing that names none: the first eight that are not bookkeeping. */
  function DefaultColumns(columns: seq<string>): seq<string> {
    FirstOf(Select(columns, c => c !in UNLISTED), 8)
  }

  function ListedColumns(model: Model, args: Args): seq<string> {
    if args.columns == [] then DefaultColumns(model.columns) else args.columns
  }

  function Project(row: Row, columns: seq<string>): seq<Cell> {
    seq(|columns|, i requires 0 <= i < |columns| => At(row, columns[i]))
  }

  function Projected(rows: seq<Row>, columns: seq<string>): seq<seq<Cell>> {
    seq(|rows|, i requires 0 <= i < |rows| => Project(rows[i], columns))
  }

  function FirstOf<T>(xs: seq<T>, limit: nat): seq<T> {
    if |xs| <= limit then xs else xs[..limit]
  }

  /** The values without their repetitions. */
  function Unrepeated<T(==)>(xs: seq<T>): seq<T>
    decreases |xs|
  {
    if xs == [] then []
    else
      var before, last := Unrepeated(xs[..|xs| - 1]), xs[|xs| - 1];
      if last in before then before else before + [last]
  }

  /** An order by a column that does not exist is ignored. */
  function Ordered(db: Database, model: Model, args: Args, rows: seq<Row>): seq<Row> {
    if args.orderBy != "" && args.orderBy in model.columns then db.arrange(rows, args.orderBy, args.descending)
    else rows
  }

  function Lesser(a: int, b: int): int {
    if a < b then a else b
  }

  /** A relationship can be selected, but rows cannot be sorted by it. */
  predicate Sortable(model: Model, orderBy: string) {
    orderBy == "" || orderBy in model.columns || orderBy !in model.relationships
  }

  predicate Accepted(db: Database, filters: seq<Filter>) {
    forall i :: 0 <= i < |filters| ==> db.accepts(filters[i])
  }

  // --- what a query answers ---------------------------------------------------------------------------

  function CountAnswer(db: Database, args: Args, rows: seq<Row>): Answer {
    if Accepted(db, args.filters) then Counted(|rows|) else Failed
  }

  function AggregateAnswer(db: Database, model: Model, args: Args, rows: seq<Row>): Answer {
    var f := AggregateOf(args.aggregateFunction);
    if args.aggregateColumn !in Attributes(model) then UnknownColumn(args.aggregateColumn)
    else if args.groupBy != "" && args.groupBy !in Attributes(model) then UnknownColumn(args.groupBy)
    else if !Accepted(db, args.filters) || !Computes(model, f, args.aggregateColumn) then Failed
    else if args.groupBy != "" then Grouped(ValuesByGroup(db, f, args.aggregateColumn, rows, args.groupBy))
    else Aggregated(ValueOf(db, f, args.aggregateColumn, rows))
  }

  function DistinctAnswer(db: Database, model: Model, args: Args, rows: seq<Row>): Answer {
    var unknown, limit := FirstUnknown(args.columns, Attributes(model)), Lesser(args.limit, MAX_ROWS);
    if args.columns == [] then NoColumns
    else if unknown.Some? then UnknownColumn(unknown.value)
    else if !Accepted(db, args.filters) || limit < 0 then Failed
    else Distinct(FirstOf(Unrepeated(Projected(rows, args.columns)), limit))
  }

  function ListAnswer(db: Database, model: Model, args: Args, rows: seq<Row>): Answer {
    var columns := ListedColumns(model, args);
    var unknown, limit := FirstUnknown(columns, Attributes(model)), Lesser(args.limit, MAX_ROWS);
    if unknown.Some? then UnknownColumn(unknown.value)
    else if !Accepted(db, args.filters) || !Sortable(model, args.orderBy) || limit < 0 then Failed
    else
      var shown := FirstOf(Ordered(db, model, args, rows), limit);
      Listed(Projected(shown, columns), |shown|)
  }

  function AnswerFrom(db: Database, model: Model, args: Args, rows: seq<Row>): Answer {
    var joined := Joined(db, model, rows, UsedNames(model, args));
    if args.operation == "count" then CountAnswer(db, args, rows)
    else if args.operation == "aggregate" then AggregateAnswer(db, model, args, joined)
    else if args.operation == "distinct" then DistinctAnswer(db, model, args, joined)
    else ListAnswer(db, model, args, joined)
  }

  function Query(db: Database, args: Args, organization: string): Answer {
    if args.table !in db.tables then UnknownTable
    else
      var model := db.tables[args.table];
      var trouble := FilterTrouble(args.filters, model);
      if trouble.Some? then trouble.value
      else AnswerFrom(db, model, args, Matching(db, model, organization, args.filters))
  }

  // --- the tool itself --------------------------------------------------------------------------------------

  /** The loop over the filters: all conditions, or the first filter that ends the tool. */
  method CollectConditions(model: Model, organization: string, filters: seq<Filter>)
    returns (conditions: seq<Condition>, trouble: Option<Answer>)
    ensures trouble == FilterTrouble(filters, model)
    ensures trouble.None? ==> conditions == Conditions(model, organization, filters)
  {
    conditions := [];
    if "organization_id" in model.columns {
      conditions := conditions + [OwnedBy(organization)];
    }
    if "archived_at" in model.columns {
      conditions := conditions + [NotArchived];
    }
    for i := 0 to |filters|
      invariant conditions == Conditions(model, organization, filters[..i])
      invariant FilterTrouble(filters, model) == FilterTrouble(filters[i..], model)
    {
      var f := filters[i];
      assert filters[i..][0] == f && filters[i..][1..] == filters[i + 1..];
      if f.column !in model.columns {
        return conditions, Some(if f.column in model.relationships then Failed else UnknownColumn(f.column));
      }
      conditions := conditions + [Asked(f)];
      assert AskedOf(filters[..i + 1]) == AskedOf(filters[..i]) + [Asked(f)];
    }
    assert filters[..|filters|] == filters;
    trouble := None;
  }

  method CheckColumns(columns: seq<string>, model: Model) returns (unknown: Option<string>)
    ensures unknown == FirstUnknown(columns, Attributes(model))
  {
    hide Attributes;
    for i := 0 to |columns|
      invariant FirstUnknown(columns, Attributes(model)) == FirstUnknown(columns[i..], Attributes(model))
    {
      if columns[i] !in Attributes(model) {
        return Some(columns[i]);
      }
      assert columns[i..][1..] == columns[i + 1..];
    }
    unknown := None;
  }

  method ExecuteAggregate(db: Database, model: Model, args: Args, rows: seq<Row>) returns (answer: Answer)
    ensures answer == AggregateAnswer(db, model, args, rows)
  {
    hide ValuesByGroup, ValueOf;
    if args.aggregateColumn !in Attributes(model) {
      return UnknownColumn(args.aggregateColumn);
    }
    var f := AggregateOf(args.aggregateFunction);
    var works := Accepted(db, args.filters) && Computes(model, f, args.aggregateColumn);
    if args.groupBy != "" {
      if args.groupBy !in Attributes(model) {
        return UnknownColumn(args.groupBy);
      }
      if !works { return Failed; }
      answer := Grouped(ValuesByGroup(db, f, args.aggregateColumn, rows, args.groupBy));
    } else {
      if !works { return Failed; }
      answer := Aggregated(ValueOf(db, f, args.aggregateColumn, rows));
    }
  }

  method ExecuteDistinct(db: Database, model: Model, args: Args, rows: seq<Row>) returns (answer: Answer)
    ensures answer == DistinctAnswer(db, model, args, rows)
  {
    hide FirstUnknown, Unrepeated, Attributes;
    if args.columns == [] {
      return NoColumns;
    }
    var unknown := CheckColumns(args.columns, model);
    if unknown.Some? {
      return UnknownColumn(unknown.value);
    }
    var limit := Lesser(args.limit, MAX_ROWS);
    if !Accepted(db, args.filters) || limit < 0 {
      return Failed;
    }
    answer := Distinct(FirstOf(Unrepeated(Projected(rows, args.columns)), limit));
  }

  method ExecuteList(db: Database, model: Model, args: Args, rows: seq<Row>) returns (answer: Answer)
    ensures answer == ListAnswer(db, model, args, rows)
  {
    hide FirstUnknown, DefaultColumns, Attributes;
    var columns := args.columns;
    if columns == [] {
      columns := DefaultColumns(model.columns);
    }
    var unknown := CheckColumns(columns, model);
    if unknown.Some? {
      return UnknownColumn(unknown.value);
    }
    var found := rows;
    if args.orderBy != "" && args.orderBy in model.columns {
      found := db.arrange(found, args.orderBy, args.descending);
    }
    var limit := Lesser(args.limit, MAX_ROWS);
    if !Accepted(db, args.filters) || !Sortable(model, args.orderBy) || limit < 0 {
      return Failed;
    }
    var shown := FirstOf(found, limit);
    answer := Listed(Projected(shown, columns), |shown|);
  }

  method ExecuteQuery(db: Database, args: Args, organization: string) returns (answer: Answer)
    ensures answer == Query(db, args, organization)
  {
    hide FirstUnknown, FilterTrouble, AggregateAnswer, DistinctAnswer, ListAnswer, Conditions, Joined;
    if args.table !in db.tables {
      return UnknownTable;
    }
    var model := db.tables[args.table];
    var conditions, trouble := CollectConditions(model, organization, args.filters);
    if trouble.Some? {
      return trouble.value;
    }
    var rows := Where(db, conditions, model.rows);
    var joined := Joined(db, model, rows, UsedNames(model, args));
    if args.operation == "count" {
      answer := if Accepted(db, args.filters) then Counted(|rows|) else Failed;
    } else if args.operation == "aggregate" {
      answer := ExecuteAggregate(db, model, args, joined);
    } else if args.operation == "distinct" {
      answer := ExecuteDistinct(db, model, args, joined);
    } else {
      answer := ExecuteList(db, model, args, joined);
    }
  }
}
