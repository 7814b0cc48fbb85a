/** The inventory transaction table: rows that can only be inserted, under unique keys and a
    reversal reference that may name any existing row, or the row itself. */
module ReversalLedger {
  import opened Options

  type Uuid = nat

  datatype Entry = Entry(id: Uuid, organization: Uuid, number: string, postingKey: string,
                         quantity: int, normalizedQuantity: int, reversalOf: Option<Uuid>)

  /** The rows in the order in which they were inserted. */
  type Rows = seq<Entry>

  datatype Statement = Insert(row: Entry) | Update(id: Uuid, row: Entry) | Delete(id: Uuid)

  predicate HasId(rows: Rows, id: Uuid) {
    exists i :: 0 <= i < |rows| && rows[i].id == id
  }

  /** Two rows that one of the unique constraints forbids. */
  predicate Clash(a: Entry, b: Entry) {
    || a.id == b.id
    || (a.organization == b.organization && (a.number == b.number || a.postingKey == b.postingKey))
    || (a.reversalOf.Some? && a.reversalOf == b.reversalOf)
  }

  /** What an INSERT of one row must satisfy; the row may already refer to itself. */
  predicate Insertable(rows: Rows, row: Entry) {
    && row.quantity > 0 && row.normalizedQuantity > 0
    && (forall i :: 0 <= i < |rows| ==> !Clash(rows[i], row))
    && (row.reversalOf.Some? ==> row.reversalOf.value == row.id || HasId(rows, row.reversalOf.value))
  }

  /** The rows after a statement that succeeds; the immutability triggers make any UPDATE or DELETE
      that meets a row fail. */
  function Execute(rows: Rows, s: Statement): Option<Rows> {
    match s
    case Insert(row) => if Insertable(rows, row) then Some(rows + [row]) else None
    case Update(id, _) => if HasId(rows, id) then None else Some(rows)
    case Delete(id) => if HasId(rows, id) then None else Some(rows)
  }

  /** A run of statements; a failing one has no effect. */
  function Run(rows: Rows, statements: seq<Statement>): Rows
    decreases |statements|
  {
    if statements == [] then rows
    else
      var before := Run(rows, statements[..|statements| - 1]);
      var after := Execute(before, statements[|statements| - 1]);
      if after.Some? then after.value else before
  }

  ghost predicate Sound(rows: Rows) {
    && (forall i, j :: 0 <= i < j < |rows| ==> !Clash(rows[i], rows[j]))
    && (forall i :: 0 <= i < |rows| ==> rows[i].quantity > 0 && rows[i].normalizedQuantity > 0)
    && (forall i :: 0 <= i < |rows| && rows[i].reversalOf.Some? ==>
          exists j :: 0 <= j <= i && rows[j].id == rows[i].reversalOf.value)
  }

  /** Every run only adds rows, never changes one, and keeps every key and reference sound. */
  lemma {:induction false} LedgerOnlyGrows(rows: Rows, statements: seq<Statement>)
    requires Sound(rows)
    ensures rows <= Run(rows, statements) && Sound(Run(rows, statements))
    decreases |statements|
  {
    if statements == [] {
    } else {
      var before, last := Run(rows, statements[..|statements| - 1]), statements[|statements| - 1];
      LedgerOnlyGrows(rows, statements[..|statements| - 1]);
      if last.Insert? && Insertable(before, last.row) {
        InsertIsSound(before, last.row);
      }
    }
  }

  lemma InsertIsSound(rows: Rows, row: Entry)
    requires Sound(rows) && Insertable(rows, row)
    ensures Sound(rows + [row])
  {
    var after := rows + [row];
    forall i | 0 <= i < |after| && after[i].reversalOf.Some?
      ensures exists j :: 0 <= j <= i && after[j].id == after[i].reversalOf.value
    {
      if i < |rows| {
        var j :| 0 <= j <= i && rows[j].id == rows[i].reversalOf.value;
        assert after[j].id == after[i].reversalOf.value;
      } else if row.reversalOf.value == row.id {
        assert after[i].id == after[i].reversalOf.value;
      } else {
        var j :| 0 <= j < |rows| && rows[j].id == row.reversalOf.value;
        assert after[j].id == after[i].reversalOf.value;
      }
    }
  }

  /** On sound rows an INSERT is accepted if and only if the rows stay sound with it. */
  lemma AcceptedIffSound(rows: Rows, row: Entry)
    requires Sound(rows)
    ensures Execute(rows, Insert(row)) == if Sound(rows + [row]) then Some(rows + [row]) else None
  {
    var after := rows + [row];
    if Insertable(rows, row) {
      InsertIsSound(rows, row);
    }
    if Sound(after) {
      assert after[|rows|] == row;
      forall i | 0 <= i < |rows| ensures !Clash(rows[i], row) {
        assert !Clash(after[i], after[|rows|]);
      }
      if row.reversalOf.Some? {
        var j :| 0 <= j <= |rows| && after[j].id == after[|rows|].reversalOf.value;
        assert j < |rows| ==> rows[j].id == row.reversalOf.value;
      }
    }
  }

  /** What the unique keys say: no two rows share an identifier, a number or a posting key within an
      organization, or the transaction they reverse. */
  lemma KeysAreUnique(rows: Rows, a: Entry, b: Entry)
    requires Sound(rows) && a in rows && b in rows && a != b
    ensures a.id != b.id
    ensures a.organization == b.organization ==> a.number != b.number && a.postingKey != b.postingKey
    ensures a.reversalOf.Some? ==> a.reversalOf != b.reversalOf
  {
    var i :| 0 <= i < |rows| && rows[i] == a;
    var j :| 0 <= j < |rows| && rows[j] == b;
    assert !Clash(if i < j then rows[i] else rows[j], if i < j then rows[j] else rows[i]);
  }

  // --- the shape of the reversal graph ------------------------------------------------------------

  predicate ReversesItself(e: Entry) {
    e.reversalOf == Some(e.id)
  }

  /** The position of the row that a row reverses. */
  ghost function Target(rows: Rows, i: nat): (j: nat)
    requires Sound(rows) && i < |rows| && rows[i].reversalOf.Some?
    ensures j <= i && rows[j].id == rows[i].reversalOf.value
    ensures j == i <==> ReversesItself(rows[i])
  {
    var j :| 0 <= j <= i && rows[j].id == rows[i].reversalOf.value;
    j
  }

  /** A transaction is reversed at most once, whatever else is inserted. */
  lemma ReversedAtMostOnce(rows: Rows, i: nat, j: nat)
    requires Sound(rows) && i < |rows| && j < |rows| && i != j
    requires rows[i].reversalOf.Some? && rows[j].reversalOf.Some?
    ensures Target(rows, i) != Target(rows, j)
  {
    assert !Clash(if i < j then rows[i] else rows[j], if i < j then rows[j] else rows[i]);
  }

  /** The positions met by following reversal references, until there is none or it is its own. */
  ghost function Chain(rows: Rows, i: nat): seq<nat>
    requires Sound(rows) && i < |rows|
  {
    if rows[i].reversalOf.None? || ReversesItself(rows[i]) then [i]
    else [i] + Chain(rows, Target(rows, i))
  }

  /** A row that reverses another one never reverses a row that reverses itself: the key on the
      reference is already taken there. */
  lemma TargetIsNotItself(rows: Rows, i: nat)
    requires Sound(rows) && i < |rows| && rows[i].reversalOf.Some? && !ReversesItself(rows[i])
    ensures Target(rows, i) < i && !ReversesItself(rows[Target(rows, i)])
  {
    var j := Target(rows, i);
    assert !Clash(rows[j], rows[i]);
  }

  /** Each row of a path reverses the next, which was inserted before it. */
  ghost predicate Path(rows: Rows, chain: seq<nat>) {
    && (forall k :: 0 <= k < |chain| ==> chain[k] < |rows| && !ReversesItself(rows[chain[k]]))
    && (forall k :: 0 <= k < |chain| - 1 ==>
          chain[k + 1] < chain[k] && rows[chain[k]].reversalOf == Some(rows[chain[k + 1]].id))
  }

  /** From any row that is not its own reversal, the chain runs strictly back in insertion order and
      ends at a row that reverses nothing; no chain runs into a row that reverses itself. */
  lemma {:induction false} ChainEndsAtOriginal(rows: Rows, i: nat)
    requires Sound(rows) && i < |rows| && !ReversesItself(rows[i])
    ensures var chain := Chain(rows, i);
      chain[0] == i && Path(rows, chain) && rows[chain[|chain| - 1]].reversalOf.None?
    decreases i
  {
    hide Sound, Path;
    if rows[i].reversalOf.None? {
      SinglePath(rows, i);
    } else {
      var next := Target(rows, i);
      TargetIsNotItself(rows, i);
      ChainEndsAtOriginal(rows, next);
      PathGrows(rows, i, Chain(rows, next));
    }
  }

  lemma SinglePath(rows: Rows, i: nat)
    requires i < |rows| && !ReversesItself(rows[i])
    ensures Path(rows, [i])
  {
  }

  lemma PathGrows(rows: Rows, i: nat, chain: seq<nat>)
    requires i < |rows| && !ReversesItself(rows[i]) && Path(rows, chain) && chain != []
    requires chain[0] < i && rows[i].reversalOf == Some(rows[chain[0]].id)
    ensures Path(rows, [i] + chain)
  {
  }

  /** Whatever a chain meets after its first row is reversed by a row of the chain. */
  lemma {:induction false} Predecessor(rows: Rows, j: nat, t: nat) returns (p: nat)
    requires Sound(rows) && j < |rows| && t in Chain(rows, j) && t != j
    ensures p in Chain(rows, j) && p < |rows| && rows[p].reversalOf.Some? && Target(rows, p) == t
    decreases j
  {
    hide Sound;
    var next := Target(rows, j);
    assert Chain(rows, j) == [j] + Chain(rows, next);
    if next == t {
      p := j;
    } else {
      p := Predecessor(rows, next, t);
    }
  }

  /** Chains are paths that never merge: two chains share a row only when one is a part of the
      other. */
  lemma {:induction false} ChainsNeverMerge(rows: Rows, i: nat, j: nat, k: nat)
    requires Sound(rows) && i < |rows| && j < |rows|
    requires k in Chain(rows, i) && k in Chain(rows, j)
    ensures i in Chain(rows, j) || j in Chain(rows, i)
    decreases i + j
  {
    hide Sound;
    if k != i && k != j && i != j {
      var i', j' := Target(rows, i), Target(rows, j);
      assert Chain(rows, i) == [i] + Chain(rows, i') && Chain(rows, j) == [j] + Chain(rows, j');
      ReversedAtMostOnce(rows, i, j);
      ChainsNeverMerge(rows, i', j', k);
      if i' in Chain(rows, j') {
        var p := Predecessor(rows, j', i');
        if p != i { ReversedAtMostOnce(rows, p, i); }
      } else {
        var p := Predecessor(rows, i', j');
        if p != j { ReversedAtMostOnce(rows, p, j); }
      }
    } else {
      assert Chain(rows, i)[0] == i && Chain(rows, j)[0] == j;
    }
  }

  // --- the table, changed in place ------------------------------------------------------------------

  class TransactionTable {
    var rows: Rows

    constructor ()
      ensures rows == [] && Sound(rows)
    {
      rows := [];
    }

    method Apply(s: Statement) returns (ok: bool)
      requires Sound(rows)
      modifies this
      ensures ok == Execute(old(rows), s).Some?
      ensures rows == if ok then Execute(old(rows), s).value else old(rows)
      ensures old(rows) <= rows && Sound(rows)
    {
      LedgerOnlyGrows(rows, [s]);
      assert [s][..0] == [] && Run(rows, []) == rows;
      match s
      case Insert(row) =>
        ok := Insertable(rows, row);
        if ok { rows := rows + [row]; }
      case Update(id, row) =>
        ok := !HasId(rows, id);
      case Delete(id) =>
        ok := !HasId(rows, id);
    }
  }
}
