/** Spreadsheet column references as bijective base-26 numerals, and the densified row.
    The reference format is that of sections 18.3.1.4 and 18.18.7 of ECMA-376 Part 1. */
module ColumnRefs {
  import opened AsciiText
  import opened Options

  predicate Letter(c: char) {
    'A' <= c <= 'Z'
  }

  predicate Letters(s: string) {
    forall i :: 0 <= i < |s| ==> Letter(s[i])
  }

  /** How many leading characters are letters once upper-cased. */
  function PrefixLength(reference: string): nat {
    if reference == "" || !Letter(UpperChar(reference[0])) then 0 else 1 + PrefixLength(reference[1..])
  }

  function Digit(c: char): nat
    requires Letter(c)
  {
    c as nat - 64
  }

  /** The number a letter string denotes; "A" is 1. */
  function Numeral(s: string): nat
    requires Letters(s)
    decreases |s|
  {
    if s == "" then 0 else Numeral(s[..|s| - 1]) * 26 + Digit(s[|s| - 1])
  }

  lemma {:induction false} PrefixIsLetters(reference: string)
    ensures PrefixLength(reference) <= |reference|
    ensures forall i :: 0 <= i < PrefixLength(reference) ==> Letter(UpperChar(reference[i]))
    ensures PrefixLength(reference) < |reference| ==> !Letter(UpperChar(reference[PrefixLength(reference)]))
  {
    if reference == "" || !Letter(UpperChar(reference[0])) {
    } else {
      PrefixIsLetters(reference[1..]);
      forall i | 0 <= i < PrefixLength(reference) ensures Letter(UpperChar(reference[i])) {
        if i > 0 { assert reference[i] == reference[1..][i - 1]; }
      }
    }
  }

  /** The letters a cell reference starts with. */
  function Column(reference: string): (s: string)
    ensures Letters(s) && |s| == PrefixLength(reference)
  {
    PrefixIsLetters(reference);
    seq(PrefixLength(reference), i requires 0 <= i < PrefixLength(reference) =>
      (PrefixIsLetters(reference); UpperChar(reference[i])))
  }

  /** The zero-based column of a cell reference, or an error when it starts with no letter. */
  method ColumnIndex(reference: string) returns (r: Option<nat>)
    ensures r.None? <==> Column(reference) == ""
    ensures r.Some? ==> r.value + 1 == Numeral(Column(reference))
  {
    var letters := Column(reference);
    if letters == "" { return None; }
    var result := 0;
    for i := 0 to |letters|
      invariant result == Numeral(letters[..i]) && (i > 0 ==> result > 0)
    {
      assert letters[..i + 1][..i] == letters[..i];
      result := result * 26 + letters[i] as nat - 64;
    }
    assert letters[..|letters|] == letters;
    r := Some(result - 1);
  }

  // --- the printer, and both round trips --------------------------------------------------------

  /** The letters that denote n. */
  function Print(n: nat): (s: string)
    ensures Letters(s)
  {
    if n == 0 then "" else Print((n - 1) / 26) + [((n - 1) % 26 + 65) as char]
  }

  lemma {:induction false} PrintThenRead(n: nat)
    ensures Numeral(Print(n)) == n
  {
    if n == 0 {
    } else {
      PrintThenRead((n - 1) / 26);
      var s := Print(n);
      assert s[..|s| - 1] == Print((n - 1) / 26);
    }
  }

  lemma LastDigit(n: nat, d: nat)
    requires 1 <= d <= 26
    ensures (n * 26 + d - 1) / 26 == n && (n * 26 + d - 1) % 26 == d - 1
  {
  }

  lemma {:induction false} ReadThenPrint(s: string)
    requires Letters(s)
    ensures Print(Numeral(s)) == s
    decreases |s|
  {
    if s == "" {
    } else {
      var front, last := s[..|s| - 1], s[|s| - 1];
      ReadThenPrint(front);
      LastDigit(Numeral(front), Digit(last));
      assert s == front + [last];
    }
  }

  /** Exactly the leading letters are read, in their order and in any case: what follows them, if it starts
      with no letter, does not matter. So a printed number is read back from any reference. */
  lemma ColumnOfLetters(text: string, rest: string)
    requires Letters(Upper(text)) && (rest == "" || !Letter(UpperChar(rest[0])))
    ensures Column(text + rest) == Upper(text)
  {
    PrefixOfLetters(text, rest);
  }

  lemma {:induction false} PrefixOfLetters(text: string, rest: string)
    requires Letters(Upper(text)) && (rest == "" || !Letter(UpperChar(rest[0])))
    ensures PrefixLength(text + rest) == |text|
  {
    if text == "" {
      assert text + rest == rest;
    } else {
      assert Letter(Upper(text)[0]);
      assert forall i :: 0 <= i < |text| - 1 ==> Upper(text[1..])[i] == Upper(text)[i + 1];
      PrefixOfLetters(text[1..], rest);
      assert (text + rest)[1..] == text[1..] + rest;
    }
  }

  lemma ColumnOfPrinted(n: nat, rest: string)
    requires rest == "" || !Letter(UpperChar(rest[0]))
    ensures Column(Print(n) + rest) == Print(n)
  {
    assert Upper(Print(n)) == Print(n);
    ColumnOfLetters(Print(n), rest);
  }

  // --- order --------------------------------------------------------------------------------------

  /** The first position where two strings of one length differ. */
  ghost predicate DiffersFirstAt(a: string, b: string, k: nat) {
    k < |a| == |b| && a[..k] == b[..k] && a[k] < b[k]
  }

  /** Shorter first, then alphabetical. */
  ghost predicate Before(a: string, b: string) {
    |a| < |b| || (|a| == |b| && exists k :: DiffersFirstAt(a, b, k))
  }

  /** The smallest numeral of a length: A, AA, AAA, ... */
  function Least(n: nat): nat {
    if n == 0 then 0 else Least(n - 1) * 26 + 1
  }

  lemma {:induction false} NumeralOfLength(s: string)
    requires Letters(s)
    ensures Least(|s|) <= Numeral(s) < Least(|s| + 1)
    decreases |s|
  {
    if s == "" {
    } else {
      NumeralOfLength(s[..|s| - 1]);
    }
  }

  lemma {:induction false} LeastGrows(m: nat, n: nat)
    requires m < n
    ensures Least(m) < Least(n)
    decreases n
  {
    if m >= n - 1 {
    } else {
      LeastGrows(m, n - 1);
    }
  }

  lemma {:induction false} AlphabeticalIncreases(a: string, b: string, k: nat)
    requires Letters(a) && Letters(b) && DiffersFirstAt(a, b, k)
    ensures Numeral(a) < Numeral(b)
    decreases |a|
  {
    var a', b' := a[..|a| - 1], b[..|b| - 1];
    if k == |a| - 1 {
      assert a' == b';
    } else {
      assert a'[..k] == a[..k] && b'[..k] == b[..k];
      AlphabeticalIncreases(a', b', k);
    }
  }

  lemma BeforeIncreases(a: string, b: string)
    requires Letters(a) && Letters(b) && Before(a, b)
    ensures Numeral(a) < Numeral(b)
  {
    if |a| < |b| {
      NumeralOfLength(a);
      NumeralOfLength(b);
      if |a| + 1 < |b| { LeastGrows(|a| + 1, |b|); }
    } else {
      var k: nat :| DiffersFirstAt(a, b, k);
      AlphabeticalIncreases(a, b, k);
    }
  }

  lemma {:induction false} BeforeIsTotal(a: string, b: string)
    requires a != b
    ensures Before(a, b) || Before(b, a)
    decreases |a|
  {
    if |a| == |b| && a != "" {
      var a', b' := a[..|a| - 1], b[..|b| - 1];
      var n := |a| - 1;
      if a' == b' {
        assert a == a' + [a[n]] && b == b' + [b[n]];
        assert if a[n] < b[n] then DiffersFirstAt(a, b, n) else DiffersFirstAt(b, a, n);
      } else {
        BeforeIsTotal(a', b');
        if Before(a', b') {
          var k: nat :| DiffersFirstAt(a', b', k);
          assert a[..k] == a'[..k] && b[..k] == b'[..k];
          assert DiffersFirstAt(a, b, k);
        } else {
          var k: nat :| DiffersFirstAt(b', a', k);
          assert a[..k] == a'[..k] && b[..k] == b'[..k];
          assert DiffersFirstAt(b, a, k);
        }
      }
    }
  }

  /** Column order is exactly length-then-alphabetical order of the letters. */
  lemma OrderIsLengthThenAlphabet(a: string, b: string)
    requires Letters(a) && Letters(b)
    ensures Numeral(a) < Numeral(b) <==> Before(a, b)
  {
    if Before(a, b) {
      BeforeIncreases(a, b);
    } else if a != b {
      BeforeIsTotal(a, b);
      BeforeIncreases(b, a);
    }
  }

  // --- the densified row ----------------------------------------------------------------------------

  datatype Cell = Cell(reference: string, content: string)
  datatype Write = Write(column: nat, content: string)

  predicate Placed(cells: seq<Cell>) {
    forall i :: 0 <= i < |cells| ==> Column(cells[i].reference) != ""
  }

  lemma NonemptyIsPositive(s: string)
    requires Letters(s) && s != ""
    ensures Numeral(s) > 0
  {
  }

  function WriteOf(cell: Cell): Write
    requires Column(cell.reference) != ""
  {
    NonemptyIsPositive(Column(cell.reference));
    Write(Numeral(Column(cell.reference)) - 1, cell.content)
  }

  /** What the cells write, and where, in document order. */
  function Writes(cells: seq<Cell>): (writes: seq<Write>)
    requires Placed(cells)
  {
    seq(|cells|, i requires 0 <= i < |cells| => WriteOf(cells[i]))
  }

  /** The position of the last write to a column, or -1. */
  function LastWrite(writes: seq<Write>, column: nat): int
    decreases |writes|
  {
    if writes == [] then -1
    else if writes[|writes| - 1].column == column then |writes| - 1
    else LastWrite(writes[..|writes| - 1], column)
  }

  lemma {:induction false} LastWriteIsLast(writes: seq<Write>, column: nat)
    ensures -1 <= LastWrite(writes, column) < |writes|
    ensures LastWrite(writes, column) >= 0 ==> writes[LastWrite(writes, column)].column == column
    ensures forall j :: LastWrite(writes, column) < j < |writes| ==> writes[j].column != column
    decreases |writes|
  {
    if writes == [] || writes[|writes| - 1].column == column {
    } else {
      LastWriteIsLast(writes[..|writes| - 1], column);
    }
  }

  /** What a dense row must show at a column: the last write wins, gaps are empty. */
  function Shown(writes: seq<Write>, column: nat): string {
    LastWriteIsLast(writes, column);
    var i := LastWrite(writes, column);
    if i < 0 then "" else writes[i].content
  }

  /** A dense row is as wide as its last written column and shows every column. */
  ghost predicate Dense(row: seq<string>, writes: seq<Write>) {
    && (forall c :: 0 <= c < |row| ==> row[c] == Shown(writes, c))
    && (forall w :: w in writes ==> w.column < |row|)
    && (row != [] ==> exists w :: w in writes && w.column == |row| - 1)
  }

  /** The dictionary and the width the loop has built after some cells. */
  ghost predicate Filled(written: map<nat, string>, width: nat, writes: seq<Write>) {
    && (forall c: nat :: c !in written ==> Shown(writes, c) == "")
    && (forall c: nat :: c in written ==> written[c] == Shown(writes, c))
    && (forall w :: w in writes ==> w.column < width)
    && (width > 0 ==> exists w :: w in writes && w.column == width - 1)
  }

  lemma FillOne(written: map<nat, string>, width: nat, writes: seq<Write>, w: Write)
    requires Filled(written, width, writes)
    ensures Filled(written[w.column := w.content],
                   if width < w.column + 1 then w.column + 1 else width, writes + [w])
  {
    forall c: nat ensures Shown(writes + [w], c) == if c == w.column then w.content else Shown(writes, c) {
      ShownAfter(writes, w, c);
    }
    hide Shown;
    WidestAfter(width, writes, w);
  }

  lemma ShownAfter(writes: seq<Write>, w: Write, c: nat)
    ensures Shown(writes + [w], c) == if c == w.column then w.content else Shown(writes, c)
  {
    var more := writes + [w];
    assert more[..|writes|] == writes && more[|writes|] == w;
    LastWriteIsLast(writes, c);
  }

  lemma WidestAfter(width: nat, writes: seq<Write>, w: Write)
    requires width > 0 ==> exists x :: x in writes && x.column == width - 1
    ensures var now := if width < w.column + 1 then w.column + 1 else width;
      exists x :: x in writes + [w] && x.column == now - 1
  {
    if width >= w.column + 1 {
      var widest :| widest in writes && widest.column == width - 1;
      assert widest in writes + [w];
    } else {
      assert w in writes + [w];
    }
  }

  /** One row of a sheet, from its cells in document order. */
  method Densify(cells: seq<Cell>) returns (row: Option<seq<string>>)
    ensures row.Some? <==> Placed(cells)
    ensures row.Some? ==> Dense(row.value, Writes(cells))
  {
    hide Filled, Dense, WriteOf, Numeral;
    var written: map<nat, string> := map[];
    var width: nat := 0;
    NothingFilled();
    assert Writes(cells[..0]) == [];
    for n := 0 to |cells|
      invariant Placed(cells[..n]) && Filled(written, width, Writes(cells[..n]))
    {
      var index := ColumnIndex(cells[n].reference);
      if index.None? {
        return None;
      }
      WriteIsPlaced(cells[n], index.value);
      FillOne(written, width, Writes(cells[..n]), WriteOf(cells[n]));
      assert Writes(cells[..n]) + [WriteOf(cells[n])] == Writes(cells[..n + 1]);
      written := written[index.value := cells[n].content];
      if width < index.value + 1 { width := index.value + 1; }
    }
    assert cells[..|cells|] == cells;
    row := Some(seq(width, c requires 0 <= c => if c in written then written[c] else ""));
    FilledIsDense(written, width, Writes(cells), row.value);
  }

  lemma WriteIsPlaced(cell: Cell, column: nat)
    requires Column(cell.reference) != "" && column + 1 == Numeral(Column(cell.reference))
    ensures WriteOf(cell) == Write(column, cell.content)
  {
  }

  lemma NothingFilled()
    ensures Filled(map[], 0, [])
  {
  }

  lemma FilledIsDense(written: map<nat, string>, width: nat, writes: seq<Write>, row: seq<string>)
    requires Filled(written, width, writes) && |row| == width
    requires forall c :: 0 <= c < width ==> row[c] == if c in written then written[c] else ""
    ensures Dense(row, writes)
  {
    hide Shown;
  }

  /** Only one row is dense for what was written. */
  lemma DenseIsUnique(a: seq<string>, b: seq<string>, writes: seq<Write>)
    requires Dense(a, writes) && Dense(b, writes)
    ensures a == b
  {
    hide Shown;
    if a != [] {
      var w :| w in writes && w.column == |a| - 1;
    }
    if b != [] {
      var w :| w in writes && w.column == |b| - 1;
    }
  }

  /** The cells of a row under their printed references, on any line of the sheet. */
  function Printed(row: seq<string>, line: string): seq<Cell> {
    seq(|row|, i requires 0 <= i < |row| => Cell(Print(i + 1) + line, row[i]))
  }

  /** A row printed cell by cell is read back as it was. */
  lemma PrintedIsRead(row: seq<string>, line: string)
    requires line != "" && !Letter(UpperChar(line[0]))
    ensures Placed(Printed(row, line)) && Dense(row, Writes(Printed(row, line)))
  {
    var cells := Printed(row, line);
    hide Column, Print, Numeral;
    forall i | 0 <= i < |row|
      ensures Column(cells[i].reference) != "" && WriteOf(cells[i]) == Write(i, row[i])
    {
      ColumnOfPrinted(i + 1, line);
      PrintThenRead(i + 1);
      PrintedIsNotEmpty(i + 1);
    }
    var writes := Writes(cells);
    forall c: nat | c < |row| ensures Shown(writes, c) == row[c] {
      LastWriteIsLast(writes, c);
      assert writes[c].column == c;
    }
    if row != [] {
      assert writes[|row| - 1] in writes;
    }
  }

  lemma PrintedIsNotEmpty(n: nat)
    requires n > 0
    ensures Print(n) != ""
  {
  }
}
