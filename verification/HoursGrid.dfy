/** The monthly hours grid: header, daily cells, and totals that must agree. Hours are integers in
    hundredths. Text is ASCII. */
module HoursGrid {
  import opened Options
  import opened Sums
  import opened AsciiText

  // --- text and decimals --------------------------------------------------------------------------

  function NonEmpty(s: string): Option<string> {
    if s == "" then None else Some(s)
  }

  /** A decimal number as written: coefficient times ten to the exponent. */
  datatype Decimal = Finite(coefficient: int, exponent: int) | Infinite(negative: bool) | NaN

  function Pow10(n: nat): (p: nat)
    ensures p > 0
  {
    if n == 0 then 1 else 10 * Pow10(n - 1)
  }

  predicate Above24(d: Decimal)
    requires d.Finite?
  {
    if d.exponent >= 0 then d.coefficient * Pow10(d.exponent) > 24
    else d.coefficient > 24 * Pow10(-d.exponent)
  }

  /** The hundredths of an acceptable cell: from 0 to 24 with at most two decimals as written. */
  function Hours(d: Decimal): Option<int> {
    if !d.Finite? || d.coefficient < 0 || Above24(d) || d.exponent < -2 then None
    else Some(d.coefficient * Pow10(d.exponent + 2))
  }

  /** Numeric equality with a number of hundredths, however the decimal is written. */
  predicate Equals(d: Decimal, hundredths: int) {
    && d.Finite?
    && if d.exponent >= -2 then d.coefficient * Pow10(d.exponent + 2) == hundredths
       else d.coefficient == hundredths * Pow10(-2 - d.exponent)
  }

  /** Hundredths accepted in one day are between 0 and 24 hours, and numerically what was written. */
  lemma HoursInRange(d: Decimal)
    requires Hours(d).Some?
    ensures 0 <= Hours(d).value <= 2400 && Equals(d, Hours(d).value)
  {
    var c, e := d.coefficient, d.exponent;
    if e >= 0 {
      assert Pow10(e + 2) == 10 * Pow10(e + 1) == 100 * Pow10(e);
      Scale(c, Pow10(e));
    } else if e == -1 {
      assert Pow10(1) == 10 * Pow10(0) == 10;
    } else {
      assert Pow10(2) == 10 * Pow10(1) == 100 && Pow10(1) == 10 * Pow10(0) && Pow10(0) == 1;
    }
  }

  /** A cell is accepted if and only if it has at most two decimals as written and lies between 0 and 24
      hours; every number of hundredths in that range is. */
  lemma AcceptedIff(d: Decimal, h: int)
    ensures Hours(d) == Some(h) <==>
            d.Finite? && d.exponent >= -2 && 0 <= h <= 2400 && d.coefficient * Pow10(d.exponent + 2) == h
    ensures 0 <= h <= 2400 ==> Hours(Finite(h, -2)) == Some(h)
    ensures 0 <= h <= 24 ==> Hours(Finite(h, 0)) == Some(100 * h)
  {
    assert Pow10(0) == 1 && Pow10(1) == 10 * Pow10(0) && Pow10(2) == 10 * Pow10(1);
    if Hours(d).Some? {
      HoursInRange(d);
    }
    if d.Finite? && d.exponent >= -2 && 0 <= d.coefficient * Pow10(d.exponent + 2) <= 2400 {
      WithinRange(d);
    }
  }

  lemma WithinRange(d: Decimal)
    requires d.Finite? && d.exponent >= -2 && 0 <= d.coefficient * Pow10(d.exponent + 2) <= 2400
    ensures d.coefficient >= 0 && !Above24(d)
  {
    var c, e := d.coefficient, d.exponent;
    if c < 0 {
      NegativeProduct(c, Pow10(e + 2));
    }
    if e >= 0 {
      assert Pow10(e + 2) == 10 * Pow10(e + 1) == 100 * Pow10(e);
      Scale(c, Pow10(e));
    } else if e == -1 {
      assert Pow10(1) == 10 * Pow10(0) == 10;
    } else {
      assert Pow10(2) == 10 * Pow10(1) == 100 && Pow10(1) == 10 * Pow10(0) && Pow10(0) == 1;
    }
  }

  lemma NegativeProduct(c: int, p: int)
    requires c < 0 && p > 0
    ensures c * p < 0
  {
  }

  lemma Scale(c: int, p: nat)
    ensures c * (100 * p) == 100 * (c * p)
    ensures c >= 0 ==> c * p >= 0
  {
  }

  // --- one line -----------------------------------------------------------------------------------

  datatype Record = Record(sourceName: string, siteName: Option<string>, daily: map<nat, int>,
                           total: int, sourceTotalDays: Option<string>, line: nat)

  /** How a number is read from text; unreadable text is None. */
  type Reader = string -> Option<Decimal>

  predicate DayOk(raw: string, read: Reader) {
    Strip(raw) == "" || (read(Strip(raw)).Some? && Hours(read(Strip(raw)).value).Some?)
  }

  function Cell(cells: seq<string>, day: nat): string
    requires 1 <= day <= |cells|
  {
    cells[day - 1]
  }

  function DayHours(raw: string, read: Reader): int
    requires DayOk(raw, read)
  {
    if Strip(raw) == "" then 0 else Hours(read(Strip(raw)).value).value
  }

  /** The non-blank days, numbered from 1. */
  function DailyOf(cells: seq<string>, read: Reader): map<nat, int>
    requires forall c :: c in cells ==> DayOk(c, read)
  {
    map d: nat | 1 <= d <= |cells| && Strip(Cell(cells, d)) != "" :: DayHours(Cell(cells, d), read)
  }

  function Stated(raw: string, read: Reader): Option<Decimal> {
    if Strip(raw) == "" then Some(Finite(0, 0)) else read(Strip(raw))
  }

  predicate Blank(cells: seq<string>) {
    forall c :: c in cells ==> Strip(c) == ""
  }

  /** Empty lines, and the footer line of totals. */
  predicate Skipped(cells: seq<string>, days: nat) {
    Blank(cells) ||
    (|cells| > days + 4 && Strip(cells[0]) == "" && Lower(Strip(cells[1])) in {"hrs", "hours", "total"})
  }

  /** What it means for a line to be the given employee record. */
  ghost predicate IsRecord(cells: seq<string>, days: nat, read: Reader, r: Record) {
    && |cells| > days + 4
    && r.sourceName == Strip(cells[0]) != ""
    && r.siteName == NonEmpty(Strip(cells[1]))
    && r.sourceTotalDays == NonEmpty(Strip(cells[days + 4]))
    && (forall c :: c in cells[3..days + 3] ==> DayOk(c, read))
    && r.daily == DailyOf(cells[3..days + 3], read)
    && r.total == Total(r.daily)
    && Stated(cells[days + 3], read).Some?
    && Equals(Stated(cells[days + 3], read).value, r.total)
  }

  /** A line that must make the whole parse fail. */
  ghost predicate BadLine(cells: seq<string>, days: nat, read: Reader) {
    !Skipped(cells, days) && forall r :: !IsRecord(cells, days, read, r)
  }

  /** A line is skipped or is a record, never both, and is at most one record. */
  lemma LinesAreUnambiguous(cells: seq<string>, days: nat, read: Reader, a: Record, b: Record)
    requires IsRecord(cells, days, read, a)
    ensures !Skipped(cells, days)
    ensures IsRecord(cells, days, read, b) && a.line == b.line ==> a == b
  {
    hide Strip, Lower;
    assert cells[0] in cells;
  }

  lemma {:induction false} TotalBounded(m: map<nat, int>, days: nat)
    requires forall d :: d in m ==> 1 <= d <= days && 0 <= m[d] <= 2400
    ensures 0 <= Total(m) <= 2400 * days
    decreases days
  {
    if days == 0 {
      assert m == map[];
    } else if days in m {
      TotalTake(m, days);
      TotalBounded(m - {days}, days - 1);
    } else {
      TotalBounded(m, days - 1);
    }
  }

  /** Accepted records: real days of the month, each within 24 hours, a total that is the sum of
      the days, equals the stated one, and so is at most 24 hours a day. */
  lemma RecordInRange(cells: seq<string>, days: nat, read: Reader, r: Record)
    requires IsRecord(cells, days, read, r)
    ensures forall d :: d in r.daily ==> 1 <= d <= days && 0 <= r.daily[d] <= 2400
    ensures 0 <= r.total == Total(r.daily) <= 2400 * days
  {
    hide Strip, Lower;
    forall d | d in r.daily ensures 1 <= d <= days && 0 <= r.daily[d] <= 2400 {
      var cell := Cell(cells[3..days + 3], d);
      assert cell in cells[3..days + 3] && DayOk(cell, read);
      HoursInRange(read(Strip(cell)).value);
    }
    TotalBounded(r.daily, days);
  }

  /** The days of a line, from the hours of each day cell that is not blank. */
  function DaysOf(hours: seq<Option<int>>): map<nat, int> {
    map d: nat | 1 <= d <= |hours| && On(hours, d).Some? :: On(hours, d).value
  }

  function On(hours: seq<Option<int>>, day: nat): Option<int>
    requires 1 <= day <= |hours|
  {
    hours[day - 1]
  }

  /** A line written out cell by cell, with its hours in hundredths and their true total, is read as that
      record: the name, the site unless blank, each day's hours, the total and the day count. */
  lemma WrittenLineIsRead(name: string, site: string, third: string, dayCells: seq<string>, hours: seq<Option<int>>,
                          total: string, totalDays: string, rest: seq<string>, read: Reader, line: nat)
    requires Strip(name) != "" && |dayCells| == |hours|
    requires forall i :: 0 <= i < |hours| ==>
      if hours[i].None? then Strip(dayCells[i]) == ""
      else Strip(dayCells[i]) != "" && 0 <= hours[i].value <= 2400
           && read(Strip(dayCells[i])) == Some(Finite(hours[i].value, -2))
    requires Strip(total) != "" && read(Strip(total)) == Some(Finite(Total(DaysOf(hours)), -2))
    ensures IsRecord([name, site, third] + dayCells + [total, totalDays] + rest, |hours|, read,
                     Record(Strip(name), if Strip(site) == "" then None else Some(Strip(site)), DaysOf(hours),
                            Total(DaysOf(hours)), if Strip(totalDays) == "" then None else Some(Strip(totalDays)),
                            line))
  {
    hide Strip;
    var n := |hours|;
    var cells := [name, site, third] + dayCells + [total, totalDays] + rest;
    assert cells[3..n + 3] == dayCells;
    assert cells[0] == name && cells[1] == site && cells[n + 3] == total && cells[n + 4] == totalDays;
    assert Pow10(0) == 1;
    forall i | 0 <= i < n
      ensures DayOk(dayCells[i], read)
      ensures hours[i].Some? ==> DayHours(dayCells[i], read) == hours[i].value
    {
      if hours[i].Some? { AcceptedIff(Finite(hours[i].value, -2), hours[i].value); }
    }
    assert forall c :: c in dayCells ==> DayOk(c, read);
    assert DailyOf(dayCells, read) == DaysOf(hours);
  }

  /** A line of blanks is skipped, and so is a footer: no name, and "Hrs", "Hours" or "Total" in any case
      where the site stands. No other line is, neither one with a name nor one that is too short. */
  lemma SkippedLines(cells: seq<string>, days: nat)
    ensures (forall c :: c in cells ==> Strip(c) == "") ==> Skipped(cells, days)
    ensures |cells| > days + 4 && Strip(cells[0]) == "" && Lower(Strip(cells[1])) in {"hrs", "hours", "total"} ==>
      Skipped(cells, days)
    ensures |cells| > 0 && Strip(cells[0]) != "" ==> !Skipped(cells, days)
    ensures (exists c :: c in cells && Strip(c) != "")
            && (|cells| <= days + 4 || Lower(Strip(cells[1])) !in {"hrs", "hours", "total"})
            ==> !Skipped(cells, days)
  {
    hide Strip, Lower;
  }

  /** What a record says is what its line says: name and site, an entry for each day whose cell is not blank,
      of the same value, and a stated total that is blank for none or the sum. */
  lemma RecordIsWritten(cells: seq<string>, days: nat, read: Reader, r: Record)
    requires IsRecord(cells, days, read, r)
    ensures |cells| > days + 4 && r.sourceName == Strip(cells[0]) && r.sourceName != ""
    ensures r.siteName == if Strip(cells[1]) == "" then None else Some(Strip(cells[1]))
    ensures r.sourceTotalDays == if Strip(cells[days + 4]) == "" then None else Some(Strip(cells[days + 4]))
    ensures forall d: nat :: d in r.daily <==> 1 <= d <= days && Strip(cells[d + 2]) != ""
    ensures forall d: nat :: d in r.daily ==>
              read(Strip(cells[d + 2])).Some? && Hours(read(Strip(cells[d + 2])).value) == Some(r.daily[d])
    ensures if Strip(cells[days + 3]) == "" then r.total == 0
            else read(Strip(cells[days + 3])).Some? && read(Strip(cells[days + 3])).value.Finite?
                 && var Finite(c, e) := read(Strip(cells[days + 3])).value;
                    if e >= -2 then r.total == c * Pow10(e + 2) else r.total * Pow10(-2 - e) == c
  {
    hide Strip, Hours;
    var dayCells := cells[3..days + 3];
    forall d: nat | 1 <= d <= days ensures Cell(dayCells, d) == cells[d + 2] && DayOk(cells[d + 2], read) {
      assert Cell(dayCells, d) in dayCells;
    }
    ZeroIsNothing(r.total);
  }

  lemma ZeroIsNothing(hundredths: int)
    ensures Equals(Finite(0, 0), hundredths) ==> hundredths == 0
  {
    assert 0 * Pow10(2) == 0;
  }

  datatype Line = Skip | Bad | Parsed(record: Record)

  method ReadDays(cells: seq<string>, read: Reader) returns (daily: Option<map<nat, int>>)
    ensures daily.Some? <==> forall c :: c in cells ==> DayOk(c, read)
    ensures daily.Some? ==> daily.value == DailyOf(cells, read)
  {
    hide Strip;
    var result: map<nat, int> := map[];
    for i := 0 to |cells|
      invariant forall c :: c in cells[..i] ==> DayOk(c, read)
      invariant result == DailyOf(cells[..i], read)
    {
      var value := Strip(cells[i]);
      assert cells[..i + 1] == cells[..i] + [cells[i]];
      if value == "" {
        assert DayOk(cells[i], read);
        assert DailyOf(cells[..i + 1], read) == DailyOf(cells[..i], read);
        continue;
      }
      var number := read(value);
      if number.None? || Hours(number.value).None? {
        assert !DayOk(cells[i], read) && cells[i] in cells;
        return None;
      }
      assert DayOk(cells[i], read);
      result := result[i + 1 := DayHours(cells[i], read)];
      assert DailyOf(cells[..i + 1], read) == result;
    }
    assert cells[..|cells|] == cells;
    daily := Some(result);
  }

  /** The loop body for one line after the headers. */
  method ReadLine(cells: seq<string>, line: nat, days: nat, read: Reader) returns (r: Line)
    ensures r.Skip? <==> Skipped(cells, days)
    ensures r.Parsed? ==> IsRecord(cells, days, read, r.record) && r.record.line == line
    ensures r.Bad? ==> BadLine(cells, days, read)
  {
    hide Strip, Lower;
    if Blank(cells) { return Skip; }
    if |cells| <= days + 4 { return Bad; }
    var name := Strip(cells[0]);
    if name == "" && Lower(Strip(cells[1])) in {"hrs", "hours", "total"} { return Skip; }
    if name == "" { return Bad; }
    var daily := ReadDays(cells[3..days + 3], read);
    if daily.None? { return Bad; }
    var stated := Stated(cells[days + 3], read);
    if stated.None? { return Bad; }
    var calculated := SumValues(daily.value);
    if !Equals(stated.value, calculated) { return Bad; }
    r := Parsed(Record(name, NonEmpty(Strip(cells[1])), daily.value, calculated,
                       NonEmpty(Strip(cells[days + 4])), line));
  }

  // --- the whole grid -------------------------------------------------------------------------------

  /** Lines 3 and on, up to a line: every one is skipped or is exactly one record, in order. */
  ghost predicate Accounted(rows: seq<seq<string>>, upto: nat, days: nat, read: Reader, records: seq<Record>)
    requires upto <= |rows|
  {
    && (forall k :: 0 <= k < |records| ==>
          3 <= records[k].line <= upto && IsRecord(rows[records[k].line - 1], days, read, records[k]))
    && (forall j, k :: 0 <= j < k < |records| ==> records[j].line < records[k].line)
    && (forall i :: 2 <= i < upto ==>
          Skipped(rows[i], days) || exists k :: 0 <= k < |records| && records[k].line == i + 1)
  }

  ghost predicate BadAt(rows: seq<seq<string>>, line: nat, days: nat, read: Reader) {
    3 <= line <= |rows| && BadLine(rows[line - 1], days, read)
  }

  /** The line is bad, and none before it is. */
  ghost predicate FirstBadAt(rows: seq<seq<string>>, line: nat, days: nat, read: Reader) {
    BadAt(rows, line, days, read) && forall earlier: nat :: earlier < line ==> !BadAt(rows, earlier, days, read)
  }

  lemma AccountedIsNotBad(rows: seq<seq<string>>, upto: nat, days: nat, read: Reader, records: seq<Record>)
    requires upto <= |rows| && Accounted(rows, upto, days, read, records)
    ensures forall line: nat :: line <= upto ==> !BadAt(rows, line, days, read)
  {
    hide Skipped, IsRecord;
    forall line: nat | line <= upto ensures !BadAt(rows, line, days, read) {
      if 3 <= line && !Skipped(rows[line - 1], days) {
        var k :| 0 <= k < |records| && records[k].line == line;
        assert IsRecord(rows[line - 1], days, read, records[k]);
      }
    }
  }

  /** A line that is a record extends the account of the lines before it. */
  lemma NextAccount(rows: seq<seq<string>>, i: nat, days: nat, read: Reader, records: seq<Record>, record: Record)
    requires 2 <= i < |rows| && Accounted(rows, i, days, read, records)
    requires IsRecord(rows[i], days, read, record) && record.line == i + 1
    ensures Accounted(rows, i + 1, days, read, records + [record])
  {
    hide Skipped, IsRecord;
    var more := records + [record];
    forall j | 2 <= j < i + 1
      ensures Skipped(rows[j], days) || exists k :: 0 <= k < |more| && more[k].line == j + 1
    {
      if j == i {
        assert more[|records|].line == j + 1;
      } else if !Skipped(rows[j], days) {
        var k :| 0 <= k < |records| && records[k].line == j + 1;
        assert more[k].line == j + 1;
      }
    }
  }

  method ReadLines(rows: seq<seq<string>>, days: nat, read: Reader)
    returns (records: seq<Record>, bad: Option<nat>)
    requires |rows| >= 2
    ensures bad.None? ==> Accounted(rows, |rows|, days, read, records)
    ensures bad.Some? ==> BadAt(rows, bad.value, days, read) && Accounted(rows, bad.value - 1, days, read, records)
  {
    hide Skipped, IsRecord;
    records := [];
    for i := 2 to |rows|
      invariant Accounted(rows, i, days, read, records)
    {
      var outcome := ReadLine(rows[i], i + 1, days, read);
      match outcome
      case Bad => return records, Some(i + 1);
      case Skip =>
      case Parsed(record) =>
        NextAccount(rows, i, days, read, records, record);
        records := records + [record];
    }
    bad := None;
  }

  /** A record's line is the last one that is not skipped, and dropping it leaves an account of
      the lines before. */
  lemma ShorterAccount(rows: seq<seq<string>>, upto: nat, days: nat, read: Reader, a: seq<Record>)
    requires upto <= |rows| && a != []
    requires Accounted(rows, upto, days, read, a)
    ensures 3 <= a[|a| - 1].line <= upto
    ensures Accounted(rows, a[|a| - 1].line - 1, days, read, a[..|a| - 1])
    ensures !Skipped(rows[a[|a| - 1].line - 1], days)
    ensures forall i :: a[|a| - 1].line <= i < upto ==> Skipped(rows[i], days)
  {
    hide Skipped, IsRecord;
    var last, front := a[|a| - 1], a[..|a| - 1];
    LinesAreUnambiguous(rows[last.line - 1], days, read, last, last);
    forall i | 2 <= i < last.line - 1
      ensures Skipped(rows[i], days) || exists k :: 0 <= k < |front| && front[k].line == i + 1
    {
      if !Skipped(rows[i], days) {
        var k :| 0 <= k < |a| && a[k].line == i + 1;
        assert front[k].line == i + 1;
      }
    }
  }

  lemma SameLastRecord(rows: seq<seq<string>>, upto: nat, days: nat, read: Reader, a: seq<Record>, b: seq<Record>)
    requires upto <= |rows|
    requires Accounted(rows, upto, days, read, a) && Accounted(rows, upto, days, read, b)
    ensures a == [] <==> b == []
    ensures a != [] ==> a[|a| - 1] == b[|b| - 1]
  {
    hide Skipped, IsRecord;
    if a != [] { ShorterAccount(rows, upto, days, read, a); }
    if b != [] { ShorterAccount(rows, upto, days, read, b); }
    if a != [] && b != [] {
      var x, y := a[|a| - 1], b[|b| - 1];
      LinesAreUnambiguous(rows[x.line - 1], days, read, x, y);
    }
  }

  /** The records are determined by the lines: any two complete accounts are the same list. */
  lemma {:induction false} AccountIsUnique(
      rows: seq<seq<string>>, upto: nat, days: nat, read: Reader, a: seq<Record>, b: seq<Record>)
    requires upto <= |rows|
    requires Accounted(rows, upto, days, read, a) && Accounted(rows, upto, days, read, b)
    ensures a == b
    decreases |a|
  {
    hide *;
    SameLastRecord(rows, upto, days, read, a, b);
    if a == [] {
    } else {
      ShorterAccount(rows, upto, days, read, a);
      ShorterAccount(rows, upto, days, read, b);
      var x := a[|a| - 1];
      AccountIsUnique(rows, x.line - 1, days, read, a[..|a| - 1], b[..|b| - 1]);
      assert a == a[..|a| - 1] + [x] && b == b[..|b| - 1] + [x];
    }
  }

  // --- the report month -----------------------------------------------------------------------------

  predicate DigitChar(c: char) {
    '0' <= c <= '9'
  }

  predicate AlphaChar(c: char) {
    'a' <= c <= 'z' || 'A' <= c <= 'Z'
  }

  /** One or two digits, a hyphen, three letters: "1-Aug". */
  predicate DayMonth(s: string) {
    var n := |s|;
    && (n == 5 || n == 6) && s[n - 4] == '-'
    && (forall i :: 0 <= i < n - 4 ==> DigitChar(s[i]))
    && (forall i :: n - 3 <= i < n ==> AlphaChar(s[i]))
  }

  const MONTHS := ["jan", "feb", "mar", "apr", "may", "jun", "jul", "aug", "sep", "oct", "nov", "dec"]

  method MonthNumber(abbreviation: string) returns (month: Option<nat>)
    ensures month.Some? ==> 1 <= month.value <= 12 && MONTHS[month.value - 1] == Lower(abbreviation)
    ensures month.None? ==> Lower(abbreviation) !in MONTHS
  {
    hide Lower;
    for i := 0 to 12
      invariant Lower(abbreviation) !in MONTHS[..i]
    {
      if MONTHS[i] == Lower(abbreviation) { return Some(i + 1); }
    }
    month := None;
  }

  predicate Leap(year: nat) {
    year % 4 == 0 && (year % 100 != 0 || year % 400 == 0)
  }

  function DaysInMonth(year: nat, month: nat): (n: nat)
    requires 1 <= month <= 12
    ensures 28 <= n <= 31
  {
    if month == 2 then (if Leap(year) then 29 else 28)
    else if month in {4, 6, 9, 11} then 30 else 31
  }

  /** The lengths of the months. */
  lemma MonthLengths(year: nat, month: nat)
    requires 1 <= month <= 12
    ensures DaysInMonth(year, month) ==
            [31, if Leap(year) then 29 else 28, 31, 30, 31, 30, 31, 31, 30, 31, 30, 31][month - 1]
  {
  }

  /** How many of the first n years, from year 0, are leap years. */
  function LeapYears(n: nat): nat {
    if n == 0 then 0 else LeapYears(n - 1) + if Leap(n - 1) then 1 else 0
  }

  /** How many of the first n years are multiples of d. */
  function Multiples(n: nat, d: nat): nat
    requires d > 0
  {
    (n + d - 1) / d
  }

  function Divides(k: nat, d: nat): nat
    requires d > 0
  {
    if k % d == 0 then 1 else 0
  }

  /** Every fourth year, without every hundredth, with every four hundredth: 97 in any 400 years. */
  lemma LeapYearsByRule(n: nat)
    ensures LeapYears(n) == Multiples(n, 4) - Multiples(n, 100) + Multiples(n, 400)
    ensures LeapYears(n + 400) == LeapYears(n) + 97
  {
    CountLeapYears(n);
    CountLeapYears(n + 400);
    FourCenturies(n);
    hide LeapYears, Multiples;
  }

  lemma FourCenturies(n: nat)
    ensures Multiples(n + 400, 4) == Multiples(n, 4) + 100
    ensures Multiples(n + 400, 100) == Multiples(n, 100) + 4
    ensures Multiples(n + 400, 400) == Multiples(n, 400) + 1
  {
  }

  lemma {:induction false} CountLeapYears(n: nat)
    ensures LeapYears(n) == Multiples(n, 4) - Multiples(n, 100) + Multiples(n, 400)
  {
    if n == 0 {
    } else {
      hide Leap, Multiples, Divides;
      CountLeapYears(n - 1);
      LeapByDivision(n - 1);
      NextMultiple(n - 1, 4);
      NextMultiple(n - 1, 100);
      NextMultiple(n - 1, 400);
    }
  }

  lemma NextMultiple(k: nat, d: nat)
    requires d in {4, 100, 400}
    ensures Multiples(k + 1, d) == Multiples(k, d) + Divides(k, d)
  {
    if d == 4 {
      assert (k + 4) / 4 == (k + 3) / 4 + if k % 4 == 0 then 1 else 0;
    } else if d == 100 {
      assert (k + 100) / 100 == (k + 99) / 100 + if k % 100 == 0 then 1 else 0;
    } else {
      assert (k + 400) / 400 == (k + 399) / 400 + if k % 400 == 0 then 1 else 0;
    }
  }

  lemma LeapByDivision(k: nat)
    ensures (if Leap(k) then 1 else 0) == Divides(k, 4) - Divides(k, 100) + Divides(k, 400)
  {
    if k % 100 == 0 { Multiple(4, 25 * (k / 100)); }
    if k % 400 == 0 { Multiple(100, 4 * (k / 400)); }
  }

  lemma Multiple(d: nat, q: nat)
    requires d in {4, 100}
    ensures d * q % d == 0
  {
  }

  datatype Period = Period(year: nat, month: nat)

  datatype Sheet =
    | HeaderError
    | LineError(line: nat)
    | Timesheet(period: Period, records: seq<Record>)

  /** The month that the first day header names. */
  predicate NamesMonth(firstDay: string, serialMonth: string -> Option<nat>, m: nat) {
    1 <= m <= 12 &&
    if DayMonth(firstDay) then MONTHS[m - 1] == Lower(firstDay[|firstDay| - 3..])
    else serialMonth(firstDay) == Some(m)
  }

  /** A header such as "1-Aug", with one or two digits and the month in any case, names that month only. */
  lemma HeaderNamesMonth(digits: string, abbreviation: string, serialMonth: string -> Option<nat>, m: nat, n: nat)
    requires |digits| in {1, 2} && forall i :: 0 <= i < |digits| ==> DigitChar(digits[i])
    requires |abbreviation| == 3 && forall i :: 0 <= i < 3 ==> AlphaChar(abbreviation[i])
    requires 1 <= m <= 12 && Lower(abbreviation) == MONTHS[m - 1]
    ensures NamesMonth(digits + "-" + abbreviation, serialMonth, n) <==> n == m
  {
    var text := digits + "-" + abbreviation;
    assert DayMonth(text) && text[|text| - 3..] == abbreviation;
    if 1 <= n <= 12 && n != m {
      MonthsDiffer(m, n);
    }
    hide Lower;
  }

  lemma MonthsDiffer(m: nat, n: nat)
    requires 1 <= m <= 12 && 1 <= n <= 12 && m != n
    ensures MONTHS[m - 1] != MONTHS[n - 1]
  {
    assert forall i :: 0 <= i < 12 ==> |MONTHS[i]| == 3;
    assert MONTHS[0] == "jan" && MONTHS[1] == "feb" && MONTHS[2] == "mar" && MONTHS[3] == "apr";
    assert MONTHS[4] == "may" && MONTHS[5] == "jun" && MONTHS[6] == "jul" && MONTHS[7] == "aug";
    assert MONTHS[8] == "sep" && MONTHS[9] == "oct" && MONTHS[10] == "nov" && MONTHS[11] == "dec";
  }

  /** The parser. The year comes from the file name, and a header that is no day-and-month is read
      as a date serial number. */
  method ParseTimesheet(rows: seq<seq<string>>, year: Option<nat>, serialMonth: string -> Option<nat>,
                        read: Reader) returns (r: Sheet)
    requires forall s :: serialMonth(s).Some? ==> 1 <= serialMonth(s).value <= 12
    ensures r.Timesheet? ==>
              && |rows| >= 3 && year == Some(r.period.year)
              && |rows[1]| >= 6 && NamesMonth(Strip(rows[1][3]), serialMonth, r.period.month)
              && |rows[1]| > DaysInMonth(r.period.year, r.period.month) + 4
              && Accounted(rows, |rows|, DaysInMonth(r.period.year, r.period.month), read, r.records)
    ensures r.HeaderError? ==>
              || |rows| < 3 || |rows[1]| < 6 || year.None?
              || (forall m :: !NamesMonth(Strip(rows[1][3]), serialMonth, m))
              || (exists m :: NamesMonth(Strip(rows[1][3]), serialMonth, m)
                              && |rows[1]| <= DaysInMonth(year.value, m) + 4)
    ensures r.LineError? ==>
              && |rows| >= 3 && |rows[1]| >= 6 && year.Some?
              && exists m :: && NamesMonth(Strip(rows[1][3]), serialMonth, m)
                             && |rows[1]| > DaysInMonth(year.value, m) + 4
                             && FirstBadAt(rows, r.line, DaysInMonth(year.value, m), read)
  {
    hide Strip, Lower, Skipped, IsRecord;
    if |rows| < 3 || |rows[1]| < 6 { return HeaderError; }
    var header := rows[1];
    var firstDay := Strip(header[3]);
    var month := None;
    if DayMonth(firstDay) {
      month := MonthNumber(firstDay[|firstDay| - 3..]);
    } else {
      month := serialMonth(firstDay);
    }
    if month.None? || year.None? { return HeaderError; }
    assert NamesMonth(firstDay, serialMonth, month.value);
    var days := DaysInMonth(year.value, month.value);
    if |header| <= days + 4 { return HeaderError; }
    var records, bad := ReadLines(rows, days, read);
    if bad.Some? {
      AccountedIsNotBad(rows, bad.value - 1, days, read, records);
      assert FirstBadAt(rows, bad.value, days, read);
      return LineError(bad.value);
    }
    r := Timesheet(Period(year.value, month.value), records);
  }
}
