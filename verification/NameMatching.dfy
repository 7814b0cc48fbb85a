/** Name normalization and exact matching of a source name to one employee. Text is taken as it is
    after Unicode compatibility decomposition (NFKD). */
module NameMatching {
  import opened AsciiText
  import opened Grouping
  import opened Options

  type Uuid = nat

  // --- normalize_name ---------------------------------------------------------------------------

  predicate Alnum(c: char) {
    'a' <= c <= 'z' || '0' <= c <= '9'
  }

  /** Non-ASCII characters are dropped, the rest is case-folded. */
  function Fold(s: string): string {
    if s == "" then ""
    else if s[0] as int < 128 then [LowerChar(s[0])] + Fold(s[1..])
    else Fold(s[1..])
  }

  function SkipOthers(s: string): (rest: string)
    ensures |rest| <= |s| && (rest != "" ==> Alnum(rest[0]))
    ensures s != "" && !Alnum(s[0]) ==> |rest| < |s|
  {
    if s == "" || Alnum(s[0]) then s else SkipOthers(s[1..])
  }

  /** Every run of other characters becomes one space. */
  function Collapse(s: string): string
    decreases |s|
  {
    if s == "" then ""
    else if Alnum(s[0]) then [s[0]] + Collapse(s[1..])
    else " " + Collapse(SkipOthers(s))
  }

  function UntilSpace(s: string): (word: string)
    ensures |word| <= |s| && (s != "" && s[0] != ' ' ==> word != "")
  {
    if s == "" || s[0] == ' ' then "" else [s[0]] + UntilSpace(s[1..])
  }

  function Split(s: string): seq<string>
    decreases |s|
  {
    if s == "" then []
    else if s[0] == ' ' then Split(s[1..])
    else [UntilSpace(s)] + Split(s[|UntilSpace(s)|..])
  }

  function Join(words: seq<string>): string {
    if words == [] then ""
    else if |words| == 1 then words[0]
    else words[0] + " " + Join(words[1..])
  }

  function NormalizeName(s: string): string {
    Join(Split(Collapse(Fold(s))))
  }

  // --- what a normalized name is -------------------------------------------------------------------

  /** Lower-case letters and digits in words separated by single spaces, none at the ends. */
  predicate Canonical(s: string) {
    && (forall i :: 0 <= i < |s| ==> Alnum(s[i]) || s[i] == ' ')
    && (s != "" ==> s[0] != ' ' && s[|s| - 1] != ' ')
    && (forall i :: 0 <= i < |s| - 1 ==> s[i] != ' ' || s[i + 1] != ' ')
  }

  function Run(s: string): (run: string)
    ensures |run| <= |s| && run == s[..|run|]
    ensures s != "" && Alnum(s[0]) ==> run != ""
    ensures |run| < |s| ==> !Alnum(s[|run|])
    ensures forall i :: 0 <= i < |run| ==> Alnum(run[i])
  {
    if s == "" || !Alnum(s[0]) then "" else [s[0]] + Run(s[1..])
  }

  /** The maximal runs of letters and digits, left to right. */
  function Words(s: string): seq<string>
    decreases |s|
  {
    if s == "" then []
    else if !Alnum(s[0]) then Words(s[1..])
    else [Run(s)] + Words(s[|Run(s)|..])
  }

  predicate Clean(words: seq<string>) {
    forall w :: w in words ==> w != "" && forall i :: 0 <= i < |w| ==> Alnum(w[i])
  }

  lemma {:induction false} WordsSkip(s: string)
    ensures Words(SkipOthers(s)) == Words(s)
  {
    if s == "" || Alnum(s[0]) {
    } else {
      WordsSkip(s[1..]);
    }
  }

  lemma {:induction false} CollapseRun(run: string, rest: string)
    requires forall i :: 0 <= i < |run| ==> Alnum(run[i])
    ensures Collapse(run + rest) == run + Collapse(rest)
  {
    if run == "" {
      assert run + rest == rest;
    } else {
      assert (run + rest)[1..] == run[1..] + rest;
      CollapseRun(run[1..], rest);
    }
  }

  lemma {:induction false} UntilSpaceTakesRun(run: string, rest: string)
    requires forall i :: 0 <= i < |run| ==> Alnum(run[i])
    requires rest != "" ==> rest[0] == ' '
    ensures UntilSpace(run + rest) == run
  {
    if run == "" {
      assert run + rest == rest;
    } else {
      assert (run + rest)[1..] == run[1..] + rest;
      UntilSpaceTakesRun(run[1..], rest);
    }
  }

  /** Substituting and splitting finds exactly the maximal runs. */
  lemma {:induction false} SplitOfCollapse(s: string)
    ensures Split(Collapse(s)) == Words(s)
    decreases |s|
  {
    if s == "" {
    } else {
      if Alnum(s[0]) {
        var run, rest := Run(s), s[|Run(s)|..];
        assert s == run + rest;
        CollapseRun(run, rest);
        UntilSpaceTakesRun(run, Collapse(rest));
        assert Collapse(s)[|run|..] == Collapse(rest);
        SplitOfCollapse(rest);
      } else {
        assert Collapse(s)[1..] == Collapse(SkipOthers(s));
        SplitOfCollapse(SkipOthers(s));
        WordsSkip(s);
      }
    }
  }

  lemma {:induction false} WordsAreClean(s: string)
    ensures Clean(Words(s))
    decreases |s|
  {
    if s == "" {
    } else {
      if Alnum(s[0]) { WordsAreClean(s[|Run(s)|..]); } else { WordsAreClean(s[1..]); }
    }
  }

  lemma {:induction false} RunOfPrefix(run: string, rest: string)
    requires forall i :: 0 <= i < |run| ==> Alnum(run[i])
    requires rest != "" ==> !Alnum(rest[0])
    ensures Run(run + rest) == run
  {
    if run != "" {
      assert (run + rest)[1..] == run[1..] + rest;
      RunOfPrefix(run[1..], rest);
    } else {
      assert run + rest == rest;
    }
  }

  lemma {:induction false} WordsOfJoin(words: seq<string>)
    requires Clean(words)
    ensures Words(Join(words)) == words
  {
    if words == [] {
    } else {
      var first, tail := words[0], words[1..];
      var rest := if tail == [] then "" else " " + Join(tail);
      assert Join(words) == first + rest;
      RunOfPrefix(first, rest);
      assert (first + rest)[|first|..] == rest;
      hide Run;
      if tail != [] {
        WordsOfJoin(tail);
        assert rest[1..] == Join(tail);
        assert Words(rest) == Words(Join(tail));
      }
    }
  }

  lemma {:induction false} JoinIsCanonical(words: seq<string>)
    requires Clean(words)
    ensures Canonical(Join(words)) && (words != [] ==> Join(words) != "")
  {
    if |words| > 1 {
      JoinIsCanonical(words[1..]);
      var first, rest := words[0], Join(words[1..]);
      var s := Join(words);
      assert s == first + " " + rest;
      forall i | 0 <= i < |s| - 1 ensures s[i] != ' ' || s[i + 1] != ' ' {
        if i > |first| { assert s[i] == rest[i - |first| - 1] && s[i + 1] == rest[i - |first|]; }
      }
    } else if |words| == 1 {
      assert words[0] in words;
    }
  }

  /** After its first word and one space, a canonical string goes on with a canonical string. */
  lemma CanonicalTail(run: string, rest: string)
    requires Canonical(run + rest) && rest != "" && rest[0] == ' '
    ensures rest[1..] != "" && Canonical(rest[1..]) && Alnum(rest[1])
  {
    var s := run + rest;
    forall i | 0 <= i < |rest| ensures rest[i] == s[|run| + i] {}
    assert s[|run|] == ' ' && s[|s| - 1] != ' ';
  }

  lemma {:induction false} CanonicalIsJoin(s: string)
    requires Canonical(s)
    ensures Join(Words(s)) == s
    decreases |s|
  {
    if s == "" {
    } else {
      var run, rest := Run(s), s[|Run(s)|..];
      assert s == run + rest && Words(s) == [run] + Words(rest);
      if rest != "" {
        assert rest[0] == s[|run|] == ' ';
        CanonicalTail(run, rest);
        CanonicalIsJoin(rest[1..]);
        assert Words(rest) == Words(rest[1..]) != [];
        assert Words(s)[1..] == Words(rest);
      }
    }
  }

  lemma {:induction false} FoldFixes(s: string)
    requires forall i :: 0 <= i < |s| ==> Alnum(s[i]) || s[i] == ' '
    ensures Fold(s) == s
  {
    if s == "" {
    } else {
      FoldFixes(s[1..]);
    }
  }

  /** Every normalized name is canonical, its words are those of the folded text in order, and the
      canonical strings are exactly the ones normalization leaves alone; so it is idempotent. */
  lemma NormalizeIsCanonical(s: string)
    ensures var n := NormalizeName(s);
      && Canonical(n) && Words(n) == Words(Fold(s)) && NormalizeName(n) == n
    ensures NormalizeName(s) == s <==> Canonical(s)
  {
    var words := Words(Fold(s));
    SplitOfCollapse(Fold(s));
    WordsAreClean(Fold(s));
    JoinIsCanonical(words);
    WordsOfJoin(words);
    NormalizeCanonical(NormalizeName(s));
    if Canonical(s) { NormalizeCanonical(s); }
  }

  lemma NormalizeCanonical(s: string)
    requires Canonical(s)
    ensures NormalizeName(s) == s
  {
    FoldFixes(s);
    SplitOfCollapse(s);
    CanonicalIsJoin(s);
  }

  /** Two names are taken for the same exactly when their folded words agree. */
  lemma SameNameIffSameWords(a: string, b: string)
    ensures NormalizeName(a) == NormalizeName(b) <==> Words(Fold(a)) == Words(Fold(b))
  {
    NormalizeIsCanonical(a);
    NormalizeIsCanonical(b);
    SplitOfCollapse(Fold(a));
    SplitOfCollapse(Fold(b));
  }

  /** Folding an ASCII text is putting it in lower case; any other character leaves no trace. */
  lemma {:induction false} FoldIsLower(s: string)
    requires forall i :: 0 <= i < |s| ==> s[i] as int < 128
    ensures Fold(s) == Lower(s)
  {
    if s == "" {
    } else {
      FoldIsLower(s[1..]);
      hide LowerChar;
      assert Lower(s) == [LowerChar(s[0])] + Lower(s[1..]);
    }
  }

  /** Names that differ in case only fold to the same. */
  lemma {:induction false} FoldIgnoresCase(s: string)
    ensures Fold(Upper(s)) == Fold(s) == Fold(Lower(s))
  {
    if s == "" {
    } else {
      FoldIgnoresCase(s[1..]);
      CaseIsLost(s[0]);
      hide LowerChar, UpperChar;
      assert Upper(s)[1..] == Upper(s[1..]) && Lower(s)[1..] == Lower(s[1..]);
      assert Upper(s)[0] == UpperChar(s[0]) && Lower(s)[0] == LowerChar(s[0]);
    }
  }

  lemma CaseIsLost(c: char)
    ensures LowerChar(UpperChar(c)) == LowerChar(c) == LowerChar(LowerChar(c))
    ensures UpperChar(c) as int < 128 <==> c as int < 128
    ensures LowerChar(c) as int < 128 <==> c as int < 128
  {
  }

  lemma {:induction false} FoldDrops(a: string, c: char, b: string)
    requires c as int >= 128
    ensures Fold(a + [c] + b) == Fold(a + b)
  {
    if a == "" {
      assert (a + [c] + b)[1..] == b && a + b == b;
    } else {
      FoldDrops(a[1..], c, b);
      assert (a + [c] + b)[1..] == a[1..] + [c] + b && (a + b)[1..] == a[1..] + b;
    }
  }

  lemma {:induction false} FoldJoins(a: string, b: string)
    ensures Fold(a + b) == Fold(a) + Fold(b)
  {
    if a == "" {
      assert a + b == b;
    } else {
      hide LowerChar;
      FoldJoins(a[1..], b);
      assert (a + b)[1..] == a[1..] + b && (a + b)[0] == a[0];
      assert [LowerChar(a[0])] + (Fold(a[1..]) + Fold(b)) == [LowerChar(a[0])] + Fold(a[1..]) + Fold(b);
    }
  }

  /** A character that is no letter and no digit ends a word. */
  lemma {:induction false} WordsAround(a: string, c: char, b: string)
    requires !Alnum(c)
    ensures Words(a + [c] + b) == Words(a) + Words(b)
    decreases |a|
  {
    var s := a + [c] + b;
    if a == "" {
      assert s[1..] == b;
    } else if !Alnum(a[0]) {
      assert s[1..] == a[1..] + [c] + b;
      WordsAround(a[1..], c, b);
    } else {
      var run := Run(a);
      RunBefore(a, [c] + b);
      assert a + ([c] + b) == s;
      assert s[|run|..] == a[|run|..] + [c] + b;
      WordsAround(a[|run|..], c, b);
    }
  }

  lemma {:induction false} RunBefore(a: string, rest: string)
    requires rest != "" && !Alnum(rest[0])
    ensures Run(a + rest) == Run(a)
  {
    if a == "" {
      assert a + rest == rest;
    } else {
      RunBefore(a[1..], rest);
      assert (a + rest)[1..] == a[1..] + rest;
    }
  }

  /** The words that are compared. */
  function NameWords(s: string): seq<string> {
    Words(Fold(s))
  }

  lemma NameWordsJoin(a: string, b: string)
    ensures NameWords(a + " " + b) == NameWords(a) + NameWords(b)
  {
    FoldJoins(a + " ", b);
    FoldJoins(a, " ");
    assert Fold(" ") == " " by { assert " "[1..] == ""; }
    assert Fold(a) + " " + Fold(b) == Fold(a) + [' '] + Fold(b);
    WordsAround(Fold(a), ' ', Fold(b));
  }

  // --- match_employee ---------------------------------------------------------------------------------

  datatype Employee = Employee(id: Uuid, first: Option<string>, middle: Option<string>,
                               last: Option<string>, preferred: Option<string>)

  function OrEmpty(s: Option<string>): string {
    if s.Some? then s.value else ""
  }

  function FullNames(e: Employee): set<string> {
    var first, middle, last := OrEmpty(e.first), OrEmpty(e.middle), OrEmpty(e.last);
    {first + " " + middle + " " + last, first + " " + last} +
    if OrEmpty(e.preferred) == "" then {}
    else {e.preferred.value + " " + middle + " " + last, e.preferred.value + " " + last}
  }

  function NameKeys(e: Employee): set<string> {
    set name | name in FullNames(e) && NormalizeName(name) != "" :: NormalizeName(name)
  }

  /** An employee goes by a name, in any case and spacing, if and only if its words are those of the first name,
      perhaps the middle name, and the last name, or the same with the preferred name where there is one. */
  lemma KeysAreWords(e: Employee, s: string)
    ensures var first, middle := NameWords(OrEmpty(e.first)), NameWords(OrEmpty(e.middle));
      var last := NameWords(OrEmpty(e.last));
      var preferred, words := NameWords(OrEmpty(e.preferred)), NameWords(s);
      NormalizeName(s) in NameKeys(e) <==>
        && words != []
        && (words == first + middle + last || words == first + last
            || (OrEmpty(e.preferred) != "" && (words == preferred + middle + last || words == preferred + last)))
  {
    hide NormalizeName, Words, Fold;
    var first, middle, last := OrEmpty(e.first), OrEmpty(e.middle), OrEmpty(e.last);
    var preferred := OrEmpty(e.preferred);
    FullNameWords(first, middle, last);
    FullNameWords(preferred, middle, last);
    EmptyIsWordless(s);
    forall name: string ensures NormalizeName(name) == NormalizeName(s) <==> NameWords(name) == NameWords(s) {
      SameNameIffSameWords(name, s);
    }
    assert first + " " + middle + " " + last in FullNames(e) && first + " " + last in FullNames(e);
    assert preferred != "" ==>
      preferred + " " + middle + " " + last in FullNames(e) && preferred + " " + last in FullNames(e);
    if NormalizeName(s) in NameKeys(e) {
      var name :| name in FullNames(e) && NormalizeName(name) == NormalizeName(s);
      assert NameWords(name) == NameWords(s);
    }
  }

  lemma FullNameWords(first: string, middle: string, last: string)
    ensures NameWords(first + " " + middle + " " + last) == NameWords(first) + NameWords(middle) + NameWords(last)
    ensures NameWords(first + " " + last) == NameWords(first) + NameWords(last)
  {
    NameWordsJoin(first + " " + middle, last);
    NameWordsJoin(first, middle);
    NameWordsJoin(first, last);
  }

  lemma EmptyIsWordless(s: string)
    ensures NormalizeName(s) == "" <==> NameWords(s) == []
  {
    SplitOfCollapse(Fold(s));
    WordsAreClean(Fold(s));
    JoinIsCanonical(Words(Fold(s)));
  }

  datatype Match =
    | Matched(employee: Employee)
    | InvalidMapping
    | NotInOrganization
    | Ambiguous(candidates: seq<Employee>)
    | NoMatch

  /** The optional mapping file: exact source names to identifiers, and how those are parsed. */
  datatype Mapping = Mapping(entries: map<string, string>, parseUuid: string -> Option<Uuid>)

  predicate Mapped(name: string, mapping: Mapping) {
    name in mapping.entries && mapping.entries[name] != ""
  }

  /** Which employees a normalized name, or a mapped identifier, picks out. */
  function Named(key: string): Employee -> bool {
    (e: Employee) => key in NameKeys(e)
  }

  function Identified(id: Uuid): Employee -> bool {
    (e: Employee) => e.id == id
  }

  function MatchEmployee(name: string, employees: seq<Employee>, mapping: Mapping): Match {
    if Mapped(name, mapping) then
      var selected := mapping.parseUuid(mapping.entries[name]);
      if selected.None? then InvalidMapping
      else
        var found := Select(employees, Identified(selected.value));
        if |found| == 1 then Matched(found[0]) else NotInOrganization
    else
      var found := Select(employees, Named(NormalizeName(name)));
      if |found| == 1 then Matched(found[0])
      else if |found| > 1 then Ambiguous(found)
      else NoMatch
  }

  /** The one position at which a condition holds. */
  ghost predicate OnlyAt(employees: seq<Employee>, keep: Employee -> bool, i: nat) {
    && i < |employees| && keep(employees[i])
    && forall j :: 0 <= j < |employees| && keep(employees[j]) ==> j == i
  }

  lemma SelectedCounts(employees: seq<Employee>, keep: Employee -> bool)
    ensures forall e :: multiset(Select(employees, keep))[e] == if keep(e) then multiset(employees)[e] else 0
    ensures forall e :: e in Select(employees, keep) ==> keep(e) && e in employees
  {
    forall e ensures multiset(Select(employees, keep))[e] == if keep(e) then multiset(employees)[e] else 0 {
      SelectedExactly(employees, keep, e);
    }
    SelectedAre(employees, keep);
  }

  lemma {:induction false} SelectOfOnly(employees: seq<Employee>, keep: Employee -> bool, i: nat)
    requires OnlyAt(employees, keep, i)
    ensures Select(employees, keep) == [employees[i]]
    decreases |employees|
  {
    var n := |employees| - 1;
    var front := employees[..n];
    if i == n {
      forall e | e in front ensures !keep(e) {
        var j :| 0 <= j < |front| && front[j] == e;
      }
      SelectConstant(front, keep, false);
    } else {
      SelectOfOnly(front, keep, i);
    }
  }

  lemma {:induction false} OnlyOfSelect(employees: seq<Employee>, keep: Employee -> bool) returns (i: nat)
    requires |Select(employees, keep)| == 1
    ensures OnlyAt(employees, keep, i)
    decreases |employees|
  {
    var n := |employees| - 1;
    var front := employees[..n];
    if keep(employees[n]) {
      i := n;
      forall j | 0 <= j < n ensures !keep(employees[j]) {
        SelectedExactly(front, keep, front[j]);
        assert front[j] in multiset(front);
      }
    } else {
      i := OnlyOfSelect(front, keep);
      assert forall j :: 0 <= j < n ==> front[j] == employees[j];
    }
  }

  /** An unmapped name selects an employee exactly when it is the name of one list entry only;
      an empty normalized name selects nobody. */
  lemma UnmappedMatchIsUnique(name: string, employees: seq<Employee>, mapping: Mapping)
    requires name !in mapping.entries || mapping.entries[name] == ""
    ensures MatchEmployee(name, employees, mapping).Matched? <==>
              exists i :: OnlyAt(employees, Named(NormalizeName(name)), i)
    ensures forall i: nat :: OnlyAt(employees, Named(NormalizeName(name)), i) ==>
              MatchEmployee(name, employees, mapping) == Matched(employees[i])
    ensures NormalizeName(name) == "" ==> MatchEmployee(name, employees, mapping) == NoMatch
    ensures (forall e :: e in employees ==> NormalizeName(name) !in NameKeys(e)) ==>
      MatchEmployee(name, employees, mapping) == NoMatch
    ensures (exists i, j :: 0 <= i < j < |employees| && NormalizeName(name) in NameKeys(employees[i])
                            && NormalizeName(name) in NameKeys(employees[j])) ==>
      MatchEmployee(name, employees, mapping).Ambiguous?
  {
    hide NameKeys, NormalizeName;
    var named := Named(NormalizeName(name));
    if forall e :: e in employees ==> !named(e) {
      SelectConstant(employees, named, false);
    }
    if i, j :| 0 <= i < j < |employees| && named(employees[i]) && named(employees[j]) {
      TwoSelected(employees, named, i, j);
    }
    forall i: nat | OnlyAt(employees, named, i) ensures Select(employees, named) == [employees[i]] {
      SelectOfOnly(employees, named, i);
    }
    if |Select(employees, named)| == 1 {
      var i := OnlyOfSelect(employees, named);
    }
    if NormalizeName(name) == "" && Select(employees, named) != [] {
      SelectedCounts(employees, named);
      EmptyNamesNobody(Select(employees, named)[0]);
    }
  }

  lemma TwoSelected(employees: seq<Employee>, keep: Employee -> bool, i: nat, j: nat)
    requires i < j < |employees| && keep(employees[i]) && keep(employees[j])
    ensures |Select(employees, keep)| >= 2
  {
    var a, b := employees[..j], employees[j..];
    assert employees == a + b;
    SelectJoins(a, b, keep);
    SelectedExactly(a, keep, employees[i]);
    SelectedExactly(b, keep, employees[j]);
    assert a[i] == employees[i] && employees[i] in multiset(a);
    assert b[0] == employees[j] && employees[j] in multiset(b);
    assert |Select(a, keep)| > 0 && |Select(b, keep)| > 0;
  }

  lemma EmptyNamesNobody(e: Employee)
    ensures !Named("")(e)
  {
  }

  /** A mapped name selects the one employee with that identifier, whatever the names are, and is refused
      otherwise. */
  lemma MappedMatchIsById(name: string, employees: seq<Employee>, mapping: Mapping)
    requires name in mapping.entries && mapping.entries[name] != ""
    requires forall i, j :: 0 <= i < j < |employees| ==> employees[i].id != employees[j].id
    ensures var id, m := mapping.parseUuid(mapping.entries[name]), MatchEmployee(name, employees, mapping);
      && (forall e :: m == Matched(e) <==> e in employees && id == Some(e.id))
      && (m == InvalidMapping <==> id.None?)
      && (m == NotInOrganization <==> id.Some? && forall e :: e in employees ==> e.id != id.value)
  {
    hide NameKeys, NormalizeName;
    var selected := mapping.parseUuid(mapping.entries[name]);
    if selected.Some? {
      var identified := Identified(selected.value);
      SelectedCounts(employees, identified);
      forall i: nat | i < |employees| && identified(employees[i])
        ensures Select(employees, identified) == [employees[i]]
      {
        SelectOfOnly(employees, identified, i);
      }
    }
  }

  lemma SingletonsAgree(a: seq<Employee>, b: seq<Employee>)
    requires multiset(a) == multiset(b)
    ensures |a| == |b| && (|a| == 1 ==> a == b)
  {
    assert |multiset(a)| == |a| && |multiset(b)| == |b|;
    if |a| == 1 {
      assert a == [a[0]] && b == [b[0]];
      assert multiset(a)[a[0]] == 1;
    }
  }

  lemma SelectIgnoresOrder(a: seq<Employee>, b: seq<Employee>, keep: Employee -> bool)
    requires multiset(a) == multiset(b)
    ensures multiset(Select(a, keep)) == multiset(Select(b, keep))
  {
    SelectedCounts(a, keep);
    SelectedCounts(b, keep);
  }

  /** The verdict, and the employee chosen, do not depend on the order of the employee list. */
  lemma MatchIgnoresOrder(name: string, a: seq<Employee>, b: seq<Employee>, mapping: Mapping)
    requires multiset(a) == multiset(b)
    ensures var x, y := MatchEmployee(name, a, mapping), MatchEmployee(name, b, mapping);
      if x.Ambiguous? then y.Ambiguous? && multiset(x.candidates) == multiset(y.candidates) else x == y
  {
    hide NameKeys, NormalizeName;
    if Mapped(name, mapping) {
      var selected := mapping.parseUuid(mapping.entries[name]);
      if selected.Some? {
        var byId := Identified(selected.value);
        SelectIgnoresOrder(a, b, byId);
        SingletonsAgree(Select(a, byId), Select(b, byId));
      }
    } else {
      var keyed := Named(NormalizeName(name));
      SelectIgnoresOrder(a, b, keyed);
      SingletonsAgree(Select(a, keyed), Select(b, keyed));
    }
  }

  /** Whoever is matched is on the list. */
  lemma MatchedIsListed(name: string, employees: seq<Employee>, mapping: Mapping)
    requires MatchEmployee(name, employees, mapping).Matched?
    ensures MatchEmployee(name, employees, mapping).employee in employees
  {
    hide NameKeys, NormalizeName;
    if Mapped(name, mapping) {
      SelectedCounts(employees, Identified(mapping.parseUuid(mapping.entries[name]).value));
    } else {
      SelectedCounts(employees, Named(NormalizeName(name)));
    }
  }
}
