/** What SQL's WHERE, SUM and GROUP BY make of a list of rows. */
module Grouping {
  import opened Options
  import opened Sums

  function Select<R>(rows: seq<R>, keep: R -> bool): seq<R>
    decreases |rows|
  {
    if rows == [] then []
    else
      var before, last := Select(rows[..|rows| - 1], keep), rows[|rows| - 1];
      if keep(last) then before + [last] else before
  }

  /** SUM over the rows whose weight is not null; null when there is none. */
  function SumOf<R>(rows: seq<R>, weight: R -> Option<int>): Option<int>
    decreases |rows|
  {
    if rows == [] then None
    else
      var before, last := SumOf(rows[..|rows| - 1], weight), weight(rows[|rows| - 1]);
      if last.None? then before
      else Some(Amount(before) + last.value)
  }

  /** COALESCE(x, 0). */
  function Amount(x: Option<int>): int {
    if x.Some? then x.value else 0
  }

  function KeysOf<R, K(==)>(rows: seq<R>, key: R -> K): set<K> {
    set i | 0 <= i < |rows| :: key(rows[i])
  }

  function OfGroup<R, K(==)>(rows: seq<R>, key: R -> K, k: K): seq<R> {
    Select(rows, r => key(r) == k)
  }

  /** GROUP BY key; null is a key like any other. */
  function Groups<R, K(==)>(rows: seq<R>, key: R -> K, weight: R -> Option<int>): map<K, Option<int>> {
    map k | k in KeysOf(rows, key) :: SumOf(OfGroup(rows, key, k), weight)
  }

  function Amounts<K(==)>(groups: map<K, Option<int>>): map<K, int> {
    map k | k in groups :: Amount(groups[k])
  }

  // --- selection ------------------------------------------------------------------------------------

  /** A selection holds each row that is kept as often as the table does, and no other. */
  lemma {:induction false} SelectedExactly<R>(rows: seq<R>, keep: R -> bool, r: R)
    ensures multiset(Select(rows, keep))[r] == if keep(r) then multiset(rows)[r] else 0
    decreases |rows|
  {
    if rows == [] {
    } else {
      SelectedExactly(rows[..|rows| - 1], keep, r);
      assert rows == rows[..|rows| - 1] + [rows[|rows| - 1]];
    }
  }

  lemma {:induction false} SelectAgrees<R>(rows: seq<R>, p: R -> bool, q: R -> bool)
    requires forall i :: 0 <= i < |rows| ==> p(rows[i]) == q(rows[i])
    ensures Select(rows, p) == Select(rows, q)
    decreases |rows|
  {
    if rows == [] {
    } else {
      SelectAgrees(rows[..|rows| - 1], p, q);
    }
  }

  lemma {:induction false} SelectedAtMost<R>(rows: seq<R>, keep: R -> bool)
    ensures |Select(rows, keep)| <= |rows|
    decreases |rows|
  {
    if rows == [] {
    } else {
      SelectedAtMost(rows[..|rows| - 1], keep);
    }
  }

  lemma SelectLast<R>(rows: seq<R>, last: R, keep: R -> bool)
    ensures Select(rows + [last], keep) == if keep(last) then Select(rows, keep) + [last] else Select(rows, keep)
  {
    assert (rows + [last])[..|rows|] == rows;
  }

  lemma {:induction false} SelectTwice<R>(rows: seq<R>, p: R -> bool, q: R -> bool, both: R -> bool)
    requires forall r: R :: both(r) == (p(r) && q(r))
    ensures Select(Select(rows, p), q) == Select(rows, both)
    decreases |rows|
  {
    if rows == [] {
    } else {
      var shorter, last := rows[..|rows| - 1], rows[|rows| - 1];
      SelectTwice(shorter, p, q, both);
      SelectLast(Select(shorter, p), last, q);
    }
  }

  /** Splitting a selection in two splits its length and its sum. */
  lemma {:induction false} SelectSplits<R>(rows: seq<R>, all: R -> bool, p: R -> bool, q: R -> bool,
                                           weight: R -> Option<int>)
    requires forall r: R :: all(r) == (p(r) || q(r)) && !(p(r) && q(r))
    ensures |Select(rows, all)| == |Select(rows, p)| + |Select(rows, q)|
    ensures Amount(SumOf(Select(rows, all), weight)) ==
            Amount(SumOf(Select(rows, p), weight)) + Amount(SumOf(Select(rows, q), weight))
    decreases |rows|
  {
    if rows == [] {
    } else {
      var shorter, last := rows[..|rows| - 1], rows[|rows| - 1];
      SelectSplits(shorter, all, p, q, weight);
      AmountOfNext(shorter, last, all, weight);
      AmountOfNext(shorter, last, p, weight);
      AmountOfNext(shorter, last, q, weight);
      assert rows == shorter + [last];
      hide SumOf, Select;
    }
  }

  lemma AmountOfNext<R>(rows: seq<R>, last: R, keep: R -> bool, weight: R -> Option<int>)
    ensures Amount(SumOf(Select(rows + [last], keep), weight)) ==
            Amount(SumOf(Select(rows, keep), weight)) + if keep(last) then Amount(weight(last)) else 0
    ensures |Select(rows + [last], keep)| == |Select(rows, keep)| + if keep(last) then 1 else 0
  {
    SelectLast(rows, last, keep);
    SumOfLast(Select(rows, keep), last, weight);
  }

  lemma SumOfLast<R>(rows: seq<R>, last: R, weight: R -> Option<int>)
    ensures SumOf(rows + [last], weight) ==
            if weight(last).None? then SumOf(rows, weight) else Some(Amount(SumOf(rows, weight)) + weight(last).value)
  {
    assert (rows + [last])[..|rows|] == rows;
  }

  lemma {:induction false} SumJoins<R>(a: seq<R>, b: seq<R>, weight: R -> Option<int>)
    ensures Amount(SumOf(a + b, weight)) == Amount(SumOf(a, weight)) + Amount(SumOf(b, weight))
    decreases |b|
  {
    if b == [] {
      assert a + b == a;
    } else {
      SumJoins(a, b[..|b| - 1], weight);
      assert a + b == a + b[..|b| - 1] + [b[|b| - 1]];
      SumOfLast(a + b[..|b| - 1], b[|b| - 1], weight);
    }
  }

  lemma {:induction false} SelectJoins<R>(a: seq<R>, b: seq<R>, keep: R -> bool)
    ensures Select(a + b, keep) == Select(a, keep) + Select(b, keep)
    decreases |b|
  {
    if b == [] {
      assert a + b == a;
    } else {
      SelectJoins(a, b[..|b| - 1], keep);
      assert (a + b)[..|a + b| - 1] == a + b[..|b| - 1];
    }
  }

  lemma {:induction false} SelectConstant<R>(rows: seq<R>, keep: R -> bool, all: bool)
    requires forall r :: r in rows ==> keep(r) == all
    ensures Select(rows, keep) == if all then rows else []
    decreases |rows|
  {
    if rows == [] {
    } else {
      SelectConstant(rows[..|rows| - 1], keep, all);
    }
  }

  lemma {:induction false} SelectedAre<R>(rows: seq<R>, keep: R -> bool)
    ensures forall r :: r in Select(rows, keep) ==> r in rows && keep(r)
    decreases |rows|
  {
    if rows == [] {
    } else {
      SelectedAre(rows[..|rows| - 1], keep);
    }
  }

  // --- grouping ---------------------------------------------------------------------------------------

  /** One more row changes its own group only. */
  lemma GroupsOfLast<R, K>(rows: seq<R>, last: R, key: R -> K, weight: R -> Option<int>)
    ensures var g := key(last);
      var before, after := Groups(rows, key, weight), Groups(rows + [last], key, weight);
      && after.Keys == before.Keys + {g}
      && (forall k :: k in before && k != g ==> after[k] == before[k])
      && after[g] == SumOf(OfGroup(rows, key, g) + [last], weight)
      && (g !in before ==> OfGroup(rows, key, g) == [])
  {
    hide OfGroup, SumOf, KeysOf;
    var g := key(last);
    var before, after := Groups(rows, key, weight), Groups(rows + [last], key, weight);
    KeysOfLast(rows, last, key);
    GroupOfLast(rows, last, key, g);
    forall k | k in before && k != g ensures after[k] == before[k] {
      GroupOfLast(rows, last, key, k);
    }
    if g !in KeysOf(rows, key) {
      NoGroup(rows, key, g);
    }
  }

  lemma KeysOfLast<R, K>(rows: seq<R>, last: R, key: R -> K)
    ensures KeysOf(rows + [last], key) == KeysOf(rows, key) + {key(last)}
  {
    var all := rows + [last];
    assert key(all[|rows|]) == key(last);
    forall k | k in KeysOf(rows, key) ensures k in KeysOf(all, key) {
      var i :| 0 <= i < |rows| && key(rows[i]) == k;
      assert key(all[i]) == k;
    }
  }

  lemma GroupOfLast<R, K>(rows: seq<R>, last: R, key: R -> K, k: K)
    ensures OfGroup(rows + [last], key, k) ==
            if key(last) == k then OfGroup(rows, key, k) + [last] else OfGroup(rows, key, k)
  {
    SelectLast(rows, last, r => key(r) == k);
  }

  lemma NoGroup<R, K>(rows: seq<R>, key: R -> K, k: K)
    requires k !in KeysOf(rows, key)
    ensures OfGroup(rows, key, k) == []
  {
    forall r | r in rows ensures key(r) != k {
      var i :| 0 <= i < |rows| && rows[i] == r;
    }
    SelectConstant(rows, r => key(r) == k, false);
  }

  /** Grouping conserves: the group sums add up to the sum of all rows, which is null exactly when
      every group's is. */
  lemma {:induction false} GroupsConserve<R, K(!new)>(rows: seq<R>, key: R -> K, weight: R -> Option<int>)
    ensures Total(Amounts(Groups(rows, key, weight))) == Amount(SumOf(rows, weight))
    ensures SumOf(rows, weight).None? <==>
      forall k :: k in Groups(rows, key, weight) ==> Groups(rows, key, weight)[k].None?
    decreases |rows|
  {
    if rows == [] {
    } else {
      var shorter, last := rows[..|rows| - 1], rows[|rows| - 1];
      assert rows == shorter + [last];
      GroupsConserve(shorter, key, weight);
      GroupsOfLast(shorter, last, key, weight);
      GrowGroup(shorter, last, key, weight);
    }
  }

  lemma GrowGroup<R, K(!new)>(rows: seq<R>, last: R, key: R -> K, weight: R -> Option<int>)
    ensures var before, after := Groups(rows, key, weight), Groups(rows + [last], key, weight);
      && Total(Amounts(after)) == Total(Amounts(before)) + Amount(weight(last))
      && ((forall k :: k in after ==> after[k].None?) <==>
          (forall k :: k in before ==> before[k].None?) && weight(last).None?)
  {
    var g := key(last);
    var before, after := Groups(rows, key, weight), Groups(rows + [last], key, weight);
    GroupsOfLast(rows, last, key, weight);
    GroupOfLastSum(rows, last, key, weight);
    hide Groups, OfGroup, SumOf;
    TotalOfChange(before, after, g);
    if weight(last).None? && forall k :: k in before ==> before[k].None? {
      assert forall k :: k in after ==> k == g || k in before;
    } else if g !in before || weight(last).Some? {
      assert g in after;
    }
  }

  lemma TotalOfChange<K(!new)>(before: map<K, Option<int>>, after: map<K, Option<int>>, g: K)
    requires after.Keys == before.Keys + {g} && forall k :: k in before && k != g ==> after[k] == before[k]
    ensures Total(Amounts(after)) ==
            Total(Amounts(before)) + Amount(after[g]) - if g in before then Amount(before[g]) else 0
  {
    assert Amounts(after) == Amounts(before)[g := Amount(after[g])];
    if g in before {
      TotalReplace(Amounts(before), g, Amount(after[g]));
    } else {
      TotalAdd(Amounts(before), g, Amount(after[g]));
    }
  }

  lemma GroupOfLastSum<R, K>(rows: seq<R>, last: R, key: R -> K, weight: R -> Option<int>)
    ensures var before, after := Groups(rows, key, weight), Groups(rows + [last], key, weight);
      var g := key(last);
      && g in after
      && Amount(after[g]) == (if g in before then Amount(before[g]) else 0) + Amount(weight(last))
      && (after[g].None? <==> (g in before ==> before[g].None?) && weight(last).None?)
  {
    var g := key(last);
    GroupsOfLast(rows, last, key, weight);
    GroupOf(rows, key, weight, g);
    SumOfLast(OfGroup(rows, key, g), last, weight);
    assert g !in Groups(rows, key, weight) ==> SumOf<R>([], weight) == None;
    hide Groups, OfGroup, SumOf;
  }

  lemma GroupOf<R, K>(rows: seq<R>, key: R -> K, weight: R -> Option<int>, g: K)
    ensures var groups := Groups(rows, key, weight);
      g in groups ==> groups[g] == SumOf(OfGroup(rows, key, g), weight)
  {
  }

  lemma MemberIsSelected<R, K>(rows: seq<R>, i: nat, key: R -> K, k: K)
    requires i < |rows| && key(rows[i]) == k
    ensures rows[i] in OfGroup(rows, key, k)
  {
    SelectedExactly(rows, r => key(r) == k, rows[i]);
    assert rows[i] in multiset(rows);
    assert rows[i] in multiset(OfGroup(rows, key, k));
  }

  lemma KeysJoin<R, K>(a: seq<R>, b: seq<R>, key: R -> K)
    ensures KeysOf(a + b, key) == KeysOf(a, key) + KeysOf(b, key)
  {
    forall i | 0 <= i < |a| ensures key(a[i]) in KeysOf(a + b, key) { assert key((a + b)[i]) == key(a[i]); }
    forall i | 0 <= i < |b| ensures key(b[i]) in KeysOf(a + b, key) { assert key((a + b)[|a| + i]) == key(b[i]); }
  }

  lemma {:induction false} NotNegativeSum<R>(rows: seq<R>, weight: R -> Option<int>)
    requires forall r :: r in rows ==> Amount(weight(r)) >= 0
    ensures Amount(SumOf(rows, weight)) >= 0
    decreases |rows|
  {
    if rows == [] {
    } else {
      NotNegativeSum(rows[..|rows| - 1], weight);
    }
  }

  lemma GroupsNotNegative<R, K>(rows: seq<R>, key: R -> K, weight: R -> Option<int>)
    requires forall r :: r in rows ==> Amount(weight(r)) >= 0
    ensures var totals := Amounts(Groups(rows, key, weight)); forall k :: k in totals ==> totals[k] >= 0
  {
    forall k | k in Groups(rows, key, weight) ensures Amount(Groups(rows, key, weight)[k]) >= 0 {
      SelectedAre(rows, r => key(r) == k);
      NotNegativeSum(OfGroup(rows, key, k), weight);
      hide SumOf, Select;
    }
  }
}
