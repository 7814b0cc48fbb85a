/** Sums of the values of finite maps: SQL's SUM over the rows of a table. */
module Sums {

  /** The sum of all values of m. */
  ghost function Total<K(!new)>(m: map<K, int>): int
    decreases |m|
  {
    if m == map[] then 0
    else
      var k :| k in m;
      assert |m - {k}| < |m| by { assert (m - {k}).Keys == m.Keys - {k}; }
      m[k] + Total(m - {k})
  }

  /** The loop that adds up all values, in any order. */
  method SumValues<K(!new, ==)>(m: map<K, int>) returns (sum: int)
    ensures sum == Total(m)
  {
    var rest := m;
    sum := 0;
    while rest != map[]
      invariant sum + Total(rest) == Total(m)
      decreases |rest|
    {
      var k :| k in rest;
      TotalTake(rest, k);
      assert (rest - {k}).Keys == rest.Keys - {k};
      sum, rest := sum + rest[k], rest - {k};
    }
  }

  /** The order in which rows are added does not matter: any row may be taken first. */
  lemma {:induction false} TotalTake<K(!new)>(m: map<K, int>, k: K)
    requires k in m
    ensures Total(m) == m[k] + Total(m - {k})
    decreases |m|
  {
    var first :| first in m && Total(m) == m[first] + Total(m - {first});
    if first == k {
    } else {
      assert |m - {first}| < |m| by { assert (m - {first}).Keys == m.Keys - {first}; }
      assert |m - {k}| < |m| by { assert (m - {k}).Keys == m.Keys - {k}; }
      TotalTake(m - {first}, k);
      TotalTake(m - {k}, first);
      assert m - {first} - {k} == m - {k} - {first};
    }
  }

  lemma TotalAdd<K(!new)>(m: map<K, int>, k: K, v: int)
    requires k !in m
    ensures Total(m[k := v]) == v + Total(m)
  {
    TotalTake(m[k := v], k);
    assert m[k := v] - {k} == m;
  }

  /** Replacing one value moves the sum by the difference. */
  lemma TotalReplace<K(!new)>(m: map<K, int>, k: K, v: int)
    requires k in m
    ensures Total(m[k := v]) == Total(m) - m[k] + v
  {
    TotalTake(m, k);
    TotalTake(m[k := v], k);
    assert m[k := v] - {k} == m - {k};
  }

  /** Rows with values that are not negative: a part never sums to more than the whole. */
  lemma {:induction false} TotalOfPart<K(!new)>(part: map<K, int>, whole: map<K, int>)
    requires forall k :: k in part ==> k in whole && whole[k] == part[k]
    requires forall k :: k in whole ==> whole[k] >= 0
    ensures 0 <= Total(part) <= Total(whole)
    decreases |whole|
  {
    if whole == map[] {
    } else {
      var k :| k in whole;
      assert |whole - {k}| < |whole| by { assert (whole - {k}).Keys == whole.Keys - {k}; }
      TotalTake(whole, k);
      if k in part {
        TotalTake(part, k);
        TotalOfPart(part - {k}, whole - {k});
      } else {
        TotalOfPart(part, whole - {k});
      }
    }
  }

  /** Rows with positive values: a selection of the rows never sums to more than all of them, and to
      nothing only when it is empty. */
  lemma TotalOfSelection<K(!new)>(part: map<K, int>, whole: map<K, int>)
    requires forall k :: k in part ==> k in whole && whole[k] == part[k]
    requires forall k :: k in whole ==> whole[k] > 0
    ensures 0 <= Total(part) <= Total(whole)
    ensures Total(part) == 0 <==> part == map[]
  {
    TotalOfPart(part, whole);
    if k :| k in part {
      TotalTake(part, k);
      TotalOfPart(part - {k}, whole);
    }
  }
}
