/** The fleet and inventory summaries: totals next to breakdowns and limited listings. */
module Summaries {
  import opened Options
  import opened Sums
  import opened Grouping

  type Uuid = nat

  function One<R>(r: R): Option<int> {
    Some(1)
  }

  // --- fleet --------------------------------------------------------------------------------------------

  datatype Asset = Asset(id: Uuid, organization: Uuid, archived: bool, status: string)

  function InFleet(organization: Uuid): Asset -> bool {
    (a: Asset) => a.organization == organization && !a.archived
  }

  function StatusOf(a: Asset): string {
    a.status
  }

  predicate Operates(a: Asset) {
    a.status == "OPERATING" || a.status == "AVAILABLE"
  }

  /** The total is the sum of the breakdown and counts every asset of the fleet once; each status is
      listed with the number of its assets; those operating are some of the total. */
  method FleetSummary(assets: seq<Asset>, organization: Uuid)
    returns (total: int, breakdown: map<string, int>, operating: int)
    ensures var fleet := Select(assets, InFleet(organization));
      && total == Total(breakdown) == |fleet|
      && (forall s :: s in breakdown <==> exists i :: 0 <= i < |fleet| && fleet[i].status == s)
      && (forall s :: s in breakdown ==> breakdown[s] == |OfGroup(fleet, StatusOf, s)| > 0)
      && operating == |Select(fleet, Operates)|
      && 0 <= operating <= total
    ensures total == |Select(assets, (a: Asset) => a.organization == organization && !a.archived)|
    ensures operating == |Select(assets, (a: Asset) => a.organization == organization && !a.archived
                                                       && (a.status == "OPERATING" || a.status == "AVAILABLE"))|
  {
    FleetByFields(assets, organization);
    var fleet := Select(assets, InFleet(organization));
    breakdown := Amounts(Groups(fleet, StatusOf, One));
    BreakdownCounts(fleet);
    OperatingSplits(fleet);
    hide Select, Groups, OfGroup, Operates;
    total := SumValues(breakdown);
    operating := (if "OPERATING" in breakdown then breakdown["OPERATING"] else 0) +
                 (if "AVAILABLE" in breakdown then breakdown["AVAILABLE"] else 0);
  }

  lemma FleetByFields(assets: seq<Asset>, organization: Uuid)
    ensures |Select(assets, InFleet(organization))| ==
            |Select(assets, (a: Asset) => a.organization == organization && !a.archived)|
    ensures |Select(Select(assets, InFleet(organization)), Operates)| ==
            |Select(assets, (a: Asset) => a.organization == organization && !a.archived
                                          && (a.status == "OPERATING" || a.status == "AVAILABLE"))|
  {
    var p := (a: Asset) => a.organization == organization && !a.archived;
    var q := (a: Asset) => a.organization == organization && !a.archived
                           && (a.status == "OPERATING" || a.status == "AVAILABLE");
    SelectAgrees(assets, InFleet(organization), p);
    SelectTwice(assets, InFleet(organization), Operates, q);
    SelectAgrees(assets, (a: Asset) => a.organization == organization && !a.archived, p);
    SelectAgrees(assets, (a: Asset) => a.organization == organization && !a.archived
                                       && (a.status == "OPERATING" || a.status == "AVAILABLE"), q);
    hide Select;
  }

  lemma BreakdownCounts(fleet: seq<Asset>)
    ensures var breakdown := Amounts(Groups(fleet, StatusOf, One));
      && Total(breakdown) == |fleet|
      && (forall s :: s in breakdown <==> exists i :: 0 <= i < |fleet| && fleet[i].status == s)
      && (forall s :: (if s in breakdown then breakdown[s] else 0) == |OfGroup(fleet, StatusOf, s)|)
      && (forall s :: s in breakdown ==> |OfGroup(fleet, StatusOf, s)| > 0)
  {
    var breakdown := Amounts(Groups(fleet, StatusOf, One));
    assert breakdown.Keys == KeysOf(fleet, StatusOf);
    GroupsConserve(fleet, StatusOf, One);
    CountIsLength(fleet);
    hide Groups, OfGroup, SumOf;
    forall s
      ensures s in breakdown <==> exists i :: 0 <= i < |fleet| && fleet[i].status == s
      ensures (if s in breakdown then breakdown[s] else 0) == |OfGroup(fleet, StatusOf, s)|
      ensures s in breakdown ==> |OfGroup(fleet, StatusOf, s)| > 0
    {
      StatusCount(fleet, s);
      if s in breakdown {
        var i :| 0 <= i < |fleet| && StatusOf(fleet[i]) == s;
        assert fleet[i].status == s;
      }
      if i :| 0 <= i < |fleet| && fleet[i].status == s {
        assert StatusOf(fleet[i]) in KeysOf(fleet, StatusOf);
      }
    }
  }

  lemma {:induction false} CountIsLength<R>(rows: seq<R>)
    ensures Amount(SumOf(rows, One)) == |rows|
    decreases |rows|
  {
    if rows == [] {
    } else {
      CountIsLength(rows[..|rows| - 1]);
    }
  }

  lemma StatusCount(fleet: seq<Asset>, s: string)
    ensures var breakdown := Amounts(Groups(fleet, StatusOf, One));
      && (if s in breakdown then breakdown[s] else 0) == |OfGroup(fleet, StatusOf, s)|
      && (s in breakdown ==> |OfGroup(fleet, StatusOf, s)| > 0)
  {
    CountIsLength(OfGroup(fleet, StatusOf, s));
    if s in KeysOf(fleet, StatusOf) {
      var i :| 0 <= i < |fleet| && StatusOf(fleet[i]) == s;
      MemberIsSelected(fleet, i, StatusOf, s);
    } else {
      NoGroup(fleet, StatusOf, s);
    }
  }

  lemma OperatingSplits(fleet: seq<Asset>)
    ensures |Select(fleet, Operates)| ==
            |OfGroup(fleet, StatusOf, "OPERATING")| + |OfGroup(fleet, StatusOf, "AVAILABLE")|
    ensures |Select(fleet, Operates)| <= |fleet|
  {
    SelectSplits(fleet, Operates, a => StatusOf(a) == "OPERATING", a => StatusOf(a) == "AVAILABLE", One);
    SelectedAtMost(fleet, Operates);
    hide Select, SumOf;
  }

  // --- inventory ------------------------------------------------------------------------------------------

  datatype Item = Item(id: Uuid, organization: Uuid, archived: bool, category: Uuid)
  datatype Balance = Balance(item: Uuid, onHand: int, value: int)

  /** A row of items LEFT JOIN balances. */
  datatype Joined = Joined(item: Item, balance: Option<Balance>)

  function WithItem(item: Item, balances: seq<Balance>): seq<Joined> {
    seq(|balances|, i requires 0 <= i < |balances| => Joined(item, Some(balances[i])))
  }

  function Holds(item: Uuid): Balance -> bool {
    (b: Balance) => b.item == item
  }

  /** An item's rows of the join: one per balance, or one without. */
  function RowsOf(item: Item, balances: seq<Balance>): (rows: seq<Joined>)
    ensures rows != [] && forall r :: r in rows ==> r.item == item
  {
    var own := Select(balances, Holds(item.id));
    if own == [] then [Joined(item, None)] else WithItem(item, own)
  }

  function LeftJoin(items: seq<Item>, balances: seq<Balance>): seq<Joined>
    decreases |items|
  {
    if items == [] then []
    else LeftJoin(items[..|items| - 1], balances) + RowsOf(items[|items| - 1], balances)
  }

  type Measure = Balance -> int

  /** A measure of the balance side, null where there is none. */
  function Lifted(measure: Measure): Joined -> Option<int> {
    (r: Joined) => if r.balance.Some? then Some(measure(r.balance.value)) else None
  }

  function Weighed(measure: Measure): Balance -> Option<int> {
    (b: Balance) => Some(measure(b))
  }

  function ItemId(r: Joined): Uuid {
    r.item.id
  }

  function Ids(items: seq<Item>): set<Uuid> {
    set i | 0 <= i < |items| :: items[i].id
  }

  predicate UniqueIds(items: seq<Item>) {
    forall i, j :: 0 <= i < j < |items| ==> items[i].id != items[j].id
  }

  function HeldBy(items: set<Uuid>): Balance -> bool {
    (b: Balance) => b.item in items
  }

  /** The sum over the balances of some items, each counted once. */
  function Stock(balances: seq<Balance>, items: set<Uuid>, measure: Measure): int {
    Amount(SumOf(Select(balances, HeldBy(items)), Weighed(measure)))
  }

  function InScope(organization: Uuid): Item -> bool {
    (i: Item) => i.organization == organization && !i.archived
  }

  /** COALESCE(SUM(measure), 0) over the join of the items selected. */
  function JoinTotal(items: seq<Item>, balances: seq<Balance>, keep: Item -> bool, measure: Measure): int {
    Amount(SumOf(Select(LeftJoin(items, balances), (r: Joined) => keep(r.item)), Lifted(measure)))
  }

  /** COUNT(DISTINCT id) over that join. */
  function JoinCount(items: seq<Item>, balances: seq<Balance>, keep: Item -> bool): nat {
    |KeysOf(Select(LeftJoin(items, balances), (r: Joined) => keep(r.item)), ItemId)|
  }

  /** The measure of every item selected, GROUP BY its id. */
  function ItemTotals(items: seq<Item>, balances: seq<Balance>, keep: Item -> bool, measure: Measure): map<Uuid, int> {
    Amounts(Groups(Select(LeftJoin(items, balances), (r: Joined) => keep(r.item)), ItemId, Lifted(measure)))
  }

  // --- selecting before the join or after it ----------------------------------------------------------

  lemma {:induction false} JoinOfSelected(items: seq<Item>, balances: seq<Balance>, keep: Item -> bool)
    ensures Select(LeftJoin(items, balances), (r: Joined) => keep(r.item)) == LeftJoin(Select(items, keep), balances)
    decreases |items|
  {
    if items == [] {
    } else {
      var shorter, last := items[..|items| - 1], items[|items| - 1];
      var kept := (r: Joined) => keep(r.item);
      JoinOfSelected(shorter, balances, keep);
      SelectAgrees(LeftJoin(shorter, balances), kept, (r: Joined) => keep(r.item));
      SelectAgrees(LeftJoin(items, balances), kept, (r: Joined) => keep(r.item));
      SelectJoins(LeftJoin(shorter, balances), RowsOf(last, balances), kept);
      SelectConstant(RowsOf(last, balances), kept, keep(last));
      if keep(last) {
        assert (Select(shorter, keep) + [last])[..|Select(shorter, keep)|] == Select(shorter, keep);
      }
      hide RowsOf;
    }
  }

  // --- what the join counts -------------------------------------------------------------------------------

  lemma IdsOfLast(items: seq<Item>)
    requires items != []
    ensures Ids(items) == Ids(items[..|items| - 1]) + {items[|items| - 1].id}
  {
    var shorter := items[..|items| - 1];
    forall i | 0 <= i < |shorter| ensures shorter[i].id in Ids(items) { assert items[i].id == shorter[i].id; }
  }

  lemma KeysOfRows(item: Item, balances: seq<Balance>)
    ensures KeysOf(RowsOf(item, balances), ItemId) == {item.id}
  {
    var rows := RowsOf(item, balances);
    assert ItemId(rows[0]) == item.id;
    hide RowsOf;
  }

  lemma {:induction false} SumOfItem(item: Item, own: seq<Balance>, measure: Measure)
    ensures SumOf(WithItem(item, own), Lifted(measure)) == SumOf(own, Weighed(measure))
    decreases |own|
  {
    if own == [] {
    } else {
      SumOfItem(item, own[..|own| - 1], measure);
      assert WithItem(item, own)[..|own| - 1] == WithItem(item, own[..|own| - 1]);
    }
  }

  lemma SumOfRows(item: Item, balances: seq<Balance>, measure: Measure)
    ensures Amount(SumOf(RowsOf(item, balances), Lifted(measure))) == Stock(balances, {item.id}, measure)
  {
    SelectAgrees(balances, Holds(item.id), HeldBy({item.id}));
    SumOfItem(item, Select(balances, Holds(item.id)), measure);
    assert SumOf<Joined>([], Lifted(measure)) == None;
    assert [Joined(item, None)][..0] == [];
    hide Select;
  }

  /** However many balances an item has, the join counts every balance of its items exactly once. */
  lemma {:induction false} JoinSumsBalances(items: seq<Item>, balances: seq<Balance>, measure: Measure)
    requires UniqueIds(items)
    ensures Amount(SumOf(LeftJoin(items, balances), Lifted(measure))) == Stock(balances, Ids(items), measure)
    decreases |items|
  {
    if items == [] {
      SelectConstant(balances, HeldBy(Ids(items)), false);
    } else {
      var shorter, last := items[..|items| - 1], items[|items| - 1];
      JoinSumsBalances(shorter, balances, measure);
      SumJoins(LeftJoin(shorter, balances), RowsOf(last, balances), Lifted(measure));
      SumOfRows(last, balances, measure);
      assert last.id !in Ids(shorter);
      StockSplits(balances, Ids(shorter), last.id, measure);
      IdsOfLast(items);
      hide Stock, SumOf, RowsOf, Ids;
    }
  }

  lemma StockSplits(balances: seq<Balance>, some: set<Uuid>, one: Uuid, measure: Measure)
    requires one !in some
    ensures Stock(balances, some + {one}, measure) ==
            Stock(balances, some, measure) + Stock(balances, {one}, measure)
  {
    SelectSplits(balances, HeldBy(some + {one}), HeldBy(some), HeldBy({one}), Weighed(measure));
  }

  lemma {:induction false} JoinKeys(items: seq<Item>, balances: seq<Balance>)
    ensures KeysOf(LeftJoin(items, balances), ItemId) == Ids(items)
    decreases |items|
  {
    if items == [] {
    } else {
      var shorter, last := items[..|items| - 1], items[|items| - 1];
      JoinKeys(shorter, balances);
      KeysJoin(LeftJoin(shorter, balances), RowsOf(last, balances), ItemId);
      KeysOfRows(last, balances);
      IdsOfLast(items);
      hide KeysOf, RowsOf, Ids;
    }
  }

  lemma {:induction false} IdsAreCounted(items: seq<Item>)
    requires UniqueIds(items)
    ensures |Ids(items)| == |items|
    decreases |items|
  {
    if items == [] {
    } else {
      var shorter, last := items[..|items| - 1], items[|items| - 1];
      IdsAreCounted(shorter);
      IdsOfLast(items);
    }
  }

  lemma {:induction false} SelectedStayUnique(items: seq<Item>, keep: Item -> bool)
    requires UniqueIds(items)
    ensures UniqueIds(Select(items, keep)) && Ids(Select(items, keep)) <= Ids(items)
    decreases |items|
  {
    if items == [] {
    } else {
      var shorter, last := items[..|items| - 1], items[|items| - 1];
      SelectedStayUnique(shorter, keep);
      assert last.id !in Ids(shorter);
      forall i | 0 <= i < |shorter| ensures shorter[i].id in Ids(items) { assert items[i].id == shorter[i].id; }
      forall i | 0 <= i < |Select(items, keep)| ensures Select(items, keep)[i].id in Ids(items) {
        if i < |Select(shorter, keep)| {
          assert Select(shorter, keep)[i].id in Ids(shorter);
        }
      }
    }
  }

  /** The totals count each selected item once, whatever its fan-out, and each of their balances once. */
  lemma TotalsCountOnce(items: seq<Item>, balances: seq<Balance>, keep: Item -> bool, measure: Measure)
    requires UniqueIds(items)
    ensures JoinCount(items, balances, keep) == |Select(items, keep)|
    ensures JoinTotal(items, balances, keep, measure) == Stock(balances, Ids(Select(items, keep)), measure)
  {
    hide Stock, LeftJoin, Select;
    JoinOfSelected(items, balances, keep);
    SelectedStayUnique(items, keep);
    JoinKeys(Select(items, keep), balances);
    IdsAreCounted(Select(items, keep));
    JoinSumsBalances(Select(items, keep), balances, measure);
  }

  /** The grouped listing, before its limit, has every selected item once, and adds up to their total. */
  lemma ItemTotalsAddUp(items: seq<Item>, balances: seq<Balance>, keep: Item -> bool, measure: Measure)
    requires UniqueIds(items)
    ensures var totals := ItemTotals(items, balances, keep, measure);
      && totals.Keys == Ids(Select(items, keep)) && |totals| == |Select(items, keep)|
      && Total(totals) == JoinTotal(items, balances, keep, measure)
  {
    var rows := Select(LeftJoin(items, balances), (r: Joined) => keep(r.item));
    GroupsConserve(rows, ItemId, Lifted(measure));
    JoinOfSelected(items, balances, keep);
    JoinKeys(Select(items, keep), balances);
    SelectedStayUnique(items, keep);
    IdsAreCounted(Select(items, keep));
    hide LeftJoin, Select;
    var totals := ItemTotals(items, balances, keep, measure);
    assert totals.Keys == Ids(Select(items, keep));
    assert |totals| == |totals.Keys|;
  }

  // --- the listing and its limit ------------------------------------------------------------------------

  const MAX_LISTED := 30

  function Limit(asked: nat): nat {
    if asked < MAX_LISTED then asked else MAX_LISTED
  }

  /** Without an order, LIMIT may show any of the groups. */
  ghost predicate MayList(totals: map<Uuid, int>, listed: map<Uuid, int>, limit: nat) {
    && (forall i :: i in listed ==> i in totals && listed[i] == totals[i])
    && |listed| == if |totals| <= limit then |totals| else limit
  }

  function InCategory(organization: Uuid, category: Item -> bool): Item -> bool {
    (i: Item) => InScope(organization)(i) && category(i)
  }

  function OnHand(b: Balance): int {
    b.onHand
  }

  /** Whatever the category and the limit, and whichever groups are shown, the quantities listed add up
      to no more than the total on hand. */
  lemma ListedIsPartOfTotal(items: seq<Item>, balances: seq<Balance>, organization: Uuid, category: Item -> bool,
                            asked: nat, listed: map<Uuid, int>)
    requires UniqueIds(items) && forall b :: b in balances ==> b.onHand >= 0
    requires MayList(ItemTotals(items, balances, InCategory(organization, category), OnHand), listed, Limit(asked))
    ensures |listed| <= MAX_LISTED
    ensures 0 <= Total(listed) <= JoinTotal(items, balances, InScope(organization), OnHand)
  {
    hide Stock, JoinTotal, ItemTotals, Select, Ids;
    var keep := InCategory(organization, category);
    ItemTotalsAddUp(items, balances, keep, OnHand);
    ItemTotalsNotNegative(items, balances, keep);
    TotalOfPart(listed, ItemTotals(items, balances, keep, OnHand));
    TotalsCountOnce(items, balances, keep, OnHand);
    TotalsCountOnce(items, balances, InScope(organization), OnHand);
    NarrowerIds(items, keep, InScope(organization));
    MoreItemsHoldMore(balances, Ids(Select(items, keep)), Ids(Select(items, InScope(organization))));
  }

  /** With no category and room for every item, what is listed adds up to the total, in any measure. */
  lemma FullListingIsTotal(items: seq<Item>, balances: seq<Balance>, organization: Uuid, measure: Measure,
                           asked: nat, listed: map<Uuid, int>)
    requires UniqueIds(items) && JoinCount(items, balances, InScope(organization)) <= Limit(asked)
    requires MayList(ItemTotals(items, balances, InScope(organization), measure), listed, Limit(asked))
    ensures Total(listed) == JoinTotal(items, balances, InScope(organization), measure)
    ensures listed.Keys == Ids(Select(items, InScope(organization)))
    ensures forall id :: id in listed <==> exists i :: i in items && i.id == id && i.organization == organization
                                                       && !i.archived
  {
    ScopeByFields(items, organization);
    hide JoinTotal, ItemTotals, JoinCount, Select, Ids;
    var totals := ItemTotals(items, balances, InScope(organization), measure);
    ItemTotalsAddUp(items, balances, InScope(organization), measure);
    TotalsCountOnce(items, balances, InScope(organization), measure);
    assert listed.Keys == totals.Keys by {
      assert listed.Keys <= totals.Keys && |listed.Keys| == |totals.Keys|;
      SameSize(listed.Keys, totals.Keys);
    }
    assert listed == totals;
  }

  lemma ScopeByFields(items: seq<Item>, organization: Uuid)
    ensures forall id :: id in Ids(Select(items, InScope(organization))) <==>
      exists i :: i in items && i.id == id && i.organization == organization && !i.archived
  {
    var scope := Select(items, InScope(organization));
    SelectedAre(items, InScope(organization));
    hide Select;
    forall i | i in items && i.organization == organization && !i.archived ensures i.id in Ids(scope) {
      SelectedExactly(items, InScope(organization), i);
      assert i in multiset(items) && i in multiset(scope);
      var k :| 0 <= k < |scope| && scope[k] == i;
      assert scope[k].id == i.id;
    }
    forall k | 0 <= k < |scope|
      ensures exists i :: i in items && i.id == scope[k].id && i.organization == organization && !i.archived
    {
      assert scope[k] in scope;
    }
  }

  lemma SameSize<T>(part: set<T>, whole: set<T>)
    requires part <= whole && |part| == |whole|
    ensures part == whole
  {
    assert whole == part + (whole - part);
  }

  lemma ItemTotalsNotNegative(items: seq<Item>, balances: seq<Balance>, keep: Item -> bool)
    requires UniqueIds(items) && forall b :: b in balances ==> b.onHand >= 0
    ensures var totals := ItemTotals(items, balances, keep, OnHand);
      forall i :: i in totals ==> totals[i] >= 0
  {
    var rows := Select(LeftJoin(items, balances), (r: Joined) => keep(r.item));
    SelectedAre(LeftJoin(items, balances), (r: Joined) => keep(r.item));
    hide Select, LeftJoin, UniqueIds, Lifted, Groups;
    forall r | r in rows ensures Amount(Lifted(OnHand)(r)) >= 0 {
      JoinNotNegative(items, balances, r);
    }
    GroupsNotNegative(rows, ItemId, Lifted(OnHand));
  }

  lemma JoinNotNegative(items: seq<Item>, balances: seq<Balance>, r: Joined)
    requires r in LeftJoin(items, balances) && forall b :: b in balances ==> b.onHand >= 0
    ensures Amount(Lifted(OnHand)(r)) >= 0
  {
    JoinHoldsBalances(items, balances, r);
    hide LeftJoin;
    if r.balance.Some? {
      assert OnHand(r.balance.value) == r.balance.value.onHand >= 0;
    }
  }

  lemma {:induction false} JoinHoldsBalances(items: seq<Item>, balances: seq<Balance>, r: Joined)
    requires r in LeftJoin(items, balances)
    ensures r.balance.Some? ==> r.balance.value in balances
    decreases |items|
  {
    var shorter, last := items[..|items| - 1], items[|items| - 1];
    if r in LeftJoin(shorter, balances) {
      JoinHoldsBalances(shorter, balances, r);
    } else {
      SelectedAre(balances, Holds(last.id));
      assert r in RowsOf(last, balances);
    }
  }

  lemma {:induction false} NarrowerIds(items: seq<Item>, narrow: Item -> bool, wide: Item -> bool)
    requires forall i :: narrow(i) ==> wide(i)
    ensures Ids(Select(items, narrow)) <= Ids(Select(items, wide))
    decreases |items|
  {
    if items == [] {
    } else {
      NarrowerIds(items[..|items| - 1], narrow, wide);
      if narrow(items[|items| - 1]) { IdsOfLast(Select(items, narrow)); }
      if wide(items[|items| - 1]) { IdsOfLast(Select(items, wide)); }
      hide Ids;
    }
  }

  lemma {:induction false} MoreItemsHoldMore(balances: seq<Balance>, some: set<Uuid>, more: set<Uuid>)
    requires some <= more && forall b :: b in balances ==> b.onHand >= 0
    ensures Stock(balances, some, OnHand) <= Stock(balances, more, OnHand)
    decreases |balances|
  {
    if balances == [] {
    } else {
      var shorter, last := balances[..|balances| - 1], balances[|balances| - 1];
      MoreItemsHoldMore(shorter, some, more);
      assert balances == shorter + [last];
      AmountOfNext(shorter, last, HeldBy(some), Weighed(OnHand));
      AmountOfNext(shorter, last, HeldBy(more), Weighed(OnHand));
      hide SumOf, Select;
    }
  }
}
