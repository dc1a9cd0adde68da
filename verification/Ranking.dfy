/** Ranking of one dimension by a measure (`ranking`). */
module Ranking {
  import opened Wrappers
  import opened Payloads
  import opened Facts
  import opened Filters
  import opened Sums
  import opened Sorting
  import opened Snapshot

  datatype RankingItem = RankingItem(key: string, name: string, value: Option<real>, share: Option<real>, rank: nat)

  /** Round half to even, to four decimal places. */
  function Quantize(x: real): real {
    var scaled := x * 10000.0;
    var low := scaled.Floor;
    var rest := scaled - low as real;
    (if rest < 0.5 || (rest == 0.5 && low % 2 == 0) then low else low + 1) as real / 10000.0
  }

  /** `n` units of the fourth place are `x`, to the nearest, and halves to the even one. */
  predicate RoundsEven(x: real, n: int) {
    var rest := x * 10000.0 - n as real;
    -0.5 < rest < 0.5 || ((rest == 0.5 || rest == -0.5) && n % 2 == 0)
  }

  lemma QuantizeRounds(x: real, n: int)
    ensures Quantize(x) * 10000.0 == n as real <==> RoundsEven(x, n)
  {
    var scaled := x * 10000.0;
    var low := scaled.Floor;
    var rest := scaled - low as real;
    assert 0.0 <= rest < 1.0;
    var k := if rest < 0.5 || (rest == 0.5 && low % 2 == 0) then low else low + 1;
    QuantizeIs(x, k);
    assert (low + 1) as real == low as real + 1.0;
    assert RoundsEven(x, k);
    hide Quantize;
    if RoundsEven(x, n) {
      RoundsOnce(x, n, k);
    }
  }

  lemma QuantizeIs(x: real, k: int)
    requires var low := (x * 10000.0).Floor;
      var rest := x * 10000.0 - low as real;
      k == if rest < 0.5 || (rest == 0.5 && low % 2 == 0) then low else low + 1
    ensures Quantize(x) * 10000.0 == k as real
  {
  }

  lemma RoundsOnce(x: real, n: int, k: int)
    requires RoundsEven(x, n) && RoundsEven(x, k)
    ensures n == k
  {
    assert (n - k) as real == n as real - k as real;
    assert -1.0 <= (n - k) as real <= 1.0;
  }

  function OrZero(value: Option<real>): real {
    match value case Some(x) => x case None => 0.0
  }

  function Share(value: Option<real>, total: real): Option<real> {
    if total == 0.0 || value == None then None else Some(Quantize(value.value / total * 100.0))
  }

  /** At product and category level the product measures stand in for the general ones. */
  function GroupFinished(p: Payload, productLike: bool): Payload {
    if !productLike then p else
    p[GrossRevenue := Get(p, ProductGrossRevenue)][NetRevenue := Get(p, ProductNetRevenue)]
     [DiscountAmount := Get(p, ProductDiscountAmount)][ScopedNetRevenue := Get(p, ProductNetRevenue)]
     [ScopedGrossProfit := Get(p, ProductGrossProfit)][PurchaseValue := Get(p, ProductPurchaseValue)]
  }

  type GroupColumn = AggregateKey -> string

  function GroupOf(keys: set<AggregateKey>, column: GroupColumn, x: string): set<AggregateKey> {
    set key | key in keys && column(key) == x
  }

  ghost function Groups(keys: set<AggregateKey>, column: GroupColumn): set<string> {
    set key | key in keys :: column(key)
  }

  /** The total payload of every group. */
  ghost function Grouped(t: AggregateTable, keys: set<AggregateKey>, column: GroupColumn): (r: map<string, Payload>)
    requires keys <= t.Keys
    ensures r.Keys == Groups(keys, column)
  {
    map x | x in Groups(keys, column) :: Total(MeasuresOf(t), GroupOf(keys, column, x))
  }

  /** The value of every group. */
  ghost function Values(t: AggregateTable, column: GroupColumn, productLike: bool,
                        formula: Payload -> Option<real>): (r: map<string, Option<real>>)
    ensures r.Keys == Groups(t.Keys, column)
  {
    map x | x in Groups(t.Keys, column) :: formula(GroupFinished(Grouped(t, t.Keys, column)[x], productLike))
  }

  ghost function OrZeros(values: map<string, Option<real>>): (r: map<string, real>)
    ensures r.Keys == values.Keys
  {
    map x | x in values :: OrZero(values[x])
  }

  ghost function TotalOf(values: map<string, Option<real>>): real {
    Sum(OrZeros(values), values.Keys)
  }

  /** What a ranking of these values is. */
  ghost predicate IsRanking(items: seq<RankingItem>, values: map<string, Option<real>>, names: map<string, string>,
                            limit: nat) {
    |items| == Least(limit, |values.Keys|) &&
    (forall i :: 0 <= i < |items| ==> IsRanked(items[i], values, names, i)) &&
    (forall i, j :: 0 <= i < j < |items| ==>
      items[i].key != items[j].key && OrZero(items[i].value) >= OrZero(items[j].value)) &&
    (forall x, i :: x in values && 0 <= i < |items| && (forall j :: 0 <= j < |items| ==> items[j].key != x)
       ==> OrZero(items[i].value) >= OrZero(values[x]))
  }

  ghost predicate IsRanked(item: RankingItem, values: map<string, Option<real>>, names: map<string, string>, i: nat) {
    item.key in values && item.value == values[item.key] && item.rank == i + 1 &&
    item.name == (if item.key in names then names[item.key] else item.key) &&
    item.share == Share(item.value, TotalOf(values))
  }

  // ---------------------------------------------------------------- the loops

  lemma GroupNext(t: AggregateTable, done: set<AggregateKey>, column: GroupColumn, key: AggregateKey)
    requires done <= t.Keys && key in t && key !in done
    ensures var before, after, x := Grouped(t, done, column), Grouped(t, done + {key}, column), column(key);
      after == before[x := Added(if x in before then before[x] else map[], t[key].measures)]
  {
    hide Added, MeasuresOf;
    var more, x := done + {key}, column(key);
    assert Groups(more, column) == Groups(done, column) + {x};
    forall y | y in Groups(done, column) && y != x ensures GroupOf(more, column, y) == GroupOf(done, column, y) {
    }
    OwnGroup(t, done, column, key);
  }

  lemma OwnGroup(t: AggregateTable, done: set<AggregateKey>, column: GroupColumn, key: AggregateKey)
    requires done <= t.Keys && key in t && key !in done
    ensures var x := column(key);
      Total(MeasuresOf(t), GroupOf(done + {key}, column, x))
      == Added(if x in Groups(done, column) then Total(MeasuresOf(t), GroupOf(done, column, x))
        else map[], t[key].measures)
  {
    hide Added;
    var x := column(key);
    assert GroupOf(done + {key}, column, x) == GroupOf(done, column, x) + {key};
    TotalInsert(MeasuresOf(t), GroupOf(done, column, x), key);
    if x !in Groups(done, column) {
      assert GroupOf(done, column, x) == {};
    }
  }

  /** The first row of group `x` comes before every row of group `y`. */
  ghost predicate ComesFirst(order: seq<AggregateKey>, column: GroupColumn, x: string, y: string) {
    exists i :: 0 <= i < |order| && column(order[i]) == x && forall j :: 0 <= j <= i ==> column(order[j]) != y
  }

  lemma GroupedKeys(t: AggregateTable, keys: set<AggregateKey>, column: GroupColumn)
    requires keys <= t.Keys
    ensures Grouped(t, keys, column).Keys == Groups(keys, column)
  {
  }

  lemma LaterGroup(order: seq<AggregateKey>, column: GroupColumn, i: nat, ids: seq<string>)
    requires i < |order| && Enumerates(ids, Groups(Seen(order, i), column))
    ensures column(order[i]) !in Groups(Seen(order, i), column) ==>
      forall a :: 0 <= a < |ids| ==> ComesFirst(order, column, ids[a], column(order[i]))
  {
    var y := column(order[i]);
    if y !in ids {
      forall j | 0 <= j < i ensures column(order[j]) != y {
        assert order[j] in Seen(order, i);
      }
      forall a | 0 <= a < |ids| ensures ComesFirst(order, column, ids[a], y) {
        assert ids[a] in ids;
        var key :| key in Seen(order, i) && column(key) == ids[a];
        var j :| 0 <= j < i && order[j] == key;
      }
    }
  }

  method GroupRows(t: AggregateTable, order: seq<AggregateKey>, column: GroupColumn)
    returns (grouped: map<string, Payload>, ids: seq<string>)
    requires Enumerates(order, t.Keys)
    ensures grouped == Grouped(t, t.Keys, column) && Enumerates(ids, grouped.Keys)
    ensures forall i, j :: 0 <= i < j < |ids| ==> ComesFirst(order, column, ids[i], ids[j])
  {
    hide *;
    grouped, ids := map[], [];
    NoGroups(t, order, column);
    assert grouped.Keys == {};
    for i := 0 to |order|
      invariant Seen(order, i) <= t.Keys
      invariant grouped == Grouped(t, Seen(order, i), column)
      invariant Enumerates(ids, grouped.Keys)
      invariant forall a, b :: 0 <= a < b < |ids| ==> ComesFirst(order, column, ids[a], ids[b])
    {
      var key := order[i];
      SeenNext(order, t.Keys, i);
      GroupedKeys(t, Seen(order, i), column);
      LaterGroup(order, column, i, ids);
      GroupNext(t, Seen(order, i), column, key);
      var x := column(key);
      EnumeratesMore(ids, grouped.Keys, x);
      var target := if x in grouped then grouped[x] else map[];
      if x !in grouped {
        ids := ids + [x];
      }
      target := Accumulate(target, t[key].measures);
      assert grouped[x := target].Keys == grouped.Keys + {x};
      grouped := grouped[x := target];
    }
    SeenAll(order, t.Keys);
  }

  lemma NoGroups(t: AggregateTable, order: seq<AggregateKey>, column: GroupColumn)
    ensures Seen(order, 0) == {} && Enumerates<string>([], {})
    ensures Grouped(t, {}, column) == map[]
  {
    assert Groups({}, column) == {};
  }

  /** Group, evaluate, sort, and list the first groups with their shares. */
  method Rank(t: AggregateTable, order: seq<AggregateKey>, column: GroupColumn, productLike: bool,
              formula: Payload -> Option<real>, names: map<string, string>, limit: nat)
    returns (items: seq<RankingItem>)
    requires Enumerates(order, t.Keys)
    ensures IsRanking(items, Values(t, column, productLike, formula), names, limit)
    ensures forall i, j :: 0 <= i < j < |items| && OrZero(items[i].value) == OrZero(items[j].value) ==>
      ComesFirst(order, column, items[i].key, items[j].key)
  {
    hide *;
    var grouped, ids := GroupRows(t, order, column);
    var values := Evaluated(grouped, productLike, formula);
    GroupValue(t, column, productLike, formula);
    items := ListItems(values, ids, names, limit);
  }

  function Evaluated(grouped: map<string, Payload>, productLike: bool,
                     formula: Payload -> Option<real>): (r: map<string, Option<real>>)
    ensures r.Keys == grouped.Keys
  {
    map x | x in grouped :: formula(GroupFinished(grouped[x], productLike))
  }

  lemma GroupValue(t: AggregateTable, column: GroupColumn, productLike: bool, formula: Payload -> Option<real>)
    ensures Evaluated(Grouped(t, t.Keys, column), productLike, formula) == Values(t, column, productLike, formula)
  {
    hide Grouped, GroupFinished, Groups;
    var one, two := Evaluated(Grouped(t, t.Keys, column), productLike, formula),
      Values(t, column, productLike, formula);
    forall x ensures (x in one <==> x in two) && (x in one ==> one[x] == two[x]) {
    }
  }

  function Pairs(values: map<string, Option<real>>, ids: seq<string>): (r: Items<string>)
    requires forall i :: 0 <= i < |ids| ==> ids[i] in values
    ensures |r| == |ids| && forall i :: 0 <= i < |ids| ==> r[i] == (ids[i], OrZero(values[ids[i]]))
  {
    seq(|ids|, i requires 0 <= i < |ids| => (ids[i], OrZero(values[ids[i]])))
  }

  function Item(key: string, values: map<string, Option<real>>, names: map<string, string>, total: real,
                i: nat): RankingItem
    requires key in values
  {
    RankingItem(key, if key in names then names[key] else key, values[key], Share(values[key], total), i + 1)
  }

  method ListItems(values: map<string, Option<real>>, ids: seq<string>, names: map<string, string>, limit: nat)
    returns (items: seq<RankingItem>)
    requires Enumerates(ids, values.Keys)
    ensures IsRanking(items, values, names, limit)
    ensures forall i, j :: 0 <= i < j < |items| && OrZero(items[i].value) == OrZero(items[j].value) ==>
      exists a, b :: 0 <= a < b < |ids| && ids[a] == items[i].key && ids[b] == items[j].key
  {
    hide *;
    EnumeratedKeys(ids, values.Keys);
    var pairs := Pairs(values, ids);
    PairsList(values, ids);
    var evaluated := SortDescending(pairs);
    SortSorts(pairs);
    SortLists(pairs, OrZeros(values));
    SortedKeys(evaluated, values);
    TotalIs(evaluated, values);
    var total := Prefix(evaluated, |evaluated|);
    var n := Least(limit, |evaluated|);
    items := seq(n, i requires 0 <= i < n => Item(evaluated[i].0, values, names, total, i));
    RankedInOrder(items, evaluated, values, names, limit);
    forall i, j | 0 <= i < j < |items| && OrZero(items[i].value) == OrZero(items[j].value)
      ensures exists a, b :: 0 <= a < b < |ids| && ids[a] == items[i].key && ids[b] == items[j].key
    {
      TiedItems(items, values, ids, names, total, i, j);
    }
  }

  /** Tied items come in the order of their groups. */
  lemma TiedItems(items: seq<RankingItem>, values: map<string, Option<real>>, ids: seq<string>,
                  names: map<string, string>, total: real, i: nat, j: nat)
    requires Enumerates(ids, values.Keys) && (forall k :: 0 <= k < |ids| ==> ids[k] in values) && i < j < |items|
    requires var evaluated := SortDescending(Pairs(values, ids));
      |items| <= |evaluated| &&
      forall k :: 0 <= k < |items| ==>
        (evaluated[k].0 in values && evaluated[k].1 == OrZero(values[evaluated[k].0]) &&
         items[k] == Item(evaluated[k].0, values, names, total, k))
    requires OrZero(items[i].value) == OrZero(items[j].value)
    ensures exists a, b :: 0 <= a < b < |ids| && ids[a] == items[i].key && ids[b] == items[j].key
  {
    var pairs := Pairs(values, ids);
    var evaluated := SortDescending(pairs);
    hide SortDescending, Share, OrZero;
    var x, y := evaluated[i], evaluated[j];
    assert StandsBefore(evaluated, x, y);
    TiesKeepOrder(pairs, x, y);
    var a, b :| 0 <= a < b < |pairs| && pairs[a] == x && pairs[b] == y;
    assert ids[a] == items[i].key && ids[b] == items[j].key;
  }

  lemma TotalIs(evaluated: Items<string>, values: map<string, Option<real>>)
    requires Lists(evaluated, OrZeros(values))
    ensures Prefix(evaluated, |evaluated|) == TotalOf(values) && |evaluated| == |values.Keys|
  {
    hide Lists;
    AllKeys(evaluated, OrZeros(values));
    PrefixIsSum(evaluated, OrZeros(values), |evaluated|);
  }

  lemma PairsList(values: map<string, Option<real>>, ids: seq<string>)
    requires Enumerates(ids, values.Keys)
    ensures (forall i :: 0 <= i < |ids| ==> ids[i] in values) && Lists(Pairs(values, ids), OrZeros(values))
  {
    EnumeratedKeys(ids, values.Keys);
    var v, pairs := OrZeros(values), Pairs(values, ids);
    forall k | k in v ensures (k, v[k]) in pairs {
      var i :| 0 <= i < |ids| && ids[i] == k;
      assert pairs[i] == (k, v[k]);
    }
  }

  lemma SortedKeys(evaluated: Items<string>, values: map<string, Option<real>>)
    requires Lists(evaluated, OrZeros(values))
    ensures forall i :: 0 <= i < |evaluated| ==>
      evaluated[i].0 in values && evaluated[i].1 == OrZero(values[evaluated[i].0])
  {
    forall i | 0 <= i < |evaluated|
      ensures evaluated[i].0 in values && evaluated[i].1 == OrZero(values[evaluated[i].0])
    {
      ListedItem(evaluated, OrZeros(values), i);
    }
  }

  lemma RankedInOrder(items: seq<RankingItem>, evaluated: Items<string>, values: map<string, Option<real>>,
                      names: map<string, string>, limit: nat)
    requires Lists(evaluated, OrZeros(values)) && Descending(evaluated) && |evaluated| == |values.Keys|
    requires |items| == Least(limit, |evaluated|)
    requires forall i :: 0 <= i < |items| ==>
      (evaluated[i].0 in values && items[i] == Item(evaluated[i].0, values, names, TotalOf(values), i))
    ensures IsRanking(items, values, names, limit)
  {
    hide IsRanked, TotalOf, OrZero, Item, Lists, OrZeros, Descending;
    SortedKeys(evaluated, values);
    forall i | 0 <= i < |items|
      ensures IsRanked(items[i], values, names, i) && items[i].key == evaluated[i].0 &&
        OrZero(items[i].value) == evaluated[i].1
    {
      ItemIsRanked(evaluated[i].0, values, names, i);
    }
    forall i, j | 0 <= i < j < |items|
      ensures items[i].key != items[j].key && OrZero(items[i].value) >= OrZero(items[j].value)
    {
      InOrder(evaluated, values, i, j);
    }
    forall x, i | x in values && 0 <= i < |items| && (forall j :: 0 <= j < |items| ==> items[j].key != x)
      ensures OrZero(items[i].value) >= OrZero(values[x])
    {
      LaterItem(items, evaluated, values, x, i);
    }
  }

  lemma InOrder(evaluated: Items<string>, values: map<string, Option<real>>, i: nat, j: nat)
    requires Lists(evaluated, OrZeros(values)) && Descending(evaluated) && i < j < |evaluated|
    ensures evaluated[i].0 != evaluated[j].0 && evaluated[i].1 >= evaluated[j].1
  {
  }

  lemma ItemIsRanked(key: string, values: map<string, Option<real>>, names: map<string, string>, i: nat)
    requires key in values
    ensures var item := Item(key, values, names, TotalOf(values), i);
      IsRanked(item, values, names, i) && item.key == key && item.value == values[key]
  {
  }

  lemma LaterItem(items: seq<RankingItem>, evaluated: Items<string>, values: map<string, Option<real>>, x: string,
                  i: nat)
    requires Lists(evaluated, OrZeros(values)) && Descending(evaluated) && |items| <= |evaluated| && i < |items|
    requires forall j :: 0 <= j < |items| ==> items[j].key == evaluated[j].0
    requires x in values && forall j :: 0 <= j < |items| ==> items[j].key != x
    ensures evaluated[i].1 >= OrZero(values[x])
  {
    assert (x, OrZeros(values)[x]) in evaluated;
    var j :| 0 <= j < |evaluated| && evaluated[j] == (x, OrZeros(values)[x]);
    assert j >= |items|;
  }

  // ---------------------------------------------------------------- shares

  /** Rounding to four places moves a number by at most half of the last place. */
  lemma QuantizeIsNear(x: real)
    ensures -0.00005 <= Quantize(x) - x <= 0.00005
  {
    var scaled := x * 10000.0;
    var low := scaled.Floor;
    var down := scaled - low as real < 0.5 || (scaled - low as real == 0.5 && low % 2 == 0);
    var near := (if down then low else low + 1) as real;
    assert -0.5 <= near - scaled <= 0.5;
    assert Quantize(x) == near / 10000.0;
  }

  function ShareSum(items: seq<RankingItem>, n: nat): real
    requires n <= |items|
  {
    if n == 0 then 0.0 else ShareSum(items, n - 1) + OrZero(items[n - 1].share)
  }

  function NonNull(items: seq<RankingItem>, n: nat): nat
    requires n <= |items|
  {
    if n == 0 then 0 else NonNull(items, n - 1) + (if items[n - 1].value == None then 0 else 1)
  }

  /** The listed items as keys with numbers. */
  ghost function AsPairs(items: seq<RankingItem>): (r: Items<string>)
    ensures |r| == |items| && forall i :: 0 <= i < |items| ==> r[i] == (items[i].key, OrZero(items[i].value))
  {
    seq(|items|, i requires 0 <= i < |items| => (items[i].key, OrZero(items[i].value)))
  }

  lemma {:induction false} SharesNearParts(items: seq<RankingItem>, total: real, n: nat)
    requires n <= |items| && total != 0.0
    requires forall i :: 0 <= i < |items| ==> items[i].share == Share(items[i].value, total)
    ensures var exact := Prefix(AsPairs(items), n) / total * 100.0;
      -0.00005 * NonNull(items, n) as real <= ShareSum(items, n) - exact <= 0.00005 * NonNull(items, n) as real
  {
    hide Quantize;
    if n == 0 {
    } else {
      SharesNearParts(items, total, n - 1);
      var value := items[n - 1].value;
      if value != None {
        QuantizeIsNear(value.value / total * 100.0);
        DivideSum(Prefix(AsPairs(items), n - 1), value.value, total);
      }
    }
  }

  lemma DivideSum(a: real, b: real, c: real)
    requires c != 0.0
    ensures (a + b) / c * 100.0 == a / c * 100.0 + b / c * 100.0
  {
  }

  lemma RankingListsAll(items: seq<RankingItem>, values: map<string, Option<real>>, names: map<string, string>,
                        limit: nat)
    requires IsRanking(items, values, names, limit) && |values.Keys| <= limit
    ensures Lists(AsPairs(items), OrZeros(values))
  {
    hide IsRanked, TotalOf, OrZero;
    forall i | 0 <= i < |items| ensures items[i].key in values && items[i].value == values[items[i].key] {
      Unranked(items[i], values, names, i);
    }
    PairsListAll(AsPairs(items), OrZeros(values));
  }

  /** As many distinct keys as the table has are all of its keys. */
  lemma PairsListAll(pairs: Items<string>, v: map<string, real>)
    requires DistinctKeys(pairs) && |pairs| == |v.Keys|
    requires forall i :: 0 <= i < |pairs| ==> pairs[i].0 in v && pairs[i].1 == v[pairs[i].0]
    ensures Lists(pairs, v)
  {
    DistinctCount(pairs, v.Keys, |pairs|);
    FullSubset(KeysBefore(pairs, |pairs|), v.Keys);
    forall k | k in v ensures (k, v[k]) in pairs {
      KeysBeforeMembers(pairs, |pairs|, k);
      var i :| 0 <= i < |pairs| && pairs[i].0 == k;
      assert pairs[i] == (k, v[k]);
    }
  }

  lemma FullSubset(a: set<string>, b: set<string>)
    requires a <= b && |a| == |b|
    ensures a == b
  {
    assert b == a + (b - a);
    assert |b - a| == 0;
  }

  lemma {:induction false} DistinctCount(pairs: Items<string>, keys: set<string>, n: nat)
    requires DistinctKeys(pairs) && n <= |pairs| && forall i :: 0 <= i < |pairs| ==> pairs[i].0 in keys
    ensures KeysBefore(pairs, n) <= keys && |KeysBefore(pairs, n)| == n
  {
    if n == 0 {
    } else {
      DistinctCount(pairs, keys, n - 1);
      KeysBeforeMembers(pairs, n - 1, pairs[n - 1].0);
    }
  }

  /** When the ranking lists every group and the total is not zero, its rounded
      shares sum to 100 within half a last place each. */
  lemma SharesSumToHundred(items: seq<RankingItem>, values: map<string, Option<real>>, names: map<string, string>,
                           limit: nat)
    requires IsRanking(items, values, names, limit) && |values.Keys| <= limit && TotalOf(values) != 0.0
    ensures var slack := 0.00005 * NonNull(items, |items|) as real;
      -slack <= ShareSum(items, |items|) - 100.0 <= slack
  {
    hide *;
    RankedShares(items, values, names, limit);
    RankingListsAll(items, values, names, limit);
    TotalIs(AsPairs(items), values);
    SharesNearParts(items, TotalOf(values), |items|);
    assert TotalOf(values) / TotalOf(values) == 1.0;
  }

  /** A share is missing exactly for an item without a value or for a total of
      zero, and otherwise it is that part of the total, of all groups, listed or
      not, in units of the fourth place of a percent. */
  lemma SharesAreExact(items: seq<RankingItem>, values: map<string, Option<real>>, names: map<string, string>,
                       limit: nat, i: nat, n: int)
    requires IsRanking(items, values, names, limit) && i < |items|
    ensures var total := Sum(OrZeros(values), values.Keys);
      (items[i].share == None <==> items[i].value == None || total == 0.0) &&
      (items[i].share.Some? ==>
        (items[i].share.value * 10000.0 == n as real <==> RoundsEven(items[i].value.value / total * 100.0, n)))
  {
    hide *;
    RankedShares(items, values, names, limit);
    TotalIsSumOfAll(values);
    ShareIsExact(items[i].value, TotalOf(values), n);
  }

  lemma TotalIsSumOfAll(values: map<string, Option<real>>)
    ensures TotalOf(values) == Sum(OrZeros(values), values.Keys)
  {
  }

  lemma ShareIsExact(value: Option<real>, total: real, n: int)
    ensures Share(value, total) == None <==> value == None || total == 0.0
    ensures Share(value, total).Some? ==>
      (Share(value, total).value * 10000.0 == n as real <==> RoundsEven(value.value / total * 100.0, n))
  {
    hide RoundsEven, Quantize;
    if total != 0.0 && value.Some? {
      QuantizeRounds(value.value / total * 100.0, n);
    }
  }

  lemma RankedShares(items: seq<RankingItem>, values: map<string, Option<real>>, names: map<string, string>, limit: nat)
    requires IsRanking(items, values, names, limit)
    ensures forall i :: 0 <= i < |items| ==> items[i].share == Share(items[i].value, TotalOf(values))
  {
    hide TotalOf, Share, OrZero;
    forall i | 0 <= i < |items| ensures items[i].share == Share(items[i].value, TotalOf(values)) {
      assert IsRanked(items[i], values, names, i);
    }
  }

  lemma Unranked(item: RankingItem, values: map<string, Option<real>>, names: map<string, string>, i: nat)
    requires IsRanked(item, values, names, i)
    ensures item.key in values && item.value == values[item.key]
  {
  }

  /** A ranked product or category is evaluated on the measures that a snapshot
      of it would substitute, except that its sales tax stays the general one. */
  lemma GroupAgreesWithSnapshot(p: Payload, m: Measure)
    ensures m != SalesTax ==> Keeps(Substituted(p, Product), GroupFinished(p, true), m)
    ensures Get(GroupFinished(p, true), SalesTax) == Get(Substituted(p, Product), SalesTax) <==>
      Get(p, SalesTax) == Get(p, ProductSalesTax)
  {
  }
}
