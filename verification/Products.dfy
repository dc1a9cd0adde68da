/** Product and supplier concentration (`_dimension_derived_measures`). */
module Products {
  import opened Wrappers
  import opened Payloads
  import opened Facts
  import opened Filters
  import opened Sums
  import opened Sorting
  import opened Prices
  import opened Stock

  /** The rows among `keys` whose column holds `id`. */
  function RowsOf(keys: set<AggregateKey>, column: AggregateKey -> Option<Id>, id: Id): set<AggregateKey> {
    set key | key in keys && column(key) == Some(id)
  }

  ghost function IdsOf(keys: set<AggregateKey>, column: AggregateKey -> Option<Id>): set<Id> {
    set key | key in keys && column(key).Some? :: column(key).value
  }

  /** A measure's total for every identifier of the column, over all rows. */
  ghost function GroupValues(t: AggregateTable, keys: set<AggregateKey>, column: AggregateKey -> Option<Id>,
                             m: Measure): (v: map<Id, real>)
    requires keys <= t.Keys
    ensures v.Keys == IdsOf(keys, column)
  {
    map id | id in IdsOf(keys, column) :: ValueOf(t, keys, column, m, id)
  }

  ghost function ValueOf(t: AggregateTable, keys: set<AggregateKey>, column: AggregateKey -> Option<Id>, m: Measure,
                         id: Id): real
    requires keys <= t.Keys
  {
    Get(Total(MeasuresOf(t), RowsOf(keys, column, id)), m)
  }

  function Credited(v: map<Id, real>, id: Id, x: real): (r: map<Id, real>)
    ensures r.Keys == v.Keys + {id}
  {
    v[id := (if id in v then v[id] else 0.0) + x]
  }

  lemma IdsNext(done: set<AggregateKey>, column: AggregateKey -> Option<Id>, key: AggregateKey)
    ensures IdsOf(done + {key}, column) == IdsOf(done, column) + match column(key) case None => {} case Some(id) => {id}
  {
  }

  lemma OtherValue(t: AggregateTable, done: set<AggregateKey>, column: AggregateKey -> Option<Id>, m: Measure,
                   key: AggregateKey, id: Id)
    requires done <= t.Keys && key in t && column(key) != Some(id)
    ensures ValueOf(t, done + {key}, column, m, id) == ValueOf(t, done, column, m, id)
  {
    hide Get, MeasuresOf;
    assert RowsOf(done + {key}, column, id) == RowsOf(done, column, id);
  }

  lemma OwnValue(t: AggregateTable, done: set<AggregateKey>, column: AggregateKey -> Option<Id>, m: Measure,
                 key: AggregateKey, id: Id)
    requires done <= t.Keys && key in t && key !in done && column(key) == Some(id)
    ensures ValueOf(t, done + {key}, column, m, id)
         == (if id in IdsOf(done, column) then ValueOf(t, done, column, m, id) else 0.0) + Get(t[key].measures, m)
  {
    hide Get;
    assert RowsOf(done + {key}, column, id) == RowsOf(done, column, id) + {key};
    GetInsert(MeasuresOf(t), RowsOf(done, column, id), key, m);
    if id !in IdsOf(done, column) {
      assert RowsOf(done, column, id) == {};
    }
  }

  lemma ValueNext(t: AggregateTable, done: set<AggregateKey>, column: AggregateKey -> Option<Id>, m: Measure,
                  key: AggregateKey)
    requires done <= t.Keys && key in t && key !in done
    ensures var before, after := GroupValues(t, done, column, m), GroupValues(t, done + {key}, column, m);
      match column(key)
      case None => after == before
      case Some(id) => after == Credited(before, id, Get(t[key].measures, m))
  {
    hide Get, ValueOf, IdsOf;
    IdsNext(done, column, key);
    forall id | id in IdsOf(done, column) && column(key) != Some(id)
      ensures ValueOf(t, done + {key}, column, m, id) == ValueOf(t, done, column, m, id)
    {
      OtherValue(t, done, column, m, key, id);
    }
    match column(key)
    case None =>
      assert GroupValues(t, done + {key}, column, m) == GroupValues(t, done, column, m);
    case Some(id) =>
      OwnValue(t, done, column, m, key, id);
  }

  lemma GetInsert(t: map<AggregateKey, Payload>, s: set<AggregateKey>, key: AggregateKey, m: Measure)
    requires key !in s && s <= t.Keys && key in t
    ensures Get(Total(t, s + {key}), m) == Get(Total(t, s), m) + Get(t[key], m)
    ensures s == {} ==> Get(Total(t, s), m) == 0.0
  {
    TotalInsert(t, s, key);
  }

  /** One pass over the rows, in any order, accumulating two measures per
      identifier; `ids` keeps the identifiers in the order of their first row. */
  method Accumulated(t: AggregateTable, order: seq<AggregateKey>, column: AggregateKey -> Option<Id>, m: Measure,
                     n: Measure)
    returns (first: Items<Id>, second: Items<Id>, table: map<Id, real>)
    requires Enumerates(order, t.Keys)
    ensures Lists(first, table) && table == GroupValues(t, t.Keys, column, m)
    ensures Lists(second, GroupValues(t, t.Keys, column, n))
  {
    hide *;
    var ids: seq<Id> := [];
    var a: map<Id, real>, b: map<Id, real> := map[], map[];
    NoValues(t, order, column, m);
    NoValues(t, order, column, n);
    assert a.Keys == {};
    for i := 0 to |order|
      invariant Seen(order, i) <= t.Keys
      invariant a == GroupValues(t, Seen(order, i), column, m)
      invariant b == GroupValues(t, Seen(order, i), column, n)
      invariant Enumerates(ids, a.Keys)
    {
      var key := order[i];
      SeenNext(order, t.Keys, i);
      ValueNext(t, Seen(order, i), column, m, key);
      ValueNext(t, Seen(order, i), column, n, key);
      var id := column(key);
      if id.Some? {
        EnumeratesMore(ids, a.Keys, id.value);
        if id.value !in a {
          ids := ids + [id.value];
        }
        a := Credited(a, id.value, Get(t[key].measures, m));
        b := Credited(b, id.value, Get(t[key].measures, n));
      }
    }
    SeenAll(order, t.Keys);
    EnumeratedKeys(ids, a.Keys);
    first := seq(|ids|, i requires 0 <= i < |ids| => (ids[i], a[ids[i]]));
    second := seq(|ids|, i requires 0 <= i < |ids| => (ids[i], b[ids[i]]));
    Listed(ids, a, first);
    Listed(ids, b, second);
    table := a;
  }

  lemma NoValues(t: AggregateTable, order: seq<AggregateKey>, column: AggregateKey -> Option<Id>, m: Measure)
    ensures Seen(order, 0) == {} && Enumerates<Id>([], {})
    ensures GroupValues(t, {}, column, m) == map[]
  {
    hide ValueOf;
    assert IdsOf({}, column) == {};
  }

  lemma Listed<K(!new)>(ids: seq<K>, a: map<K, real>, items: Items<K>)
    requires Enumerates(ids, a.Keys) && |items| == |ids|
    requires forall i :: 0 <= i < |ids| ==> ids[i] in a && items[i] == (ids[i], a[ids[i]])
    ensures Lists(items, a)
  {
    forall k | k in a ensures (k, a[k]) in items {
      var i :| 0 <= i < |ids| && ids[i] == k;
      assert items[i] == (k, a[k]);
    }
  }

  function CountPositive<K>(s: Items<K>): nat {
    if s == [] then 0 else CountPositive(s[..|s| - 1]) + if s[|s| - 1].1 > 0.0 then 1 else 0
  }

  ghost function Positive<K(!new)>(v: map<K, real>): set<K> {
    set k | k in v && v[k] > 0.0
  }

  ghost function PositiveBefore<K(!new)>(s: Items<K>, v: map<K, real>, n: nat): set<K>
    requires n <= |s|
  {
    set k | k in KeysBefore(s, n) && k in v && v[k] > 0.0
  }

  lemma {:induction false} CountedBefore<K(!new)>(s: Items<K>, v: map<K, real>, n: nat)
    requires Lists(s, v) && n <= |s|
    ensures CountPositive(s[..n]) == |PositiveBefore(s, v, n)|
    decreases n
  {
    hide Lists;
    if n > 0 {
      CountedBefore(s, v, n - 1);
      ListedItem(s, v, n - 1);
      assert s[..n][..n - 1] == s[..n - 1];
      if s[n - 1].1 > 0.0 {
        assert PositiveBefore(s, v, n) == PositiveBefore(s, v, n - 1) + {s[n - 1].0};
      } else {
        assert PositiveBefore(s, v, n) == PositiveBefore(s, v, n - 1);
      }
    } else {
      assert PositiveBefore(s, v, 0) == {};
    }
  }

  lemma CountIsSize<K(!new)>(s: Items<K>, v: map<K, real>)
    requires Lists(s, v)
    ensures CountPositive(s) == |Positive(v)|
  {
    hide Lists;
    CountedBefore(s, v, |s|);
    AllKeys(s, v);
    assert s[..|s|] == s;
    assert PositiveBefore(s, v, |s|) == Positive(v);
  }

  function ProductIdOf(key: AggregateKey): Option<Id> {
    key.product
  }

  function SupplierIdOf(key: AggregateKey): Option<Id> {
    key.supplier
  }

  /** The cover counters count the stocks at their levels, each judged by a latest row. */
  ghost predicate CountsCover(t: AggregateTable, sold: map<Id, real>, days: real, values: Payload)
    requires days > 0.0
  {
    exists latest :: LatestRows(t.Keys, latest) && latest.Values <= t.Keys &&
      HoldsCover(values, CoverOf(t, latest, sold, days, latest.Keys))
  }

  predicate HoldsCover(values: Payload, c: Cover) {
    LowCoverProducts in values && values[LowCoverProducts] == c.low as real &&
    ExcessStockProducts in values && values[ExcessStockProducts] == c.excess as real &&
    SlowMovingProducts in values && values[SlowMovingProducts] == c.slow as real &&
    NoSaleProducts in values && values[NoSaleProducts] == c.noSale as real
  }

  const PRODUCT_MEASURES: set<Measure> :=
    {SoldProductCount, Top10Revenue, LowCoverProducts, ExcessStockProducts, SlowMovingProducts, NoSaleProducts}

  /** What the product rows give: how many products sold, the revenue of the
      ten best, the deviation of demand, and the stocks by cover. */
  ghost predicate ProductsDerived(t: AggregateTable, days: real, root: real -> real, values: Payload)
    requires days > 0.0
  {
    var sold, units := GroupValues(t, t.Keys, ProductIdOf, UnitsSold), UnitsOf(t, t.Keys);
    values.Keys == PRODUCT_MEASURES + (if units.Keys == {} then {} else {DemandStddev}) &&
    values[SoldProductCount] == |Positive(sold)| as real &&
    IsTopSum(GroupValues(t, t.Keys, ProductIdOf, ProductNetRevenue), 10, values[Top10Revenue]) &&
    (units.Keys != {} ==> values[DemandStddev] == root(PopulationVariance(units, units.Keys))) &&
    CountsCover(t, sold, days, values)
  }

  method DeriveProducts(t: AggregateTable, order: seq<AggregateKey>, days: real,
                        root: real -> real) returns (r: Result<Payload, QueryError>)
    requires Enumerates(order, t.Keys) && days > 0.0
    ensures if |order| > MAX_AGGREGATE_ROWS then r == Err(CardinalityLimit) else r.Ok?
    ensures r.Ok? ==> ProductsDerived(t, days, root, r.value)
    ensures r.Ok? ==> Kept(order).Values <= t.Keys
    ensures r.Ok? ==>
              var sold := GroupValues(t, t.Keys, ProductIdOf, UnitsSold);
              HoldsCover(r.value, CoverOf(t, Kept(order), sold, days, Kept(order).Keys))
  {
    hide *;
    if |order| > MAX_AGGREGATE_ROWS {
      return Err(CardinalityLimit);
    }
    var sold, revenue, table := Accumulated(t, order, ProductIdOf, UnitsSold, ProductNetRevenue);
    var units := DailyUnits(t, order);
    var latest := KeepLatest(t.Keys, order);
    LatestAreRows(t.Keys, latest);
    var cover := CountCover(t, latest, table, days);
    CountIsSize(sold, table);
    TopSumIsOptimal(revenue, GroupValues(t, t.Keys, ProductIdOf, ProductNetRevenue), 10);
    NothingListed(UnitsOf(t, t.Keys));
    if units != [] {
      DemandVarianceIsPopulation(units, UnitsOf(t, t.Keys));
    }
    var deviation := if units == [] then None else Some(root(DemandVariance(units)));
    var derived := ProductMeasures(CountPositive(sold), TopSum(revenue, 10), deviation, cover);
    MeasuresHeld(CountPositive(sold), TopSum(revenue, 10), deviation, cover);
    DerivedHolds(t, days, root, latest, derived);
    return Ok(derived);
  }

  function ProductMeasures(sold: nat, top: real, deviation: Option<real>, c: Cover): Payload {
    map[SoldProductCount := sold as real, Top10Revenue := top] +
    (if deviation.None? then map[] else map[DemandStddev := deviation.value]) +
    map[LowCoverProducts := c.low as real, ExcessStockProducts := c.excess as real,
        SlowMovingProducts := c.slow as real, NoSaleProducts := c.noSale as real]
  }

  lemma MeasuresHeld(sold: nat, top: real, deviation: Option<real>, c: Cover)
    ensures var values := ProductMeasures(sold, top, deviation, c);
      values.Keys == PRODUCT_MEASURES + (if deviation.None? then {} else {DemandStddev}) &&
      SoldProductCount in values && values[SoldProductCount] == sold as real &&
      Top10Revenue in values && values[Top10Revenue] == top &&
      (deviation.Some? ==> DemandStddev in values && values[DemandStddev] == deviation.value) && HoldsCover(values, c)
  {
  }

  lemma DerivedHolds(t: AggregateTable, days: real, root: real -> real, latest: map<StockKey, AggregateKey>,
                     values: Payload)
    requires days > 0.0 && LatestRows(t.Keys, latest) && latest.Values <= t.Keys
    requires SoldProductCount in values && Top10Revenue in values
    requires var units := UnitsOf(t, t.Keys);
      values.Keys == PRODUCT_MEASURES + (if units.Keys == {} then {} else {DemandStddev}) &&
      (units.Keys != {} ==>
        DemandStddev in values && values[DemandStddev] == root(PopulationVariance(units, units.Keys)))
    requires values[SoldProductCount] == |Positive(GroupValues(t, t.Keys, ProductIdOf, UnitsSold))| as real
    requires IsTopSum(GroupValues(t, t.Keys, ProductIdOf, ProductNetRevenue), 10, values[Top10Revenue])
    requires HoldsCover(values, CoverOf(t, latest, GroupValues(t, t.Keys, ProductIdOf, UnitsSold), days, latest.Keys))
    ensures ProductsDerived(t, days, root, values)
  {
    hide GroupValues, UnitsOf, PopulationVariance, IsTopSum, HoldsCover, CoverOf, LatestRows, Positive,
      PRODUCT_MEASURES;
  }

  lemma NothingListed(v: map<AggregateKey, real>)
    ensures Lists([], v) ==> v.Keys == {}
  {
    if k :| k in v {
      assert (k, v[k]) !in [];
    }
  }

  /** What the supplier rows give: how many suppliers were bought from, the
      value of the best one and the best five, and their products. */
  ghost predicate SuppliersDerived(t: AggregateTable, values: Payload) {
    var bought := GroupValues(t, t.Keys, SupplierIdOf, PurchaseValue);
    var products := GroupValues(t, t.Keys, SupplierIdOf, SupplierProductCount);
    values.Keys == {ActiveSupplierCount, TopSupplierValue, Top5SupplierValue, SupplierProductCount} &&
    values[ActiveSupplierCount] == |Positive(bought)| as real &&
    IsTopSum(bought, 1, values[TopSupplierValue]) && IsTopSum(bought, 5, values[Top5SupplierValue]) &&
    values[SupplierProductCount] == Sum(products, products.Keys)
  }

  method DeriveSuppliers(t: AggregateTable, order: seq<AggregateKey>) returns (r: Result<Payload, QueryError>)
    requires Enumerates(order, t.Keys)
    ensures if |order| > MAX_AGGREGATE_ROWS then r == Err(CardinalityLimit) else r.Ok?
    ensures r.Ok? ==> SuppliersDerived(t, r.value)
  {
    hide *;
    if |order| > MAX_AGGREGATE_ROWS {
      return Err(CardinalityLimit);
    }
    var values, products, _ := Accumulated(t, order, SupplierIdOf, PurchaseValue, SupplierProductCount);
    ghost var v, p := GroupValues(t, t.Keys, SupplierIdOf, PurchaseValue),
      GroupValues(t, t.Keys, SupplierIdOf, SupplierProductCount);
    CountIsSize(values, v);
    TopSumIsOptimal(values, v, 1);
    TopSumIsOptimal(values, v, 5);
    PrefixIsSum(products, p, |products|);
    AllKeys(products, p);
    var derived := map[ActiveSupplierCount := CountPositive(values) as real, TopSupplierValue := TopSum(values, 1),
                       Top5SupplierValue := TopSum(values, 5), SupplierProductCount := Prefix(products, |products|)];
    SuppliersHold(t, derived);
    return Ok(derived);
  }

  lemma SuppliersHold(t: AggregateTable, values: Payload)
    requires var bought := GroupValues(t, t.Keys, SupplierIdOf, PurchaseValue);
      var products := GroupValues(t, t.Keys, SupplierIdOf, SupplierProductCount);
      values.Keys == {ActiveSupplierCount, TopSupplierValue, Top5SupplierValue, SupplierProductCount} &&
      values[ActiveSupplierCount] == |Positive(bought)| as real &&
      IsTopSum(bought, 1, values[TopSupplierValue]) && IsTopSum(bought, 5, values[Top5SupplierValue]) &&
      values[SupplierProductCount] == Sum(products, products.Keys)
    ensures SuppliersDerived(t, values)
  {
    hide GroupValues, IsTopSum, Positive, Sum;
  }

  /** With the sales that the loop accumulates from those rows. */
  lemma DerivedCoverDependsOnOrder()
    ensures var t := GroupBy(TWO_READINGS, Product);
      var sold := GroupValues(t, t.Keys, ProductIdOf, UnitsSold);
      exists one, two :: Enumerates(one, t.Keys) && Enumerates(two, t.Keys) &&
        Kept(one).Values <= t.Keys && Kept(two).Values <= t.Keys &&
        CoverOf(t, Kept(one), sold, 1.0, Kept(one).Keys) != CoverOf(t, Kept(two), sold, 1.0, Kept(two).Keys)
  {
    var t := GroupBy(TWO_READINGS, Product);
    ReadingRows();
    hide GroupBy, TWO_READINGS, CoverOf, Kept, Enumerates, ReadingKey;
    NothingSold(t);
    CoverDependsOnOrder(GroupValues(t, t.Keys, ProductIdOf, UnitsSold));
  }

  lemma NothingSold(t: AggregateTable)
    requires forall key :: key in t ==> UnitsSold !in t[key].measures
    ensures var sold := GroupValues(t, t.Keys, ProductIdOf, UnitsSold);
      forall id :: id in sold ==> sold[id] == 0.0
  {
    forall id ensures ValueOf(t, t.Keys, ProductIdOf, UnitsSold, id) == 0.0 {
      TotalKeys(MeasuresOf(t), RowsOf(t.Keys, ProductIdOf, id), UnitsSold);
    }
  }
}
