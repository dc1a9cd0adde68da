/** The measures of a whole request: the snapshot's own rows together with the
    product and supplier rows (`_measure_snapshot`, `_dimension_derived_measures`).

    The measures are proved to be determined by the rows and the time, as long
    as no stock has two rows on its latest day.  That makes them a function, as
    the cache protocol takes them to be.
 */
module KpiMeasures {
  import opened Wrappers
  import opened Payloads
  import opened Facts
  import opened Filters
  import opened Sums
  import opened Sorting
  import opened Snapshot
  import opened Prices
  import opened Stock
  import opened Products
  import opened KpiCache
  import Dimensions

  predicate HasProducts(f: Filters) {
    f.supplier.None? && f.channel.None?
  }

  predicate HasSuppliers(f: Filters) {
    f.product.None? && f.category.None? && f.channel.None?
  }

  /** Where the supplier rows come among the rows read. */
  function SupplierIndex(f: Filters): nat {
    if HasProducts(f) then 2 else 1
  }

  function GrainRead(f: Filters): Grain {
    match GrainOf(f) case Ok(g) => g case Err(_) => Scope
  }

  function ActiveDaysOf(days: nat): (r: real)
    ensures r > 0.0
  {
    if days > 1 then days as real else 1.0
  }

  /** One table of rows for every section read. */
  predicate Sectioned(f: Filters, rows: seq<AggregateTable>) {
    |rows| == |Sections(f)|
  }

  lemma SectionCount(f: Filters)
    ensures |Sections(f)| == 1 + (if HasProducts(f) then 1 else 0) + (if HasSuppliers(f) then 1 else 0)
    ensures HasSuppliers(f) ==> SupplierIndex(f) == 1 + (if HasProducts(f) then 1 else 0)
    ensures forall rows :: Sectioned(f, rows) ==> |rows| == |Sections(f)|
    ensures Sections(f)[0] == (f, GrainRead(f))
    ensures HasProducts(f) ==> Sections(f)[1] == (f, Product)
    ensures HasSuppliers(f) ==> Sections(f)[SupplierIndex(f)] == (f.(brand := None), Supplier)
  {
  }

  ghost predicate ProductsPart(f: Filters, rows: seq<AggregateTable>, days: real, root: real -> real, p: Payload)
    requires Sectioned(f, rows) && days > 0.0
  {
    SectionCount(f);
    if HasProducts(f) then ProductsDerived(rows[1], days, root, p) else p == map[]
  }

  ghost predicate SuppliersPart(f: Filters, rows: seq<AggregateTable>, s: Payload)
    requires Sectioned(f, rows)
  {
    SectionCount(f);
    if HasSuppliers(f) then SuppliersDerived(rows[SupplierIndex(f)], s) else s == map[]
  }

  ghost function Own(f: Filters, rows: seq<AggregateTable>, freshness: Option<int>, now: int,
                     root: real -> real): Payload
    requires Sectioned(f, rows)
  {
    Reported(rows[0], freshness, GrainRead(f), now, root)
  }

  /** The measures of these rows at this time. */
  ghost predicate IsSnapshot(f: Filters, rows: seq<AggregateTable>, now: int, root: real -> real, values: Payload) {
    Sectioned(f, rows) &&
    exists freshness, p, s :: IsComposed(f, rows, now, root, values, freshness, p, s)
  }

  ghost predicate IsComposed(f: Filters, rows: seq<AggregateTable>, now: int, root: real -> real, values: Payload,
                             freshness: Option<int>, p: Payload, s: Payload)
    requires Sectioned(f, rows)
  {
    IsFreshness(rows[0], rows[0].Keys, freshness) &&
    ProductsPart(f, rows, ActiveDaysOf(|DatesOf(rows[0].Keys)|), root, p) && SuppliersPart(f, rows, s) &&
    values == Own(f, rows, freshness, now, root) + p + s
  }

  // ---------------------------------------------------------------- the request's code

  /** The whole `_measure_snapshot`: fold and derive the own rows, then the
      product rows, then the supplier rows; any section above the cap fails. */
  method FullSnapshot(f: Filters, rows: seq<AggregateTable>, orders: seq<seq<AggregateKey>>, now: int,
                      root: real -> real)
    returns (r: Result<Measures, QueryError>)
    requires Sectioned(f, rows) && |orders| == |rows| && GrainOf(f).Ok?
    requires (forall i :: 0 <= i < |rows| ==> Enumerates(orders[i], rows[i].Keys)) && OnePerDay(rows[0])
    ensures r.Err? <==> exists i :: 0 <= i < |rows| && |orders[i]| > MAX_AGGREGATE_ROWS
    ensures r.Err? ==> r.error == CardinalityLimit
    ensures r.Ok? ==> IsSnapshot(f, rows, now, root, r.value.values) && (r.value.hasData <==> rows[0].Keys != {})
  {
    hide *;
    SectionCount(f);
    var own, days := MeasureSnapshot(rows[0], orders[0], GrainRead(f), now, root);
    if own.Err? {
      return Err(own.error);
    }
    var p: Payload, s: Payload := map[], map[];
    if HasProducts(f) {
      var products := DeriveProducts(rows[1], orders[1], ActiveDaysOf(days), root);
      if products.Err? {
        return Err(products.error);
      }
      p := products.value;
    }
    if HasSuppliers(f) {
      var i := SupplierIndex(f);
      var suppliers := DeriveSuppliers(rows[i], orders[i]);
      if suppliers.Err? {
        return Err(suppliers.error);
      }
      s := suppliers.value;
    }
    Composed(f, rows, own.value.freshness, now, root, p, s);
    return Ok(Measures(own.value.values + p + s, own.value.freshness, own.value.hasData));
  }

  lemma Composed(f: Filters, rows: seq<AggregateTable>, freshness: Option<int>, now: int, root: real -> real,
                 p: Payload, s: Payload)
    requires Sectioned(f, rows) && |rows| > 0 && IsFreshness(rows[0], rows[0].Keys, freshness)
    requires HasProducts(f) ==> |rows| > 1 && ProductsDerived(rows[1], ActiveDaysOf(|DatesOf(rows[0].Keys)|), root, p)
    requires !HasProducts(f) ==> p == map[]
    requires HasSuppliers(f) ==> |rows| > SupplierIndex(f) && SuppliersDerived(rows[SupplierIndex(f)], s)
    requires !HasSuppliers(f) ==> s == map[]
    ensures IsSnapshot(f, rows, now, root, Reported(rows[0], freshness, GrainRead(f), now, root) + p + s)
  {
    hide Reported, ProductsDerived, SuppliersDerived, IsFreshness;
    assert IsComposed(f, rows, now, root, Reported(rows[0], freshness, GrainRead(f), now, root) + p + s, freshness, p,
      s);
  }

  // ---------------------------------------------------------------- the measures exist

  lemma LatestRowsExist(keys: set<AggregateKey>)
    ensures exists latest :: LatestRows(keys, latest)
  {
    var latest := map s | s in Stocks(keys) :: SomeLast(keys, s);
    assert LatestRows(keys, latest);
  }

  /** The product measures with this choice of latest rows. */
  lemma ProductsWith(t: AggregateTable, days: real, root: real -> real, latest: map<StockKey, AggregateKey>)
    returns (p: Payload)
    requires days > 0.0 && LatestRows(t.Keys, latest)
    ensures latest.Values <= t.Keys && ProductsDerived(t, days, root, p)
    ensures HoldsCover(p, CoverOf(t, latest, GroupValues(t, t.Keys, ProductIdOf, UnitsSold), days, latest.Keys))
  {
    hide *;
    var sold, units := GroupValues(t, t.Keys, ProductIdOf, UnitsSold), UnitsOf(t, t.Keys);
    var revenue := GroupValues(t, t.Keys, ProductIdOf, ProductNetRevenue);
    LatestAreRows(t.Keys, latest);
    TopSumExists(revenue, 10);
    var top :| IsTopSum(revenue, 10, top);
    var cover := CoverOf(t, latest, sold, days, latest.Keys);
    var deviation := if units.Keys == {} then None else Some(root(PopulationVariance(units, units.Keys)));
    MeasuresHeld(|Positive(sold)|, top, deviation, cover);
    p := ProductMeasures(|Positive(sold)|, top, deviation, cover);
    DerivedHolds(t, days, root, latest, p);
  }

  lemma ProductsExist(t: AggregateTable, days: real, root: real -> real)
    requires days > 0.0
    ensures exists p :: ProductsDerived(t, days, root, p)
  {
    hide *;
    LatestRowsExist(t.Keys);
    var latest :| LatestRows(t.Keys, latest);
    var p := ProductsWith(t, days, root, latest);
  }

  lemma SuppliersExist(t: AggregateTable)
    ensures exists s :: SuppliersDerived(t, s)
  {
    hide *;
    var bought := GroupValues(t, t.Keys, SupplierIdOf, PurchaseValue);
    var products := GroupValues(t, t.Keys, SupplierIdOf, SupplierProductCount);
    TopSumExists(bought, 1);
    TopSumExists(bought, 5);
    var one :| IsTopSum(bought, 1, one);
    var five :| IsTopSum(bought, 5, five);
    var s := map[ActiveSupplierCount := |Positive(bought)| as real, TopSupplierValue := one, Top5SupplierValue := five,
                 SupplierProductCount := Sum(products, products.Keys)];
    SuppliersHold(t, s);
  }

  lemma {:induction false} FreshnessExists(t: AggregateTable, keys: set<AggregateKey>)
    requires keys <= t.Keys
    ensures exists freshness :: IsFreshness(t, keys, freshness)
    decreases keys
  {
    if keys == {} {
      assert IsFreshness(t, keys, None);
    } else {
      var k :| k in keys;
      FreshnessExists(t, keys - {k});
      var freshness :| IsFreshness(t, keys - {k}, freshness);
      FreshnessNext(t, keys - {k}, freshness, k);
      assert keys - {k} + {k} == keys;
      assert IsFreshness(t, keys, Later(freshness, t[k].sourceMaxUpdatedAt));
    }
  }

  lemma SnapshotExists(f: Filters, rows: seq<AggregateTable>, now: int, root: real -> real)
    requires Sectioned(f, rows)
    ensures exists values :: IsSnapshot(f, rows, now, root, values)
  {
    SectionCount(f);
    hide Sections, ProductsDerived, SuppliersDerived, IsFreshness, Reported, DatesOf;
    var days := ActiveDaysOf(|DatesOf(rows[0].Keys)|);
    FreshnessExists(rows[0], rows[0].Keys);
    var freshness :| IsFreshness(rows[0], rows[0].Keys, freshness);
    var p: Payload, s: Payload := map[], map[];
    if HasProducts(f) {
      ProductsExist(rows[1], days, root);
      p :| ProductsDerived(rows[1], days, root, p);
    }
    if HasSuppliers(f) {
      SuppliersExist(rows[SupplierIndex(f)]);
      s :| SuppliersDerived(rows[SupplierIndex(f)], s);
    }
    Composed(f, rows, freshness, now, root, p, s);
  }

  // ---------------------------------------------------------------- and are determined

  lemma SameCover(t: AggregateTable, sold: map<Id, real>, days: real, p: Payload, q: Payload)
    requires days > 0.0 && CountsCover(t, sold, days, p) && CountsCover(t, sold, days, q) && SameLevels(t, sold, days)
    ensures exists c :: HoldsCover(p, c) && HoldsCover(q, c)
  {
    hide CoverOf, HoldsCover, LatestRows, SameLevels;
    var one :| LatestRows(t.Keys, one) && one.Values <= t.Keys && HoldsCover(p, CoverOf(t, one, sold, days, one.Keys));
    var two :| LatestRows(t.Keys, two) && two.Values <= t.Keys && HoldsCover(q, CoverOf(t, two, sold, days, two.Keys));
    LevelsDetermineCover(t, one, two, sold, days);
  }

  /** The stock cover of these product rows, over so many active days, does not
      depend on their order. */
  ghost predicate CoverDetermined(t: AggregateTable, days: real)
    requires days > 0.0
  {
    SameLevels(t, GroupValues(t, t.Keys, ProductIdOf, UnitsSold), days)
  }

  lemma ProductsDetermined(t: AggregateTable, days: real, root: real -> real, p: Payload, q: Payload)
    requires days > 0.0 && CoverDetermined(t, days)
    requires ProductsDerived(t, days, root, p) && ProductsDerived(t, days, root, q)
    ensures p == q
  {
    hide *;
    forall m: Measure ensures m in p ==> m in q && p[m] == q[m] {
      SameProductMeasure(t, days, root, p, q, m);
    }
    forall m: Measure ensures m in q ==> m in p {
      SameProductMeasure(t, days, root, q, p, m);
    }
    assert p.Keys == q.Keys;
  }

  lemma SameProductMeasure(t: AggregateTable, days: real, root: real -> real, p: Payload, q: Payload, m: Measure)
    requires days > 0.0 && CoverDetermined(t, days)
    requires ProductsDerived(t, days, root, p) && ProductsDerived(t, days, root, q)
    ensures m in p ==> m in q && p[m] == q[m]
  {
    hide *;
    if m in p {
      CoverPart(t, days, root, p, q);
      SalesPart(t, days, root, p, q);
      ProductMeasure(t, days, root, p, m);
    }
  }

  lemma ProductMeasure(t: AggregateTable, days: real, root: real -> real, p: Payload, m: Measure)
    requires days > 0.0 && ProductsDerived(t, days, root, p) && m in p
    ensures m == SoldProductCount || m == Top10Revenue || m == DemandStddev ||
            m in {LowCoverProducts, ExcessStockProducts, SlowMovingProducts, NoSaleProducts}
  {
    hide GroupValues, CountsCover, IsTopSum, UnitsOf, PopulationVariance;
  }

  lemma SalesPart(t: AggregateTable, days: real, root: real -> real, p: Payload, q: Payload)
    requires days > 0.0 && ProductsDerived(t, days, root, p) && ProductsDerived(t, days, root, q)
    ensures SoldProductCount in p && SoldProductCount in q && p[SoldProductCount] == q[SoldProductCount]
    ensures Top10Revenue in p && Top10Revenue in q && p[Top10Revenue] == q[Top10Revenue]
    ensures (DemandStddev in p <==> DemandStddev in q) && (DemandStddev in p ==> p[DemandStddev] == q[DemandStddev])
  {
    SalesOf(t, days, root, p);
    SalesOf(t, days, root, q);
    hide ProductsDerived, GroupValues, IsTopSum, UnitsOf, PopulationVariance, Positive;
    TopSumIsUnique(GroupValues(t, t.Keys, ProductIdOf, ProductNetRevenue), 10, p[Top10Revenue], q[Top10Revenue]);
  }

  lemma SalesOf(t: AggregateTable, days: real, root: real -> real, p: Payload)
    requires days > 0.0 && ProductsDerived(t, days, root, p)
    ensures var units := UnitsOf(t, t.Keys);
      SoldProductCount in p &&
        p[SoldProductCount] == |Positive(GroupValues(t, t.Keys, ProductIdOf, UnitsSold))| as real &&
      Top10Revenue in p && IsTopSum(GroupValues(t, t.Keys, ProductIdOf, ProductNetRevenue), 10, p[Top10Revenue]) &&
      (DemandStddev in p <==> units.Keys != {}) &&
      (units.Keys != {} ==> p[DemandStddev] == root(PopulationVariance(units, units.Keys)))
  {
    hide GroupValues, IsTopSum, UnitsOf, PopulationVariance, Positive, CountsCover;
  }

  lemma CoverPart(t: AggregateTable, days: real, root: real -> real, p: Payload, q: Payload)
    requires days > 0.0 && CoverDetermined(t, days)
    requires ProductsDerived(t, days, root, p) && ProductsDerived(t, days, root, q)
    ensures forall m :: m in {LowCoverProducts, ExcessStockProducts, SlowMovingProducts, NoSaleProducts} ==>
      m in p && m in q && p[m] == q[m]
  {
    hide GroupValues, CountsCover, HoldsCover, IsTopSum, UnitsOf, PopulationVariance, SameLevels;
    SameCover(t, GroupValues(t, t.Keys, ProductIdOf, UnitsSold), days, p, q);
    var c :| HoldsCover(p, c) && HoldsCover(q, c);
    SameCounters(p, q, c);
  }

  lemma SameCounters(p: Payload, q: Payload, c: Cover)
    requires HoldsCover(p, c) && HoldsCover(q, c)
    ensures forall m :: m in {LowCoverProducts, ExcessStockProducts, SlowMovingProducts, NoSaleProducts} ==>
      m in p && m in q && p[m] == q[m]
  {
  }

  lemma SuppliersDetermined(t: AggregateTable, p: Payload, q: Payload)
    requires SuppliersDerived(t, p) && SuppliersDerived(t, q)
    ensures p == q
  {
    hide GroupValues, IsTopSum, Positive, Sum;
    var bought := GroupValues(t, t.Keys, SupplierIdOf, PurchaseValue);
    TopSumIsUnique(bought, 1, p[TopSupplierValue], q[TopSupplierValue]);
    TopSumIsUnique(bought, 5, p[Top5SupplierValue], q[Top5SupplierValue]);
  }

  /** The measures apart from the seconds since the last source update. */
  function Timeless(p: Payload): Payload {
    p - {FreshnessSeconds}
  }

  lemma OwnIsTimeless(f: Filters, rows: seq<AggregateTable>, one: Option<int>, two: Option<int>, now: int, later: int,
                      root: real -> real)
    requires Sectioned(f, rows) && |rows| > 0
    ensures Timeless(Own(f, rows, one, now, root)) == Timeless(Own(f, rows, two, later, root))
  {
    hide Sections, Priced, WithProfits, LagSeconds, Base, PointTable, DatesOf, Finished;
    var t, g := rows[0], GrainRead(f);
    FinishedIs(Base(t), Total(PointTable(t), t.Keys), |DatesOf(t.Keys)|, one, g, now, root);
    FinishedIs(Base(t), Total(PointTable(t), t.Keys), |DatesOf(t.Keys)|, two, g, later, root);
  }

  /** The stock cover of these rows does not depend on their order. */
  ghost predicate StockDetermined(f: Filters, rows: seq<AggregateTable>) {
    Sectioned(f, rows) &&
    (HasProducts(f) ==> |rows| > 1 && CoverDetermined(rows[1], ActiveDaysOf(|DatesOf(rows[0].Keys)|)))
  }

  /** Two requests that read the same rows have the same measures, whenever they
      ran and in whatever order the rows came. */
  lemma MeasuresDetermined(f: Filters, rows: seq<AggregateTable>, now: int, later: int, root: real -> real, p: Payload,
                           q: Payload)
    ensures StockDetermined(f, rows) && IsSnapshot(f, rows, now, root, p) && IsSnapshot(f, rows, later, root, q) ==>
      Timeless(p) == Timeless(q)
  {
    if StockDetermined(f, rows) && IsSnapshot(f, rows, now, root, p) && IsSnapshot(f, rows, later, root, q) {
      SectionCount(f);
      hide Sections, ProductsDerived, SuppliersDerived, IsFreshness, Reported, DatesOf, CoverDetermined, Timeless, Own;
      var fp, pp, sp :| IsComposed(f, rows, now, root, p, fp, pp, sp);
      var fq, pq, sq :| IsComposed(f, rows, later, root, q, fq, pq, sq);
      var days := ActiveDaysOf(|DatesOf(rows[0].Keys)|);
      if HasProducts(f) {
        ProductsDetermined(rows[1], days, root, pp, pq);
      }
      if HasSuppliers(f) {
        SuppliersDetermined(rows[SupplierIndex(f)], sp, sq);
      }
      OwnIsTimeless(f, rows, fp, fq, now, later, root);
      TimelessAdd(Own(f, rows, fp, now, root), Own(f, rows, fq, later, root), pp, sp);
    }
  }

  lemma MeasureShows(own: Payload, p: Payload, q: Payload, s: Payload, m: Measure)
    requires m in p && m in q && m !in s && m != FreshnessSeconds && p[m] != q[m]
    ensures Timeless(own + p + s) != Timeless(own + q + s)
  {
    assert Timeless(own + p + s)[m] == p[m] && Timeless(own + q + s)[m] == q[m];
  }

  /** Product measures that hold different cover counters make different snapshots. */
  lemma CoverShows(own: Payload, p: Payload, q: Payload, s: Payload, c: Cover, d: Cover)
    requires HoldsCover(p, c) && HoldsCover(q, d) && c != d
    requires forall m :: m in {LowCoverProducts, ExcessStockProducts, SlowMovingProducts, NoSaleProducts} ==> m !in s
    ensures Timeless(own + p + s) != Timeless(own + q + s)
  {
    hide Timeless;
    if c.low != d.low {
      MeasureShows(own, p, q, s, LowCoverProducts);
    } else if c.excess != d.excess {
      MeasureShows(own, p, q, s, ExcessStockProducts);
    } else if c.slow != d.slow {
      MeasureShows(own, p, q, s, SlowMovingProducts);
    } else {
      MeasureShows(own, p, q, s, NoSaleProducts);
    }
  }

  lemma SuppliersPartOf(f: Filters, rows: seq<AggregateTable>) returns (s: Payload)
    requires Sectioned(f, rows)
    ensures SuppliersPart(f, rows, s)
    ensures forall m :: m in {LowCoverProducts, ExcessStockProducts, SlowMovingProducts, NoSaleProducts} ==> m !in s
  {
    SectionCount(f);
    hide Sections, GroupValues, IsTopSum, Positive;
    s := map[];
    if HasSuppliers(f) {
      SuppliersExist(rows[SupplierIndex(f)]);
      s :| SuppliersDerived(rows[SupplierIndex(f)], s);
    }
  }

  /** Rows whose stock cover depends on their order give different measures. */
  lemma MeasuresVary(f: Filters, rows: seq<AggregateTable>, now: int, root: real -> real)
    returns (p: Payload, q: Payload)
    requires Sectioned(f, rows) && !StockDetermined(f, rows)
    ensures IsSnapshot(f, rows, now, root, p) && IsSnapshot(f, rows, now, root, q) && Timeless(p) != Timeless(q)
  {
    SectionCount(f);
    hide Sections, ProductsDerived, SuppliersDerived, IsFreshness, Reported, DatesOf, Timeless, Own, CoverOf,
         GroupValues, SameLevels, Kept, Enumerates, HoldsCover, SuppliersPart;
    var t, days := rows[1], ActiveDaysOf(|DatesOf(rows[0].Keys)|);
    var sold := GroupValues(t, t.Keys, ProductIdOf, UnitsSold);
    FreshnessExists(rows[0], rows[0].Keys);
    var freshness :| IsFreshness(rows[0], rows[0].Keys, freshness);
    var one, two := UnequalLevels(t, sold, days);
    KeptIsLatest(t.Keys, one);
    KeptIsLatest(t.Keys, two);
    var first := ProductsWith(t, days, root, Kept(one));
    var second := ProductsWith(t, days, root, Kept(two));
    var s := SuppliersPartOf(f, rows);
    var own := Own(f, rows, freshness, now, root);
    p, q := own + first + s, own + second + s;
    assert IsComposed(f, rows, now, root, p, freshness, first, s);
    assert IsComposed(f, rows, now, root, q, freshness, second, s);
    CoverShows(own, first, second, s, CoverOf(t, Kept(one), sold, days, Kept(one).Keys),
               CoverOf(t, Kept(two), sold, days, Kept(two).Keys));
  }

  /** All snapshots of these rows have the same measures. */
  ghost predicate Determined(f: Filters, rows: seq<AggregateTable>, root: real -> real) {
    forall now, later, p, q :: IsSnapshot(f, rows, now, root, p) && IsSnapshot(f, rows, later, root, q) ==>
      Timeless(p) == Timeless(q)
  }

  /** The measures are determined by the rows exactly when the stock cover is. */
  lemma DeterminationIsExact(f: Filters, rows: seq<AggregateTable>, root: real -> real)
    requires Sectioned(f, rows)
    ensures Determined(f, rows, root) <==> StockDetermined(f, rows)
  {
    hide IsSnapshot, StockDetermined, Timeless, Sectioned;
    if StockDetermined(f, rows) {
      forall now, later, p, q | IsSnapshot(f, rows, now, root, p) && IsSnapshot(f, rows, later, root, q)
        ensures Timeless(p) == Timeless(q)
      {
        MeasuresDetermined(f, rows, now, later, root, p, q);
      }
    } else {
      var p, q := MeasuresVary(f, rows, 0, root);
    }
  }

  lemma TimelessAdd(a: Payload, b: Payload, p: Payload, s: Payload)
    requires Timeless(a) == Timeless(b)
    ensures Timeless(a + p + s) == Timeless(b + p + s)
  {
    forall m | m != FreshnessSeconds ensures (m in a <==> m in b) && (m in a ==> a[m] == b[m]) {
      assert m in a <==> m in Timeless(a);
      assert m in b <==> m in Timeless(b);
    }
  }

  // ---------------------------------------------------------------- the question of an indicator

  /** The measures of these rows, at time zero. */
  ghost function MeasuresFrom(f: Filters, rows: seq<AggregateTable>, root: real -> real): (p: Payload)
    ensures Sectioned(f, rows) ==> IsSnapshot(f, rows, 0, root, p)
  {
    if Sectioned(f, rows) then
      SnapshotExists(f, rows, 0, root);
      var p :| IsSnapshot(f, rows, 0, root, p);
      p
    else map[]
  }

  /** The indicator's formula does not read the seconds since the last source update. */
  ghost predicate IgnoresTime(formula: Payload -> Option<real>) {
    forall p, q :: Timeless(p) == Timeless(q) ==> formula(p) == formula(q)
  }

  ghost function KpiQuestion(f: Filters, access: Dimensions.Table -> Access, root: real -> real,
                             formula: Payload -> Option<real>, decreaseIsGood: bool): Question {
    Question(f, access, (g, rows) => MeasuresFrom(g, rows, root), formula, decreaseIsGood, false)
  }

  /** Whatever measures the code computes from the rows of a window, at any time
      and in any order, the formula gives the value that the cache protocol takes. */
  lemma ComputedValue(f: Filters, access: Dimensions.Table -> Access, root: real -> real,
                      formula: Payload -> Option<real>,
                      decreaseIsGood: bool, window: Filters, rows: seq<AggregateTable>, now: int, values: Payload)
    requires IgnoresTime(formula) && StockDetermined(window, rows) && IsSnapshot(window, rows, now, root, values)
    requires |rows| > 0
    ensures WindowValue(KpiQuestion(f, access, root, formula, decreaseIsGood), window, rows)
         == if rows[0].Keys == {} then None else formula(values)
  {
    hide IsSnapshot, StockDetermined, Sections, Timeless;
    SectionedRows(window, rows);
    MeasuresDetermined(window, rows, now, 0, root, values, MeasuresFrom(window, rows, root));
  }

  lemma SectionedRows(f: Filters, rows: seq<AggregateTable>)
    requires StockDetermined(f, rows)
    ensures Sectioned(f, rows)
  {
  }

  /** The windows' rows of one version of the data. */
  ghost function WindowRows(q: Question, data: Data, previous: bool): seq<AggregateTable> {
    var rows, k := RowsUpTo(q, data, |Plan(q)|), |Sections(q.filters)|;
    if previous then rows[k..] else rows[..k]
  }

  /** The answer shows what the code computes from the rows of both windows. */
  ghost predicate Shows(q: Question, data: Data, current: Payload, previous: Payload, a: Answer) {
    var one, two := WindowRows(q, data, false), WindowRows(q, data, true);
    |one| > 0 && |two| > 0 &&
    a.value == (if one[0].Keys == {} then None else q.formula(current)) &&
    a.comparison == (if two[0].Keys == {} then None else q.formula(previous))
  }

  /** The measures that the code may compute, at this time, from one version of the data. */
  ghost predicate Computes(q: Question, data: Data, root: real -> real, now: int, current: Payload, previous: Payload) {
    var one, two := WindowRows(q, data, false), WindowRows(q, data, true);
    IsSnapshot(q.filters, one, now, root, current) && IsSnapshot(PreviousWindow(q.filters), two, now, root, previous)
  }

  /** In both windows no stock has two product rows on its latest day. */
  ghost predicate StocksDetermined(q: Question, data: Data) {
    StockDetermined(q.filters, WindowRows(q, data, false)) &&
      StockDetermined(PreviousWindow(q.filters), WindowRows(q, data, true))
  }

  lemma RecomputedShows(q: Question, access: Dimensions.Table -> Access, root: real -> real, version: nat, data: Data,
                        target: Option<real>, now: int, current: Payload, previous: Payload)
    requires q == KpiQuestion(q.filters, access, root, q.formula, q.decreaseIsGood) && IgnoresTime(q.formula)
    requires StocksDetermined(q, data) && Computes(q, data, root, now, current, previous)
    ensures Shows(q, data, current, previous, Recomputed(q, version, data, target))
  {
    var one, two := WindowRows(q, data, false), WindowRows(q, data, true);
    WindowsAnswered(q, version, data, target);
    QuestionFilters(q.filters, access, root, q.formula, q.decreaseIsGood);
    hide Recomputed, IsSnapshot, StockDetermined, WindowRows, IgnoresTime, KpiQuestion, Sections, PreviousWindow;
    SectionedRows(q.filters, one);
    SectionedRows(PreviousWindow(q.filters), two);
    ComputedValue(q.filters, access, root, q.formula, q.decreaseIsGood, q.filters, one, now, current);
    ComputedValue(q.filters, access, root, q.formula, q.decreaseIsGood, PreviousWindow(q.filters), two, now, previous);
  }

  /** A hit while its version is current shows the values that the code computes
      from that version's rows, whenever and in whatever order it reads them. */
  lemma HitShowsComputedValues(qs: Questions, s: State, id: nat, q: Question, data: Data,
                               access: Dimensions.Table -> Access, root: real -> real,
                               now: int, current: Payload, previous: Payload)
    requires Valid(qs, s) && id in s.requests && s.requests[id].Overlaying? && q == qs(s.requests[id].ident)
    requires |s.history| > 0 && s.requests[id].version == |s.history| - 1 && data == s.history[|s.history| - 1]
    requires q == KpiQuestion(q.filters, access, root, q.formula, q.decreaseIsGood) && IgnoresTime(q.formula)
    requires StocksDetermined(q, data) && Computes(q, data, root, now, current, previous)
    ensures id in Next(qs, s, OverlayGoal(id)).requests
    ensures var after := Next(qs, s, OverlayGoal(id)).requests[id];
      after.Done? && after.entry.answer.cacheStatus == Hit && Shows(q, data, current, previous, after.entry.answer)
  {
    hide Valid, Recomputed, StocksDetermined, Computes, IgnoresTime, KpiQuestion, Advanced, WindowRows;
    StepStays(qs, s, OverlayGoal(id), id);
    HitIsRecomputation(qs, s, id);
    var target := Goal(s.goals, s.requests[id].ident);
    RecomputedShows(q, access, root, s.requests[id].version, data, target, now, current, previous);
  }

  lemma QuestionFilters(f: Filters, access: Dimensions.Table -> Access, root: real -> real,
                        formula: Payload -> Option<real>, decreaseIsGood: bool)
    ensures var q := KpiQuestion(f, access, root, formula, decreaseIsGood); q.filters == f && !q.bypass
  {
  }

  lemma WindowsAnswered(q: Question, version: nat, data: Data, target: Option<real>)
    ensures var one, two := WindowRows(q, data, false), WindowRows(q, data, true);
      var a := Recomputed(q, version, data, target);
      |one| > 0 && |two| > 0 && a.value == WindowValue(q, q.filters, one) &&
      (!q.bypass ==> a.comparison == WindowValue(q, PreviousWindow(q.filters), two))
  {
    hide Rows, Variation, StatusOf, WindowValue;
  }
}
