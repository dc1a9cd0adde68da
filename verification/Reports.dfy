/** What a snapshot reports, measure by measure, told from the rows that it
    read: the result of `_measure_snapshot` without its intermediate dictionaries. */
module Reports {
  import opened Wrappers
  import opened Payloads
  import opened Facts
  import opened Filters
  import opened Sums
  import opened Snapshot
  import opened Products
  import opened Sorting
  import opened Stock
  import opened Prices
  import opened KpiCache
  import opened KpiMeasures
  import Ranking

  /** A measure's value in every row, zero where the row does not give it. */
  ghost function ValuesOf(t: AggregateTable, m: Measure): (v: map<AggregateKey, real>)
    ensures v.Keys == t.Keys
  {
    map key | key in t :: Get(t[key].measures, m)
  }

  // ---------------------------------------------------------------- the own rows

  ghost predicate SameEntity(k: AggregateKey, l: AggregateKey) {
    k.company == l.company && k.branch == l.branch && k.product == l.product && k.category == l.category &&
    k.supplier == l.supplier
  }

  /** The rows than which their entity has none later. */
  ghost function LastRows(t: AggregateTable): (r: set<AggregateKey>)
    ensures r <= t.Keys
  {
    set key | key in t && forall l :: l in t && SameEntity(l, key) ==> l.day <= key.day
  }

  lemma LastIsLatest(t: AggregateTable, key: AggregateKey)
    ensures key in LastRows(t) <==> IsLatest(t.Keys, key)
  {
  }

  lemma OneLatestRow(t: AggregateTable, e: Entity, key: AggregateKey)
    requires OnePerDay(t) && e in Entities(t.Keys)
    ensures IsLatest(t.Keys, key) && EntityOf(key) == e <==> key == LatestKey(t.Keys, e)
  {
  }

  /** Summing the entities' latest measures is summing the last rows. */
  lemma PointsAreLastRows(t: AggregateTable)
    requires OnePerDay(t)
    ensures Total(Points(t), Entities(t.Keys)) == Total(PointTable(t), LastRows(t))
  {
    var entity := map key | key in t :: EntityOf(key);
    var es := Entities(t.Keys);
    hide PointPart, LastRows, IsLatest;
    GroupingConserves(PointTable(t), LastRows(t), entity, es);
    forall e | e in es ensures Points(t)[e] == GroupTotals(PointTable(t), LastRows(t), entity, es)[e] {
      PointIsLastRow(t, entity, e);
    }
    hide Points, PointTable, GroupTotals, OnePerDay;
    TotalFrame(Points(t), GroupTotals(PointTable(t), LastRows(t), entity, es), es);
  }

  lemma PointIsLastRow(t: AggregateTable, entity: map<AggregateKey, Entity>, e: Entity)
    requires OnePerDay(t) && e in Entities(t.Keys)
    requires entity.Keys == t.Keys && forall key :: key in t ==> entity[key] == EntityOf(key)
    ensures Points(t)[e] == Total(PointTable(t), Fibre(LastRows(t), entity, e))
  {
    hide PointPart, LastRows, IsLatest, EntityOf, OnePerDay, Entities;
    var key := LatestKey(t.Keys, e);
    forall k ensures k in Fibre(LastRows(t), entity, e) <==> k == key {
      LastIsLatest(t, k);
      OneLatestRow(t, e, k);
    }
    assert Fibre(LastRows(t), entity, e) == {key};
    TotalSingleton(PointTable(t), key);
  }

  /** The measures of a level, such as a stock: they do not add up over days. */
  const LEVELS: set<Measure> :=
    {InventoryOnHand, InventoryAvailable, InventoryReserved, InventoryInTransit, InventoryRetailValue,
     InventoryCostValue, ScopedInventoryValue, NegativeStockProducts, ZeroStockProducts, ActiveProducts}

  lemma Parts(t: AggregateTable, s: set<AggregateKey>, m: Measure)
    requires s <= t.Keys
    ensures Get(Total(PointTable(t), s), m) == if m in LEVELS then Sum(ValuesOf(t, m), s) else 0.0
    ensures Get(Total(FlowTable(t), s), m) == if m in LEVELS then 0.0 else Sum(ValuesOf(t, m), s)
  {
    var zero := map key | key in t :: 0.0;
    SumOfZeros(zero, s);
    forall key | key in t
      ensures Get(PointTable(t)[key], m) == if m in LEVELS then ValuesOf(t, m)[key] else 0.0
      ensures Get(FlowTable(t)[key], m) == if m in LEVELS then 0.0 else ValuesOf(t, m)[key]
    {
      RowParts(t[key].measures, m);
      hide PointPart, FlowPart, LEVELS, Get;
    }
    hide PointTable, FlowTable, ValuesOf, LEVELS, Get;
    if m in LEVELS {
      TotalIsSum(PointTable(t), s, m, ValuesOf(t, m));
      TotalIsSum(FlowTable(t), s, m, zero);
    } else {
      TotalIsSum(PointTable(t), s, m, zero);
      TotalIsSum(FlowTable(t), s, m, ValuesOf(t, m));
    }
  }

  lemma RowParts(p: Payload, m: Measure)
    ensures Get(PointPart(p), m) == if m in LEVELS then Get(p, m) else 0.0
    ensures Get(FlowPart(p), m) == if m in LEVELS then 0.0 else Get(p, m)
  {
    LevelsAre(m);
    hide PointInTime, LEVELS;
  }

  lemma LevelsAre(m: Measure)
    ensures PointInTime(m) <==> m in LEVELS
  {
  }

  lemma {:induction false} SumOfZeros<K>(v: map<K, real>, s: set<K>)
    requires s <= v.Keys && forall k :: k in s ==> v[k] == 0.0
    ensures Sum(v, s) == 0.0
    decreases s
  {
    if s == {} {
    } else {
      SumOfZeros(v, s - {Pick(s)});
    }
  }

  /** Levels are added over the last row of each entity, everything else over
      all rows. */
  lemma BaseIsExact(t: AggregateTable, m: Measure)
    requires OnePerDay(t)
    ensures var levels :=
        {InventoryOnHand, InventoryAvailable, InventoryReserved, InventoryInTransit, InventoryRetailValue,
         InventoryCostValue, ScopedInventoryValue, NegativeStockProducts, ZeroStockProducts, ActiveProducts};
      Get(Base(t), m) == Sum(ValuesOf(t, m), if m in levels then LastRows(t) else t.Keys)
  {
    PointsAreLastRows(t);
    Parts(t, t.Keys, m);
    Parts(t, LastRows(t), m);
    hide PointTable, FlowTable, Points, LastRows, Entities, ValuesOf;
  }

  /** What a snapshot reports of its own rows, at every grain, under every name
      that is not derived: levels as of each entity's last day, flows over all
      days, and at product and category grain the product measures in place of
      five general ones. */
  lemma RowsReported(f: Filters, g: Grain, rows: seq<AggregateTable>, now: int, root: real -> real, values: Payload,
                     m: Measure)
    requires GrainOf(f) == Ok(g) && IsSnapshot(f, rows, now, root, values) && |rows| > 0 && OnePerDay(rows[0])
    requires !Derived(m)
    ensures var levels :=
        {InventoryOnHand, InventoryAvailable, InventoryReserved, InventoryInTransit, InventoryRetailValue,
         InventoryCostValue, ScopedInventoryValue, NegativeStockProducts, ZeroStockProducts, ActiveProducts};
      var behind := if g != Product && g != Category then m else
        match m
        case GrossRevenue => ProductGrossRevenue
        case NetRevenue => ProductNetRevenue
        case DiscountAmount => ProductDiscountAmount
        case SalesTax => ProductSalesTax
        case PurchaseValue => ProductPurchaseValue
        case _ => m;
      Get(values, m) == Sum(ValuesOf(rows[0], behind), if m in levels then LastRows(rows[0]) else rows[0].Keys)
  {
    hide IsSnapshot, Base, ValuesOf, LastRows, OnePerDay, Finished, Reported, GrainOf, SECTIONS, IsFreshness;
    var freshness := OwnShows(f, rows, now, root, values);
    SectionsAreDerived(m);
    OwnKeeps(f, g, rows, freshness, now, root, m);
    BaseIsExact(rows[0], Underlying(g, m));
  }

  /** The measures that come from product and supplier rows. */
  const SECTIONS: set<Measure> :=
    PRODUCT_MEASURES + {DemandStddev, ActiveSupplierCount, TopSupplierValue, Top5SupplierValue, SupplierProductCount}

  /** The other sections of a snapshot touch no other measure. */
  lemma OwnShows(f: Filters, rows: seq<AggregateTable>, now: int, root: real -> real, values: Payload)
    returns (freshness: Option<int>)
    requires IsSnapshot(f, rows, now, root, values) && |rows| > 0
    ensures Sectioned(f, rows) && IsFreshness(rows[0], rows[0].Keys, freshness)
    ensures forall m :: m !in SECTIONS ==> Keeps(Own(f, rows, freshness, now, root), values, m)
  {
    var at, p, s := Composition(f, rows, now, root, values);
    freshness := at;
    hide *;
    SectionMeasures(f, rows, ActiveDaysOf(|DatesOf(rows[0].Keys)|), root, p, s);
    OutsideSections(Own(f, rows, freshness, now, root), p, s);
  }

  lemma OutsideSections(own: Payload, p: Payload, s: Payload)
    requires p.Keys <= SECTIONS && s.Keys <= SECTIONS
    ensures forall m :: m !in SECTIONS ==> Keeps(own, own + p + s, m)
  {
    hide SECTIONS;
  }

  lemma Composition(f: Filters, rows: seq<AggregateTable>, now: int, root: real -> real, values: Payload)
    returns (freshness: Option<int>, p: Payload, s: Payload)
    requires IsSnapshot(f, rows, now, root, values) && |rows| > 0
    ensures Sectioned(f, rows) && IsFreshness(rows[0], rows[0].Keys, freshness)
    ensures ProductsPart(f, rows, ActiveDaysOf(|DatesOf(rows[0].Keys)|), root, p) && SuppliersPart(f, rows, s)
    ensures values == Own(f, rows, freshness, now, root) + p + s
  {
    hide Own, IsFreshness, Sections, ProductsPart, SuppliersPart, ActiveDaysOf;
    freshness, p, s :| IsComposed(f, rows, now, root, values, freshness, p, s);
  }

  lemma SectionMeasures(f: Filters, rows: seq<AggregateTable>, days: real, root: real -> real, p: Payload, s: Payload)
    requires Sectioned(f, rows) && days > 0.0 && ProductsPart(f, rows, days, root, p) && SuppliersPart(f, rows, s)
    ensures p.Keys <= SECTIONS && s.Keys <= SECTIONS
  {
    SectionCount(f);
    hide Sections, ProductsDerived, SuppliersDerived, PRODUCT_MEASURES, SupplierIndex;
    if HasProducts(f) {
      ProductKeys(rows[1], days, root, p);
    }
    if HasSuppliers(f) {
      SupplierKeys(rows[SupplierIndex(f)], s);
    }
  }

  lemma SectionsAreDerived(m: Measure)
    ensures m in SECTIONS ==> Derived(m)
  {
  }

  lemma ProductKeys(t: AggregateTable, days: real, root: real -> real, p: Payload)
    requires days > 0.0 && ProductsDerived(t, days, root, p)
    ensures p.Keys <= PRODUCT_MEASURES + {DemandStddev}
  {
    hide CountsCover, IsTopSum, GroupValues, Positive, UnitsOf, PopulationVariance, PRODUCT_MEASURES;
  }

  lemma SupplierKeys(t: AggregateTable, s: Payload)
    requires SuppliersDerived(t, s)
    ensures s.Keys == {ActiveSupplierCount, TopSupplierValue, Top5SupplierValue, SupplierProductCount}
  {
    hide IsTopSum, GroupValues, Positive;
  }

  lemma OwnKeeps(f: Filters, g: Grain, rows: seq<AggregateTable>, freshness: Option<int>, now: int,
                 root: real -> real, m: Measure)
    requires GrainOf(f) == Ok(g) && Sectioned(f, rows) && |rows| > 0 && !Derived(m)
    ensures Get(Own(f, rows, freshness, now, root), m) == Get(Base(rows[0]), Underlying(g, m))
  {
    var t := rows[0];
    hide Finished, Base, Substituted, Underlying, PointTable, DatesOf, GrainOf;
    FinishedKeeps(Base(t), Total(PointTable(t), t.Keys), |DatesOf(t.Keys)|, freshness, g, now, root, m);
    SubstitutedFlow(Base(t), g, m);
  }

  // ---------------------------------------------------------------- derived measures

  /** Whether some row gives the measure at all. */
  ghost predicate Given(t: AggregateTable, m: Measure) {
    exists key :: key in t && m in t[key].measures
  }

  lemma FlowGiven(t: AggregateTable, m: Measure)
    requires m !in LEVELS
    ensures m in Base(t) <==> Given(t, m)
  {
    LevelsAre(m);
    TotalKeys(FlowTable(t), t.Keys, m);
    TotalKeys(Points(t), Entities(t.Keys), m);
    hide PointInTime, LEVELS, LatestKey;
  }

  lemma PeriodIsExact(t: AggregateTable)
    ensures Get(Total(PointTable(t), t.Keys), InventoryCostValue) == Sum(ValuesOf(t, InventoryCostValue), t.Keys)
  {
    Parts(t, t.Keys, InventoryCostValue);
    hide PointTable, ValuesOf;
  }

  /** Derivation from measures before derivation: what the scope measures are. */
  lemma ScopeDerived(base: Payload, period: Payload, days: nat, freshness: Option<int>, g: Grain, now: int,
                     root: real -> real)
    ensures var r, grouped := Finished(base, period, days, freshness, g, now, root), g == Product || g == Category;
      {NetworkNetRevenue, ScopedNetRevenue, ScopedGrossProfit, GrossProfit, FreshnessSeconds} <= r.Keys &&
      r[NetworkNetRevenue] == Get(r, NetRevenue) &&
      r[ScopedNetRevenue] == (if grouped then Get(base, ProductNetRevenue)
                              else if ScopedNetRevenue in base then base[ScopedNetRevenue] else Get(r, NetRevenue)) &&
      r[ScopedGrossProfit] == (if grouped then Get(base, ProductGrossProfit)
                               else if ScopedGrossProfit in base then base[ScopedGrossProfit] else r[GrossProfit])
  {
    hide Finished, Priced, Substituted, WithProfits, LagSeconds, Get;
    var p := Priced(base, period, days, g, root);
    FinishedIs(base, period, days, freshness, g, now, root);
    ScopeInputs(base, period, days, g, root);
    ScopeProfits(p, LagSeconds(freshness, now));
  }

  lemma ScopeInputs(base: Payload, period: Payload, days: nat, g: Grain, root: real -> real)
    ensures var p, s := Priced(base, period, days, g, root), Substituted(base, g);
      Keeps(s, p, ScopedNetRevenue) && Keeps(s, p, ScopedGrossProfit)
    ensures var s, grouped := Substituted(base, g), g == Product || g == Category;
      (if grouped then ScopedNetRevenue in s && s[ScopedNetRevenue] == Get(base, ProductNetRevenue) &&
         ScopedGrossProfit in s && s[ScopedGrossProfit] == Get(base, ProductGrossProfit)
       else Keeps(base, s, ScopedNetRevenue) && Keeps(base, s, ScopedGrossProfit))
  {
    var s, d := Substituted(base, g), if days > 1 then days as real else 1.0;
    hide WithAverages, WithPrices;
    AveragesKeep(s, period, d, ScopedNetRevenue);
    AveragesKeep(s, period, d, ScopedGrossProfit);
    PricesKeep(WithAverages(s, period, d), root, ScopedNetRevenue);
    PricesKeep(WithAverages(s, period, d), root, ScopedGrossProfit);
  }

  lemma ScopeProfits(p: Payload, lag: real)
    ensures var r := WithProfits(p)[FreshnessSeconds := lag];
      {NetworkNetRevenue, ScopedNetRevenue, ScopedGrossProfit, GrossProfit, FreshnessSeconds} <= r.Keys &&
      r[NetworkNetRevenue] == Get(r, NetRevenue) &&
      r[ScopedNetRevenue] == (if ScopedNetRevenue in p then p[ScopedNetRevenue] else Get(r, NetRevenue)) &&
      r[ScopedGrossProfit] == (if ScopedGrossProfit in p then p[ScopedGrossProfit] else r[GrossProfit])
  {
  }

  /** The averages, the profits and the scope measures of a snapshot. */
  lemma DerivedReported(f: Filters, g: Grain, rows: seq<AggregateTable>, now: int, root: real -> real, values: Payload)
    requires GrainOf(f) == Ok(g) && IsSnapshot(f, rows, now, root, values) && |rows| > 0 && OnePerDay(rows[0])
    ensures {ActiveDays, ActiveHours, AverageDailyUnits, AverageInventoryCost, UnitsAvailableForSale} <= values.Keys
    ensures var t := rows[0];
      var days := |set key | key in t :: key.day|;
      values[ActiveDays] == (if days > 1 then days as real else 1.0) &&
      values[ActiveHours] == 24.0 * values[ActiveDays] &&
      values[AverageDailyUnits] * values[ActiveDays] == Sum(ValuesOf(t, UnitsSold), t.Keys) &&
      values[AverageInventoryCost] * values[ActiveDays] == Sum(ValuesOf(t, InventoryCostValue), t.Keys) &&
      values[UnitsAvailableForSale] ==
        Sum(ValuesOf(t, InventoryAvailable), LastRows(t)) + Sum(ValuesOf(t, UnitsSold), t.Keys)
  {
    hide *;
    var t := rows[0];
    var freshness := OwnShows(f, rows, now, root, values);
    var own := Own(f, rows, freshness, now, root);
    OwnIs(f, g, rows, freshness, now, root);
    BaseIsExact(t, UnitsSold);
    BaseIsExact(t, InventoryAvailable);
    PeriodIsExact(t);
    DatesAre(t);
    DerivedMeasures(Base(t), Total(PointTable(t), t.Keys), |DatesOf(t.Keys)|, freshness, g, now, root);
    OwnDerived(own, values);
  }

  lemma DatesAre(t: AggregateTable)
    ensures DatesOf(t.Keys) == set key | key in t :: key.day
  {
  }

  lemma OwnIs(f: Filters, g: Grain, rows: seq<AggregateTable>, freshness: Option<int>, now: int, root: real -> real)
    requires GrainOf(f) == Ok(g) && Sectioned(f, rows) && |rows| > 0
    ensures PointTable(rows[0]).Keys == rows[0].Keys
    ensures var t := rows[0];
      Own(f, rows, freshness, now, root) ==
      Finished(Base(t), Total(PointTable(t), t.Keys), |DatesOf(t.Keys)|, freshness, g, now, root)
  {
    hide Finished, Base, PointTable, DatesOf, GrainOf;
  }

  /** The derived measures that no other section reports. */
  lemma OwnDerived(own: Payload, values: Payload)
    requires forall m :: m !in SECTIONS ==> Keeps(own, values, m)
    ensures forall m :: m in {ActiveDays, ActiveHours, AverageDailyUnits, AverageInventoryCost, UnitsAvailableForSale,
                              GrossProfit, NetworkNetRevenue, ScopedNetRevenue, ScopedGrossProfit, FreshnessSeconds,
                              AveragePrice, PriceStddev, NetRevenue, Cogs} ==>
      (m in values <==> m in own) && (m in own ==> values[m] == own[m]) && Get(values, m) == Get(own, m)
  {
    forall m | m in {ActiveDays, ActiveHours, AverageDailyUnits, AverageInventoryCost, UnitsAvailableForSale,
                     GrossProfit, NetworkNetRevenue, ScopedNetRevenue, ScopedGrossProfit, FreshnessSeconds,
                     AveragePrice, PriceStddev, NetRevenue, Cogs}
      ensures (m in values <==> m in own) && (m in own ==> values[m] == own[m]) && Get(values, m) == Get(own, m)
    {
      assert m !in SECTIONS;
      hide SECTIONS;
      assert Keeps(own, values, m);
    }
  }

  /** A measure before derivation that some row gives, and its sum. */
  lemma GivenFlow(t: AggregateTable, m: Measure)
    requires OnePerDay(t) && m !in LEVELS
    ensures m in Base(t) <==> Given(t, m)
    ensures Get(Base(t), m) == Sum(ValuesOf(t, m), t.Keys)
    ensures m in Base(t) ==> Base(t)[m] == Sum(ValuesOf(t, m), t.Keys)
  {
    FlowGiven(t, m);
    BaseIsExact(t, m);
    hide Base, ValuesOf, OnePerDay, Given;
  }

  lemma NotLevels()
    ensures {GrossProfit, ScopedNetRevenue, ScopedGrossProfit, ProductNetRevenue, ProductGrossProfit, AveragePrice,
             PriceStddev, PriceCount, PriceValue} !! LEVELS
  {
  }

  /** The profit and the scope measures of a snapshot: what the rows give under
      that name, at product and category grain what they give of the products,
      and otherwise what follows from revenue and cost. */
  lemma ProfitReported(f: Filters, g: Grain, rows: seq<AggregateTable>, now: int, root: real -> real, values: Payload)
    requires GrainOf(f) == Ok(g) && IsSnapshot(f, rows, now, root, values) && |rows| > 0 && OnePerDay(rows[0])
    ensures {GrossProfit, NetworkNetRevenue, ScopedNetRevenue, ScopedGrossProfit} <= values.Keys
    ensures var t, grouped := rows[0], g == Product || g == Category;
      values[GrossProfit] == (if Given(t, GrossProfit) then Sum(ValuesOf(t, GrossProfit), t.Keys)
                              else Get(values, NetRevenue) - Get(values, Cogs)) &&
      values[NetworkNetRevenue] == Get(values, NetRevenue) &&
      values[ScopedNetRevenue] == (if grouped then Sum(ValuesOf(t, ProductNetRevenue), t.Keys)
                                   else if Given(t, ScopedNetRevenue) then Sum(ValuesOf(t, ScopedNetRevenue), t.Keys)
                                   else Get(values, NetRevenue)) &&
      values[ScopedGrossProfit] == (if grouped then Sum(ValuesOf(t, ProductGrossProfit), t.Keys)
                                    else if Given(t, ScopedGrossProfit)
                                      then Sum(ValuesOf(t, ScopedGrossProfit), t.Keys)
                                    else values[GrossProfit])
  {
    hide *;
    var t := rows[0];
    var freshness := OwnShows(f, rows, now, root, values);
    var own := Own(f, rows, freshness, now, root);
    OwnIs(f, g, rows, freshness, now, root);
    NotLevels();
    GivenFlow(t, GrossProfit);
    GivenFlow(t, ScopedNetRevenue);
    GivenFlow(t, ScopedGrossProfit);
    GivenFlow(t, ProductNetRevenue);
    GivenFlow(t, ProductGrossProfit);
    ProfitsReported(Base(t), Total(PointTable(t), t.Keys), |DatesOf(t.Keys)|, freshness, g, now, root);
    ScopeDerived(Base(t), Total(PointTable(t), t.Keys), |DatesOf(t.Keys)|, freshness, g, now, root);
    OwnDerived(own, values);
  }

  ghost predicate IsMean(x: real, n: real, total: real) {
    x * n == total
  }

  lemma PricesDerived(base: Payload, period: Payload, days: nat, freshness: Option<int>, g: Grain, now: int,
                      root: real -> real)
    ensures var r, n := Finished(base, period, days, freshness, g, now, root), Get(base, PriceCount);
      (AveragePrice in r <==> n != 0.0 || AveragePrice in base) &&
      (PriceStddev in r <==> n != 0.0 || PriceStddev in base) &&
      (n != 0.0 ==> AveragePrice in r && IsMean(r[AveragePrice], n, Get(base, PriceValue)))
  {
    hide Finished, Get;
    if Get(base, PriceCount) == 0.0 {
      NoPrices(base, period, days, freshness, g, now, root, AveragePrice);
      NoPrices(base, period, days, freshness, g, now, root, PriceStddev);
    } else {
      ReportedDeviation(base, period, days, freshness, g, now, root);
    }
  }

  lemma NoPrices(base: Payload, period: Payload, days: nat, freshness: Option<int>, g: Grain, now: int,
                 root: real -> real, m: Measure)
    requires m == AveragePrice || m == PriceStddev
    requires Get(base, PriceCount) == 0.0
    ensures Keeps(base, Finished(base, period, days, freshness, g, now, root), m)
  {
    var s, d := Substituted(base, g), if days > 1 then days as real else 1.0;
    hide LagSeconds, PriceVariance, WithAverages, WithProfits;
    PricesSubstituted(base, period, d, g);
    AveragesKeep(s, period, d, m);
    ProfitsKeep(WithPrices(WithAverages(s, period, d), root), m);
    SubstitutionKeepsPrices(base, g, m);
    hide Substituted;
  }

  lemma SubstitutionKeepsPrices(p: Payload, g: Grain, m: Measure)
    requires m == AveragePrice || m == PriceStddev
    ensures Keeps(p, Substituted(p, g), m)
  {
  }

  /** The mean price is reported exactly with prices, or if the rows give it; it
      is the sum of the prices over their number. */
  lemma PricesReported(f: Filters, g: Grain, rows: seq<AggregateTable>, now: int, root: real -> real, values: Payload)
    requires GrainOf(f) == Ok(g) && IsSnapshot(f, rows, now, root, values) && |rows| > 0 && OnePerDay(rows[0])
    ensures var t := rows[0];
      var n := Sum(ValuesOf(t, PriceCount), t.Keys);
      (AveragePrice in values <==> n != 0.0 || Given(t, AveragePrice)) &&
      (PriceStddev in values <==> n != 0.0 || Given(t, PriceStddev)) &&
      (n != 0.0 ==> AveragePrice in values && IsMean(values[AveragePrice], n, Sum(ValuesOf(t, PriceValue), t.Keys)))
  {
    hide *;
    var t := rows[0];
    var freshness := OwnShows(f, rows, now, root, values);
    var own := Own(f, rows, freshness, now, root);
    OwnIs(f, g, rows, freshness, now, root);
    OwnDerived(own, values);
    OwnPrices(t, freshness, g, now, root, own);
  }

  lemma OwnPrices(t: AggregateTable, freshness: Option<int>, g: Grain, now: int, root: real -> real, own: Payload)
    requires OnePerDay(t) && PointTable(t).Keys == t.Keys
    requires own == Finished(Base(t), Total(PointTable(t), t.Keys), |DatesOf(t.Keys)|, freshness, g, now, root)
    ensures var n := Sum(ValuesOf(t, PriceCount), t.Keys);
      (AveragePrice in own <==> n != 0.0 || Given(t, AveragePrice)) &&
      (PriceStddev in own <==> n != 0.0 || Given(t, PriceStddev)) &&
      (n != 0.0 ==> AveragePrice in own && IsMean(own[AveragePrice], n, Sum(ValuesOf(t, PriceValue), t.Keys)))
  {
    hide *;
    NotLevels();
    GivenFlow(t, AveragePrice);
    GivenFlow(t, PriceStddev);
    GivenFlow(t, PriceCount);
    GivenFlow(t, PriceValue);
    PricesDerived(Base(t), Total(PointTable(t), t.Keys), |DatesOf(t.Keys)|, freshness, g, now, root);
  }

  /** The age of the data is the whole seconds since its last update, and never negative. */
  lemma FreshnessReported(f: Filters, g: Grain, rows: seq<AggregateTable>, now: int, root: real -> real,
                          values: Payload, at: int)
    requires GrainOf(f) == Ok(g) && IsSnapshot(f, rows, now, root, values) && |rows| > 0
    ensures FreshnessSeconds in values
    ensures var t, x := rows[0], values[FreshnessSeconds];
      var updated := (exists key :: key in t && t[key].sourceMaxUpdatedAt == at) &&
                     forall key :: key in t ==> t[key].sourceMaxUpdatedAt <= at;
      (t == map[] ==> x == 0.0) && x == x.Floor as real >= 0.0 &&
      (updated && now < at ==> x == 0.0) &&
      (updated && at <= now ==> x.Floor * 1_000_000 <= now - at < (x.Floor + 1) * 1_000_000)
  {
    var t := rows[0];
    hide IsSnapshot, Own, Sectioned, SECTIONS, GrainOf, LagSeconds, Keeps, Finished;
    var freshness := OwnShows(f, rows, now, root, values);
    OwnIs(f, g, rows, freshness, now, root);
    LagIsShown(Base(t), Total(PointTable(t), t.Keys), |DatesOf(t.Keys)|, freshness, g, now, root);
    OwnDerived(Own(f, rows, freshness, now, root), values);
    Lag(freshness, now);
  }

  lemma LagIsShown(base: Payload, period: Payload, days: nat, freshness: Option<int>, g: Grain, now: int,
                   root: real -> real)
    ensures var r := Finished(base, period, days, freshness, g, now, root);
      FreshnessSeconds in r && r[FreshnessSeconds] == LagSeconds(freshness, now)
  {
    hide WithProfits, WithPrices, WithAverages, Substituted, LagSeconds;
  }

  lemma Lag(freshness: Option<int>, now: int)
    ensures var x := LagSeconds(freshness, now);
      (freshness == None ==> x == 0.0) && x == x.Floor as real >= 0.0 &&
      (freshness.Some? && now < freshness.value ==> x == 0.0) &&
      (freshness.Some? && freshness.value <= now ==>
        x.Floor * 1_000_000 <= now - freshness.value < (x.Floor + 1) * 1_000_000)
  {
  }

  // ---------------------------------------------------------------- product and supplier rows

  ghost function ProductRows(t: AggregateTable, id: Id): (r: set<AggregateKey>)
    ensures r <= t.Keys
  {
    set key | key in t && key.product == Some(id)
  }

  ghost function SupplierRows(t: AggregateTable, id: Id): (r: set<AggregateKey>)
    ensures r <= t.Keys
  {
    set key | key in t && key.supplier == Some(id)
  }

  /** A measure summed over the rows of each product. */
  ghost function ByProduct(t: AggregateTable, m: Measure): map<Id, real> {
    map id | id in (set key | key in t && key.product.Some? :: key.product.value) ::
      Sum(ValuesOf(t, m), ProductRows(t, id))
  }

  ghost function BySupplier(t: AggregateTable, m: Measure): map<Id, real> {
    map id | id in (set key | key in t && key.supplier.Some? :: key.supplier.value) ::
      Sum(ValuesOf(t, m), SupplierRows(t, id))
  }

  lemma ProductsAreSums(t: AggregateTable, m: Measure)
    ensures GroupValues(t, t.Keys, ProductIdOf, m) == ByProduct(t, m)
  {
    hide ValuesOf, ProductRows, ValueOf;
    var v := GroupValues(t, t.Keys, ProductIdOf, m);
    assert v.Keys == ByProduct(t, m).Keys;
    forall id | id in v ensures v[id] == ByProduct(t, m)[id] {
      ProductSum(t, m, id);
    }
  }

  lemma ProductSum(t: AggregateTable, m: Measure, id: Id)
    ensures ValueOf(t, t.Keys, ProductIdOf, m, id) == Sum(ValuesOf(t, m), ProductRows(t, id))
  {
    assert RowsOf(t.Keys, ProductIdOf, id) == ProductRows(t, id);
    hide ProductRows, RowsOf, Get;
    TotalIsSum(MeasuresOf(t), ProductRows(t, id), m, ValuesOf(t, m));
  }

  lemma SuppliersAreSums(t: AggregateTable, m: Measure)
    ensures GroupValues(t, t.Keys, SupplierIdOf, m) == BySupplier(t, m)
  {
    hide ValuesOf, SupplierRows, ValueOf;
    var v := GroupValues(t, t.Keys, SupplierIdOf, m);
    assert v.Keys == BySupplier(t, m).Keys;
    forall id | id in v ensures v[id] == BySupplier(t, m)[id] {
      SupplierSum(t, m, id);
    }
  }

  lemma SupplierSum(t: AggregateTable, m: Measure, id: Id)
    ensures ValueOf(t, t.Keys, SupplierIdOf, m, id) == Sum(ValuesOf(t, m), SupplierRows(t, id))
  {
    assert RowsOf(t.Keys, SupplierIdOf, id) == SupplierRows(t, id);
    hide SupplierRows, RowsOf, Get;
    TotalIsSum(MeasuresOf(t), SupplierRows(t, id), m, ValuesOf(t, m));
  }

  /** `x` is the sum of some `n` of the values, or of all if there are fewer, and of no such choice less. */
  ghost predicate Largest<K(!new)>(v: map<K, real>, n: nat, x: real) {
    (forall c: set<K> :: c <= v.Keys && (|c| == n || (c == v.Keys && |c| < n)) ==> Sum(v, c) <= x) &&
    (exists c: set<K> :: c <= v.Keys && (|c| == n || (c == v.Keys && |c| < n)) && Sum(v, c) == x)
  }

  lemma TopIsLargest<K(!new)>(v: map<K, real>, n: nat, x: real)
    requires IsTopSum(v, n, x)
    ensures Largest(v, n, x)
  {
    forall c: set<K> | c <= v.Keys ensures |c| == Least(n, |v.Keys|) <==> |c| == n || (c == v.Keys && |c| < n) {
      SubsetSize(c, v.Keys);
      if |c| == |v.Keys| {
        assert |v.Keys - c| == 0;
      }
    }
  }

  /** What a snapshot reports of the product rows, unless it asks for a supplier or a channel. */
  lemma ProductsReported(f: Filters, rows: seq<AggregateTable>, now: int, root: real -> real, values: Payload)
    requires IsSnapshot(f, rows, now, root, values) && f.supplier == None && f.channel == None
    ensures |rows| > 1 && SoldProductCount in values && Top10Revenue in values
    ensures var t := rows[1];
      var sold, revenue := ByProduct(t, UnitsSold), ByProduct(t, ProductNetRevenue);
      var units := map key | key in t && key.product.Some? :: Get(t[key].measures, UnitsSold);
      values[SoldProductCount] == |set id | id in sold && sold[id] > 0.0| as real &&
      Largest(revenue, 10, values[Top10Revenue]) &&
      (units.Keys != {} ==>
        DemandStddev in values && values[DemandStddev] == root(PopulationVariance(units, units.Keys)))
  {
    hide *;
    var days, p := ProductsShow(f, rows, now, root, values);
    ProductsAreSums(rows[1], UnitsSold);
    ProductsAreSums(rows[1], ProductNetRevenue);
    SalesOf(rows[1], days, root, p);
    SoldUnits(rows[1]);
    TopIsLargest(ByProduct(rows[1], ProductNetRevenue), 10, p[Top10Revenue]);
  }

  lemma SoldUnits(t: AggregateTable)
    ensures UnitsOf(t, t.Keys) == map key | key in t && key.product.Some? :: Get(t[key].measures, UnitsSold)
    ensures var sold := ByProduct(t, UnitsSold); Positive(sold) == set id | id in sold && sold[id] > 0.0
  {
  }

  /** The product section is reported as it was derived, over the reported days. */
  lemma ProductsShow(f: Filters, rows: seq<AggregateTable>, now: int, root: real -> real, values: Payload)
    returns (days: real, p: Payload)
    requires IsSnapshot(f, rows, now, root, values) && f.supplier == None && f.channel == None
    ensures |rows| > 1 && days > 0.0 && ProductsDerived(rows[1], days, root, p)
    ensures ActiveDays in values && days == values[ActiveDays]
    ensures forall m :: m in p ==> m in values && values[m] == p[m]
  {
    hide Own, IsFreshness, Sections, SECTIONS, ProductsDerived, SuppliersDerived, SupplierIndex, ActiveDaysOf, DatesOf;
    SectionCount(f);
    assert HasProducts(f);
    var freshness, q, s :| IsComposed(f, rows, now, root, values, freshness, q, s);
    days, p := ActiveDaysOf(|DatesOf(rows[0].Keys)|), q;
    ProductKeys(rows[1], days, root, p);
    if HasSuppliers(f) {
      SupplierKeys(rows[SupplierIndex(f)], s);
    }
    DaysShown(f, rows, freshness, now, root);
    KeysApart();
    Overridden(Own(f, rows, freshness, now, root), p, s);
  }

  lemma KeysApart()
    ensures ActiveDays !in PRODUCT_MEASURES + {DemandStddev}
    ensures PRODUCT_MEASURES + {DemandStddev} !!
            {ActiveSupplierCount, TopSupplierValue, Top5SupplierValue, SupplierProductCount}
  {
  }

  lemma Overridden(own: Payload, p: Payload, s: Payload)
    requires p.Keys <= PRODUCT_MEASURES + {DemandStddev} && ActiveDays in own
    requires s.Keys <= {ActiveSupplierCount, TopSupplierValue, Top5SupplierValue, SupplierProductCount}
    ensures ActiveDays in own + p + s && (own + p + s)[ActiveDays] == own[ActiveDays]
    ensures forall m :: m in p ==> m in own + p + s && (own + p + s)[m] == p[m]
    ensures forall m :: m in s ==> m in own + p + s && (own + p + s)[m] == s[m]
  {
    KeysApart();
    hide PRODUCT_MEASURES;
  }

  lemma DaysShown(f: Filters, rows: seq<AggregateTable>, freshness: Option<int>, now: int, root: real -> real)
    requires Sectioned(f, rows) && |rows| > 0
    ensures var own := Own(f, rows, freshness, now, root);
      ActiveDays in own && own[ActiveDays] == ActiveDaysOf(|DatesOf(rows[0].Keys)|)
  {
    var t := rows[0];
    hide Finished, Base, PointTable, DatesOf, GrainOf;
    DerivedMeasures(Base(t), Total(PointTable(t), t.Keys), |DatesOf(t.Keys)|, freshness, GrainRead(f), now, root);
  }

  /** How many days each stock that sells will last. */
  ghost function DaysOfCover(t: AggregateTable, last: map<StockKey, AggregateKey>, sold: map<Id, real>, days: real)
    : map<StockKey, real>
    requires days > 0.0 && last.Values <= t.Keys
  {
    map s | s in last && s.product in sold && sold[s.product] != 0.0 ::
      NonZeroQuotient(sold[s.product], days);
      Get(t[last[s]].measures, InventoryAvailable) / (sold[s.product] / days)
  }

  /** The stocks on hand of which nothing was sold. */
  ghost function Unsold(t: AggregateTable, last: map<StockKey, AggregateKey>, sold: map<Id, real>): set<StockKey>
    requires last.Values <= t.Keys
  {
    set s | s in last && (s.product in sold ==> sold[s.product] == 0.0) &&
      Get(t[last[s]].measures, InventoryAvailable) > 0.0
  }

  /** The stock cover: for each stock some row of its latest day is judged, by
      the days that its available units last at the product's average sales. */
  lemma CoverReported(f: Filters, rows: seq<AggregateTable>, now: int, root: real -> real, values: Payload)
    requires IsSnapshot(f, rows, now, root, values) && f.supplier == None && f.channel == None
    ensures |rows| > 1 && ActiveDays in values && values[ActiveDays] > 0.0
    ensures {LowCoverProducts, ExcessStockProducts, SlowMovingProducts, NoSaleProducts} <= values.Keys
    ensures var t, sold := rows[1], ByProduct(rows[1], UnitsSold);
      exists last: map<StockKey, AggregateKey> :: LatestRows(t.Keys, last) && last.Values <= t.Keys &&
        var lasts, unsold := DaysOfCover(t, last, sold, values[ActiveDays]), Unsold(t, last, sold);
        values[LowCoverProducts] == |set s | s in lasts && lasts[s] < 7.0| as real &&
        values[SlowMovingProducts] == |set s | s in lasts && lasts[s] > 60.0| as real &&
        values[ExcessStockProducts] == |(set s | s in lasts && lasts[s] > 90.0) + unsold| as real &&
        values[NoSaleProducts] == |unsold| as real
  {
    hide *;
    var days, p := ProductsShow(f, rows, now, root, values);
    var t := rows[1];
    ProductsAreSums(t, UnitsSold);
    var last := CoverHeld(t, days, root, p);
    CoverIs(t, last, ByProduct(t, UnitsSold), days);
  }

  lemma CoverHeld(t: AggregateTable, days: real, root: real -> real, p: Payload)
    returns (last: map<StockKey, AggregateKey>)
    requires days > 0.0 && ProductsDerived(t, days, root, p)
    ensures LatestRows(t.Keys, last) && last.Values <= t.Keys
    ensures {LowCoverProducts, ExcessStockProducts, SlowMovingProducts, NoSaleProducts} <= p.Keys
    ensures var c := CoverOf(t, last, GroupValues(t, t.Keys, ProductIdOf, UnitsSold), days, last.Keys);
      p[LowCoverProducts] == c.low as real && p[ExcessStockProducts] == c.excess as real &&
      p[SlowMovingProducts] == c.slow as real && p[NoSaleProducts] == c.noSale as real
  {
    hide GroupValues, IsTopSum, UnitsOf, PopulationVariance, Positive, CoverOf, LatestRows;
    last :| LatestRows(t.Keys, last) && last.Values <= t.Keys &&
      HoldsCover(p, CoverOf(t, last, GroupValues(t, t.Keys, ProductIdOf, UnitsSold), days, last.Keys));
  }

  lemma CoverIs(t: AggregateTable, last: map<StockKey, AggregateKey>, sold: map<Id, real>, days: real)
    requires days > 0.0 && last.Values <= t.Keys
    ensures var lasts, unsold := DaysOfCover(t, last, sold, days), Unsold(t, last, sold);
      CoverOf(t, last, sold, days, last.Keys) ==
      Cover(|set s | s in lasts && lasts[s] < 7.0|, |(set s | s in lasts && lasts[s] > 90.0) + unsold|,
            |set s | s in lasts && lasts[s] > 60.0|, |unsold|)
  {
    hide *;
    var lasts, unsold := DaysOfCover(t, last, sold, days), Unsold(t, last, sold);
    OnlyStocks(t, last, sold, days);
    forall s | s in last
      ensures Has(LowCover, Available(t, last, s), Average(sold, days, s)) <==> s in lasts && lasts[s] < 7.0
      ensures Has(SlowMoving, Available(t, last, s), Average(sold, days, s)) <==> s in lasts && lasts[s] > 60.0
      ensures Has(ExcessStock, Available(t, last, s), Average(sold, days, s)) <==>
        (s in lasts && lasts[s] > 90.0) || s in unsold
      ensures Has(NoSale, Available(t, last, s), Average(sold, days, s)) <==> s in unsold
    {
      LevelsOf(t, last, sold, days, s);
    }
    StocksAtAre(LowCover, t, last, sold, days, set s | s in lasts && lasts[s] < 7.0);
    StocksAtAre(SlowMoving, t, last, sold, days, set s | s in lasts && lasts[s] > 60.0);
    StocksAtAre(ExcessStock, t, last, sold, days, (set s | s in lasts && lasts[s] > 90.0) + unsold);
    StocksAtAre(NoSale, t, last, sold, days, unsold);
    CoverCounts(t, last, sold, days);
  }

  lemma StocksAtAre(level: Level, t: AggregateTable, last: map<StockKey, AggregateKey>, sold: map<Id, real>,
                    days: real, stocks: set<StockKey>)
    requires days > 0.0 && last.Values <= t.Keys && stocks <= last.Keys
    requires forall s :: s in last ==> (Has(level, Available(t, last, s), Average(sold, days, s)) <==> s in stocks)
    ensures StocksAt(level, t, last, sold, days, last.Keys) == stocks
  {
    hide Has, Available, Average;
  }

  lemma CoverCounts(t: AggregateTable, last: map<StockKey, AggregateKey>, sold: map<Id, real>, days: real)
    requires days > 0.0 && last.Values <= t.Keys
    ensures CoverOf(t, last, sold, days, last.Keys) ==
      Cover(|StocksAt(LowCover, t, last, sold, days, last.Keys)|,
            |StocksAt(ExcessStock, t, last, sold, days, last.Keys)|,
            |StocksAt(SlowMoving, t, last, sold, days, last.Keys)|, |StocksAt(NoSale, t, last, sold, days, last.Keys)|)
  {
    hide StocksAt;
  }

  lemma OnlyStocks(t: AggregateTable, last: map<StockKey, AggregateKey>, sold: map<Id, real>, days: real)
    requires days > 0.0 && last.Values <= t.Keys
    ensures DaysOfCover(t, last, sold, days).Keys <= last.Keys && Unsold(t, last, sold) <= last.Keys
  {
    hide Get;
  }

  lemma LevelsOf(t: AggregateTable, last: map<StockKey, AggregateKey>, sold: map<Id, real>, days: real, s: StockKey)
    requires days > 0.0 && last.Values <= t.Keys && s in last
    ensures var lasts, unsold := DaysOfCover(t, last, sold, days), Unsold(t, last, sold);
      var available, average := Available(t, last, s), Average(sold, days, s);
      (Has(LowCover, available, average) <==> s in lasts && lasts[s] < 7.0) &&
      (Has(SlowMoving, available, average) <==> s in lasts && lasts[s] > 60.0) &&
      (Has(ExcessStock, available, average) <==> (s in lasts && lasts[s] > 90.0) || s in unsold) &&
      (Has(NoSale, available, average) <==> s in unsold)
  {
    hide Get;
    if s.product in sold {
      NonZeroQuotient(sold[s.product], days);
    } else {
      NonZeroQuotient(0.0, days);
    }
  }

  lemma NonZeroQuotient(a: real, b: real)
    requires b > 0.0
    ensures a / b == 0.0 <==> a == 0.0
  {
    assert a / b * b == a;
  }

  /** What a snapshot reports of the supplier rows, unless it asks for a product, a category or a channel. */
  lemma SuppliersReported(f: Filters, rows: seq<AggregateTable>, now: int, root: real -> real, values: Payload)
    requires IsSnapshot(f, rows, now, root, values) && f.product == None && f.category == None && f.channel == None
    ensures |rows| > 0
    ensures {ActiveSupplierCount, TopSupplierValue, Top5SupplierValue, SupplierProductCount} <= values.Keys
    ensures var t := rows[|rows| - 1];
      var bought, products := BySupplier(t, PurchaseValue), BySupplier(t, SupplierProductCount);
      values[ActiveSupplierCount] == |set id | id in bought && bought[id] > 0.0| as real &&
      Largest(bought, 1, values[TopSupplierValue]) && Largest(bought, 5, values[Top5SupplierValue]) &&
      values[SupplierProductCount] == Sum(products, products.Keys)
  {
    hide *;
    var s := SuppliersShow(f, rows, now, root, values);
    var t := rows[|rows| - 1];
    SuppliersAreSums(t, PurchaseValue);
    SuppliersAreSums(t, SupplierProductCount);
    SupplierValues(t, s);
    TopIsLargest(BySupplier(t, PurchaseValue), 1, s[TopSupplierValue]);
    TopIsLargest(BySupplier(t, PurchaseValue), 5, s[Top5SupplierValue]);
  }

  lemma SupplierValues(t: AggregateTable, s: Payload)
    requires SuppliersDerived(t, s)
    ensures s.Keys == {ActiveSupplierCount, TopSupplierValue, Top5SupplierValue, SupplierProductCount}
    ensures var bought := GroupValues(t, t.Keys, SupplierIdOf, PurchaseValue);
      var products := GroupValues(t, t.Keys, SupplierIdOf, SupplierProductCount);
      s[ActiveSupplierCount] == |set id | id in bought && bought[id] > 0.0| as real &&
      IsTopSum(bought, 1, s[TopSupplierValue]) && IsTopSum(bought, 5, s[Top5SupplierValue]) &&
      s[SupplierProductCount] == Sum(products, products.Keys)
  {
    hide GroupValues, IsTopSum;
  }

  lemma SuppliersShow(f: Filters, rows: seq<AggregateTable>, now: int, root: real -> real, values: Payload)
    returns (s: Payload)
    requires IsSnapshot(f, rows, now, root, values) && f.product == None && f.category == None && f.channel == None
    ensures |rows| > 0 && SuppliersDerived(rows[|rows| - 1], s)
    ensures forall m :: m in s ==> m in values && values[m] == s[m]
  {
    hide Own, IsFreshness, Sections, SECTIONS, ProductsDerived, SuppliersDerived, ActiveDaysOf, DatesOf;
    SectionCount(f);
    assert HasSuppliers(f) && SupplierIndex(f) == |rows| - 1;
    var freshness, p, q :| IsComposed(f, rows, now, root, values, freshness, p, q);
    s := q;
    SupplierKeys(rows[SupplierIndex(f)], s);
    if HasProducts(f) {
      ProductKeys(rows[1], ActiveDaysOf(|DatesOf(rows[0].Keys)|), root, p);
    }
    DaysShown(f, rows, freshness, now, root);
    KeysApart();
    Overridden(Own(f, rows, freshness, now, root), p, s);
  }

  // ---------------------------------------------------------------- rankings

  /** What a ranking evaluates for a group: the formula on the sums over the
      group's rows, of products and categories on the product measures under six
      general names. */
  lemma RankedValues(t: AggregateTable, column: Ranking.GroupColumn, grouped: bool, formula: Payload -> Option<real>,
                     x: string, m: Measure)
    ensures var values := Ranking.Values(t, column, grouped, formula);
      (x in values <==> exists key :: key in t && column(key) == x) &&
      (x in values ==>
        var p := Ranking.GroupFinished(Ranking.Grouped(t, t.Keys, column)[x], grouped);
        values[x] == formula(p) &&
        Get(p, m) == Sum(ValuesOf(t, if grouped then BehindGroup(m) else m), GroupRowsOf(t, column, x)))
  {
    var values := Ranking.Values(t, column, grouped, formula);
    if x in values {
      GroupSums(t, column, x, if grouped then BehindGroup(m) else m);
      FinishedGroup(Ranking.Grouped(t, t.Keys, column)[x], grouped, m);
      hide Ranking.Grouped, Ranking.GroupFinished, ValuesOf, GroupRowsOf, BehindGroup, Get;
    }
  }

  /** The product measure that stands in for a general one. */
  function BehindGroup(m: Measure): Measure {
    match m
    case GrossRevenue => ProductGrossRevenue
    case NetRevenue => ProductNetRevenue
    case DiscountAmount => ProductDiscountAmount
    case ScopedNetRevenue => ProductNetRevenue
    case ScopedGrossProfit => ProductGrossProfit
    case PurchaseValue => ProductPurchaseValue
    case _ => m
  }

  lemma FinishedGroup(p: Payload, grouped: bool, m: Measure)
    ensures Get(Ranking.GroupFinished(p, grouped), m) == Get(p, if grouped then BehindGroup(m) else m)
  {
  }

  ghost function GroupRowsOf(t: AggregateTable, column: Ranking.GroupColumn, x: string): (r: set<AggregateKey>)
    ensures r <= t.Keys
  {
    set key | key in t && column(key) == x
  }

  lemma GroupSums(t: AggregateTable, column: Ranking.GroupColumn, x: string, m: Measure)
    requires x in Ranking.Groups(t.Keys, column)
    ensures Get(Ranking.Grouped(t, t.Keys, column)[x], m) == Sum(ValuesOf(t, m), GroupRowsOf(t, column, x))
  {
    assert Ranking.GroupOf(t.Keys, column, x) == GroupRowsOf(t, column, x);
    hide GroupRowsOf, Ranking.GroupOf, Get;
    TotalIsSum(MeasuresOf(t), GroupRowsOf(t, column, x), m, ValuesOf(t, m));
  }
}
