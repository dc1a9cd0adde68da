/** The daily series of a measure (`time_series`) and its agreement with the snapshot. */
module Series {
  import opened Wrappers
  import opened Payloads
  import opened Facts
  import opened Filters
  import opened Sums
  import opened Snapshot

  datatype Point = Point(period: int, value: Option<real>)

  /** What the series sets on the total of one day. */
  function DayFinished(p: Payload, g: Grain): Payload {
    var q := if !ProductGrain(g) then p else
      p[GrossRevenue := Get(p, ProductGrossRevenue)][NetRevenue := Get(p, ProductNetRevenue)]
       [DiscountAmount := Get(p, ProductDiscountAmount)][ScopedNetRevenue := Get(p, ProductNetRevenue)]
       [ScopedGrossProfit := Get(p, ProductGrossProfit)];
    var r := q[ActiveDays := 1.0][ActiveHours := 24.0][AverageDailyUnits := Get(q, UnitsSold)]
              [AverageInventoryCost := Get(q, InventoryCostValue)];
    r[GrossProfit := Default(r, GrossProfit, Get(r, NetRevenue) - Get(r, Cogs))]
  }

  function DayKeys(keys: set<AggregateKey>, day: int): set<AggregateKey> {
    set key | key in keys && key.day == day
  }

  /** The total of one day's rows among `keys`. */
  ghost function DayTotal(t: AggregateTable, keys: set<AggregateKey>, day: int): Payload
    requires keys <= t.Keys
  {
    Total(MeasuresOf(t), DayKeys(keys, day))
  }

  predicate FirstDay(days: set<int>, d: int) {
    d in days && forall e :: e in days ==> d <= e
  }

  ghost function DaysBefore(days: set<int>, d: int): set<int> {
    set e | e in days && e < d
  }

  lemma {:induction false} FirstDayExists(days: set<int>, d: int)
    requires d in days
    ensures exists e :: FirstDay(days, e)
    decreases DaysBefore(days, d)
  {
    if e :| e in days && e < d {
      assert DaysBefore(days, e) <= DaysBefore(days, d);
      assert e in DaysBefore(days, d) && e !in DaysBefore(days, e);
      FirstDayExists(days, e);
    } else {
      assert FirstDay(days, d);
    }
  }

  ghost predicate Ascending(s: seq<int>) {
    forall i, j :: 0 <= i < j < |s| ==> s[i] < s[j]
  }

  /** The days in ascending order. */
  function SortedDays(days: set<int>): (s: seq<int>)
    ensures Ascending(s) && forall d :: d in s <==> d in days
    decreases days
  {
    if days == {} then [] else
    FirstDayExists(days, Pick(days));
    var d :| FirstDay(days, d);
    [d] + SortedDays(days - {d})
  }

  /** The first rows in date order are added up per day; every day becomes a point. */
  method TimeSeries(t: AggregateTable, order: seq<AggregateKey>, g: Grain,
                    formula: Payload -> Option<real>) returns (points: seq<Point>)
    requires Enumerates(order, t.Keys)
    requires InDateOrder(order)
    ensures var rows := Seen(order, Cap(|order|));
      var days := SortedDays(DatesOf(rows));
      rows <= t.Keys &&
      |points| == |days| && forall i :: 0 <= i < |days| ==>
        points[i] == Point(days[i], formula(DayFinished(DayTotal(t, rows, days[i]), g)))
  {
    hide DayFinished, Added, SortedDays, Seen, MeasuresOf, Enumerates;
    var n := Cap(|order|);
    var byDate: map<int, Payload> := map[];
    SeenNone(order);
    for i := 0 to n
      invariant Seen(order, i) <= t.Keys
      invariant HoldsDays(t, Seen(order, i), byDate)
    {
      var key := order[i];
      SeenNext(order, t.Keys, i);
      var target := if key.day in byDate then byDate[key.day] else map[];
      HoldsDaysNext(t, Seen(order, i), byDate, key);
      target := Accumulate(target, t[key].measures);
      byDate := byDate[key.day := target];
    }
    points := [];
    var days := SortedDays(byDate.Keys);
    for i := 0 to |days|
      invariant |points| == i
      invariant forall j :: 0 <= j < i ==>
        points[j] == Point(days[j], formula(DayFinished(DayTotal(t, Seen(order, n), days[j]), g)))
    {
      assert days[i] in days;
      points := points + [Point(days[i], formula(DayFinished(byDate[days[i]], g)))];
    }
  }

  /** How many rows the series reads. */
  function Cap(n: nat): nat {
    if n < MAX_AGGREGATE_ROWS then n else MAX_AGGREGATE_ROWS
  }

  ghost predicate InDateOrder(order: seq<AggregateKey>) {
    forall i, j :: 0 <= i < j < |order| ==> order[i].day <= order[j].day
  }

  /** Above the row cap the series ends early.  It has the days up to the one
      on which the last row read falls, and each of them in full, except that
      last day if the first row not read falls on it as well. */
  lemma TruncationIsExact(t: AggregateTable, order: seq<AggregateKey>, day: int)
    requires Enumerates(order, t.Keys) && InDateOrder(order) && day in DatesOf(t.Keys)
    ensures var n := Cap(|order|);
      var rows := Seen(order, n);
      n > 0 && n == (if |order| < 10_000 then |order| else 10_000) &&
      (day in DatesOf(rows) <==> day <= order[n - 1].day) &&
      (day in DatesOf(rows) ==>
        (DayKeys(rows, day) == DayKeys(t.Keys, day) <==> n == |order| || day < order[n].day))
  {
    var n := Cap(|order|);
    var key :| key in t && key.day == day;
    assert key in order;
    DaysRead(t, order, n, day);
    if day <= order[n - 1].day {
      FullDay(t, order, n, day);
    }
  }

  /** The rows read are the first ones; the others are not earlier. */
  lemma RowsAreFirst(t: AggregateTable, order: seq<AggregateKey>, n: nat, k: AggregateKey)
    requires Enumerates(order, t.Keys) && InDateOrder(order) && n <= |order| && k in t
    ensures k in Seen(order, n) ==> exists i :: 0 <= i < n && order[i] == k
    ensures k !in Seen(order, n) ==> exists i :: n <= i < |order| && order[i] == k
  {
    assert k in order;
    var i :| 0 <= i < |order| && order[i] == k;
    assert i < n ==> order[..n][i] == k;
  }

  lemma DaysRead(t: AggregateTable, order: seq<AggregateKey>, n: nat, day: int)
    requires Enumerates(order, t.Keys) && InDateOrder(order) && 0 < n <= |order| && day in DatesOf(t.Keys)
    ensures day in DatesOf(Seen(order, n)) <==> day <= order[n - 1].day
  {
    var key :| key in t && key.day == day;
    RowsAreFirst(t, order, n, key);
    assert order[n - 1] in order[..n];
    if k :| k in Seen(order, n) && k.day == day {
      assert k in order;
      RowsAreFirst(t, order, n, k);
    }
  }

  lemma FullDay(t: AggregateTable, order: seq<AggregateKey>, n: nat, day: int)
    requires Enumerates(order, t.Keys) && InDateOrder(order) && 0 < n <= |order|
    requires day <= order[n - 1].day
    ensures DayKeys(Seen(order, n), day) == DayKeys(t.Keys, day) <==> n == |order| || day < order[n].day
  {
    var rows := Seen(order, n);
    assert rows <= t.Keys by { SeenSubset(t, order, n); }
    if n < |order| && day == order[n].day {
      assert order[n] in order;
      OutsideSeen(order, t.Keys, n);
      assert order[n] in DayKeys(t.Keys, day) && order[n] !in DayKeys(rows, day);
    } else {
      forall k | k in DayKeys(t.Keys, day) ensures k in rows {
        RowsAreFirst(t, order, n, k);
      }
    }
  }

  lemma SeenSubset(t: AggregateTable, order: seq<AggregateKey>, n: nat)
    requires Enumerates(order, t.Keys) && n <= |order|
    ensures Seen(order, n) <= t.Keys
  {
    forall k | k in order[..n] ensures k in order {
    }
  }

  lemma OutsideSeen(order: seq<AggregateKey>, keys: set<AggregateKey>, n: nat)
    requires Enumerates(order, keys) && n < |order|
    ensures order[n] !in Seen(order, n)
  {
    SeenNext(order, keys, n);
  }

  lemma SeenNone<K>(order: seq<K>)
    ensures Seen(order, 0) == {}
  {
  }

  ghost predicate HoldsDays(t: AggregateTable, done: set<AggregateKey>, byDate: map<int, Payload>)
    requires done <= t.Keys
  {
    byDate.Keys == DatesOf(done) && forall d :: d in byDate ==> byDate[d] == DayTotal(t, done, d)
  }

  lemma HoldsDaysNext(t: AggregateTable, done: set<AggregateKey>, byDate: map<int, Payload>, key: AggregateKey)
    requires done <= t.Keys && key in t && key !in done && HoldsDays(t, done, byDate)
    ensures HoldsDays(t, done + {key},
      byDate[key.day := Added(if key.day in byDate then byDate[key.day] else map[], t[key].measures)])
  {
    hide Added;
    var more, day := done + {key}, key.day;
    DatesNext(done, key);
    forall d | d in DatesOf(more) && d != day ensures DayKeys(more, d) == DayKeys(done, d) {
    }
    assert DayKeys(more, day) == DayKeys(done, day) + {key};
    TotalInsert(MeasuresOf(t), DayKeys(done, day), key);
    if day !in byDate {
      assert DayKeys(done, day) == {};
    }
  }

  // ---------------------------------------------------------------- agreement with the snapshot

  ghost predicate OneDay(t: AggregateTable, day: int) {
    t.Keys != {} && forall key :: key in t ==> key.day == day
  }

  lemma PartsAdd(p: Payload)
    ensures Added(FlowPart(p), PointPart(p)) == p
  {
    hide PointInTime;
    assert Added(FlowPart(p), PointPart(p)).Keys == p.Keys;
  }

  /** The measures of all rows are their flow part and their point-in-time part. */
  lemma TotalInParts(t: AggregateTable)
    ensures Total(MeasuresOf(t), t.Keys) == Added(Total(FlowTable(t), t.Keys), Total(PointTable(t), t.Keys))
  {
    hide FlowPart, PointPart, MeasuresOf, FlowTable, PointTable;
    FlowTotal(t);
    PartsAdd(Total(MeasuresOf(t), t.Keys));
  }

  /** On one day every row is its entity's latest. */
  lemma OneDayPoints(t: AggregateTable, day: int)
    requires OneDay(t, day) && OnePerDay(t)
    ensures Total(Points(t), Entities(t.Keys)) == Total(PointTable(t), t.Keys)
  {
    hide PointPart;
    var entity := map key | key in t :: EntityOf(key);
    var es := Entities(t.Keys);
    GroupingConserves(PointTable(t), t.Keys, entity, es);
    forall e | e in es ensures Points(t)[e] == GroupTotals(PointTable(t), t.Keys, entity, es)[e] {
      OneDayPoint(t, day, entity, e);
    }
    hide Points, PointTable, GroupTotals, OneDay, OnePerDay;
    TotalFrame(Points(t), GroupTotals(PointTable(t), t.Keys, entity, es), es);
  }

  lemma OneDayPoint(t: AggregateTable, day: int, entity: map<AggregateKey, Entity>, e: Entity)
    requires OneDay(t, day) && OnePerDay(t) && e in Entities(t.Keys)
    requires entity.Keys == t.Keys && forall key :: key in t ==> entity[key] == EntityOf(key)
    ensures Points(t)[e] == Total(PointTable(t), Fibre(t.Keys, entity, e))
  {
    hide PointPart;
    var key := LatestKey(t.Keys, e);
    assert Fibre(t.Keys, entity, e) == {key};
    TotalSingleton(PointTable(t), key);
  }

  lemma OneDayBase(t: AggregateTable, day: int)
    requires OneDay(t, day) && OnePerDay(t)
    ensures Base(t) == Total(MeasuresOf(t), t.Keys) == DayTotal(t, t.Keys, day)
    ensures DatesOf(t.Keys) == {day}
  {
    OneDayPoints(t, day);
    TotalInParts(t);
    assert DayKeys(t.Keys, day) == t.Keys;
    var key :| key in t;
    assert DatesOf(t.Keys) == {day};
  }

  predicate SharedDerived(m: Measure) {
    m.ActiveDays? || m.ActiveHours? || m.AverageDailyUnits? || m.AverageInventoryCost? || m.GrossProfit?
  }

  /** What the series leaves out: it sets only these five derived measures, and
      at product and category grain substitutes only these five. */
  lemma DayDerivesFive(p: Payload, g: Grain, m: Measure)
    requires m !in {ActiveDays, ActiveHours, AverageDailyUnits, AverageInventoryCost, GrossProfit}
    ensures g == Product || g == Category ==>
      m !in {GrossRevenue, NetRevenue, DiscountAmount, ScopedNetRevenue, ScopedGrossProfit} ==>
      Keeps(p, DayFinished(p, g), m)
    ensures g != Product && g != Category ==> Keeps(p, DayFinished(p, g), m)
  {
    hide Default, Get;
  }

  /** The substitutions, and the five derived measures of a day. */
  lemma DayMeasures(p: Payload, g: Grain)
    ensures g == Product || g == Category ==>
      Get(DayFinished(p, g), GrossRevenue) == Get(p, ProductGrossRevenue) &&
      Get(DayFinished(p, g), NetRevenue) == Get(p, ProductNetRevenue) &&
      Get(DayFinished(p, g), DiscountAmount) == Get(p, ProductDiscountAmount) &&
      Get(DayFinished(p, g), ScopedNetRevenue) == Get(p, ProductNetRevenue) &&
      Get(DayFinished(p, g), ScopedGrossProfit) == Get(p, ProductGrossProfit)
    ensures Get(DayFinished(p, g), ActiveDays) == 1.0 && Get(DayFinished(p, g), ActiveHours) == 24.0
    ensures Get(DayFinished(p, g), AverageDailyUnits) == Get(p, UnitsSold)
    ensures Get(DayFinished(p, g), AverageInventoryCost) == Get(p, InventoryCostValue)
    ensures Get(DayFinished(p, g), GrossProfit) == if GrossProfit in p then p[GrossProfit]
      else Get(DayFinished(p, g), NetRevenue) - Get(p, Cogs)
  {
  }

  /** Neither side substitutes, or both do. */
  predicate SubstitutedAlike(g: Grain, m: Measure) {
    ProductGrain(g) ==> m != SalesTax && m != PurchaseValue
  }

  lemma DayFinishedKeeps(p: Payload, g: Grain, m: Measure)
    requires SubstitutedAlike(g, m) && !Derived(m)
    ensures Keeps(Substituted(p, g), DayFinished(p, g), m)
  {
  }

  lemma ProfitsOf(p: Payload)
    ensures GrossProfit in WithProfits(p)
    ensures WithProfits(p)[GrossProfit] == Default(p, GrossProfit, Get(p, NetRevenue) - Get(p, Cogs))
  {
  }

  lemma AveragesOf(p: Payload, period: Payload, g: Grain, m: Measure)
    requires m in {ActiveDays, ActiveHours, AverageDailyUnits, AverageInventoryCost}
    requires Get(period, InventoryCostValue) == Get(p, InventoryCostValue)
    ensures var q := WithAverages(Substituted(p, g), period, 1.0);
      m in q && m in DayFinished(p, g) && q[m] == DayFinished(p, g)[m]
  {
  }

  lemma DayProfit(p: Payload, g: Grain)
    ensures var q := Substituted(p, g);
      GrossProfit in DayFinished(p, g) &&
      DayFinished(p, g)[GrossProfit] == Default(q, GrossProfit, Get(q, NetRevenue) - Get(q, Cogs))
  {
  }

  lemma ProfitInputsKept(p: Payload, period: Payload, root: real -> real, m: Measure)
    requires m == GrossProfit || m == NetRevenue || m == Cogs
    ensures Keeps(p, WithPrices(WithAverages(p, period, 1.0), root), m)
  {
    hide WithAverages, WithPrices;
    AveragesKeep(p, period, 1.0, m);
    PricesKeep(WithAverages(p, period, 1.0), root, m);
  }

  lemma SharedAgree(p: Payload, period: Payload, freshness: Option<int>, g: Grain, now: int, root: real -> real,
                    m: Measure)
    requires SharedDerived(m)
    requires Get(period, InventoryCostValue) == Get(p, InventoryCostValue)
    ensures m in Finished(p, period, 1, freshness, g, now, root) && m in DayFinished(p, g)
    ensures Finished(p, period, 1, freshness, g, now, root)[m] == DayFinished(p, g)[m]
  {
    hide WithAverages, WithPrices, WithProfits, LagSeconds, DayFinished, Substituted;
    var s := Substituted(p, g);
    var q := WithAverages(s, period, 1.0);
    if m == GrossProfit {
      ProfitInputsKept(s, period, root, GrossProfit);
      ProfitInputsKept(s, period, root, NetRevenue);
      ProfitInputsKept(s, period, root, Cogs);
      ProfitsOf(WithPrices(q, root));
      DayProfit(p, g);
    } else {
      AveragesOf(p, period, g, m);
      PricesKeep(q, root, m);
      ProfitsKeep(WithPrices(q, root), m);
    }
  }

  /** On a one-day window the series and the snapshot agree on every measure
      that is not derived, sales tax and purchase value at product and category
      grain excepted, and on the five derived measures that both set. */
  lemma OneDayAgreement(t: AggregateTable, day: int, g: Grain, freshness: Option<int>, now: int, root: real -> real,
                        m: Measure)
    requires OneDay(t, day) && OnePerDay(t) && SubstitutedAlike(g, m)
    requires !Derived(m) || SharedDerived(m)
    ensures Keeps(DayFinished(DayTotal(t, t.Keys, day), g),
                  Finished(Base(t), Total(PointTable(t), t.Keys), |DatesOf(t.Keys)|, freshness, g, now, root), m)
  {
    hide Finished, DayFinished, Base, DayTotal, FlowPart, Substituted;
    OneDayBase(t, day);
    var p, period := Base(t), Total(PointTable(t), t.Keys);
    if Derived(m) {
      PeriodCost(t);
      SharedAgree(p, period, freshness, g, now, root, m);
    } else {
      FinishedKeeps(p, period, 1, freshness, g, now, root, m);
      DayFinishedKeeps(p, g, m);
    }
  }

  lemma PeriodCost(t: AggregateTable)
    ensures Get(Total(PointTable(t), t.Keys), InventoryCostValue) ==
      Get(Total(MeasuresOf(t), t.Keys), InventoryCostValue)
  {
    FlowTotal(t);
    hide MeasuresOf, PointTable;
  }

  /** The measure that a day of the series reports under `m`. */
  function DayUnderlying(g: Grain, m: Measure): Measure {
    if m == SalesTax || m == PurchaseValue then m else Underlying(g, m)
  }

  lemma DayFlow(p: Payload, g: Grain, m: Measure)
    requires !Derived(m)
    ensures Get(DayFinished(p, g), m) == Get(p, DayUnderlying(g, m))
  {
    if SubstitutedAlike(g, m) {
      hide DayFinished, Substituted;
      DayFinishedKeeps(p, g, m);
      SubstitutedFlow(p, g, m);
    } else {
      DayTax(p, g);
    }
  }

  /** On any window and at every grain, the daily values of a flow in the series
      add up to the period's total of the measure they report.  That is the
      snapshot's value of the flow, except for sales tax and purchase value at
      product and category grain, where it is exactly if the general and the
      product measure have the same total. */
  lemma DailyFlowsAddUp(t: AggregateTable, freshness: Option<int>, g: Grain, now: int, root: real -> real, m: Measure,
                        daily: map<int, real>)
    requires !Derived(m) && !PointInTime(m)
    requires daily.Keys == DatesOf(t.Keys)
    requires forall d :: d in daily ==> daily[d] == Get(DayFinished(DayTotal(t, t.Keys, d), g), m)
    ensures var reported :=
      Get(Finished(Base(t), Total(PointTable(t), t.Keys), |DatesOf(t.Keys)|, freshness, g, now, root), m);
      (SubstitutedAlike(g, m) ==> Sum(daily, daily.Keys) == reported) &&
      (Sum(daily, daily.Keys) == reported <==>
        Get(Total(MeasuresOf(t), t.Keys), DayUnderlying(g, m)) == Get(Total(MeasuresOf(t), t.Keys), Underlying(g, m)))
  {
    forall d | d in daily ensures daily[d] == Get(DayTotals(t)[d], DayUnderlying(g, m)) {
      hide DayFinished;
      DayFlow(DayTotal(t, t.Keys, d), g, m);
    }
    hide Finished, Base, MeasuresOf, DayTotals, DayFinished, PointTable, PointInTime, Derived, Get;
    DaysConserve(t);
    TotalIsSum(DayTotals(t), DatesOf(t.Keys), DayUnderlying(g, m), daily);
    ReportedFlow(t, freshness, g, now, root, m);
  }

  ghost function DayTotals(t: AggregateTable): (r: map<int, Payload>)
    ensures r.Keys == DatesOf(t.Keys)
  {
    map d | d in DatesOf(t.Keys) :: DayTotal(t, t.Keys, d)
  }

  /** The days' totals add up to the total of the period. */
  lemma DaysConserve(t: AggregateTable)
    ensures Total(MeasuresOf(t), t.Keys) == Total(DayTotals(t), DatesOf(t.Keys))
  {
    hide MeasuresOf;
    var byDay := map key | key in t :: key.day;
    var days := DatesOf(t.Keys);
    GroupingConserves(MeasuresOf(t), t.Keys, byDay, days);
    forall d | d in days ensures Fibre(t.Keys, byDay, d) == DayKeys(t.Keys, d) {
    }
    hide Fibre, DayKeys;
    TotalFrame(DayTotals(t), GroupTotals(MeasuresOf(t), t.Keys, byDay, days), days);
  }

  lemma SubstitutedTax(p: Payload, g: Grain)
    requires ProductGrain(g)
    ensures Get(Substituted(p, g), SalesTax) == Get(p, ProductSalesTax)
    ensures Get(Substituted(p, g), PurchaseValue) == Get(p, ProductPurchaseValue)
  {
  }

  lemma DayTax(p: Payload, g: Grain)
    ensures Get(DayFinished(p, g), SalesTax) == Get(p, SalesTax)
    ensures Get(DayFinished(p, g), PurchaseValue) == Get(p, PurchaseValue)
  {
  }

  /** At product and category grain the series does not substitute sales tax and
      purchase value.  It agrees with the snapshot on them exactly when the
      general and the product measure happen to have the same total. */
  lemma ProductGrainDisagreement(p: Payload, period: Payload, days: nat, freshness: Option<int>, g: Grain, now: int,
                                 root: real -> real)
    requires ProductGrain(g)
    ensures Get(Finished(p, period, days, freshness, g, now, root), SalesTax) == Get(DayFinished(p, g), SalesTax)
       <==> Get(p, SalesTax) == Get(p, ProductSalesTax)
    ensures Get(Finished(p, period, days, freshness, g, now, root), PurchaseValue)
         == Get(DayFinished(p, g), PurchaseValue)
       <==> Get(p, PurchaseValue) == Get(p, ProductPurchaseValue)
  {
    hide Finished, Substituted, DayFinished;
    SubstitutedTax(p, g);
    DayTax(p, g);
    FinishedKeeps(p, period, days, freshness, g, now, root, SalesTax);
    FinishedKeeps(p, period, days, freshness, g, now, root, PurchaseValue);
  }
}
