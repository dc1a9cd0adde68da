/** The measures of a period (`_measure_snapshot`).

    Flow measures add up over all rows.  Point-in-time measures count, for each
    entity, only its latest row.  The fold visits the rows once, in whatever
    order they arrive, and is specified by the table of rows alone.
 */
module Snapshot {
  import opened Wrappers
  import opened Payloads
  import opened Facts
  import opened Filters

  predicate PointInTime(m: Measure) {
    m.InventoryOnHand? || m.InventoryAvailable? || m.InventoryReserved? || m.InventoryInTransit? ||
    m.InventoryRetailValue? || m.InventoryCostValue? || m.ScopedInventoryValue? ||
    m.NegativeStockProducts? || m.ZeroStockProducts? || m.ActiveProducts?
  }

  function FlowPart(p: Payload): Payload {
    map m | m in p && !PointInTime(m) :: p[m]
  }

  function PointPart(p: Payload): Payload {
    map m | m in p && PointInTime(m) :: p[m]
  }

  // ---------------------------------------------------------------- what the fold computes

  ghost function FlowTable(t: AggregateTable): (r: map<AggregateKey, Payload>)
    ensures r.Keys == t.Keys
  {
    map key | key in t :: FlowPart(t[key].measures)
  }

  ghost function PointTable(t: AggregateTable): (r: map<AggregateKey, Payload>)
    ensures r.Keys == t.Keys
  {
    map key | key in t :: PointPart(t[key].measures)
  }

  ghost function Entities(keys: set<AggregateKey>): set<Entity> {
    set key | key in keys :: EntityOf(key)
  }

  /** No row of the same entity among `keys` is later. */
  ghost predicate IsLatest(keys: set<AggregateKey>, key: AggregateKey) {
    key in keys && forall l :: l in keys && EntityOf(l) == EntityOf(key) ==> l.day <= key.day
  }

  ghost function LaterKeys(keys: set<AggregateKey>, key: AggregateKey): set<AggregateKey> {
    set l | l in keys && EntityOf(l) == EntityOf(key) && key.day < l.day
  }

  lemma {:induction false} LatestExists(keys: set<AggregateKey>, key: AggregateKey)
    requires key in keys
    ensures exists l :: IsLatest(keys, l) && EntityOf(l) == EntityOf(key)
    decreases LaterKeys(keys, key)
  {
    if l :| l in LaterKeys(keys, key) {
      assert LaterKeys(keys, l) <= LaterKeys(keys, key) && l !in LaterKeys(keys, l);
      LatestExists(keys, l);
    } else {
      assert forall l :: l in keys ==> l !in LaterKeys(keys, key);
      assert IsLatest(keys, key);
    }
  }

  /** The row of an entity at its latest date. */
  ghost function LatestKey(keys: set<AggregateKey>, e: Entity): (key: AggregateKey)
    requires e in Entities(keys)
    ensures IsLatest(keys, key) && EntityOf(key) == e
  {
    var k :| k in keys && EntityOf(k) == e;
    LatestExists(keys, k);
    var key :| IsLatest(keys, key) && EntityOf(key) == e;
    key
  }

  /** Every entity's point-in-time measures, taken from its latest row. */
  ghost function Points(t: AggregateTable): map<Entity, Payload> {
    map e | e in Entities(t.Keys) :: PointPart(t[LatestKey(t.Keys, e)].measures)
  }

  /** The measures before derivation. */
  ghost function Base(t: AggregateTable): Payload {
    Added(Total(FlowTable(t), t.Keys), Total(Points(t), Entities(t.Keys)))
  }

  ghost predicate IsFreshness(t: AggregateTable, keys: set<AggregateKey>, at: Option<int>)
    requires keys <= t.Keys
  {
    if keys == {} then at == None else
    at.Some? && (forall k :: k in keys ==> t[k].sourceMaxUpdatedAt <= at.value) &&
    exists k :: k in keys && t[k].sourceMaxUpdatedAt == at.value
  }

  // ---------------------------------------------------------------- the fold

  function Part(p: Payload, s: set<Measure>): Payload {
    map m | m in p && m in s :: p[m]
  }

  function Plus(p: Payload, m: Measure, x: real): Payload {
    p[m := Get(p, m) + x]
  }

  lemma PlusAdds(a: Payload, b: Payload, m: Measure, x: real)
    requires m !in b
    ensures Plus(Added(a, b), m, x) == Added(a, b[m := x])
  {
    assert Plus(Added(a, b), m, x).Keys == Added(a, b[m := x]).Keys;
  }

  lemma PartNext(p: Payload, done: set<Measure>, m: Measure)
    requires m in p && m !in done
    ensures m !in FlowPart(Part(p, done)) && m !in PointPart(Part(p, done))
    ensures FlowPart(Part(p, done + {m})) == if PointInTime(m) then FlowPart(Part(p, done))
      else FlowPart(Part(p, done))[m := p[m]]
    ensures PointPart(Part(p, done + {m})) == if PointInTime(m) then PointPart(Part(p, done))[m := p[m]]
      else PointPart(Part(p, done))
  {
    hide PointInTime;
  }

  /** The inner loop over the measures of one row. */
  method Tally(measures: Payload, period: Payload, payload: Payload) returns (measures': Payload, period': Payload)
    ensures measures' == Added(measures, FlowPart(payload))
    ensures period' == Added(period, PointPart(payload))
  {
    hide Added, FlowPart, PointPart, PointInTime;
    measures', period' := measures, period;
    var rest := payload.Keys;
    ghost var done: set<Measure> := {};
    PartNone(payload);
    AddedEmpty(measures);
    AddedEmpty(period);
    while rest != {}
      invariant done + rest == payload.Keys && done !! rest
      invariant measures' == Added(measures, FlowPart(Part(payload, done)))
      invariant period' == Added(period, PointPart(Part(payload, done)))
      decreases rest
    {
      var m :| m in rest;
      PartNext(payload, done, m);
      if PointInTime(m) {
        PlusAdds(period, PointPart(Part(payload, done)), m, payload[m]);
        period' := period'[m := Get(period', m) + payload[m]];
      } else {
        PlusAdds(measures, FlowPart(Part(payload, done)), m, payload[m]);
        measures' := measures'[m := Get(measures', m) + payload[m]];
      }
      rest, done := rest - {m}, done + {m};
    }
    assert Part(payload, done) == payload;
  }

  lemma PartNone(p: Payload)
    ensures FlowPart(Part(p, {})) == map[] == PointPart(Part(p, {}))
  {
  }

  /** What the entity dictionary holds after the rows `done`. */
  ghost predicate HoldsLatest(t: AggregateTable, done: set<AggregateKey>, points: map<Entity, (int, Payload)>)
    requires done <= t.Keys
  {
    points.Keys == Entities(done) &&
    forall key :: IsLatest(done, key) ==> points[EntityOf(key)] == (key.day, PointPart(t[key].measures))
  }

  /** What the dictionary holds after one more row. */
  ghost function Remembered(t: AggregateTable, points: map<Entity, (int, Payload)>, key: AggregateKey)
    : map<Entity, (int, Payload)>
    requires key in t
  {
    var e := EntityOf(key);
    if e !in points || key.day >= points[e].0 then points[e := (key.day, PointPart(t[key].measures))] else points
  }

  lemma HoldsLatestNext(t: AggregateTable, done: set<AggregateKey>, points: map<Entity, (int, Payload)>,
                        key: AggregateKey)
    requires OnePerDay(t) && done <= t.Keys && key in t && key !in done && HoldsLatest(t, done, points)
    ensures var e := EntityOf(key);
      HoldsLatest(t, done + {key},
        if e !in points || key.day >= points[e].0 then points[e := (key.day, PointPart(t[key].measures))] else points)
  {
    var e, more, after := EntityOf(key), done + {key}, Remembered(t, points, key);
    assert Entities(more) == Entities(done) + {e};
    assert after.Keys == points.Keys + {e};
    hide PointPart, OnePerDay, EntityOf, IsLatest, Entities, Remembered;
    forall k | IsLatest(more, k) ensures after[EntityOf(k)] == (k.day, PointPart(t[k].measures)) {
      if k == key {
        NewIsHeld(t, done, points, key);
      } else {
        OtherIsHeld(t, done, points, key, k);
      }
    }
  }

  lemma NewIsHeld(t: AggregateTable, done: set<AggregateKey>, points: map<Entity, (int, Payload)>, key: AggregateKey)
    requires OnePerDay(t) && done <= t.Keys && key in t && key !in done && HoldsLatest(t, done, points)
    requires IsLatest(done + {key}, key)
    ensures Remembered(t, points, key)[EntityOf(key)] == (key.day, PointPart(t[key].measures))
  {
    hide PointPart, OnePerDay, EntityOf;
    if EntityOf(key) in points {
      NewerIsLatest(t, done, key, LatestKey(done, EntityOf(key)));
    }
  }

  lemma OtherIsHeld(t: AggregateTable, done: set<AggregateKey>, points: map<Entity, (int, Payload)>,
                    key: AggregateKey, k: AggregateKey)
    requires OnePerDay(t) && done <= t.Keys && key in t && key !in done && HoldsLatest(t, done, points)
    requires IsLatest(done + {key}, k) && k != key
    ensures EntityOf(k) in points && Remembered(t, points, key)[EntityOf(k)] == (k.day, PointPart(t[k].measures))
  {
    OtherIsLatest(t, done, key, k);
    hide PointPart, OnePerDay, EntityOf;
  }

  lemma OtherIsLatest(t: AggregateTable, done: set<AggregateKey>, key: AggregateKey, k: AggregateKey)
    requires OnePerDay(t) && done <= t.Keys && key in t && key !in done && IsLatest(done + {key}, k) && k != key
    ensures IsLatest(done, k) && (EntityOf(k) == EntityOf(key) ==> k.day > key.day)
  {
  }

  lemma NewerIsLatest(t: AggregateTable, done: set<AggregateKey>, key: AggregateKey, l: AggregateKey)
    requires OnePerDay(t) && done <= t.Keys && key in t && key !in done && IsLatest(done, l) &&
      EntityOf(l) == EntityOf(key)
    ensures l.day != key.day && (IsLatest(done + {key}, key) <==> key.day > l.day)
  {
  }

  ghost function DatesOf(keys: set<AggregateKey>): set<int> {
    set key | key in keys :: key.day
  }

  function Later(freshness: Option<int>, at: int): Option<int> {
    match freshness case None => Some(at) case Some(f) => Some(if f < at then at else f)
  }

  lemma FreshnessNext(t: AggregateTable, done: set<AggregateKey>, freshness: Option<int>, key: AggregateKey)
    requires done <= t.Keys && key in t && IsFreshness(t, done, freshness)
    ensures IsFreshness(t, done + {key}, Later(freshness, t[key].sourceMaxUpdatedAt))
  {
    assert key in done + {key};
    if done != {} {
      var k :| k in done && t[k].sourceMaxUpdatedAt == freshness.value;
      assert k in done + {key};
    }
  }

  /** One pass over the rows in any order. */
  method Fold(t: AggregateTable, order: seq<AggregateKey>)
    returns (measures: Payload, period: Payload, dates: set<int>, freshness: Option<int>)
    requires Enumerates(order, t.Keys) && OnePerDay(t)
    ensures measures == Base(t)
    ensures period == Total(PointTable(t), t.Keys)
    ensures dates == DatesOf(t.Keys)
    ensures IsFreshness(t, t.Keys, freshness)
  {
    hide *;
    measures, period, dates, freshness := map[], map[], {}, None;
    var points: map<Entity, (int, Payload)> := map[];
    FoldStart(t, order);
    for i := 0 to |order|
      invariant Seen(order, i) <= t.Keys
      invariant measures == Total(FlowTable(t), Seen(order, i))
      invariant period == Total(PointTable(t), Seen(order, i))
      invariant dates == DatesOf(Seen(order, i))
      invariant IsFreshness(t, Seen(order, i), freshness)
      invariant HoldsLatest(t, Seen(order, i), points)
    {
      var key := order[i];
      SeenNext(order, t.Keys, i);
      var row := t[key];
      DatesNext(Seen(order, i), key);
      dates := dates + {key.day};
      FreshnessNext(t, Seen(order, i), freshness, key);
      freshness := Later(freshness, row.sourceMaxUpdatedAt);
      HoldsLatestNext(t, Seen(order, i), points, key);
      var e := EntityOf(key);
      if e !in points || key.day >= points[e].0 {
        points := points[e := (key.day, PointPart(row.measures))];
      }
      measures, period := Tally(measures, period, row.measures);
      RowTables(t, key);
      TotalInsert(FlowTable(t), Seen(order, i), key);
      TotalInsert(PointTable(t), Seen(order, i), key);
    }
    SeenAll(order, t.Keys);
    LatestAreThePoints(t, points);
    measures := AddPoints(measures, points, Points(t));
    BaseIs(t);
  }

  lemma DatesNext(done: set<AggregateKey>, key: AggregateKey)
    ensures DatesOf(done + {key}) == DatesOf(done) + {key.day}
  {
  }

  lemma RowTables(t: AggregateTable, key: AggregateKey)
    requires key in t
    ensures FlowTable(t).Keys == PointTable(t).Keys == t.Keys
    ensures FlowTable(t)[key] == FlowPart(t[key].measures) && PointTable(t)[key] == PointPart(t[key].measures)
  {
  }

  lemma BaseIs(t: AggregateTable)
    ensures FlowTable(t).Keys == t.Keys && Points(t).Keys == Entities(t.Keys)
    ensures Base(t) == Added(Total(FlowTable(t), t.Keys), Total(Points(t), Points(t).Keys))
  {
  }

  lemma FoldStart(t: AggregateTable, order: seq<AggregateKey>)
    ensures Seen(order, 0) == {} && DatesOf({}) == {}
    ensures FlowTable(t).Keys == PointTable(t).Keys == t.Keys
    ensures Total(FlowTable(t), {}) == map[] == Total(PointTable(t), {})
    ensures IsFreshness(t, {}, None) && HoldsLatest(t, {}, map[])
  {
  }

  lemma LatestAreThePoints(t: AggregateTable, points: map<Entity, (int, Payload)>)
    requires HoldsLatest(t, t.Keys, points)
    ensures points.Keys == Points(t).Keys && forall e :: e in points ==> points[e].1 == Points(t)[e]
  {
    forall e | e in points ensures points[e].1 == Points(t)[e] {
      assert IsLatest(t.Keys, LatestKey(t.Keys, e));
    }
  }

  /** The second loop, over the entity dictionary. */
  method AddPoints(measures: Payload, points: map<Entity, (int, Payload)>, ghost table: map<Entity, Payload>)
    returns (r: Payload)
    requires points.Keys == table.Keys && forall e :: e in points ==> points[e].1 == table[e]
    ensures r == Added(measures, Total(table, table.Keys))
  {
    hide Added, FlowPart, PointPart;
    r := measures;
    var rest := points.Keys;
    AddedEmpty(measures);
    while rest != {}
      invariant rest <= points.Keys
      invariant r == Added(measures, Total(table, points.Keys - rest))
      decreases rest
    {
      var e :| e in rest;
      assert points.Keys - (rest - {e}) == points.Keys - rest + {e};
      TotalInsert(table, points.Keys - rest, e);
      AddedAssociative(measures, Total(table, points.Keys - rest), table[e]);
      rest := rest - {e};
      r := Accumulate(r, points[e].1);
    }
    assert points.Keys - rest == points.Keys;
  }

  /** `target[key] = target.get(key, 0) + value` for every measure of a payload. */
  method Accumulate(target: Payload, payload: Payload) returns (r: Payload)
    ensures r == Added(target, payload)
  {
    r := target;
    var rest := payload.Keys;
    while rest != {}
      invariant rest <= payload.Keys
      invariant forall m :: m in r <==> m in target || (m in payload && m !in rest)
      invariant forall m :: m in r ==> r[m] == Get(target, m) + if m in rest then 0.0 else Get(payload, m)
      decreases rest
    {
      var m :| m in rest;
      rest := rest - {m};
      r := r[m := Get(r, m) + payload[m]];
    }
  }

  // ---------------------------------------------------------------- flows and points as parts of the rows

  ghost predicate IsFlow(m: Measure) {
    !PointInTime(m)
  }

  lemma PartsAreRestrictions(p: Payload)
    ensures FlowPart(p) == Only(p, iset m | IsFlow(m)) && PointPart(p) == Only(p, iset m | PointInTime(m))
  {
    hide PointInTime;
  }

  lemma FlowTotal(t: AggregateTable)
    ensures Total(FlowTable(t), t.Keys) == FlowPart(Total(MeasuresOf(t), t.Keys))
    ensures Total(PointTable(t), t.Keys) == PointPart(Total(MeasuresOf(t), t.Keys))
  {
    hide FlowPart, PointPart, Only, IsFlow, PointInTime;
    forall key | key in t
      ensures FlowPart(t[key].measures) == Only(t[key].measures, iset m | IsFlow(m))
      ensures PointPart(t[key].measures) == Only(t[key].measures, iset m | PointInTime(m))
    {
      PartsAreRestrictions(t[key].measures);
    }
    TotalOnly(MeasuresOf(t), FlowTable(t), t.Keys, iset m | IsFlow(m));
    TotalOnly(MeasuresOf(t), PointTable(t), t.Keys, iset m | PointInTime(m));
    PartsAreRestrictions(Total(MeasuresOf(t), t.Keys));
  }

  lemma NoFlowInPoints(t: AggregateTable, m: Measure)
    requires !PointInTime(m)
    ensures m !in Total(Points(t), Entities(t.Keys))
  {
    hide PointInTime;
    TotalKeys(Points(t), Entities(t.Keys), m);
  }

  /** A flow's value is its total over all rows. */
  lemma FlowOfBase(t: AggregateTable, m: Measure)
    requires !PointInTime(m)
    ensures Get(Base(t), m) == Get(Total(MeasuresOf(t), t.Keys), m)
  {
    FlowTotal(t);
    NoFlowInPoints(t, m);
    hide PointInTime, Points, FlowTable, MeasuresOf;
  }

  // ---------------------------------------------------------------- splitting the period

  ghost predicate SplitAt(a: AggregateTable, b: AggregateTable, day: int) {
    (forall k :: k in a ==> k.day < day) && (forall k :: k in b ==> day <= k.day)
  }

  lemma LatestOfSplit(a: AggregateTable, b: AggregateTable, day: int, e: Entity)
    requires SplitAt(a, b, day) && OnePerDay(a + b) && e in Entities((a + b).Keys)
    ensures e in Entities(b.Keys) ==> LatestKey((a + b).Keys, e) == LatestKey(b.Keys, e)
    ensures e !in Entities(b.Keys) ==> e in Entities(a.Keys) && LatestKey((a + b).Keys, e) == LatestKey(a.Keys, e)
  {
    var key := LatestKey((a + b).Keys, e);
    assert (a + b).Keys == a.Keys + b.Keys;
    if e in Entities(b.Keys) {
      var l := LatestKey(b.Keys, e);
      assert l in (a + b).Keys && key in b;
      assert key in (a + b).Keys;
    } else {
      assert key !in b;
      var l := LatestKey(a.Keys, e);
      assert l in (a + b).Keys;
    }
  }

  /** A period split at any day: flows add up, and an entity's later part
      overrides its earlier part. */
  lemma SplitComposes(a: AggregateTable, b: AggregateTable, day: int)
    requires SplitAt(a, b, day) && OnePerDay(a + b)
    ensures Total(FlowTable(a + b), (a + b).Keys) == Added(Total(FlowTable(a), a.Keys), Total(FlowTable(b), b.Keys))
    ensures Points(a + b) == Points(a) + Points(b)
  {
    hide FlowPart, PointPart, Added;
    assert a.Keys !! b.Keys;
    assert (a + b).Keys == a.Keys + b.Keys;
    TotalUnion(FlowTable(a + b), a.Keys, b.Keys);
    TotalFrame(FlowTable(a + b), FlowTable(a), a.Keys);
    TotalFrame(FlowTable(a + b), FlowTable(b), b.Keys);
    SplitPoints(a, b, day);
  }

  lemma PointOfSplit(a: AggregateTable, b: AggregateTable, day: int, e: Entity)
    requires SplitAt(a, b, day) && OnePerDay(a + b) && e in Entities((a + b).Keys)
    ensures e in Points(a + b) && e in Points(a) + Points(b)
    ensures Points(a + b)[e] == (Points(a) + Points(b))[e]
  {
    LatestOfSplit(a, b, day, e);
    hide FlowPart, PointPart, OnePerDay, SplitAt, IsLatest;
  }

  lemma PointKeys(a: AggregateTable, b: AggregateTable)
    ensures Points(a + b).Keys == Points(a).Keys + Points(b).Keys
  {
    hide PointPart;
    assert (a + b).Keys == a.Keys + b.Keys;
    assert Entities((a + b).Keys) == Entities(a.Keys) + Entities(b.Keys);
  }

  lemma SplitPoints(a: AggregateTable, b: AggregateTable, day: int)
    requires SplitAt(a, b, day) && OnePerDay(a + b)
    ensures Points(a + b) == Points(a) + Points(b)
  {
    hide *;
    BaseIs(a + b);
    PointKeys(a, b);
    forall e | e in Points(a + b) ensures Points(a + b)[e] == (Points(a) + Points(b))[e] {
      PointOfSplit(a, b, day, e);
    }
  }

  /** Cutting a query's window at a day cuts the rows it reads. */
  lemma WindowSplits(t: AggregateTable, a: Access, f: Filters, g: Grain, day: int)
    requires f.fromDay <= day <= f.toDay + 1
    ensures var early, late := Selected(t, a, f.(toDay := day - 1), g), Selected(t, a, f.(fromDay := day), g);
      SplitAt(early, late, day) && Selected(t, a, f, g) == early + late
  {
    var early, late := Selected(t, a, f.(toDay := day - 1), g), Selected(t, a, f.(fromDay := day), g);
    forall key ensures key in Selected(t, a, f, g) <==> key in early || key in late {
    }
  }

  /** A query over a window is made of the queries over its two parts: flows
      add up, and the later part's entities override the earlier part's. */
  lemma WindowsCompose(t: AggregateTable, a: Access, f: Filters, day: int)
    requires WellKeyed(t) && GrainOf(f).Ok? && f.fromDay <= day <= f.toDay + 1
    ensures var g := GrainOf(f).value;
      var early, late, rows :=
        Selected(t, a, f.(toDay := day - 1), g), Selected(t, a, f.(fromDay := day), g), Selected(t, a, f, g);
      Total(FlowTable(rows), rows.Keys) ==
        Added(Total(FlowTable(early), early.Keys), Total(FlowTable(late), late.Keys)) &&
      Points(rows) == Points(early) + Points(late)
  {
    hide *;
    var g := GrainOf(f).value;
    WindowSplits(t, a, f, g, day);
    SelectionIsOnePerDay(t, a, f);
    SplitComposes(Selected(t, a, f.(toDay := day - 1), g), Selected(t, a, f.(fromDay := day), g), day);
  }

  // ---------------------------------------------------------------- derivation

  function Default(p: Payload, m: Measure, x: real): real {
    if m in p then p[m] else x
  }

  predicate ProductGrain(g: Grain) {
    g == Product || g == Category
  }

  /** At product and category grain the product measures stand in for the general ones. */
  function Substituted(p: Payload, g: Grain): Payload {
    if !ProductGrain(g) then p else
    p[GrossRevenue := Get(p, ProductGrossRevenue)][NetRevenue := Get(p, ProductNetRevenue)]
     [DiscountAmount := Get(p, ProductDiscountAmount)][SalesTax := Get(p, ProductSalesTax)]
     [ScopedNetRevenue := Get(p, ProductNetRevenue)][ScopedGrossProfit := Get(p, ProductGrossProfit)]
     [PurchaseValue := Get(p, ProductPurchaseValue)]
  }

  function WithAverages(p: Payload, period: Payload, days: real): Payload
    requires days > 0.0
  {
    p[ActiveDays := days][ActiveHours := days * 24.0]
     [AverageDailyUnits := Get(p, UnitsSold) / days]
     [AverageInventoryCost := Get(period, InventoryCostValue) / days]
  }

  /** Mean of squares minus square of the mean. */
  function RawVariance(p: Payload): real
    requires Get(p, PriceCount) != 0.0
  {
    var mean := Get(p, PriceValue) / Get(p, PriceCount);
    Get(p, PriceValueSquared) / Get(p, PriceCount) - mean * mean
  }

  function PriceVariance(p: Payload): real
    requires Get(p, PriceCount) != 0.0
  {
    if RawVariance(p) > 0.0 then RawVariance(p) else 0.0
  }

  function WithPrices(p: Payload, root: real -> real): Payload {
    if Get(p, PriceCount) == 0.0 then p else
    p[AveragePrice := Get(p, PriceValue) / Get(p, PriceCount)][PriceStddev := root(PriceVariance(p))]
  }

  function WithProfits(p: Payload): Payload {
    var q := p[GrossProfit := Default(p, GrossProfit, Get(p, NetRevenue) - Get(p, Cogs))]
              [NetworkNetRevenue := Get(p, NetRevenue)]
              [ScopedNetRevenue := Default(p, ScopedNetRevenue, Get(p, NetRevenue))];
    q[ScopedGrossProfit := Default(q, ScopedGrossProfit, Get(q, GrossProfit))]
     [UnitsAvailableForSale := Get(q, InventoryAvailable) + Get(q, UnitsSold)]
  }

  function LagSeconds(freshness: Option<int>, now: int): real {
    match freshness
    case None => 0.0
    case Some(at) => if now < at then 0.0 else ((now - at) / 1_000_000) as real
  }

  function Finished(base: Payload, period: Payload, days: nat, freshness: Option<int>, g: Grain, now: int,
                    root: real -> real): Payload {
    var activeDays := if days > 1 then days as real else 1.0;
    var priced := WithPrices(WithAverages(Substituted(base, g), period, activeDays), root);
    WithProfits(priced)[FreshnessSeconds := LagSeconds(freshness, now)]
  }

  datatype Measures = Measures(values: Payload, freshness: Option<int>, hasData: bool)

  /** What the snapshot of these rows reports, before the product and supplier measures. */
  ghost function Reported(t: AggregateTable, freshness: Option<int>, g: Grain, now: int, root: real -> real): Payload {
    Finished(Base(t), Total(PointTable(t), t.Keys), |DatesOf(t.Keys)|, freshness, g, now, root)
  }

  /** The snapshot of one section of rows, up to the product and supplier measures. */
  method MeasureSnapshot(t: AggregateTable, order: seq<AggregateKey>, g: Grain, now: int, root: real -> real)
    returns (r: Result<Measures, QueryError>, days: nat)
    requires Enumerates(order, t.Keys) && OnePerDay(t)
    ensures |order| > MAX_AGGREGATE_ROWS ==> r == Err(CardinalityLimit)
    ensures |order| <= MAX_AGGREGATE_ROWS ==>
      r.Ok? && IsFreshness(t, t.Keys, r.value.freshness) && (r.value.hasData <==> t.Keys != {}) &&
      r.value.values == Reported(t, r.value.freshness, g, now, root) && days == |DatesOf(t.Keys)|
  {
    hide *;
    if |order| > MAX_AGGREGATE_ROWS {
      return Err(CardinalityLimit), 0;
    }
    var measures, period, dates, freshness := Fold(t, order);
    ReportedIs(t, freshness, g, now, root);
    SomeRow(t, order);
    return Ok(Measures(Finished(measures, period, |dates|, freshness, g, now, root), freshness, order != [])), |dates|;
  }

  lemma ReportedIs(t: AggregateTable, freshness: Option<int>, g: Grain, now: int, root: real -> real)
    ensures PointTable(t).Keys == t.Keys
    ensures Reported(t, freshness, g, now, root)
         == Finished(Base(t), Total(PointTable(t), t.Keys), |DatesOf(t.Keys)|, freshness, g, now, root)
  {
    hide Finished;
  }

  lemma SomeRow(t: AggregateTable, order: seq<AggregateKey>)
    requires Enumerates(order, t.Keys)
    ensures order != [] <==> t.Keys != {}
  {
    assert order != [] ==> order[0] in order;
  }

  /** The measures that some step after the fold sets. */
  predicate Derived(m: Measure) {
    m.ActiveDays? || m.ActiveHours? || m.AverageDailyUnits? || m.AverageInventoryCost? || m.GrossProfit? ||
    m.NetworkNetRevenue? || m.ScopedNetRevenue? || m.ScopedGrossProfit? || m.UnitsAvailableForSale? ||
    m.FreshnessSeconds? || m.SoldProductCount? || m.Top10Revenue? || m.DemandStddev? || m.LowCoverProducts? ||
    m.ExcessStockProducts? || m.SlowMovingProducts? || m.NoSaleProducts? || m.ActiveSupplierCount? ||
    m.TopSupplierValue? || m.Top5SupplierValue? || m.SupplierProductCount? || m.AveragePrice? || m.PriceStddev? ||
    m.CacheHits? || m.CacheRequests?
  }

  ghost predicate Keeps(p: Payload, q: Payload, m: Measure) {
    (m in q <==> m in p) && (m in p ==> q[m] == p[m])
  }

  lemma AveragesKeep(p: Payload, period: Payload, days: real, m: Measure)
    requires days > 0.0 && !m.ActiveDays? && !m.ActiveHours? && !m.AverageDailyUnits? && !m.AverageInventoryCost?
    ensures Keeps(p, WithAverages(p, period, days), m)
  {
  }

  lemma PricesKeep(p: Payload, root: real -> real, m: Measure)
    requires !m.AveragePrice? && !m.PriceStddev?
    ensures Keeps(p, WithPrices(p, root), m)
  {
  }

  lemma ProfitsKeep(p: Payload, m: Measure)
    requires !m.GrossProfit? && !m.NetworkNetRevenue? && !m.ScopedNetRevenue? && !m.ScopedGrossProfit? &&
      !m.UnitsAvailableForSale?
    ensures Keeps(p, WithProfits(p), m)
  {
  }

  /** Outside the derived measures, a snapshot is the folded payload after substitution. */
  lemma FinishedKeeps(base: Payload, period: Payload, days: nat, freshness: Option<int>, g: Grain, now: int,
                      root: real -> real, m: Measure)
    requires !Derived(m)
    ensures Keeps(Substituted(base, g), Finished(base, period, days, freshness, g, now, root), m)
  {
    hide WithAverages, WithPrices, WithProfits, LagSeconds, Substituted;
    var activeDays := if days > 1 then days as real else 1.0;
    var p := WithAverages(Substituted(base, g), period, activeDays);
    AveragesKeep(Substituted(base, g), period, activeDays, m);
    PricesKeep(p, root, m);
    ProfitsKeep(WithPrices(p, root), m);
  }

  /** What the derived measures mean: averages recover their totals, and the
      profit not given is revenue less cost. */
  lemma DerivedMeasures(base: Payload, period: Payload, days: nat, freshness: Option<int>, g: Grain, now: int,
                        root: real -> real)
    ensures var r := Finished(base, period, days, freshness, g, now, root);
      {ActiveDays, ActiveHours, AverageDailyUnits, AverageInventoryCost} <= r.Keys &&
      {GrossProfit, UnitsAvailableForSale} <= r.Keys &&
      r[ActiveDays] == (if days > 1 then days as real else 1.0) && r[ActiveHours] == 24.0 * r[ActiveDays] &&
      r[AverageDailyUnits] * r[ActiveDays] == Get(base, UnitsSold) &&
      r[AverageInventoryCost] * r[ActiveDays] == Get(period, InventoryCostValue) &&
      r[UnitsAvailableForSale] - Get(base, UnitsSold) == Get(base, InventoryAvailable) &&
      r[GrossProfit] == (if GrossProfit in base then base[GrossProfit] else Get(r, NetRevenue) - Get(r, Cogs))
  {
    hide *;
    var d := if days > 1 then days as real else 1.0;
    var s := Substituted(base, g);
    SubstitutionKeeps(base, g);
    SameGets(base, s);
    AveragesMean(s, period, d);
    AveragesAre();
    AverageReported(s, period, days, freshness, now, root, base, g, ActiveDays);
    AverageReported(s, period, days, freshness, now, root, base, g, ActiveHours);
    AverageReported(s, period, days, freshness, now, root, base, g, AverageDailyUnits);
    AverageReported(s, period, days, freshness, now, root, base, g, AverageInventoryCost);
    ProfitsReported(base, period, days, freshness, g, now, root);
  }

  lemma AveragesAre()
    ensures IsAverage(ActiveDays) && IsAverage(ActiveHours) && IsAverage(AverageDailyUnits) &&
      IsAverage(AverageInventoryCost)
  {
  }

  lemma SameGets(p: Payload, q: Payload)
    ensures Keeps(p, q, UnitsSold) ==> Get(p, UnitsSold) == Get(q, UnitsSold)
    ensures Keeps(p, q, InventoryAvailable) ==> Get(p, InventoryAvailable) == Get(q, InventoryAvailable)
    ensures Keeps(p, q, NetRevenue) ==> Get(p, NetRevenue) == Get(q, NetRevenue)
    ensures Keeps(p, q, Cogs) ==> Get(p, Cogs) == Get(q, Cogs)
    ensures Keeps(p, q, GrossProfit) ==>
      (GrossProfit in p <==> GrossProfit in q) && (GrossProfit in p ==> p[GrossProfit] == q[GrossProfit])
  {
  }

  /** The payload before the profits are set. */
  function Priced(base: Payload, period: Payload, days: nat, g: Grain, root: real -> real): Payload {
    WithPrices(WithAverages(Substituted(base, g), period, if days > 1 then days as real else 1.0), root)
  }

  lemma FinishedIs(base: Payload, period: Payload, days: nat, freshness: Option<int>, g: Grain, now: int,
                   root: real -> real)
    ensures Finished(base, period, days, freshness, g, now, root)
         == WithProfits(Priced(base, period, days, g, root))[FreshnessSeconds := LagSeconds(freshness, now)]
    ensures Priced(base, period, days, g, root)
         == WithPrices(WithAverages(Substituted(base, g), period, if days > 1 then days as real else 1.0), root)
  {
    hide LagSeconds, Substituted, WithAverages, WithPrices, WithProfits;
  }

  predicate IsAverage(m: Measure) {
    m == ActiveDays || m == ActiveHours || m == AverageDailyUnits || m == AverageInventoryCost
  }

  /** The four averages are not touched after they are set. */
  lemma AverageReported(s: Payload, period: Payload, days: nat, freshness: Option<int>, now: int, root: real -> real,
                        base: Payload, g: Grain, m: Measure)
    requires s == Substituted(base, g) && IsAverage(m)
    ensures var r, a := Finished(base, period, days, freshness, g, now, root),
      WithAverages(s, period, if days > 1 then days as real else 1.0);
      m in a ==> m in r && r[m] == a[m]
  {
    hide Substituted, WithAverages, WithPrices, WithProfits, Finished, Priced, LagSeconds, Get, Keeps;
    var a := WithAverages(s, period, if days > 1 then days as real else 1.0);
    FinishedIs(base, period, days, freshness, g, now, root);
    LaterKeepAverage(a, root, m);
  }

  lemma LaterKeepAverage(a: Payload, root: real -> real, m: Measure)
    requires IsAverage(m)
    ensures m in a ==> m in WithProfits(WithPrices(a, root)) && WithProfits(WithPrices(a, root))[m] == a[m]
  {
    hide WithPrices, WithProfits;
    PricesKeep(a, root, m);
    ProfitsKeep(WithPrices(a, root), m);
  }

  /** What the profits are computed from is what the substitution left. */
  lemma ProfitInputs(base: Payload, period: Payload, days: nat, g: Grain, root: real -> real)
    ensures var p := Priced(base, period, days, g, root);
      Get(p, InventoryAvailable) == Get(base, InventoryAvailable) && Get(p, UnitsSold) == Get(base, UnitsSold) &&
      (GrossProfit in p <==> GrossProfit in base) && (GrossProfit in p ==> p[GrossProfit] == base[GrossProfit])
  {
    hide Substituted, WithAverages, WithPrices, Get, Keeps;
    var d := if days > 1 then days as real else 1.0;
    var s := Substituted(base, g);
    var a := WithAverages(s, period, d);
    SubstitutionKeeps(base, g);
    SameGets(base, s);
    AveragesMean(s, period, d);
    SameGets(s, a);
    PricesMean(a, root);
    SameGets(a, WithPrices(a, root));
  }

  lemma ProfitsReported(base: Payload, period: Payload, days: nat, freshness: Option<int>, g: Grain, now: int,
                        root: real -> real)
    ensures var r := Finished(base, period, days, freshness, g, now, root);
      {GrossProfit, UnitsAvailableForSale} <= r.Keys &&
      r[UnitsAvailableForSale] == Get(base, InventoryAvailable) + Get(base, UnitsSold) &&
      r[GrossProfit] == (if GrossProfit in base then base[GrossProfit] else Get(r, NetRevenue) - Get(r, Cogs))
  {
    hide *;
    var p := Priced(base, period, days, g, root);
    FinishedIs(base, period, days, freshness, g, now, root);
    ProfitInputs(base, period, days, g, root);
    ProfitsMean(p);
    SameGets(p, WithProfits(p));
    FreshnessKeeps(WithProfits(p), LagSeconds(freshness, now));
    SameGets(WithProfits(p), WithProfits(p)[FreshnessSeconds := LagSeconds(freshness, now)]);
  }

  lemma FreshnessKeeps(p: Payload, x: real)
    ensures Keeps(p, p[FreshnessSeconds := x], NetRevenue) && Keeps(p, p[FreshnessSeconds := x], Cogs)
  {
  }

  lemma SubstitutionKeeps(p: Payload, g: Grain)
    ensures var q := Substituted(p, g);
      Keeps(p, q, UnitsSold) && Keeps(p, q, InventoryAvailable) && Keeps(p, q, GrossProfit) && Keeps(p, q, Cogs)
  {
  }

  lemma AveragesMean(p: Payload, period: Payload, days: real)
    requires days > 0.0
    ensures var q := WithAverages(p, period, days);
      {ActiveDays, ActiveHours, AverageDailyUnits, AverageInventoryCost} <= q.Keys &&
      q[ActiveDays] == days && q[ActiveHours] == 24.0 * days &&
      q[AverageDailyUnits] * days == Get(p, UnitsSold) &&
        q[AverageInventoryCost] * days == Get(period, InventoryCostValue)
    ensures var q := WithAverages(p, period, days);
      Keeps(p, q, UnitsSold) && Keeps(p, q, InventoryAvailable) && Keeps(p, q, GrossProfit) && Keeps(p, q, Cogs) &&
        Keeps(p, q, NetRevenue)
  {
    assert Get(p, UnitsSold) / days * days == Get(p, UnitsSold);
    assert Get(period, InventoryCostValue) / days * days == Get(period, InventoryCostValue);
  }

  lemma PricesMean(p: Payload, root: real -> real)
    ensures var q := WithPrices(p, root);
      p.Keys <= q.Keys && (forall m :: m in p && m != AveragePrice && m != PriceStddev ==> q[m] == p[m]) &&
      (Get(p, PriceCount) != 0.0 ==> AveragePrice in q && q[AveragePrice] * Get(p, PriceCount) == Get(p, PriceValue))
    ensures var q := WithPrices(p, root);
      Keeps(p, q, UnitsSold) && Keeps(p, q, InventoryAvailable) && Keeps(p, q, GrossProfit) && Keeps(p, q, Cogs) &&
        Keeps(p, q, NetRevenue)
  {
    hide PriceVariance;
    if Get(p, PriceCount) != 0.0 {
      assert Get(p, PriceValue) / Get(p, PriceCount) * Get(p, PriceCount) == Get(p, PriceValue);
    }
  }

  lemma ProfitsMean(p: Payload)
    ensures var q := WithProfits(p);
      p.Keys <= q.Keys && {GrossProfit, UnitsAvailableForSale} <= q.Keys &&
      q[UnitsAvailableForSale] == Get(p, InventoryAvailable) + Get(p, UnitsSold) &&
      q[GrossProfit] == (if GrossProfit in p then p[GrossProfit] else Get(p, NetRevenue) - Get(p, Cogs)) &&
      Keeps(p, q, NetRevenue) && Keeps(p, q, Cogs)
  {
  }

  // ---------------------------------------------------------------- what is reported

  /** The measure that a snapshot at this grain reports under `m`. */
  function Underlying(g: Grain, m: Measure): Measure {
    if !ProductGrain(g) then m else
    match m
    case GrossRevenue => ProductGrossRevenue
    case NetRevenue => ProductNetRevenue
    case DiscountAmount => ProductDiscountAmount
    case SalesTax => ProductSalesTax
    case PurchaseValue => ProductPurchaseValue
    case _ => m
  }

  lemma SubstitutedFlow(p: Payload, g: Grain, m: Measure)
    requires !Derived(m)
    ensures Get(Substituted(p, g), m) == Get(p, Underlying(g, m))
    ensures !PointInTime(m) ==> !PointInTime(Underlying(g, m))
  {
  }

  /** A reported flow is the total, over all rows, of the measure that stands behind it. */
  lemma ReportedFlow(t: AggregateTable, freshness: Option<int>, g: Grain, now: int, root: real -> real, m: Measure)
    requires !Derived(m) && !PointInTime(m)
    ensures Get(Finished(Base(t), Total(PointTable(t), t.Keys), |DatesOf(t.Keys)|, freshness, g, now, root), m)
         == Get(Total(MeasuresOf(t), t.Keys), Underlying(g, m))
  {
    hide Finished, Base, Substituted, Underlying, PointTable, MeasuresOf, DatesOf;
    FinishedKeeps(Base(t), Total(PointTable(t), t.Keys), |DatesOf(t.Keys)|, freshness, g, now, root, m);
    SubstitutedFlow(Base(t), g, m);
    FlowOfBase(t, Underlying(g, m));
  }

  lemma PricesSubstituted(p: Payload, period: Payload, days: real, g: Grain)
    requires days > 0.0
    ensures var q := WithAverages(Substituted(p, g), period, days);
      Get(q, PriceCount) == Get(p, PriceCount) && Get(q, PriceValue) == Get(p, PriceValue) &&
      Get(q, PriceValueSquared) == Get(p, PriceValueSquared)
  {
  }

  lemma PricesOf(p: Payload, root: real -> real)
    requires Get(p, PriceCount) != 0.0
    ensures var q := WithPrices(p, root);
      PriceStddev in q && q[PriceStddev] == root(PriceVariance(p)) &&
      AveragePrice in q && q[AveragePrice] == Get(p, PriceValue) / Get(p, PriceCount)
  {
    hide PriceVariance;
  }

  lemma ProfitsKeepPrices(p: Payload, x: real)
    ensures var q := WithProfits(p)[FreshnessSeconds := x];
      Keeps(p, q, PriceStddev) && Keeps(p, q, AveragePrice)
  {
  }

  lemma SamePrices(p: Payload, q: Payload)
    requires Get(p, PriceCount) == Get(q, PriceCount) != 0.0 && Get(p, PriceValue) == Get(q, PriceValue)
    requires Get(p, PriceValueSquared) == Get(q, PriceValueSquared)
    ensures PriceVariance(p) == PriceVariance(q)
  {
  }

  /** With some price, the reported deviation is the root of the variance, and
      the reported average is the mean price. */
  lemma ReportedDeviation(base: Payload, period: Payload, days: nat, freshness: Option<int>, g: Grain, now: int,
                          root: real -> real)
    requires Get(base, PriceCount) != 0.0
    ensures var r := Finished(base, period, days, freshness, g, now, root);
      PriceStddev in r && r[PriceStddev] == root(PriceVariance(base)) &&
      AveragePrice in r && r[AveragePrice] == Get(base, PriceValue) / Get(base, PriceCount)
  {
    hide Get, Keeps, Substituted, WithAverages, WithPrices, WithProfits, PriceVariance, LagSeconds, Finished, Priced;
    var d := if days > 1 then days as real else 1.0;
    var averaged := WithAverages(Substituted(base, g), period, d);
    FinishedIs(base, period, days, freshness, g, now, root);
    PricesSubstituted(base, period, d, g);
    PricesOf(averaged, root);
    SamePrices(averaged, base);
    ProfitsKeepPrices(WithPrices(averaged, root), LagSeconds(freshness, now));
    KeptPrices(WithPrices(averaged, root),
      WithProfits(WithPrices(averaged, root))[FreshnessSeconds := LagSeconds(freshness, now)]);
  }

  lemma KeptPrices(p: Payload, q: Payload)
    requires PriceStddev in p && AveragePrice in p && Keeps(p, q, PriceStddev) && Keeps(p, q, AveragePrice)
    ensures PriceStddev in q && q[PriceStddev] == p[PriceStddev] && AveragePrice in q &&
      q[AveragePrice] == p[AveragePrice]
  {
  }
}
