/** The warehouse tables and the refresh that updates them in one transaction (`execute_refresh`). */
module Warehouse {
  import opened Wrappers
  import opened Facts
  import opened Rebuild
  import Dimensions
  import Catalog
  import opened Lineage
  import opened Sums

  /** A loader's rows depend on the source and on the instant of loading. */
  type Loader = int -> Candidates

  datatype Failure = DimensionRefused(refusal: Dimensions.Refusal) | DefinitionChanged(mismatch: Catalog.Mismatch)

  /** All loaders' rows at one instant, later loaders taking precedence. */
  function Merged(loaders: seq<Loader>, now: int): Candidates {
    if loaders == [] then map[] else Merged(loaders[..|loaders| - 1], now) + loaders[|loaders| - 1](now)
  }

  /** No two loaders produce the same fact identifier. */
  ghost predicate DisjointLoaders(loaders: seq<Loader>, now: int) {
    forall i :: 0 <= i < |loaders| ==> loaders[i](now).Keys !! Merged(loaders[..i], now).Keys
  }

  function GrainsBefore(t: AggregateTable, i: nat): AggregateTable
    requires i <= |GRAINS|
  {
    map key | key in t && key.grain in GRAINS[..i] :: t[key]
  }

  function Watermark(facts: FactTable): Option<int> {
    if facts.Keys == {} then None else Some(LatestUpdate(facts, facts.Keys))
  }

  /** The watermark is the latest update in the source among the facts. */
  lemma WatermarkIsLatest(facts: FactTable)
    ensures Watermark(facts) == None <==> facts == map[]
    ensures Watermark(facts).Some? ==>
      (exists id :: id in facts && facts[id].sourceUpdatedAt == Watermark(facts).value) &&
      forall id :: id in facts ==> facts[id].sourceUpdatedAt <= Watermark(facts).value
  {
  }

  /** What the job is told of its refresh: rows per loader, aggregate rows,
      inserted dimension rows, catalogue entries, and the version reached. */
  datatype JobRecord = JobRecord(facts: seq<nat>, aggregates: nat, dimensions: nat, catalog: nat, version: nat,
                                 watermark: Option<int>)

  function SumOf(counts: seq<nat>): nat {
    if counts == [] then 0 else SumOf(counts[..|counts| - 1]) + counts[|counts| - 1]
  }

  /** The counts of this refresh. */
  ghost predicate Counted(job: JobRecord, loaders: seq<Loader>, dimensions: Dimensions.Table, source: Dimensions.Source,
                          defs: seq<Catalog.Definition>, facts: FactTable, w: Window, now: int)
  {
    |job.facts| == |loaders| &&
    (forall i :: 0 <= i < |loaders| ==> job.facts[i] == |Loaded(loaders[i](now), w).Keys|) &&
    SumOf(job.facts) == |Loaded(Merged(loaders, now), w).Keys| &&
    job.aggregates == |Aggregated(InWindow(facts, w)).Keys| &&
    job.dimensions == |Dimensions.Missing(Dimensions.Closed(dimensions, source, now), source)| &&
    job.catalog == |defs| && job.watermark == Watermark(facts)
  }

  lemma CountsAre(job: JobRecord, loaders: seq<Loader>, dimensions: Dimensions.Table, source: Dimensions.Source,
                  defs: seq<Catalog.Definition>, facts: FactTable, w: Window, now: int)
    requires Counted(job, loaders, dimensions, source, defs, facts, w, now)
    ensures |job.facts| == |loaders| && job.catalog == |defs|
    ensures forall i :: 0 <= i < |loaders| ==> job.facts[i] == |Loaded(loaders[i](now), w).Keys|
    ensures job.aggregates == |Aggregated(InWindow(facts, w)).Keys|
  {
    hide Merged, Loaded, Aggregated, Watermark, SumOf, Dimensions.Missing, Dimensions.Closed;
  }

  class Warehouse {
    var facts: FactTable
    var aggregates: AggregateTable
    var dimensions: Dimensions.Table
    var catalog: Catalog.Rows
    var lineage: LineageTable
    var version: nat
    var watermark: Option<int>
    var freshnessAt: Option<int>
    var quality: Option<real>

    ghost function Tables(): Store
      reads this
    {
      Store(facts, aggregates)
    }

    constructor ()
      ensures facts == map[] && aggregates == map[] && dimensions == map[] && catalog == map[] && lineage == map[]
      ensures version == 0 && watermark == None && freshnessAt == None && quality == None
    {
      facts, aggregates, dimensions, catalog, lineage := map[], map[], map[], map[], map[];
      version, watermark, freshnessAt, quality := 0, None, None, None;
    }

    /** Refresh one window.  Either everything is updated and the data version
        rises by one, or a failure leaves the warehouse as it was. */
    method ExecuteRefresh(loaders: seq<Loader>, source: Dimensions.Source, defs: seq<Catalog.Definition>, w: Window,
                          now: int, job: nat)
      returns (r: Result<JobRecord, Failure>)
      requires Catalog.DistinctCodes(defs)
      requires DisjointLoaders(loaders, now)
      modifies this
      ensures r.Ok? ==> r.value.version == version == old(version) + 1
      ensures r.Ok? ==> Tables() == Refreshed(old(Tables()), Merged(loaders, now), w)
      ensures r.Ok? ==> lineage == Traced(old(lineage), old(facts), facts, w, job)
      ensures r.Ok? ==> watermark == Watermark(facts) && freshnessAt == Some(now) && quality == QualityOf(facts)
      ensures r.Ok? ==> r.value.watermark == watermark && (watermark == None <==> facts == map[])
      ensures r.Ok? && watermark.Some? ==>
        (exists id :: id in facts && facts[id].sourceUpdatedAt == watermark.value) &&
        forall id :: id in facts ==> facts[id].sourceUpdatedAt <= watermark.value
      ensures r.Ok? && quality.Some? ==>
        quality.value * |Scores(facts).Keys| as real == Sum(Scores(facts), Scores(facts).Keys)
      ensures r.Ok? ==> (quality == None <==> forall id :: id in facts ==> facts[id].score == None)
      ensures r.Ok? ==>
        Dimensions.Sync(old(dimensions), source, now) ==
        Result<Dimensions.Table, Dimensions.Refusal>.Ok(dimensions)
      ensures r.Ok? ==> Catalog.Synced(old(catalog), defs, now, catalog)
      ensures r.Ok? ==> Counted(r.value, loaders, old(dimensions), source, defs, facts, w, now)
      ensures r.Ok? ==> |r.value.facts| == |loaders| && r.value.catalog == |defs|
      ensures r.Ok? ==> forall i :: 0 <= i < |loaders| ==> r.value.facts[i] == |Loaded(loaders[i](now), w).Keys|
      ensures r.Ok? ==> r.value.aggregates == |Aggregated(InWindow(facts, w)).Keys|
      ensures r.Err? ==> unchanged(this)
      ensures r.Err? <==>
        Dimensions.Sync(old(dimensions), source, now).Err? || SomeChanged(old(catalog), defs)
    {
      hide Traced, QualityOf, Watermark, Dimensions.Sync, Catalog.Synced, SomeChanged, Catalog.DistinctCodes,
           DisjointLoaders, Merged, Refreshed, Counted, Loaded, Aggregated, InWindow, Scores, Sum;
      var prepared := Prepare(facts, aggregates, dimensions, catalog, lineage, version, loaders, source, defs, w, now,
                              job);
      if prepared.Err? {
        return Err(prepared.error);
      }
      var p := prepared.value;
      WatermarkIsLatest(p.facts);
      CountsAre(p.record, loaders, dimensions, source, defs, p.facts, w, now);
      QualityIsAverage(p.facts);
      facts, aggregates, dimensions, catalog, lineage := p.facts, p.aggregates, p.dimensions, p.catalog, p.lineage;
      watermark, freshnessAt, quality := p.record.watermark, Some(now), p.quality;
      version := p.record.version;
      return Ok(p.record);
    }
  }

  /** Everything that the transaction is about to write. */
  datatype Prepared = Prepared(facts: FactTable, aggregates: AggregateTable, dimensions: Dimensions.Table,
                               catalog: Catalog.Rows, lineage: LineageTable, quality: Option<real>, record: JobRecord)

  /** The statements of the refresh, up to the point where they are committed. */
  method Prepare(facts: FactTable, aggregates: AggregateTable, dimensions: Dimensions.Table, catalog: Catalog.Rows,
                 lineage: LineageTable, version: nat, loaders: seq<Loader>, source: Dimensions.Source,
                 defs: seq<Catalog.Definition>, w: Window, now: int, job: nat)
    returns (r: Result<Prepared, Failure>)
    requires Catalog.DistinctCodes(defs) && DisjointLoaders(loaders, now)
    ensures r.Err? <==> Dimensions.Sync(dimensions, source, now).Err? || SomeChanged(catalog, defs)
    ensures r.Ok? ==>
      Store(r.value.facts, r.value.aggregates) == Refreshed(Store(facts, aggregates), Merged(loaders, now), w)
    ensures r.Ok? ==> Dimensions.Sync(dimensions, source, now) == Ok(r.value.dimensions)
    ensures r.Ok? ==> Catalog.Synced(catalog, defs, now, r.value.catalog)
    ensures r.Ok? ==> r.value.lineage == Traced(lineage, facts, r.value.facts, w, job)
    ensures r.Ok? ==> r.value.quality == QualityOf(r.value.facts)
    ensures r.Ok? ==> r.value.record.version == version + 1 && r.value.record.watermark == Watermark(r.value.facts)
    ensures r.Ok? ==> Counted(r.value.record, loaders, dimensions, source, defs, r.value.facts, w, now)
  {
    hide *;
    var synced := Dimensions.Sync(dimensions, source, now);
    if synced.Err? {
      return Err(DimensionRefused(synced.error));
    }
    var loaded, counts := LoadFacts(facts, loaders, w, now);
    var rows, written := Reaggregate(aggregates, loaded, w);
    RefreshedIs(Store(facts, aggregates), Merged(loaders, now), w);
    var registered := Register(catalog, defs, now);
    if registered.Err? {
      return Err(DefinitionChanged(registered.error));
    }
    var quality := Quality(loaded);
    var inserted := |Dimensions.Missing(Dimensions.Closed(dimensions, source, now), source)|;
    var record := JobRecord(counts, written, inserted, |defs|, version + 1, Watermark(loaded));
    CountsHold(record, loaders, dimensions, source, defs, loaded, w, now);
    var traced := Traced(lineage, facts, loaded, w, job);
    return Ok(Prepared(loaded, rows, synced.value, registered.value, traced, quality, record));
  }

  /** Some definition differs from its registered version. */
  ghost predicate SomeChanged(rows: Catalog.Rows, defs: seq<Catalog.Definition>) {
    exists d :: d in defs && Catalog.Changed(rows, d)
  }

  method Register(rows: Catalog.Rows, defs: seq<Catalog.Definition>, now: int)
    returns (r: Result<Catalog.Rows, Catalog.Mismatch>)
    requires Catalog.DistinctCodes(defs)
    ensures r.Err? <==> SomeChanged(rows, defs)
    ensures r.Ok? ==> Catalog.Synced(rows, defs, now, r.value)
  {
    hide Catalog.Synced, Catalog.DistinctCodes, Catalog.Changed;
    r := Catalog.SyncCatalog(rows, defs, now);
  }

  lemma CountsHold(record: JobRecord, loaders: seq<Loader>, dimensions: Dimensions.Table, source: Dimensions.Source,
                   defs: seq<Catalog.Definition>, facts: FactTable, w: Window, now: int)
    requires CountsSoFar(record.facts, loaders, |loaders|, w, now)
    requires record.aggregates == |Aggregated(InWindow(facts, w)).Keys|
    requires record.dimensions == |Dimensions.Missing(Dimensions.Closed(dimensions, source, now), source)|
    requires record.catalog == |defs| && record.watermark == Watermark(facts)
    ensures Counted(record, loaders, dimensions, source, defs, facts, w, now)
  {
    hide Merged, Loaded, Aggregated, InWindow, Watermark, SumOf, Dimensions.Missing, Dimensions.Closed;
    assert loaders[..|loaders|] == loaders;
  }

  lemma RefreshedIs(st: Store, c: Candidates, w: Window)
    ensures var facts := DeleteFacts(st.facts, w) + Loaded(c, w);
      Refreshed(st, c, w) == Store(facts, DeleteAggregates(st.aggregates, w) + Aggregated(InWindow(facts, w)))
  {
  }

  /** The counts of the first `i` loaders. */
  ghost predicate CountsSoFar(counts: seq<nat>, loaders: seq<Loader>, i: nat, w: Window, now: int)
    requires i <= |loaders|
  {
    |counts| == i && (forall j :: 0 <= j < i ==> counts[j] == |Loaded(loaders[j](now), w).Keys|) &&
    SumOf(counts) == |Loaded(Merged(loaders[..i], now), w).Keys|
  }

  /** Delete the window's facts and upsert the rows of every loader, counting them. */
  method LoadFacts(before: FactTable, loaders: seq<Loader>, w: Window, now: int)
    returns (facts: FactTable, counts: seq<nat>)
    requires DisjointLoaders(loaders, now)
    ensures facts == DeleteFacts(before, w) + Loaded(Merged(loaders, now), w)
    ensures CountsSoFar(counts, loaders, |loaders|, w, now)
  {
    hide *;
    facts, counts := DeleteFacts(before, w), [];
    NothingLoaded(loaders, now, w);
    AddNone(facts);
    for i := 0 to |loaders|
      invariant facts == DeleteFacts(before, w) + Loaded(Merged(loaders[..i], now), w)
      invariant CountsSoFar(counts, loaders, i, w, now)
    {
      var rows := Loaded(loaders[i](now), w);
      facts := facts + rows;
      LoadedMore(loaders, i, now, w);
      MergeAssociative(DeleteFacts(before, w), Loaded(Merged(loaders[..i], now), w), rows);
      CountsNext(counts, loaders, i, w, now);
      counts := counts + [|rows.Keys|];
    }
    assert loaders[..|loaders|] == loaders;
  }

  lemma CountsNext(counts: seq<nat>, loaders: seq<Loader>, i: nat, w: Window, now: int)
    requires DisjointLoaders(loaders, now) && i < |loaders| && CountsSoFar(counts, loaders, i, w, now)
    ensures CountsSoFar(counts + [|Loaded(loaders[i](now), w).Keys|], loaders, i + 1, w, now)
  {
    hide Merged, Loaded, SumOf, DisjointLoaders;
    LoadedMore(loaders, i, now, w);
    CountedMore(counts, |Loaded(loaders[i](now), w).Keys|);
    KeysAdd(Loaded(Merged(loaders[..i], now), w), Loaded(loaders[i](now), w));
  }

  lemma CountedMore(counts: seq<nat>, n: nat)
    ensures SumOf(counts + [n]) == SumOf(counts) + n
  {
    assert (counts + [n])[..|counts|] == counts;
  }

  lemma KeysAdd<K, V>(a: map<K, V>, b: map<K, V>)
    requires a.Keys !! b.Keys
    ensures |(a + b).Keys| == |a.Keys| + |b.Keys|
  {
    assert (a + b).Keys == a.Keys + b.Keys;
  }

  lemma NothingLoaded(loaders: seq<Loader>, now: int, w: Window)
    ensures Loaded(Merged(loaders[..0], now), w) == map[] && CountsSoFar([], loaders, 0, w, now)
  {
  }

  lemma AddNone<K, V>(a: map<K, V>)
    ensures a + map[] == a
  {
  }

  lemma MergeAssociative<K, V>(a: map<K, V>, b: map<K, V>, c: map<K, V>)
    ensures a + b + c == a + (b + c)
  {
  }

  lemma LoadedMore(loaders: seq<Loader>, i: nat, now: int, w: Window)
    requires DisjointLoaders(loaders, now) && i < |loaders|
    ensures Loaded(Merged(loaders[..i + 1], now), w) ==
      Loaded(Merged(loaders[..i], now), w) + Loaded(loaders[i](now), w)
    ensures Loaded(Merged(loaders[..i], now), w).Keys !! Loaded(loaders[i](now), w).Keys
  {
    assert loaders[..i + 1][..i] == loaders[..i];
    LoadedMerge(Merged(loaders[..i], now), loaders[i](now), w);
  }

  lemma LoadedMerge(a: Candidates, b: Candidates, w: Window)
    requires b.Keys !! a.Keys
    ensures Loaded(a + b, w) == Loaded(a, w) + Loaded(b, w)
  {
  }

  /** Delete the window's days and upsert the rows of every grain, counting them. */
  method Reaggregate(before: AggregateTable, facts: FactTable, w: Window)
    returns (aggregates: AggregateTable, written: nat)
    ensures aggregates == DeleteAggregates(before, w) + Aggregated(InWindow(facts, w))
    ensures written == |Aggregated(InWindow(facts, w)).Keys|
  {
    hide *;
    aggregates, written := DeleteAggregates(before, w), 0;
    var within := InWindow(facts, w);
    ghost var base, all := aggregates, Aggregated(within);
    NoGrain(all);
    AllGrains(within);
    AddNone(base);
    for i := 0 to |GRAINS|
      invariant aggregates == base + GrainsBefore(all, i)
      invariant written == |GrainsBefore(all, i).Keys|
    {
      var rows := GroupBy(within, GRAINS[i]);
      aggregates := aggregates + rows;
      NextGrain(within, i);
      MergeAssociative(base, GrainsBefore(all, i), rows);
      OtherGrain(within, i);
      KeysAdd(GrainsBefore(all, i), rows);
      written := written + |rows.Keys|;
    }
  }

  lemma OtherGrain(facts: FactTable, i: nat)
    requires i < |GRAINS|
    ensures GrainsBefore(Aggregated(facts), i).Keys !! GroupBy(facts, GRAINS[i]).Keys
  {
    hide Aggregated, GroupBy;
    forall key | key in GrainsBefore(Aggregated(facts), i) ensures key !in GroupBy(facts, GRAINS[i]) {
      GrainRow(facts, i, key);
      GrainsDiffer(i);
    }
  }

  lemma GrainsDiffer(i: nat)
    requires i < |GRAINS|
    ensures GRAINS[i] !in GRAINS[..i]
  {
  }

  lemma NoGrain(t: AggregateTable)
    ensures GrainsBefore(t, 0) == map[]
  {
  }

  lemma NextGrain(facts: FactTable, i: nat)
    requires i < |GRAINS|
    ensures GrainsBefore(Aggregated(facts), i + 1) == GrainsBefore(Aggregated(facts), i) + GroupBy(facts, GRAINS[i])
  {
    hide Aggregated, GroupBy;
    var one, two := GrainsBefore(Aggregated(facts), i + 1), GrainsBefore(Aggregated(facts), i) +
      GroupBy(facts, GRAINS[i]);
    forall key: AggregateKey ensures (key in one <==> key in two) && (key in one ==> one[key] == two[key]) {
      GrainRow(facts, i, key);
      assert key.grain in GRAINS[..i + 1] <==> key.grain in GRAINS[..i] || key.grain == GRAINS[i];
    }
  }

  lemma GrainRow(facts: FactTable, i: nat, key: AggregateKey)
    requires i < |GRAINS|
    ensures key in GroupBy(facts, GRAINS[i]) <==> key in Aggregated(facts) && key.grain == GRAINS[i]
    ensures key in GroupBy(facts, GRAINS[i]) ==> GroupBy(facts, GRAINS[i])[key] == Aggregated(facts)[key]
  {
    AggregatedByGrain(facts, key);
    KeysHaveContributors(facts, GRAINS[i], key);
  }

  lemma AllGrains(facts: FactTable)
    ensures GrainsBefore(Aggregated(facts), |GRAINS|) == Aggregated(facts)
  {
    assert GRAINS[..|GRAINS|] == GRAINS;
    forall g: Grain ensures g in GRAINS {
      EveryGrain(g);
    }
  }
}
