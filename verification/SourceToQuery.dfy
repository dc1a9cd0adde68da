/** From the source to an answer: what a query reports after any refreshes that
    cover its days, told without facts, grains or aggregates in between. */
module SourceToQuery {
  import opened Wrappers
  import opened Payloads
  import opened Facts
  import opened Filters
  import opened Rebuild
  import opened ChangingSource
  import opened Snapshot
  import opened Prices
  import opened KpiCache

  /** Every day that the query asks for is among these. */
  ghost predicate Covered(f: Filters, days: set<int>) {
    forall d :: f.fromDay <= d <= f.toDay ==> d in days
  }

  /** The source rows that the query is about. */
  ghost function Asked(c: Candidates, a: Access, f: Filters, g: Grain): (r: set<nat>)
    ensures r <= c.Keys
  {
    set id | id in c && Matches(a, f, KeyOf(g, c[id].fact))
  }

  predicate Wanted(filter: Option<string>, column: Option<string>) {
    filter == None || filter == column
  }

  /** The grain has a column for every dimension that the filters name. */
  predicate Answers(g: Grain, f: Filters) {
    (f.product != None || f.brand != None ==> g == Product) && (f.category != None ==> g == Product || g == Category) &&
    (f.supplier != None ==> g == Supplier) && (f.channel != None ==> g == Channel)
  }

  /** All rows that a request reads are rows of such a grain. */
  lemma SectionsAnswer(f: Filters, i: nat)
    requires GrainOf(f).Ok? && i < |Sections(f)|
    ensures Answers(Sections(f)[i].1, Sections(f)[i].0)
  {
    GrainIsExact(f);
    SectionsAre(f, GrainOf(f).value);
    hide GrainOf, Sections;
  }

  /** Which source rows those are, at a grain that answers the query: the
      visible ones of the days, that agree with each filter in their own column. */
  lemma AskedByColumns(c: Candidates, a: Access, f: Filters, g: Grain, id: nat)
    requires Answers(g, f) && id in c
    ensures var fact := c[id].fact;
      id in Asked(c, a, f, g) <==>
        f.fromDay * 86_400_000_000 <= fact.occurredAt < (f.toDay + 1) * 86_400_000_000 &&
        a.visible(fact.company, fact.branch) &&
        Wanted(f.company, fact.company) && Wanted(f.branch, fact.branch) && Wanted(f.product, fact.product) &&
        Wanted(f.category, fact.category) && Wanted(f.supplier, fact.supplier) && Wanted(f.channel, fact.channel) &&
        (f.brand == None || exists p :: fact.product == Some(p) && p in a.productsOfBrand(f.brand.value)) &&
        (f.group == None || exists company ::
          (fact.company == Some(company) && company in a.companiesOfGroup(f.group.value)))
  {
    hide ColumnsOf;
    KeyHoldsColumns(g, c[id].fact);
    DayBounds(f, c[id].fact);
    hide KeyOf, DayOf;
  }

  lemma DayBounds(f: Filters, fact: Fact)
    ensures f.fromDay * 86_400_000_000 <= fact.occurredAt < (f.toDay + 1) * 86_400_000_000 <==>
      f.fromDay <= DayOf(fact.occurredAt) <= f.toDay
  {
  }

  ghost function SourceNumbers(c: Candidates): (r: map<nat, Payload>)
    ensures r.Keys == c.Keys
  {
    map id | id in c :: Numbers(c[id].fact)
  }

  /** The rows that the query reads once the days are rebuilt. */
  ghost function RebuiltRows(st: Store, c: Candidates, days: set<int>, a: Access, f: Filters,
                             g: Grain): AggregateTable {
    Selected(Rebuilt(st, c, days).aggregates, a, f, g)
  }

  lemma RowRead(st: Store, c: Candidates, days: set<int>, a: Access, f: Filters, g: Grain, key: AggregateKey)
    requires Covered(f, days)
    ensures var rows, groups := RebuiltRows(st, c, days, a, f, g), GroupBy(Present(c, days), g);
      (key in rows <==> key in groups && Matches(a, f, key)) && (key in rows ==> rows[key] == groups[key])
  {
    var facts := Present(c, days);
    if Matches(a, f, key) {
      assert key.day in days;
    }
    hide Rebuilt, Present, GroupBy, Aggregated, GroupRow, Contributors, Matches;
    RebuiltRow(st, c, days, key);
    AggregatedByGrain(facts, key);
    GroupedRow(facts, g, key);
  }

  lemma GroupedRow(facts: FactTable, g: Grain, key: AggregateKey)
    ensures key in GroupBy(facts, g) <==> key.grain == g && Contributors(facts, key) != {}
    ensures key in GroupBy(facts, g) ==> GroupBy(facts, g)[key] == GroupRow(facts, key)
  {
    hide KeyOf, Numbers;
    KeysHaveContributors(facts, g, key);
  }

  /** The rows read are rows of the grain over the source's facts of the days covered. */
  lemma RowsReadAreGroups(st: Store, c: Candidates, days: set<int>, a: Access, f: Filters, g: Grain)
    requires Covered(f, days)
    ensures RowsOfGrain(Present(c, days), g, RebuiltRows(st, c, days, a, f, g))
  {
    hide RebuiltRows, Present, GroupBy;
    var rows, groups := RebuiltRows(st, c, days, a, f, g), GroupBy(Present(c, days), g);
    forall key ensures key in rows ==> key in groups && rows[key] == groups[key] {
      RowRead(st, c, days, a, f, g, key);
    }
  }

  lemma AskedContributes(c: Candidates, days: set<int>, a: Access, f: Filters, g: Grain, id: nat)
    requires Covered(f, days) && id in Asked(c, a, f, g) && SourceNumbers(c)[id] != map[]
    ensures id in Contributors(Present(c, days), KeyOf(g, c[id].fact))
  {
    var key := KeyOf(g, c[id].fact);
    assert key.day in days;
  }

  lemma ContributorIsAsked(c: Candidates, days: set<int>, a: Access, f: Filters, key: AggregateKey, id: nat)
    requires id in Contributors(Present(c, days), key) && Matches(a, f, key)
    ensures id in Asked(c, a, f, key.grain) && SourceNumbers(c)[id] != map[]
  {
    hide Matches;
  }

  /** The facts behind those rows are the source rows asked for that carry a number. */
  lemma BehindIsAsked(st: Store, c: Candidates, days: set<int>, a: Access, f: Filters, g: Grain, id: nat)
    requires Covered(f, days)
    ensures id in FactsBehind(Present(c, days), RebuiltRows(st, c, days, a, f, g))
       <==> id in Asked(c, a, f, g) && SourceNumbers(c)[id] != map[]
  {
    var facts, rows := Present(c, days), RebuiltRows(st, c, days, a, f, g);
    if id in Asked(c, a, f, g) && SourceNumbers(c)[id] != map[] {
      var key := KeyOf(g, c[id].fact);
      AskedContributes(c, days, a, f, g, id);
      hide RebuiltRows, Present, Covered, Contributors, SourceNumbers, KeyOf, GroupBy, Matches;
      RowRead(st, c, days, a, f, g, key);
      GroupedRow(facts, g, key);
    }
    if id in FactsBehind(facts, rows) {
      BehindWasAsked(st, c, days, a, f, g, id);
    }
  }

  lemma BehindWasAsked(st: Store, c: Candidates, days: set<int>, a: Access, f: Filters, g: Grain, id: nat)
    requires Covered(f, days)
    requires id in FactsBehind(Present(c, days), RebuiltRows(st, c, days, a, f, g))
    ensures id in Asked(c, a, f, g) && SourceNumbers(c)[id] != map[]
  {
    hide RebuiltRows, Present, Covered, Contributors, SourceNumbers, KeyOf, GroupBy, Asked, Matches;
    var facts, rows := Present(c, days), RebuiltRows(st, c, days, a, f, g);
    var key :| key in rows && id in Contributors(facts, key);
    RowRead(st, c, days, a, f, g, key);
    GroupedRow(facts, g, key);
    ContributorIsAsked(c, days, a, f, key, id);
  }

  lemma PresentNumbers(c: Candidates, days: set<int>, s: set<nat>)
    requires s <= Present(c, days).Keys
    ensures s <= c.Keys && Total(NumbersTable(Present(c, days)), s) == Total(SourceNumbers(c), s)
  {
    hide Numbers;
    TotalFrame(NumbersTable(Present(c, days)), SourceNumbers(c), s);
  }

  lemma SameTotal(c: Candidates, some: set<nat>, all: set<nat>)
    requires all <= c.Keys && forall id :: id in some <==> id in all && SourceNumbers(c)[id] != map[]
    ensures some <= c.Keys && Total(SourceNumbers(c), some) == Total(SourceNumbers(c), all)
  {
    hide Numbers, SourceNumbers;
    var t := SourceNumbers(c);
    TotalOfEmpty(t, all - some);
    TotalUnion(t, some, all - some);
    assert some + (all - some) == all;
    AddedEmpty(Total(t, some));
  }

  /** The rows read hold the numbers of the source rows asked for. */
  lemma RowsHoldAsked(st: Store, c: Candidates, days: set<int>, a: Access, f: Filters, g: Grain)
    requires Covered(f, days)
    ensures var rows := RebuiltRows(st, c, days, a, f, g);
      Total(MeasuresOf(rows), rows.Keys) == Total(SourceNumbers(c), Asked(c, a, f, g))
  {
    hide *;
    var rows, facts := RebuiltRows(st, c, days, a, f, g), Present(c, days);
    var behind, asked := FactsBehind(facts, rows), Asked(c, a, f, g);
    RowsReadAreGroups(st, c, days, a, f, g);
    RowsHoldTheirFacts(facts, g, rows);
    BehindAreFacts(facts, rows);
    PresentNumbers(c, days, behind);
    forall id: nat ensures id in behind <==> id in asked && SourceNumbers(c)[id] != map[] {
      BehindIsAsked(st, c, days, a, f, g, id);
    }
    SameTotal(c, behind, asked);
  }

  // ---------------------------------------------------------------- after refreshes

  /** Refreshes after which every change of the source has been caught up with. */
  ghost predicate UpToDate(st: Store, steps: seq<Step>) {
    RegularSteps(steps) && Settled(st, steps) && steps != []
  }

  /** The rows that the query reads after the refreshes. */
  ghost function ReadRows(st: Store, steps: seq<Step>, a: Access, f: Filters, g: Grain): AggregateTable {
    Selected(RunSteps(st, steps).aggregates, a, f, g)
  }

  lemma ReadAfterRefreshes(st: Store, steps: seq<Step>, a: Access, f: Filters, g: Grain)
    requires UpToDate(st, steps) && Covered(f, StepDays(steps))
    ensures var rows := ReadRows(st, steps, a, f, g);
      Total(MeasuresOf(rows), rows.Keys) == Total(SourceNumbers(Last(steps)), Asked(Last(steps), a, f, g))
  {
    ChangesAreCaughtUp(st, steps);
    hide RunSteps, Rebuilt, MeasuresOf, SourceNumbers, Asked, StepDays;
    RowsHoldAsked(st, Last(steps), StepDays(steps), a, f, g);
  }

  /** After refreshes that cover the days asked for and have caught up with the
      source, whatever the tables held before, a flow that a query reports is
      the sum, over the source rows that match the query, of the measure that
      stands behind it. */
  lemma FlowIsSourceSum(st: Store, steps: seq<Step>, a: Access, f: Filters, g: Grain,
                        freshness: Option<int>, now: int, root: real -> real, m: Measure)
    requires UpToDate(st, steps) && Covered(f, StepDays(steps)) && !PointInTime(m) && !Derived(m)
    ensures Get(Reported(ReadRows(st, steps, a, f, g), freshness, g, now, root), m)
         == Get(Total(SourceNumbers(Last(steps)), Asked(Last(steps), a, f, g)), Underlying(g, m))
  {
    hide ReadRows, Finished, Base, MeasuresOf, SourceNumbers, Asked, UpToDate, Covered, Get, Underlying;
    ReadAfterRefreshes(st, steps, a, f, g);
    ReportedFlow(ReadRows(st, steps, a, f, g), freshness, g, now, root, m);
  }

  /** And the price deviation it reports is that of the matching prices in the source. */
  lemma DeviationIsSourceDeviation(st: Store, steps: seq<Step>, a: Access, f: Filters, g: Grain,
                                   freshness: Option<int>, now: int, root: real -> real, prices: map<nat, real>)
    requires UpToDate(st, steps) && Covered(f, StepDays(steps))
    requires PriceFacts(SourceNumbers(Last(steps)), prices) && Asked(Last(steps), a, f, g) * prices.Keys != {}
    ensures var r := Reported(ReadRows(st, steps, a, f, g), freshness, g, now, root);
      PriceStddev in r &&
      r[PriceStddev] == root(PopulationVariance(prices, Asked(Last(steps), a, f, g) * prices.Keys))
  {
    hide ReadRows, Finished, Base, MeasuresOf, SourceNumbers, Asked, RegularSteps, Settled, Covered, Get, PriceFacts,
         RawVariance, PriceVariance, PopulationVariance, PointInTime;
    var rows := ReadRows(st, steps, a, f, g);
    PricesAreFlows();
    ReadAfterRefreshes(st, steps, a, f, g);
    FlowOfBase(rows, PriceValue);
    FlowOfBase(rows, PriceCount);
    FlowOfBase(rows, PriceValueSquared);
    VarianceOfFacts(SourceNumbers(Last(steps)), prices, Asked(Last(steps), a, f, g));
    SameMomentsSameVariance(Base(rows), Total(MeasuresOf(rows), rows.Keys));
    ClampIsIdle(Base(rows));
    ReportedDeviation(Base(rows), Total(PointTable(rows), rows.Keys), |DatesOf(rows.Keys)|, freshness, g, now, root);
  }
}
