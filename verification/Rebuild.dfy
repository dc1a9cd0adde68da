/** What a window refresh does to the fact and aggregate tables (`execute_refresh`).

    `Refreshed` follows the statements of the refresh for any window.  For
    windows aligned to midnight it equals `Rebuilt`, which is described by the
    set of days covered; rebuilding composes by union of days, so refreshes
    commute, are idempotent, and any covering sequence is one full rebuild.
 */
module Rebuild {
  import opened Wrappers
  import opened Payloads
  import opened Facts

  /** A row some loader offers.  The loaders select it when its own instant is
      before the window end and its reach is not before the window start; the
      reach is the end of validity for promotions and the instant itself for
      every other fact. */
  datatype Candidate = Candidate(fact: Fact, reach: int)

  type Candidates = map<nat, Candidate>

  datatype Window = Window(start: int, end: int)

  datatype Store = Store(facts: FactTable, aggregates: AggregateTable)

  ghost predicate WellDated(c: Candidates) {
    forall id :: id in c ==> c[id].fact.occurredAt <= c[id].reach
  }

  predicate Aligned(w: Window) {
    w.start % DAY == 0 && w.end % DAY == 0
  }

  // ---------------------------------------------------------------- the statements

  function InWindow(facts: FactTable, w: Window): FactTable {
    map id | id in facts && w.start <= facts[id].occurredAt < w.end :: facts[id]
  }

  function DeleteFacts(facts: FactTable, w: Window): FactTable {
    map id | id in facts && !(w.start <= facts[id].occurredAt < w.end) :: facts[id]
  }

  function Loaded(c: Candidates, w: Window): FactTable {
    map id | id in c && c[id].fact.occurredAt < w.end && w.start <= c[id].reach :: c[id].fact
  }

  function DeleteAggregates(aggregates: AggregateTable, w: Window): AggregateTable {
    map key | key in aggregates && !(DayOf(w.start) <= key.day < DayOf(w.end)) :: aggregates[key]
  }

  /** Delete the window, upsert the loaders' rows, delete the days, upsert the grains. */
  function Refreshed(st: Store, c: Candidates, w: Window): Store {
    var facts := DeleteFacts(st.facts, w) + Loaded(c, w);
    Store(facts, DeleteAggregates(st.aggregates, w) + Aggregated(InWindow(facts, w)))
  }

  // ---------------------------------------------------------------- the rebuild of a set of days

  ghost predicate Touches(x: Candidate, days: set<int>) {
    exists d :: d in days && DayOf(x.fact.occurredAt) <= d <= DayOf(x.reach)
  }

  /** The loaders' facts dated on the given days. */
  ghost function Present(c: Candidates, days: set<int>): FactTable {
    map id | id in c && DayOf(c[id].fact.occurredAt) in days :: c[id].fact
  }

  ghost function RebuiltFacts(facts: FactTable, c: Candidates, days: set<int>): FactTable {
    (map id | id in facts && DayOf(facts[id].occurredAt) !in days :: facts[id]) +
    (map id | id in c && Touches(c[id], days) :: c[id].fact)
  }

  ghost function OtherDays(aggregates: AggregateTable, days: set<int>): AggregateTable {
    map key | key in aggregates && key.day !in days :: aggregates[key]
  }

  ghost function Rebuilt(st: Store, c: Candidates, days: set<int>): Store {
    Store(RebuiltFacts(st.facts, c, days), OtherDays(st.aggregates, days) + Aggregated(Present(c, days)))
  }

  predicate Covers(w: Window, day: int) {
    DayOf(w.start) <= day < DayOf(w.end)
  }

  /** The days a window covers. */
  ghost function Days(w: Window): set<int> {
    set d | DayOf(w.start) <= d < DayOf(w.end) && Covers(w, d)
  }

  // ---------------------------------------------------------------- locality of the grains

  lemma GroupRowFrame(f: FactTable, f': FactTable, key: AggregateKey)
    requires Contributors(f, key) == Contributors(f', key) != {}
    requires forall id :: id in Contributors(f, key) ==> f[id] == f'[id]
    ensures GroupRow(f, key) == GroupRow(f', key)
  {
    hide KeyOf, Numbers;
    TotalFrame(NumbersTable(f), NumbersTable(f'), Contributors(f, key));
  }

  /** A day's rows read only that day's facts. */
  lemma DayIsLocal(f: FactTable, f': FactTable, key: AggregateKey)
    requires forall id :: (id in f && DayOf(f[id].occurredAt) == key.day) <==>
      (id in f' && DayOf(f'[id].occurredAt) == key.day)
    requires forall id :: id in f && DayOf(f[id].occurredAt) == key.day ==> f[id] == f'[id]
    ensures Contributors(f, key) == Contributors(f', key)
    ensures key in Aggregated(f) <==> key in Aggregated(f')
    ensures key in Aggregated(f) ==> Aggregated(f)[key] == Aggregated(f')[key]
  {
    SameContributors(f, f', key);
    hide KeyOf, Numbers, Contributors, GroupRow, Aggregated;
    AggregatedByGrain(f, key);
    AggregatedByGrain(f', key);
    if Contributors(f, key) != {} {
      GroupRowFrame(f, f', key);
    }
  }

  lemma SameContributors(f: FactTable, f': FactTable, key: AggregateKey)
    requires forall id :: (id in f && DayOf(f[id].occurredAt) == key.day) <==>
      (id in f' && DayOf(f'[id].occurredAt) == key.day)
    requires forall id :: id in f && DayOf(f[id].occurredAt) == key.day ==> f[id] == f'[id]
    ensures Contributors(f, key) == Contributors(f', key)
    ensures forall id :: id in Contributors(f, key) ==> f[id] == f'[id]
  {
    hide Numbers;
  }

  // ---------------------------------------------------------------- aligned refreshes rebuild their days

  lemma AlignedDay(w: Window, at: int)
    requires Aligned(w)
    ensures w.start <= at < w.end <==> Covers(w, DayOf(at))
  {
  }

  lemma MidnightOrder(midnight: int, at: int)
    requires midnight % DAY == 0
    ensures midnight <= at <==> DayOf(midnight) <= DayOf(at)
  {
  }

  lemma DaysInOrder(a: int, b: int)
    requires a <= b
    ensures DayOf(a) <= DayOf(b)
  {
  }

  lemma AlignedReach(w: Window, x: Candidate)
    requires Aligned(w) && x.fact.occurredAt <= x.reach
    ensures (x.fact.occurredAt < w.end && w.start <= x.reach && w.start < w.end) <==> Touches(x, Days(w))
  {
    var lo, hi := DayOf(x.fact.occurredAt), DayOf(x.reach);
    MidnightOrder(w.start, x.reach);
    MidnightOrder(w.end, x.fact.occurredAt);
    MidnightOrder(w.end, w.start);
    DaysInOrder(x.fact.occurredAt, x.reach);
    hide DayOf, Aligned;
    if x.fact.occurredAt < w.end && w.start <= x.reach && w.start < w.end {
      var d := if lo < DayOf(w.start) then DayOf(w.start) else lo;
      assert d in Days(w) && lo <= d <= hi;
    }
  }

  lemma RefreshedFact(st: Store, c: Candidates, w: Window, id: nat)
    requires Aligned(w) && WellDated(c) && w.start < w.end
    ensures id in Refreshed(st, c, w).facts <==> id in RebuiltFacts(st.facts, c, Days(w))
    ensures id in Refreshed(st, c, w).facts ==> Refreshed(st, c, w).facts[id] == RebuiltFacts(st.facts, c, Days(w))[id]
  {
    hide Aggregated, Touches, DayOf;
    if id in st.facts {
      AlignedDay(w, st.facts[id].occurredAt);
    }
    if id in c {
      AlignedReach(w, c[id]);
    }
  }

  lemma RefreshedFacts(st: Store, c: Candidates, w: Window)
    requires Aligned(w) && WellDated(c) && w.start < w.end
    ensures Refreshed(st, c, w).facts == RebuiltFacts(st.facts, c, Days(w))
  {
    hide Refreshed, RebuiltFacts;
    forall id: nat
      ensures id in Refreshed(st, c, w).facts <==> id in RebuiltFacts(st.facts, c, Days(w))
      ensures id in Refreshed(st, c, w).facts ==>
        Refreshed(st, c, w).facts[id] == RebuiltFacts(st.facts, c, Days(w))[id]
    {
      RefreshedFact(st, c, w, id);
    }
  }

  /** In the window, the facts are exactly what the loaders give. */
  lemma LoadedInWindow(st: Store, c: Candidates, w: Window)
    requires Aligned(w) && WellDated(c) && w.start < w.end
    ensures InWindow(Refreshed(st, c, w).facts, w) == Present(c, Days(w))
  {
    hide Refreshed, Present, InWindow;
    var one, two := InWindow(Refreshed(st, c, w).facts, w), Present(c, Days(w));
    forall id: nat ensures (id in one <==> id in two) && (id in one ==> one[id] == two[id]) {
      LoadedFactInWindow(st, c, w, id);
    }
  }

  lemma LoadedFactInWindow(st: Store, c: Candidates, w: Window, id: nat)
    requires Aligned(w) && WellDated(c) && w.start < w.end
    ensures var one, two := InWindow(Refreshed(st, c, w).facts, w), Present(c, Days(w));
      (id in one <==> id in two) && (id in one ==> one[id] == two[id])
  {
    hide Aggregated, DayOf;
    if id in c {
      AlignedDay(w, c[id].fact.occurredAt);
    }
  }

  /** An aligned refresh leaves exactly the rebuild of its days. */
  lemma AlignedRefreshRebuilds(st: Store, c: Candidates, w: Window)
    requires Aligned(w) && WellDated(c) && w.start < w.end
    ensures Refreshed(st, c, w) == Rebuilt(st, c, Days(w))
  {
    hide Aggregated, RebuiltFacts, Present, InWindow, Loaded, DeleteFacts;
    RefreshedFacts(st, c, w);
    LoadedInWindow(st, c, w);
  }

  // ---------------------------------------------------------------- rebuilding composes

  lemma TouchesUnion(x: Candidate, a: set<int>, b: set<int>)
    ensures Touches(x, a + b) <==> Touches(x, a) || Touches(x, b)
  {
  }

  lemma RebuiltFact(facts: FactTable, c: Candidates, a: set<int>, b: set<int>, id: nat)
    requires WellDated(c)
    ensures var one, two := RebuiltFacts(RebuiltFacts(facts, c, a), c, b), RebuiltFacts(facts, c, a + b);
      (id in one <==> id in two) && (id in one ==> one[id] == two[id])
  {
    if id in c {
      TouchesUnion(c[id], a, b);
      if DayOf(c[id].fact.occurredAt) in b {
        assert Touches(c[id], b) by { assert DayOf(c[id].fact.occurredAt) <= DayOf(c[id].reach); }
      }
    }
    hide Touches, DayOf;
  }

  lemma RebuiltFactsCompose(facts: FactTable, c: Candidates, a: set<int>, b: set<int>)
    requires WellDated(c)
    ensures RebuiltFacts(RebuiltFacts(facts, c, a), c, b) == RebuiltFacts(facts, c, a + b)
  {
    hide RebuiltFacts;
    var one, two := RebuiltFacts(RebuiltFacts(facts, c, a), c, b), RebuiltFacts(facts, c, a + b);
    forall id: nat ensures (id in one <==> id in two) && (id in one ==> one[id] == two[id]) {
      RebuiltFact(facts, c, a, b, id);
    }
  }

  lemma PresentRows(c: Candidates, a: set<int>, b: set<int>, key: AggregateKey)
    requires key.day in a
    ensures key in Aggregated(Present(c, a)) <==> key in Aggregated(Present(c, a + b))
    ensures key in Aggregated(Present(c, a)) ==> Aggregated(Present(c, a))[key] == Aggregated(Present(c, a + b))[key]
  {
    hide Aggregated;
    DayIsLocal(Present(c, a), Present(c, a + b), key);
  }

  lemma AggregatedDays(facts: FactTable, key: AggregateKey)
    requires key in Aggregated(facts)
    ensures exists id :: id in facts && DayOf(facts[id].occurredAt) == key.day
  {
    hide Aggregated, KeyOf, Numbers;
    AggregatedByGrain(facts, key);
    var id :| id in Contributors(facts, key);
  }

  /** Rebuilding some days and then others rebuilds their union. */
  lemma RebuildCompose(st: Store, c: Candidates, a: set<int>, b: set<int>)
    requires WellDated(c)
    ensures Rebuilt(Rebuilt(st, c, a), c, b) == Rebuilt(st, c, a + b)
  {
    RebuiltFactsCompose(st.facts, c, a, b);
    hide Aggregated, RebuiltFacts;
    var one := Rebuilt(Rebuilt(st, c, a), c, b).aggregates;
    var two := Rebuilt(st, c, a + b).aggregates;
    forall key: AggregateKey
      ensures key in one <==> key in two
      ensures key in one ==> one[key] == two[key]
    {
      RebuildComposeRow(st, c, a, b, key);
    }
  }

  lemma RebuildComposeRow(st: Store, c: Candidates, a: set<int>, b: set<int>, key: AggregateKey)
    ensures var one, two := Rebuilt(Rebuilt(st, c, a), c, b).aggregates, Rebuilt(st, c, a + b).aggregates;
      (key in one <==> key in two) && (key in one ==> one[key] == two[key])
  {
    hide Aggregated, RebuiltFacts, Present;
    RebuiltRow(Rebuilt(st, c, a), c, b, key);
    RebuiltRow(st, c, a, key);
    RebuiltRow(st, c, a + b, key);
    if key.day in b {
      PresentRows(c, b, a, key);
      assert a + b == b + a;
    } else if key.day in a {
      PresentRows(c, a, b, key);
    }
  }

  lemma RebuiltRow(st: Store, c: Candidates, days: set<int>, key: AggregateKey)
    ensures key.day in days ==> (key in Rebuilt(st, c, days).aggregates <==> key in Aggregated(Present(c, days)))
    ensures key.day in days && key in Rebuilt(st, c, days).aggregates ==>
      Rebuilt(st, c, days).aggregates[key] == Aggregated(Present(c, days))[key]
    ensures key.day !in days ==> (key in Rebuilt(st, c, days).aggregates <==> key in st.aggregates)
    ensures key.day !in days && key in st.aggregates ==> Rebuilt(st, c, days).aggregates[key] == st.aggregates[key]
  {
    hide Aggregated, RebuiltFacts;
    if key in Aggregated(Present(c, days)) {
      AggregatedDays(Present(c, days), key);
    }
  }

  // ---------------------------------------------------------------- runs of refreshes

  /** One refresh after the other, over a source that does not change. */
  ghost function Run(st: Store, c: Candidates, ws: seq<Window>): Store {
    if ws == [] then st else Refreshed(Run(st, c, ws[..|ws| - 1]), c, ws[|ws| - 1])
  }

  ghost predicate Regular(ws: seq<Window>) {
    forall i :: 0 <= i < |ws| ==> Aligned(ws[i]) && ws[i].start < ws[i].end
  }

  ghost function AllDays(ws: seq<Window>): set<int> {
    if ws == [] then {} else AllDays(ws[..|ws| - 1]) + Days(ws[|ws| - 1])
  }

  /** A run leaves the rebuild of the union of its windows' days. */
  lemma {:induction false} RunRebuilds(st: Store, c: Candidates, ws: seq<Window>)
    requires Regular(ws) && WellDated(c)
    ensures ws != [] ==> Run(st, c, ws) == Rebuilt(st, c, AllDays(ws))
  {
    if ws == [] {
    } else {
      var before, w := ws[..|ws| - 1], ws[|ws| - 1];
      hide Rebuilt, Refreshed, Days;
      AlignedRefreshRebuilds(Run(st, c, before), c, w);
      if before == [] {
        assert AllDays(ws) == Days(w);
      } else {
        RunRebuilds(st, c, before);
        RebuildCompose(st, c, AllDays(before), Days(w));
      }
    }
  }

  /** Two runs that cover the same days end alike: in particular refreshes
      commute, repeating one changes nothing, and any sequence of windows that
      covers a span is as good as one refresh of the whole span. */
  lemma SameDaysSameStore(st: Store, c: Candidates, ws: seq<Window>, ws': seq<Window>)
    requires Regular(ws) && Regular(ws') && WellDated(c)
    requires ws != [] && ws' != [] && AllDays(ws) == AllDays(ws')
    ensures Run(st, c, ws) == Run(st, c, ws')
  {
    RunRebuilds(st, c, ws);
    RunRebuilds(st, c, ws');
  }

  lemma RefreshesCommute(st: Store, c: Candidates, v: Window, w: Window)
    requires Regular([v, w]) && WellDated(c)
    ensures Refreshed(Refreshed(st, c, v), c, w) == Refreshed(Refreshed(st, c, w), c, v)
    ensures Refreshed(Refreshed(st, c, v), c, v) == Refreshed(st, c, v)
  {
    assert [v, w][0] == v && [v, w][1] == w;
    hide Refreshed, Rebuilt;
    AlignedRefreshRebuilds(st, c, v);
    AlignedRefreshRebuilds(st, c, w);
    AlignedRefreshRebuilds(Refreshed(st, c, v), c, w);
    AlignedRefreshRebuilds(Refreshed(st, c, w), c, v);
    AlignedRefreshRebuilds(Refreshed(st, c, v), c, v);
    RebuildCompose(st, c, Days(v), Days(w));
    RebuildCompose(st, c, Days(w), Days(v));
    RebuildCompose(st, c, Days(v), Days(v));
    assert Days(v) + Days(w) == Days(w) + Days(v) && Days(v) + Days(v) == Days(v);
  }

  /** Windows that between them cover exactly the days of one large window do
      the work of that window. */
  lemma CoveringRunIsFullRebuild(st: Store, c: Candidates, ws: seq<Window>, full: Window)
    requires Regular(ws + [full]) && WellDated(c) && ws != []
    requires AllDays(ws) == Days(full)
    ensures Run(st, c, ws) == Refreshed(st, c, full)
  {
    assert (ws + [full])[|ws|] == full;
    assert forall i :: 0 <= i < |ws| ==> ws[i] == (ws + [full])[i];
    RunRebuilds(st, c, ws);
    AlignedRefreshRebuilds(st, c, full);
  }
}
