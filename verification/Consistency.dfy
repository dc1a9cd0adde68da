/** Which refreshes keep the aggregate rows of a day the group sums of its facts.

    Windows bounded by midnight do, exactly; rows loaded for days that no
    refresh covers are the other exception, again exactly.
 */
module Consistency {
  import opened Wrappers
  import opened Payloads
  import opened Facts
  import opened Rebuild
  import opened ChangingSource

  /** The aggregate rows of a day are the group sums of all facts of that day. */
  ghost predicate ConsistentOn(st: Store, day: int) {
    forall key: AggregateKey :: key.day == day ==> Agrees(st, key)
  }

  ghost predicate Agrees(st: Store, key: AggregateKey) {
    (key in st.aggregates <==> key in Aggregated(st.facts)) &&
    (key in st.aggregates ==> st.aggregates[key] == Aggregated(st.facts)[key])
  }

  /** Days some of whose rows a refresh deletes or writes. */
  predicate Touched(w: Window, day: int) {
    DayOf(w.start) <= day && day * DAY < w.end
  }

  predicate Whole(w: Window, day: int) {
    w.start <= day * DAY && (day + 1) * DAY <= w.end
  }

  /** Rows of untouched days stay as they are. */
  lemma UntouchedDays(st: Store, c: Candidates, w: Window, key: AggregateKey)
    requires !Touched(w, key.day) && w.start < w.end
    ensures key in Refreshed(st, c, w).aggregates <==> key in st.aggregates
    ensures key in st.aggregates ==> Refreshed(st, c, w).aggregates[key] == st.aggregates[key]
  {
    hide Aggregated;
    var facts := Refreshed(st, c, w).facts;
    if key in Aggregated(InWindow(facts, w)) {
      AggregatedDays(InWindow(facts, w), key);
    }
  }

  /** A refresh makes every day that lies wholly inside its window consistent,
      whatever the window and the tables were. */
  lemma WholeDaysConsistent(st: Store, c: Candidates, w: Window, day: int)
    requires Whole(w, day)
    ensures ConsistentOn(Refreshed(st, c, w), day)
  {
    var st' := Refreshed(st, c, w);
    forall key: AggregateKey | key.day == day ensures Agrees(st', key) {
      hide Aggregated;
      DayIsLocal(st'.facts, InWindow(st'.facts, w), key);
      if key in Aggregated(InWindow(st'.facts, w)) {
      }
    }
  }

  /** The loaders bring no fact to the day, change none of its facts and take none away. */
  predicate QuietOn(st: Store, c: Candidates, w: Window, day: int) {
    forall id ::
      (id in Loaded(c, w) &&
       (DayOf(c[id].fact.occurredAt) == day || (id in st.facts && DayOf(st.facts[id].occurredAt) == day))) ==>
      id in st.facts && st.facts[id] == c[id].fact
  }

  /** A consistent day outside the window stays consistent if the loaders leave it alone. */
  lemma QuietDaysStayConsistent(st: Store, c: Candidates, w: Window, day: int)
    requires w.start < w.end && !Touched(w, day) && QuietOn(st, c, w, day) && ConsistentOn(st, day)
    ensures ConsistentOn(Refreshed(st, c, w), day)
  {
    var st' := Refreshed(st, c, w);
    forall id: nat
      ensures (id in st.facts && DayOf(st.facts[id].occurredAt) == day) <==>
        (id in st'.facts && DayOf(st'.facts[id].occurredAt) == day)
      ensures id in st.facts && DayOf(st.facts[id].occurredAt) == day ==> st.facts[id] == st'.facts[id]
    {
      QuietFact(st, c, w, day, id);
    }
    forall key: AggregateKey | key.day == day ensures Agrees(st', key) {
      hide Aggregated, Refreshed, QuietOn, DayOf;
      assert Agrees(st, key);
      DayIsLocal(st.facts, st'.facts, key);
      UntouchedDays(st, c, w, key);
    }
  }

  lemma QuietFact(st: Store, c: Candidates, w: Window, day: int, id: nat)
    requires w.start < w.end && !Touched(w, day) && QuietOn(st, c, w, day)
    ensures var facts := Refreshed(st, c, w).facts;
      ((id in st.facts && DayOf(st.facts[id].occurredAt) == day) <==>
        (id in facts && DayOf(facts[id].occurredAt) == day)) &&
      (id in st.facts && DayOf(st.facts[id].occurredAt) == day ==> st.facts[id] == facts[id])
  {
    hide Aggregated;
  }

  /** A promotion that began before the window but reaches into it is loaded
      without its day being aggregated again. */
  lemma EarlyPromotionIsNotAggregated(w: Window)
    requires Aligned(w) && w.start < w.end
    ensures var st := Refreshed(Store(map[], map[]), map[0 := Candidate(CountFact(w.start - 1), w.start)], w);
      !Touched(w, DayOf(w.start - 1)) && !ConsistentOn(st, DayOf(w.start - 1))
  {
    var f := CountFact(w.start - 1);
    var st := Refreshed(Store(map[], map[]), map[0 := Candidate(f, w.start)], w);
    var key := KeyOf(Scope, f);
    EarlyFactLoaded(w);
    CountedInDay(st.facts, 0);
    hide Aggregated, CountFact, Refreshed;
    assert key !in st.aggregates && key in Aggregated(st.facts);
    assert !Agrees(st, key);
  }

  lemma EarlyFactLoaded(w: Window)
    requires Aligned(w) && w.start < w.end
    ensures var st := Refreshed(Store(map[], map[]), map[0 := Candidate(CountFact(w.start - 1), w.start)], w);
      st.facts == map[0 := CountFact(w.start - 1)] && st.aggregates == map[]
  {
    var f := CountFact(w.start - 1);
    var loaded := Loaded(map[0 := Candidate(f, w.start)], w);
    assert loaded == map[0 := f];
    assert InWindow(loaded, w) == map[];
    assert Aggregated(map[]) == map[];
  }

  const EMPTY := Store(map[], map[])

  function DayWindow(day: int): Window {
    Window(day * DAY, (day + 1) * DAY)
  }

  /** One counted row, dated at midnight of this day. */
  function RowOn(day: int): Candidates {
    map[0 := Candidate(CountFact(day * DAY), day * DAY)]
  }

  /** The first day is refreshed, its only row moves to the next day, and that day is refreshed. */
  function MovedRun(): seq<Step> {
    [Step(RowOn(0), DayWindow(0)), Step(RowOn(1), DayWindow(1))]
  }

  /** The upsert takes the row's fact away from its old day, whose rows stay:
      both days are covered and no row is stray, and still the old day is left
      inconsistent. */
  lemma MovedRowIsNotTakenBack()
    ensures RegularSteps(MovedRun()) && !Settled(EMPTY, MovedRun())
    ensures StepDays(MovedRun()) == {0, 1} && forall id :: !Stray(Last(MovedRun()), {0, 1}, id)
    ensures !ConsistentOn(RunSteps(EMPTY, MovedRun()), 0)
  {
    hide *;
    var last := RunSteps(EMPTY, MovedRun());
    MovedRunIsRegular();
    MovedRunRuns();
    MovedRowLeft(KeyOf(Scope, CountFact(0)));
    LeftoverRow(last, KeyOf(Scope, CountFact(0)));
    NothingStray();
    if Settled(EMPTY, MovedRun()) {
      SettledConsistencyIsExact(MovedRun());
      assert false;
    }
  }

  lemma LeftoverRow(st: Store, key: AggregateKey)
    requires (key in st.aggregates) != (key in Aggregated(st.facts))
    ensures !ConsistentOn(st, key.day)
  {
    hide Aggregated;
    assert !Agrees(st, key);
  }

  lemma MovedRunIsRegular()
    ensures RegularSteps(MovedRun()) && StepDays(MovedRun()) == {0, 1} && MovedRun() != []
  {
    var steps := MovedRun();
    assert RegularStep(steps[0]) && RegularStep(steps[1]);
    forall d ensures d in StepDays(steps) <==> d == 0 || d == 1 {
      CoversDays(steps[0].w, d);
      CoversDays(steps[1].w, d);
    }
  }

  lemma MovedRunRuns()
    ensures RunSteps(EMPTY, MovedRun()) ==
      Refreshed(Refreshed(EMPTY, RowOn(0), DayWindow(0)), RowOn(1), DayWindow(1))
  {
    hide Refreshed;
    var steps := MovedRun();
    assert steps[..1][..0] == [];
  }

  lemma NothingStray()
    ensures forall id :: !Stray(Last(MovedRun()), {0, 1}, id)
  {
  }

  lemma MovedRowLeft(key: AggregateKey)
    requires key == KeyOf(Scope, CountFact(0))
    ensures key.day == 0
    ensures var last := Refreshed(Refreshed(EMPTY, RowOn(0), DayWindow(0)), RowOn(1), DayWindow(1));
      key in last.aggregates && key !in Aggregated(last.facts)
  {
    hide *;
    var first := Refreshed(EMPTY, RowOn(0), DayWindow(0));
    var last := Refreshed(first, RowOn(1), DayWindow(1));
    MovedFacts();
    FirstDayOnly(key);
    CountedInDay(first.facts, 0);
    WindowRowsWritten(EMPTY, RowOn(0), DayWindow(0), key);
    UntouchedDays(first, RowOn(1), DayWindow(1), key);
    if key in Aggregated(last.facts) {
      AggregatedDays(last.facts, key);
    }
  }

  lemma FirstDayOnly(key: AggregateKey)
    requires key == KeyOf(Scope, CountFact(0))
    ensures key.day == 0 && !Touched(DayWindow(1), 0) && DayWindow(1).start < DayWindow(1).end
    ensures CountFact(0).occurredAt == 0
  {
  }

  lemma MovedFacts()
    ensures var first := Refreshed(EMPTY, RowOn(0), DayWindow(0));
      first.facts == map[0 := CountFact(0)] == InWindow(first.facts, DayWindow(0)) &&
      Refreshed(first, RowOn(1), DayWindow(1)).facts == map[0 := CountFact(DAY)]
    ensures CountFact(DAY).occurredAt == DAY && DayOf(DAY) == 1
  {
    hide Aggregated;
    RowLoaded(0);
    RowLoaded(1);
    hide CountFact, RowOn, Loaded;
  }

  lemma RowLoaded(day: int)
    ensures Loaded(RowOn(day), DayWindow(day)) == map[0 := CountFact(day * DAY)]
    ensures CountFact(day * DAY).occurredAt == day * DAY
  {
  }

  /** A source row that some refresh of these days loads although its own day
      is none of them, and that has a number to aggregate. */
  ghost predicate Stray(c: Candidates, days: set<int>, id: nat) {
    id in c && Touches(c[id], days) && DayOf(c[id].fact.occurredAt) !in days && Numbers(c[id].fact) != map[]
  }

  ghost predicate StrayOn(c: Candidates, days: set<int>, day: int, id: nat) {
    Stray(c, days, id) && DayOf(c[id].fact.occurredAt) == day
  }

  /** A day that no refresh covers has no rows, so it is consistent exactly when nothing numeric is loaded for it. */
  lemma UncoveredDay(c: Candidates, days: set<int>, day: int)
    requires day !in days
    ensures ConsistentOn(Rebuilt(EMPTY, c, days), day) <==> forall id :: !StrayOn(c, days, day, id)
  {
    var st := Rebuilt(EMPTY, c, days);
    if id :| StrayOn(c, days, day, id) {
      var key := KeyOf(Scope, c[id].fact);
      StrayIsFact(c, days, id);
      assert id in Contributors(st.facts, key);
      hide Rebuilt, Aggregated, KeyOf, Stray, Contributors;
      RebuiltRow(EMPTY, c, days, key);
      AggregatedByGrain(st.facts, key);
      assert !Agrees(st, key);
    } else {
      forall key: AggregateKey | key.day == day ensures Agrees(st, key) {
        RowNeedsStray(c, days, key);
        hide Rebuilt, Aggregated, StrayOn;
        RebuiltRow(EMPTY, c, days, key);
      }
    }
  }

  lemma StrayIsFact(c: Candidates, days: set<int>, id: nat)
    requires Stray(c, days, id)
    ensures id in Rebuilt(EMPTY, c, days).facts && Rebuilt(EMPTY, c, days).facts[id] == c[id].fact
  {
    hide Aggregated, Touches, Numbers;
  }

  lemma RowNeedsStray(c: Candidates, days: set<int>, key: AggregateKey)
    requires key.day !in days
    ensures key in Aggregated(Rebuilt(EMPTY, c, days).facts) ==> exists id :: StrayOn(c, days, key.day, id)
  {
    hide Aggregated, Touches, Numbers;
    var facts := Rebuilt(EMPTY, c, days).facts;
    AggregatedByGrain(facts, key);
    if id :| id in Contributors(facts, key) {
      assert StrayOn(c, days, key.day, id);
    }
  }

  lemma CoveredDay(st: Store, c: Candidates, days: set<int>, day: int)
    requires day in days && WellDated(c)
    ensures ConsistentOn(Rebuilt(st, c, days), day)
  {
    var facts := Rebuilt(st, c, days).facts;
    forall key: AggregateKey | key.day == day ensures Agrees(Rebuilt(st, c, days), key) {
      CoveredFacts(st, c, days, day);
      hide Rebuilt, Aggregated, Present;
      RebuiltRow(st, c, days, key);
      DayIsLocal(facts, Present(c, days), key);
    }
  }

  lemma CoveredFacts(st: Store, c: Candidates, days: set<int>, day: int)
    requires day in days && WellDated(c)
    ensures var facts, present := Rebuilt(st, c, days).facts, Present(c, days);
      forall id: nat ::
        ((id in facts && DayOf(facts[id].occurredAt) == day) <==>
          (id in present && DayOf(present[id].occurredAt) == day)) &&
        (id in facts && DayOf(facts[id].occurredAt) == day ==> facts[id] == present[id])
  {
    hide Aggregated;
    var facts, present := Rebuilt(st, c, days).facts, Present(c, days);
    forall id: nat
      ensures (id in facts && DayOf(facts[id].occurredAt) == day) <==>
        (id in present && DayOf(present[id].occurredAt) == day)
      ensures id in facts && DayOf(facts[id].occurredAt) == day ==> facts[id] == present[id]
    {
      if id in c && DayOf(c[id].fact.occurredAt) == day {
        assert day <= DayOf(c[id].reach);
        assert Touches(c[id], days);
      }
      hide DayOf, Touches;
    }
  }

  /** The rebuild of some days from empty tables leaves every day consistent
      exactly when it loads no row with a number for another day. */
  lemma RebuiltIsConsistent(c: Candidates, days: set<int>)
    requires WellDated(c)
    ensures (forall day :: ConsistentOn(Rebuilt(EMPTY, c, days), day)) <==> forall id :: !Stray(c, days, id)
  {
    hide Rebuilt, ConsistentOn, Stray;
    if id :| Stray(c, days, id) {
      StrayDay(c, days, id);
      UncoveredDay(c, days, DayOf(c[id].fact.occurredAt));
    } else {
      forall day ensures ConsistentOn(Rebuilt(EMPTY, c, days), day) {
        if day in days {
          CoveredDay(EMPTY, c, days, day);
        } else {
          UncoveredDay(c, days, day);
        }
      }
    }
  }

  /** From empty tables, aligned refreshes of a source that does not change leave
      every day consistent exactly when every source row with a number that any
      of them loads falls on a day that some refresh covers. */
  lemma ConsistencyIsExact(c: Candidates, ws: seq<Window>)
    requires Regular(ws) && WellDated(c) && ws != []
    ensures (forall day :: ConsistentOn(Run(EMPTY, c, ws), day)) <==> forall id :: !Stray(c, AllDays(ws), id)
  {
    RunRebuilds(EMPTY, c, ws);
    hide Run, Rebuilt, AllDays, ConsistentOn, Stray;
    RebuiltIsConsistent(c, AllDays(ws));
  }

  /** The same for a source that changes, once every change has been caught up with. */
  lemma SettledConsistencyIsExact(steps: seq<Step>)
    requires RegularSteps(steps) && Settled(EMPTY, steps) && steps != []
    ensures (forall day :: ConsistentOn(RunSteps(EMPTY, steps), day)) <==>
      forall id :: !Stray(Last(steps), StepDays(steps), id)
  {
    ChangesAreCaughtUp(EMPTY, steps);
    assert RegularStep(steps[|steps| - 1]);
    hide RunSteps, Rebuilt, StepDays, ConsistentOn, Stray, Settled;
    RebuiltIsConsistent(Last(steps), StepDays(steps));
  }

  lemma StrayDay(c: Candidates, days: set<int>, id: nat)
    requires Stray(c, days, id)
    ensures id in c && DayOf(c[id].fact.occurredAt) !in days && StrayOn(c, days, DayOf(c[id].fact.occurredAt), id)
  {
  }

  ghost predicate AlwaysConsistent(w: Window) {
    forall st: Store, c: Candidates :: WellDated(c) ==> KeepsConsistent(st, c, w)
  }

  ghost predicate KeepsConsistent(st: Store, c: Candidates, w: Window) {
    forall day :: Touched(w, day) ==> ConsistentOn(Refreshed(st, c, w), day)
  }

  function CountFact(at: int): Fact {
    Fact(at, None, None, None, None, None, None, None, None, map[Named("batch_count") := Number(1.0)], at,
         Origin(None, "import_batches", "", ""), None)
  }

  /** A fact before an unaligned start stays in the table, but its day's rows
      are deleted and not written again. */
  lemma UnalignedStartLosesRows(w: Window)
    requires w.start % DAY != 0 && w.start < w.end && w.end % DAY == 0
    ensures !KeepsConsistent(Store(map[0 := CountFact(w.start - 1)], map[]), map[], w)
  {
    var f := CountFact(w.start - 1);
    var st := Store(map[0 := f], map[]);
    var st' := Refreshed(st, map[], w);
    var key := KeyOf(Scope, f);
    assert st'.facts == st.facts && InWindow(st'.facts, w) == map[];
    assert Touched(w, key.day);
    assert key !in st'.aggregates;
    CountedInDay(st'.facts, 0);
    assert !Agrees(st', key);
  }

  lemma CountedInDay(facts: FactTable, id: nat)
    requires id in facts && facts[id] == CountFact(facts[id].occurredAt)
    ensures KeyOf(Scope, facts[id]) in Aggregated(facts)
    ensures id in Contributors(facts, KeyOf(Scope, facts[id]))
  {
    var key := KeyOf(Scope, facts[id]);
    assert Named("batch_count") in Numbers(facts[id]);
    assert id in Contributors(facts, key);
    hide Aggregated;
    AggregatedByGrain(facts, key);
  }

  lemma SameDayAroundEnd(w: Window)
    requires w.end % DAY != 0 && w.start < w.end
    ensures DayOf(w.end - 1) == DayOf(w.end) && Touched(w, DayOf(w.end - 1))
  {
  }

  /** The tables of the next lemma after the refresh: both facts are there, of
      one day, and only the first lies in the window. */
  lemma FactsAroundEnd(w: Window)
    requires w.end % DAY != 0 && w.start < w.end
    ensures var one, two := CountFact(w.end - 1), CountFact(w.end);
      var facts := Refreshed(Store(map[1 := two], map[]), map[0 := Candidate(one, w.end - 1)], w).facts;
      facts == map[0 := one, 1 := two] && InWindow(facts, w) == map[0 := one]
    ensures KeyOf(Scope, CountFact(w.end - 1)) == KeyOf(Scope, CountFact(w.end))
    ensures Touched(w, DayOf(w.end - 1))
  {
    hide *;
    var one, two := CountFact(w.end - 1), CountFact(w.end);
    SameDayAroundEnd(w);
    CountedAt(w.end - 1);
    CountedAt(w.end);
    SameScope(one, two);
    TwoFacts(w, one, two);
  }

  lemma CountedAt(at: int)
    ensures CountFact(at).occurredAt == at
  {
  }

  lemma TwoFacts(w: Window, one: Fact, two: Fact)
    requires w.start < w.end && one.occurredAt == w.end - 1 && two.occurredAt == w.end
    ensures var facts := Refreshed(Store(map[1 := two], map[]), map[0 := Candidate(one, w.end - 1)], w).facts;
      facts == map[0 := one, 1 := two] && InWindow(facts, w) == map[0 := one]
  {
    var before: FactTable, offered: Candidates := map[1 := two], map[0 := Candidate(one, w.end - 1)];
    FactsAre(Store(before, map[]), offered, w);
    hide Refreshed;
    assert DeleteFacts(before, w) == before;
    assert Loaded(offered, w) == map[0 := one];
    hide DeleteFacts, Loaded;
  }

  lemma FactsAre(st: Store, c: Candidates, w: Window)
    ensures Refreshed(st, c, w).facts == DeleteFacts(st.facts, w) + Loaded(c, w)
  {
    hide Aggregated;
  }

  lemma SameScope(one: Fact, two: Fact)
    requires one == CountFact(one.occurredAt) && two == CountFact(two.occurredAt)
    requires DayOf(one.occurredAt) == DayOf(two.occurredAt)
    ensures KeyOf(Scope, one) == KeyOf(Scope, two)
  {
  }

  /** A fact at or after an unaligned end is left out of rows that are rewritten. */
  lemma UnalignedEndCutsRows(w: Window)
    requires w.end % DAY != 0 && w.start < w.end
    ensures var one, two := CountFact(w.end - 1), CountFact(w.end);
      !KeepsConsistent(Store(map[1 := two], map[]), map[0 := Candidate(one, w.end - 1)], w)
  {
    FactsAroundEnd(w);
    var one, two := CountFact(w.end - 1), CountFact(w.end);
    var st, c := Store(map[1 := two], map[]), map[0 := Candidate(one, w.end - 1)];
    var st', key := Refreshed(st, c, w), KeyOf(Scope, one);
    hide Refreshed, InWindow, Aggregated, CountFact, Touched;
    CutRow(one, two, key);
    WindowRowsWritten(st, c, w, key);
    assert !Agrees(st', key);
    assert !ConsistentOn(st', key.day);
  }

  lemma WindowRowsWritten(st: Store, c: Candidates, w: Window, key: AggregateKey)
    requires key in Aggregated(InWindow(Refreshed(st, c, w).facts, w))
    ensures key in Refreshed(st, c, w).aggregates
    ensures Refreshed(st, c, w).aggregates[key] == Aggregated(InWindow(Refreshed(st, c, w).facts, w))[key]
  {
    hide Aggregated;
  }

  lemma CountedRow(facts: FactTable, key: AggregateKey)
    requires Contributors(facts, key) != {}
    ensures key in Aggregated(facts)
    ensures Aggregated(facts)[key].measures == Total(NumbersTable(facts), Contributors(facts, key))
  {
    hide Aggregated, Contributors;
    AggregatedByGrain(facts, key);
  }

  /** One counted fact alone, and together with another of its scope. */
  lemma CutRow(one: Fact, two: Fact, key: AggregateKey)
    requires one == CountFact(one.occurredAt) && two == CountFact(two.occurredAt)
    requires key == KeyOf(Scope, one) == KeyOf(Scope, two)
    ensures key in Aggregated(map[0 := one]) && key in Aggregated(map[0 := one, 1 := two])
    ensures Aggregated(map[0 := one])[key] != Aggregated(map[0 := one, 1 := two])[key]
  {
    hide Aggregated;
    var within: FactTable, facts: FactTable := map[0 := one], map[0 := one, 1 := two];
    var counted: Payload := map[Named("batch_count") := 1.0];
    assert Numbers(one) == counted == Numbers(two);
    CountedInDay(within, 0);
    CountedInDay(facts, 0);
    CountedInDay(facts, 1);
    assert Contributors(within, key) == {0} && Contributors(facts, key) == {0, 1} by { hide KeyOf, Numbers, CountFact; }
    hide Contributors, KeyOf, CountFact;
    CountedRow(within, key);
    CountedRow(facts, key);
    CountedTotals(NumbersTable(within), NumbersTable(facts), counted);
  }

  lemma CountedTotals(a: map<nat, Payload>, b: map<nat, Payload>, p: Payload)
    requires a == map[0 := p] && b == map[0 := p, 1 := p]
    requires p == map[Named("batch_count") := 1.0]
    ensures Total(a, {0}) != Total(b, {0, 1})
  {
    TotalSingleton(a, 0);
    TotalSingleton(b, 0);
    TotalInsert(b, {0}, 1);
    assert {0} + {1} == {0, 1};
    assert Total(b, {0, 1})[Named("batch_count")] == 2.0;
  }

  lemma TouchedWhole(w: Window, day: int)
    requires Aligned(w) && Touched(w, day)
    ensures Whole(w, day)
  {
  }

  /** Aligned bounds are enough even if they are in the wrong order. */
  lemma AlignedIsSafe(w: Window)
    requires Aligned(w)
    ensures AlwaysConsistent(w)
  {
    forall st: Store, c: Candidates | WellDated(c) ensures KeepsConsistent(st, c, w) {
      forall day | Touched(w, day) ensures ConsistentOn(Refreshed(st, c, w), day) {
        TouchedWhole(w, day);
        WholeDaysConsistent(st, c, w, day);
      }
    }
  }

  /** Exactly the midnight-aligned windows are safe: for them, and for no other
      window, every touched day ends up consistent for all tables and sources. */
  lemma AlignmentIsExact(w: Window)
    requires w.start < w.end
    ensures AlwaysConsistent(w) <==> Aligned(w)
  {
    hide KeepsConsistent, AlwaysConsistent, CountFact;
    if Aligned(w) {
      AlignedIsSafe(w);
    } else if w.end % DAY != 0 {
      UnalignedEndCutsRows(w);
      var one, two := CountFact(w.end - 1), CountFact(w.end);
      WellDatedCount(w.end - 1);
      NotAlways(w, Store(map[1 := two], map[]), map[0 := Candidate(one, w.end - 1)]);
    } else {
      UnalignedStartLosesRows(w);
      NotAlways(w, Store(map[0 := CountFact(w.start - 1)], map[]), map[]);
    }
  }

  lemma WellDatedCount(at: int)
    ensures WellDated(map[0 := Candidate(CountFact(at), at)])
  {
  }

  lemma NotAlways(w: Window, st: Store, c: Candidates)
    requires WellDated(c) && !KeepsConsistent(st, c, w)
    ensures !AlwaysConsistent(w)
  {
    hide KeepsConsistent, WellDated;
  }

  /** The window of a requested refresh: whole days, both ends included (`queue_refresh`). */
  function QueuedWindow(fromDay: int, toDay: int): Window {
    Window(fromDay * DAY, (toDay + 1) * DAY)
  }

  /** The window of a refresh after an import (`_batch_window`): it reaches back
      seven days from the first event itself, not from that event's midnight.
      Without dated events the batch's period stands in, and without a period
      the day on which the batch was created. */
  function ImportWindow(firstEvent: Option<int>, lastEvent: Option<int>, periodStart: Option<int>,
                        periodEnd: Option<int>, createdAt: int): Window {
    var created := DayOf(createdAt);
    var start := match firstEvent
      case Some(at) => at
      case None => (match periodStart case Some(day) => day case None => created) * DAY;
    var end := match lastEvent
      case Some(at) => (DayOf(at) + 1) * DAY
      case None => ((match periodEnd case Some(day) => day case None => created) + 1) * DAY;
    Window(start - 7 * DAY, if end < (created + 1) * DAY then (created + 1) * DAY else end)
  }

  /** A requested refresh covers exactly the days from the first to the last. */
  lemma QueuedWindowDays(fromDay: int, toDay: int, at: int)
    ensures var w := QueuedWindow(fromDay, toDay); w.start <= at < w.end <==> fromDay <= DayOf(at) <= toDay
  {
  }

  /** A refresh after an import covers every event of the batch, the seven days
      before the first one, and the rest of the day on which the batch was created. */
  lemma ImportWindowCovers(firstEvent: int, lastEvent: int, periodStart: Option<int>, periodEnd: Option<int>,
                           createdAt: int, at: int)
    requires firstEvent - 7 * DAY <= at
    requires at <= lastEvent || DayOf(at) <= DayOf(createdAt)
    ensures var w := ImportWindow(Some(firstEvent), Some(lastEvent), periodStart, periodEnd,
      createdAt); w.start <= at < w.end
  {
  }

  /** Exactly what such a refresh covers: from seven days before the first event,
      without one from seven days before the period or the day of creation
      begins, through the last day of events, of the period or of creation. */
  lemma ImportWindowIsExact(firstEvent: Option<int>, lastEvent: Option<int>, periodStart: Option<int>,
                            periodEnd: Option<int>, createdAt: int, at: int)
    ensures var w, midnight := ImportWindow(firstEvent, lastEvent, periodStart, periodEnd, createdAt), 86_400_000_000;
      var first := if periodStart.Some? then periodStart.value * midnight else createdAt - createdAt % midnight;
      (w.start <= at <==> (if firstEvent.Some? then firstEvent.value else first) <= at + 7 * midnight) &&
      (at < w.end <==>
        DayOf(at) <= DayOf(createdAt) || (lastEvent.Some? && DayOf(at) <= DayOf(lastEvent.value)) ||
        (lastEvent == None && periodEnd.Some? && DayOf(at) <= periodEnd.value))
  {
  }

  lemma QueuedWindowsAligned(fromDay: int, toDay: int)
    requires fromDay <= toDay
    ensures Aligned(QueuedWindow(fromDay, toDay)) && AlwaysConsistent(QueuedWindow(fromDay, toDay))
  {
    hide AlwaysConsistent;
    AlignmentIsExact(QueuedWindow(fromDay, toDay));
  }

  /** A refresh after an import is safe for all tables exactly if the batch has
      no dated event or its first one falls on midnight.  The first and the last
      event are missing together. */
  lemma ImportWindowsAligned(firstEvent: Option<int>, lastEvent: Option<int>, periodStart: Option<int>,
                             periodEnd: Option<int>, createdAt: int)
    requires firstEvent.Some? <==> lastEvent.Some?
    requires firstEvent.Some? ==> firstEvent.value <= lastEvent.value
    ensures AlwaysConsistent(ImportWindow(firstEvent, lastEvent, periodStart, periodEnd, createdAt))
       <==> firstEvent.None? || firstEvent.value % DAY == 0
  {
    hide AlwaysConsistent;
    var w := ImportWindow(firstEvent, lastEvent, periodStart, periodEnd, createdAt);
    if firstEvent.None? {
      AlignedIsSafe(w);
    } else {
      AlignmentIsExact(w);
    }
  }
}
