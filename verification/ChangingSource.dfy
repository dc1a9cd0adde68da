/** Refreshes of a source that changes between them. */
module ChangingSource {
  import opened Wrappers
  import opened Facts
  import opened Rebuild

  /** A refresh, and what the loaders offer at its time. */
  datatype Step = Step(c: Candidates, w: Window)

  ghost function RunSteps(st: Store, steps: seq<Step>): Store {
    if steps == [] then st
    else Refreshed(RunSteps(st, steps[..|steps| - 1]), steps[|steps| - 1].c, steps[|steps| - 1].w)
  }

  ghost predicate RegularSteps(steps: seq<Step>) {
    forall i :: 0 <= i < |steps| ==> RegularStep(steps[i])
  }

  ghost predicate RegularStep(s: Step) {
    Aligned(s.w) && s.w.start < s.w.end && WellDated(s.c)
  }

  /** Some step from the `i`th on covers the day. */
  ghost predicate CoveredFrom(steps: seq<Step>, i: nat, day: int) {
    exists k :: i <= k < |steps| && Covers(steps[k].w, day)
  }

  ghost function StepDays(steps: seq<Step>): set<int> {
    set k, d | 0 <= k < |steps| && d in Days(steps[k].w) :: d
  }

  /** The step loads the row. */
  ghost predicate Loads(s: Step, id: nat) {
    id in s.c && Touches(s.c[id], Days(s.w))
  }

  /** No step from the `i`th on loads the row. */
  ghost predicate NoLoadFrom(steps: seq<Step>, i: nat, id: nat) {
    forall k :: i <= k < |steps| ==> !Loads(steps[k], id)
  }

  ghost predicate LastLoad(steps: seq<Step>, k: nat, id: nat) {
    k < |steps| && Loads(steps[k], id) && NoLoadFrom(steps, k + 1, id)
  }

  // ---------------------------------------------------------------- one fact through a run

  lemma CoversDays(w: Window, day: int)
    ensures day in Days(w) <==> Covers(w, day)
  {
  }

  lemma StepFact(st: Store, s: Step, id: nat)
    requires RegularStep(s)
    ensures var facts := Refreshed(st, s.c, s.w).facts;
      if Loads(s, id) then id in facts && facts[id] == s.c[id].fact
      else ((id in facts <==> id in st.facts && !Covers(s.w, DayOf(st.facts[id].occurredAt))) &&
            (id in facts ==> facts[id] == st.facts[id]))
  {
    hide Refreshed, RebuiltFacts, Days, Covers;
    RefreshedFacts(st, s.c, s.w);
    RebuiltFactOf(st.facts, s, id);
    if id in st.facts {
      CoversDays(s.w, DayOf(st.facts[id].occurredAt));
    }
  }

  lemma RebuiltFactOf(facts: FactTable, s: Step, id: nat)
    ensures var r := RebuiltFacts(facts, s.c, Days(s.w));
      if Loads(s, id) then id in r && r[id] == s.c[id].fact
      else ((id in r <==> id in facts && DayOf(facts[id].occurredAt) !in Days(s.w)) && (id in r ==> r[id] == facts[id]))
  {
    hide Touches, Days, DayOf;
  }

  lemma CoveredMore(steps: seq<Step>, i: nat, day: int)
    requires i < |steps|
    ensures CoveredFrom(steps, i, day)
       <==> CoveredFrom(steps[..|steps| - 1], i, day) || Covers(steps[|steps| - 1].w, day)
  {
    var before := steps[..|steps| - 1];
    if CoveredFrom(before, i, day) {
      var k :| i <= k < |before| && Covers(before[k].w, day);
      assert steps[k] == before[k];
    }
    if k :| i <= k < |steps| && Covers(steps[k].w, day) {
      assert k < |before| ==> before[k] == steps[k];
    }
  }

  lemma NoLoadMore(steps: seq<Step>, i: nat, id: nat)
    requires i < |steps|
    ensures NoLoadFrom(steps, i, id) <==> NoLoadFrom(steps[..|steps| - 1], i, id) && !Loads(steps[|steps| - 1], id)
  {
    hide Loads;
    var before := steps[..|steps| - 1];
    assert forall k :: 0 <= k < |before| ==> before[k] == steps[k];
  }

  /** A fact is what the last step that loads it made it, unless a later step
      covers its day; a fact never loaded goes with its day. */
  ghost predicate FactIs(st: Store, steps: seq<Step>, id: nat) {
    var facts := RunSteps(st, steps).facts;
    (NoLoadFrom(steps, 0, id) ==>
      ((id in facts <==> id in st.facts && !CoveredFrom(steps, 0, DayOf(st.facts[id].occurredAt))) &&
       (id in facts ==> facts[id] == st.facts[id]))) &&
    (forall k: nat :: LastLoad(steps, k, id) ==> LoadedFactIs(facts, steps, k, id))
  }

  ghost predicate LoadedFactIs(facts: FactTable, steps: seq<Step>, k: nat, id: nat)
    requires k < |steps| && id in steps[k].c
  {
    (id in facts <==> !CoveredFrom(steps, k + 1, DayOf(steps[k].c[id].fact.occurredAt))) &&
    (id in facts ==> facts[id] == steps[k].c[id].fact)
  }

  lemma {:induction false} FactAfter(st: Store, steps: seq<Step>, id: nat)
    requires RegularSteps(steps)
    ensures FactIs(st, steps, id)
  {
    if steps == [] {
      assert !CoveredFrom(steps, 0, if id in st.facts then DayOf(st.facts[id].occurredAt) else 0);
    } else {
      var before, last := steps[..|steps| - 1], steps[|steps| - 1];
      assert RegularStep(last);
      FactAfter(st, before, id);
      StepFact(RunSteps(st, before), last, id);
      hide Refreshed, Touches, Covers, DayOf, RegularStep;
      if Loads(last, id) {
        LoadedLast(st, steps, id);
      } else {
        NotLoadedLast(st, steps, id);
      }
    }
  }

  lemma LoadedLast(st: Store, steps: seq<Step>, id: nat)
    requires steps != [] && Loads(steps[|steps| - 1], id)
    requires id in RunSteps(st, steps).facts && RunSteps(st, steps).facts[id] == steps[|steps| - 1].c[id].fact
    ensures FactIs(st, steps, id)
  {
    hide RunSteps, Touches, Covers, DayOf;
  }

  lemma NotLoadedLast(st: Store, steps: seq<Step>, id: nat)
    requires steps != [] && !Loads(steps[|steps| - 1], id)
    requires var before, facts := RunSteps(st, steps[..|steps| - 1]).facts, RunSteps(st, steps).facts;
      (id in facts <==> id in before && !Covers(steps[|steps| - 1].w, DayOf(before[id].occurredAt))) &&
      (id in facts ==> facts[id] == before[id])
    requires FactIs(st, steps[..|steps| - 1], id)
    ensures FactIs(st, steps, id)
  {
    hide RunSteps, Covers, DayOf, Touches, CoveredFrom, NoLoadFrom;
    NoLoadMore(steps, 0, id);
    if id in st.facts {
      CoveredMore(steps, 0, DayOf(st.facts[id].occurredAt));
    }
    forall k: nat | LastLoad(steps, k, id) ensures LoadedFactIs(RunSteps(st, steps).facts, steps, k, id) {
      LastLoadBefore(steps, k, id);
      CoveredMore(steps, k + 1, DayOf(steps[k].c[id].fact.occurredAt));
      assert LoadedFactIs(RunSteps(st, steps[..|steps| - 1]).facts, steps[..|steps| - 1], k, id);
    }
  }

  lemma LastLoadBefore(steps: seq<Step>, k: nat, id: nat)
    requires steps != [] && !Loads(steps[|steps| - 1], id) && LastLoad(steps, k, id)
    ensures k + 1 < |steps| && LastLoad(steps[..|steps| - 1], k, id) && steps[..|steps| - 1][k] == steps[k]
  {
    hide Loads;
    NoLoadMore(steps, k + 1, id);
  }

  // ---------------------------------------------------------------- one row through a run

  ghost predicate LastCover(steps: seq<Step>, k: nat, day: int) {
    k < |steps| && Covers(steps[k].w, day) && !CoveredFrom(steps, k + 1, day)
  }

  /** The two tables hold the same row under a key, or neither holds one. */
  ghost predicate SameRow(a: AggregateTable, b: AggregateTable, key: AggregateKey) {
    (key in a <==> key in b) && (key in a ==> a[key] == b[key])
  }

  /** A row is what the last step that covers its day wrote. */
  ghost predicate RowIs(st: Store, steps: seq<Step>, key: AggregateKey) {
    var rows := RunSteps(st, steps).aggregates;
    (!CoveredFrom(steps, 0, key.day) ==> SameRow(rows, st.aggregates, key)) &&
    (forall k: nat :: LastCover(steps, k, key.day) ==> SameRow(rows, Written(steps[k]), key))
  }

  ghost function Written(s: Step): AggregateTable {
    Aggregated(Present(s.c, Days(s.w)))
  }

  lemma StepRow(st: Store, s: Step, key: AggregateKey)
    requires RegularStep(s)
    ensures var rows := Refreshed(st, s.c, s.w).aggregates;
      SameRow(rows, if Covers(s.w, key.day) then Written(s) else st.aggregates, key)
  {
    AlignedRefreshRebuilds(st, s.c, s.w);
    CoversDays(s.w, key.day);
    hide Refreshed, Rebuilt, Present, Aggregated, Days, Covers;
    RebuiltRow(st, s.c, Days(s.w), key);
  }

  lemma {:induction false} RowAfter(st: Store, steps: seq<Step>, key: AggregateKey)
    requires RegularSteps(steps)
    ensures RowIs(st, steps, key)
  {
    if steps == [] {
      assert !CoveredFrom(steps, 0, key.day);
    } else {
      var before, last := steps[..|steps| - 1], steps[|steps| - 1];
      assert RegularStep(last);
      RowAfter(st, before, key);
      StepRow(RunSteps(st, before), last, key);
      hide Refreshed, Covers, Written, RegularStep, SameRow, CoveredFrom, RowIs;
      if Covers(last.w, key.day) {
        CoveredLast(st, steps, key);
      } else {
        NotCoveredLast(st, steps, key);
      }
    }
  }

  lemma CoveredLast(st: Store, steps: seq<Step>, key: AggregateKey)
    requires steps != [] && Covers(steps[|steps| - 1].w, key.day)
    requires SameRow(RunSteps(st, steps).aggregates, Written(steps[|steps| - 1]), key)
    ensures RowIs(st, steps, key)
  {
    hide RunSteps, Covers, Written, SameRow;
  }

  lemma NotCoveredLast(st: Store, steps: seq<Step>, key: AggregateKey)
    requires steps != [] && !Covers(steps[|steps| - 1].w, key.day)
    requires SameRow(RunSteps(st, steps).aggregates, RunSteps(st, steps[..|steps| - 1]).aggregates, key)
    requires RowIs(st, steps[..|steps| - 1], key)
    ensures RowIs(st, steps, key)
  {
    hide RunSteps, Covers, Written, CoveredFrom;
    var before := steps[..|steps| - 1];
    CoveredMore(steps, 0, key.day);
    forall k: nat | LastCover(steps, k, key.day)
      ensures SameRow(RunSteps(st, steps).aggregates, Written(steps[k]), key)
    {
      CoveredMore(steps, k + 1, key.day);
      assert LastCover(before, k, key.day) && before[k] == steps[k];
    }
  }

  // ---------------------------------------------------------------- versions of a source row

  function Version(c: Candidates, id: nat): Option<Candidate> {
    if id in c then Some(c[id]) else None
  }

  predicate Changes(steps: seq<Step>, i: nat, id: nat) {
    i + 1 < |steps| && Version(steps[i].c, id) != Version(steps[i + 1].c, id)
  }

  ghost predicate DayCovered(steps: seq<Step>, i: nat, version: Option<Candidate>) {
    version.Some? ==> CoveredFrom(steps, i, DayOf(version.value.fact.occurredAt))
  }

  /** Whenever a source row changes, its old and its new day are covered by a
      later step, and so is the day it had in the tables at the start by any step. */
  ghost predicate Settled(st: Store, steps: seq<Step>) {
    forall i: nat, id: nat :: Changes(steps, i, id) ==> SettledAt(st, steps, i, id)
  }

  ghost predicate SettledAt(st: Store, steps: seq<Step>, i: nat, id: nat)
    requires i + 1 < |steps|
  {
    DayCovered(steps, i + 1, Version(steps[i].c, id)) && DayCovered(steps, i + 1, Version(steps[i + 1].c, id)) &&
    (id in st.facts ==> CoveredFrom(steps, 0, DayOf(st.facts[id].occurredAt)))
  }

  function Last(steps: seq<Step>): Candidates
    requires steps != []
  {
    steps[|steps| - 1].c
  }

  /** A version that is not the last one gives way at some step. */
  lemma {:induction false} OldVersionChanges(steps: seq<Step>, k: nat, id: nat) returns (m: nat)
    requires k < |steps| && Version(steps[k].c, id) != Version(Last(steps), id)
    ensures k <= m && Changes(steps, m, id) && Version(steps[m].c, id) == Version(steps[k].c, id)
    decreases |steps| - k
  {
    if Changes(steps, k, id) {
      m := k;
    } else {
      m := OldVersionChanges(steps, k + 1, id);
    }
  }

  /** The last version arrives at some step and stays. */
  lemma {:induction false} NewVersionArrives(steps: seq<Step>, k: nat, id: nat) returns (m: nat)
    requires k < |steps| && Version(steps[k].c, id) != Version(Last(steps), id)
    ensures k <= m && Changes(steps, m, id)
    ensures forall j :: m < j < |steps| ==> Version(steps[j].c, id) == Version(Last(steps), id)
    decreases |steps| - k
  {
    if exists j :: k < j < |steps| && Version(steps[j].c, id) != Version(Last(steps), id) {
      var j :| k < j < |steps| && Version(steps[j].c, id) != Version(Last(steps), id);
      m := NewVersionArrives(steps, j, id);
    } else {
      m := k;
    }
  }

  // ---------------------------------------------------------------- the rebuild from the last source

  lemma StepDaysCovered(steps: seq<Step>, day: int)
    ensures day in StepDays(steps) <==> CoveredFrom(steps, 0, day)
  {
    forall k | 0 <= k < |steps| ensures day in Days(steps[k].w) <==> Covers(steps[k].w, day) {
      CoversDays(steps[k].w, day);
    }
  }

  /** A step that covers the row's day loads it. */
  lemma CoveringLoads(steps: seq<Step>, k: nat, id: nat)
    requires RegularSteps(steps) && k < |steps| && id in steps[k].c
    requires Covers(steps[k].w, DayOf(steps[k].c[id].fact.occurredAt))
    ensures Loads(steps[k], id)
  {
    assert RegularStep(steps[k]);
    CoversDays(steps[k].w, DayOf(steps[k].c[id].fact.occurredAt));
    assert DayOf(steps[k].c[id].fact.occurredAt) <= DayOf(steps[k].c[id].reach);
  }

  lemma {:induction false} LastLoadExists(steps: seq<Step>, k: nat, id: nat) returns (l: nat)
    requires k < |steps| && Loads(steps[k], id)
    ensures k <= l && LastLoad(steps, l, id)
    decreases |steps| - k
  {
    hide Loads;
    if j :| k < j < |steps| && Loads(steps[j], id) {
      l := LastLoadExists(steps, j, id);
    } else {
      l := k;
    }
  }

  lemma LoadedTouches(steps: seq<Step>, k: nat, id: nat)
    requires k < |steps| && Loads(steps[k], id)
    ensures Touches(steps[k].c[id], StepDays(steps))
  {
    var d :| d in Days(steps[k].w) && DayOf(steps[k].c[id].fact.occurredAt) <= d <= DayOf(steps[k].c[id].reach);
    assert d in StepDays(steps);
  }

  lemma TouchedLoads(steps: seq<Step>, x: Candidate) returns (k: nat)
    requires Touches(x, StepDays(steps))
    ensures k < |steps| && Touches(x, Days(steps[k].w))
  {
    var d :| d in StepDays(steps) && DayOf(x.fact.occurredAt) <= d <= DayOf(x.reach);
    k :| 0 <= k < |steps| && d in Days(steps[k].w);
  }

  ghost predicate FactFinal(st: Store, steps: seq<Step>, id: nat)
    requires steps != []
  {
    var one, two := RunSteps(st, steps).facts, RebuiltFacts(st.facts, Last(steps), StepDays(steps));
    (id in one <==> id in two) && (id in one ==> one[id] == two[id])
  }

  lemma TargetFact(st: Store, c: Candidates, days: set<int>, id: nat)
    ensures var r := RebuiltFacts(st.facts, c, days);
      if id in c && Touches(c[id], days) then id in r && r[id] == c[id].fact
      else ((id in r <==> id in st.facts && DayOf(st.facts[id].occurredAt) !in days) &&
        (id in r ==> r[id] == st.facts[id]))
  {
    hide Touches, DayOf;
  }

  /** The last version of a row is loaded last, and its day is not covered after that. */
  lemma FinalVersionLoaded(st: Store, steps: seq<Step>, k: nat, id: nat)
    requires RegularSteps(steps) && steps != [] && FactIs(st, steps, id)
    requires LastLoad(steps, k, id)
    requires forall j :: k <= j < |steps| ==> Version(steps[j].c, id) == Version(Last(steps), id)
    ensures FactFinal(st, steps, id)
  {
    LoadedTouches(steps, k, id);
    TargetFact(st, Last(steps), StepDays(steps), id);
    var day := DayOf(steps[k].c[id].fact.occurredAt);
    if CoveredFrom(steps, k + 1, day) {
      var j :| k + 1 <= j < |steps| && Covers(steps[j].w, day);
      assert Version(steps[j].c, id) == Version(steps[k].c, id);
      CoveringLoads(steps, j, id);
      assert false;
    }
    hide RunSteps, Touches, StepDays, RebuiltFacts, Covers, DayOf, RegularSteps;
    assert LoadedFactIs(RunSteps(st, steps).facts, steps, k, id);
  }

  /** If a later version replaces the one of step `k` and still is in the
      source at the end, some step after `k` loads it. */
  lemma NewVersionLoads(st: Store, steps: seq<Step>, k: nat, id: nat) returns (p: nat)
    requires RegularSteps(steps) && Settled(st, steps) && k < |steps|
    requires Version(steps[k].c, id) != Version(Last(steps), id) && id in Last(steps)
    ensures k < p < |steps| && Loads(steps[p], id) && Version(steps[p].c, id) == Version(Last(steps), id)
  {
    var m := NewVersionArrives(steps, k, id);
    hide RegularSteps, Covers, DayOf;
    assert SettledAt(st, steps, m, id);
    assert Version(steps[m + 1].c, id) == Version(Last(steps), id);
    var day := DayOf(Last(steps)[id].fact.occurredAt);
    assert CoveredFrom(steps, m + 1, day);
    p :| m + 1 <= p < |steps| && Covers(steps[p].w, day);
    CoveringLoads(steps, p, id);
  }

  lemma OldVersionLeaves(st: Store, steps: seq<Step>, k: nat, id: nat)
    requires Settled(st, steps) && k < |steps| && id in steps[k].c
    requires Version(steps[k].c, id) != Version(Last(steps), id)
    ensures CoveredFrom(steps, k + 1, DayOf(steps[k].c[id].fact.occurredAt))
    ensures id in st.facts ==> CoveredFrom(steps, 0, DayOf(st.facts[id].occurredAt))
  {
    hide Covers, DayOf;
    var m := OldVersionChanges(steps, k, id);
    assert SettledAt(st, steps, m, id);
  }

  /** The last load was of a version that the source no longer offers. */
  lemma OldVersionGone(st: Store, steps: seq<Step>, k: nat, id: nat)
    requires RegularSteps(steps) && Settled(st, steps) && FactIs(st, steps, id) && LastLoad(steps, k, id)
    requires Version(steps[k].c, id) != Version(Last(steps), id)
    ensures FactFinal(st, steps, id)
  {
    hide RunSteps, Touches, StepDays, RebuiltFacts, Covers, DayOf, RegularSteps, CoveredFrom, Settled;
    OldVersionLeaves(st, steps, k, id);
    assert LoadedFactIs(RunSteps(st, steps).facts, steps, k, id);
    if id in Last(steps) {
      var p := NewVersionLoads(st, steps, k, id);
      assert false;
    }
    TargetFact(st, Last(steps), StepDays(steps), id);
    if id in st.facts {
      StepDaysCovered(steps, DayOf(st.facts[id].occurredAt));
    }
  }

  lemma NeverLoadedFact(st: Store, steps: seq<Step>, id: nat)
    requires RegularSteps(steps) && Settled(st, steps) && steps != [] && FactIs(st, steps, id) &&
      NoLoadFrom(steps, 0, id)
    ensures FactFinal(st, steps, id)
  {
    hide RunSteps, RebuiltFacts, Covers, DayOf, RegularSteps, CoveredFrom, Settled, StepDays, Touches;
    if id in Last(steps) && Touches(Last(steps)[id], StepDays(steps)) {
      var k := TouchedLoads(steps, Last(steps)[id]);
      if Version(steps[k].c, id) != Version(Last(steps), id) {
        var p := NewVersionLoads(st, steps, k, id);
      }
      assert false;
    }
    TargetFact(st, Last(steps), StepDays(steps), id);
    if id in st.facts {
      StepDaysCovered(steps, DayOf(st.facts[id].occurredAt));
    }
  }

  lemma FinalFact(st: Store, steps: seq<Step>, id: nat)
    requires RegularSteps(steps) && Settled(st, steps) && steps != []
    ensures FactFinal(st, steps, id)
  {
    FactAfter(st, steps, id);
    hide FactFinal, FactIs, Settled, RegularSteps, Touches;
    if k :| 0 <= k < |steps| && Loads(steps[k], id) {
      var l := LastLoadExists(steps, k, id);
      if Version(steps[l].c, id) != Version(Last(steps), id) {
        OldVersionGone(st, steps, l, id);
      } else {
        if j :| l <= j < |steps| && Version(steps[j].c, id) != Version(Last(steps), id) {
          var p := NewVersionLoads(st, steps, j, id);
          assert false;
        }
        FinalVersionLoaded(st, steps, l, id);
      }
    } else {
      NeverLoadedFact(st, steps, id);
    }
  }

  lemma {:induction false} LastCoverExists(steps: seq<Step>, i: nat, day: int) returns (k: nat)
    requires CoveredFrom(steps, i, day)
    ensures LastCover(steps, k, day)
    decreases |steps| - i
  {
    hide Covers;
    var j :| i <= j < |steps| && Covers(steps[j].w, day);
    if CoveredFrom(steps, j + 1, day) {
      k := LastCoverExists(steps, j + 1, day);
    } else {
      k := j;
    }
  }

  /** At the last step that covers a day, the source already has its last facts of that day. */
  lemma LastFactsOfDay(st: Store, steps: seq<Step>, k: nat, day: int, id: nat)
    requires RegularSteps(steps) && Settled(st, steps) && LastCover(steps, k, day)
    ensures Version(steps[k].c, id) == Version(Last(steps), id) ||
      ((id in steps[k].c ==> DayOf(steps[k].c[id].fact.occurredAt) != day) &&
       (id in Last(steps) ==> DayOf(Last(steps)[id].fact.occurredAt) != day))
  {
    hide Covers, DayOf, RegularSteps;
    if Version(steps[k].c, id) != Version(Last(steps), id) {
      if id in steps[k].c {
        OldVersionLeaves(st, steps, k, id);
      }
      var m := NewVersionArrives(steps, k, id);
      assert SettledAt(st, steps, m, id);
      assert Version(steps[m + 1].c, id) == Version(Last(steps), id);
    }
  }

  lemma WrittenIsLast(st: Store, steps: seq<Step>, k: nat, key: AggregateKey)
    requires RegularSteps(steps) && Settled(st, steps) && LastCover(steps, k, key.day)
    ensures SameRow(Written(steps[k]), Aggregated(Present(Last(steps), StepDays(steps))), key)
  {
    var one, two := Present(steps[k].c, Days(steps[k].w)), Present(Last(steps), StepDays(steps));
    CoversDays(steps[k].w, key.day);
    assert key.day in StepDays(steps);
    forall id: nat
      ensures (id in one && DayOf(one[id].occurredAt) == key.day) <==>
        (id in two && DayOf(two[id].occurredAt) == key.day)
      ensures id in one && DayOf(one[id].occurredAt) == key.day ==> one[id] == two[id]
    {
      LastFactsOfDay(st, steps, k, key.day, id);
      hide Settled, RegularSteps, Days, StepDays, DayOf, LastCover;
    }
    hide Aggregated, Present;
    DayIsLocal(one, two, key);
  }

  lemma FinalRow(st: Store, steps: seq<Step>, key: AggregateKey)
    requires RegularSteps(steps) && Settled(st, steps) && steps != []
    ensures SameRow(RunSteps(st, steps).aggregates, Rebuilt(st, Last(steps), StepDays(steps)).aggregates, key)
  {
    RowAfter(st, steps, key);
    StepDaysCovered(steps, key.day);
    hide RunSteps, Rebuilt, Aggregated, Present, StepDays, Settled, RegularSteps, Covers;
    RebuiltRow(st, Last(steps), StepDays(steps), key);
    if CoveredFrom(steps, 0, key.day) {
      var k := LastCoverExists(steps, 0, key.day);
      WrittenIsLast(st, steps, k, key);
    }
  }

  /** Refreshes of a changing source leave what one rebuild from the last source
      would, provided that whenever a source row changes its old and its new day
      are refreshed once more. */
  lemma ChangesAreCaughtUp(st: Store, steps: seq<Step>)
    requires RegularSteps(steps) && Settled(st, steps) && steps != []
    ensures RunSteps(st, steps) == Rebuilt(st, Last(steps), StepDays(steps))
  {
    hide RunSteps, RebuiltFacts, Aggregated, Present, StepDays, Settled, RegularSteps;
    var one, two := RunSteps(st, steps), Rebuilt(st, Last(steps), StepDays(steps));
    forall id: nat
      ensures (id in one.facts <==> id in two.facts) && (id in one.facts ==> one.facts[id] == two.facts[id])
    {
      FinalFact(st, steps, id);
    }
    forall key: AggregateKey ensures SameRow(one.aggregates, two.aggregates, key) {
      FinalRow(st, steps, key);
    }
    hide Rebuilt;
    SameTables(one, two);
  }

  lemma SameTables(one: Store, two: Store)
    requires forall id: nat :: id in one.facts <==> id in two.facts
    requires forall id: nat :: id in one.facts && id in two.facts ==> one.facts[id] == two.facts[id]
    requires forall key :: SameRow(one.aggregates, two.aggregates, key)
    ensures one == two
  {
    assert one.facts == two.facts;
    forall key: AggregateKey
      ensures (key in one.aggregates <==> key in two.aggregates) &&
        (key in one.aggregates ==> one.aggregates[key] == two.aggregates[key])
    {
      assert SameRow(one.aggregates, two.aggregates, key);
    }
    assert one.aggregates == two.aggregates;
  }
}
