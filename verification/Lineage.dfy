/** Where the facts come from, and what is said of the warehouse as a whole
    after a refresh (the end of `execute_refresh`). */
module Lineage {
  import opened Wrappers
  import opened Facts
  import opened Rebuild
  import opened Sums

  const TRANSFORMATION_VERSION := "2c.1"

  datatype LineageKey = LineageKey(fact: nat, table: string, record: string)

  datatype LineageRow = LineageRow(batch: Option<Id>, version: string, transformation: string, job: nat)

  type LineageTable = map<LineageKey, LineageRow>

  function KeyFor(id: nat, f: Fact): LineageKey {
    LineageKey(id, f.origin.table, f.origin.record)
  }

  function RowFor(f: Fact, job: nat): LineageRow {
    LineageRow(f.origin.batch, f.origin.version, TRANSFORMATION_VERSION, job)
  }

  /** Delete the rows of the facts that the window held before. */
  function Forgotten(t: LineageTable, before: FactTable, w: Window): LineageTable {
    map key | key in t && key.fact !in InWindow(before, w) :: t[key]
  }

  /** The rows of the facts in the window, as this job writes them. */
  function Recorded(after: FactTable, w: Window, job: nat): LineageTable {
    map id | id in InWindow(after, w) :: KeyFor(id, after[id]) := RowFor(after[id], job)
  }

  function Traced(t: LineageTable, before: FactTable, after: FactTable, w: Window, job: nat): LineageTable {
    Forgotten(t, before, w) + Recorded(after, w, job)
  }

  /** No row names a fact that is not there. */
  ghost predicate Anchored(t: LineageTable, facts: FactTable) {
    forall key :: key in t ==> key.fact in facts
  }

  /** Every fact in the window is traced to its present origin by this job. */
  ghost predicate TracedTo(t: LineageTable, facts: FactTable, w: Window, job: nat) {
    forall id :: id in InWindow(facts, w) ==>
      KeyFor(id, facts[id]) in t && t[KeyFor(id, facts[id])] == RowFor(facts[id], job)
  }

  /** A refresh leaves no dangling lineage and traces every fact that it loaded
      into the window; the lineage of facts outside the window stays. */
  lemma RefreshTraces(t: LineageTable, st: Store, c: Candidates, w: Window, job: nat)
    requires Anchored(t, st.facts)
    ensures var facts := Refreshed(st, c, w).facts;
      var t' := Traced(t, st.facts, facts, w, job);
      Anchored(t', facts) && TracedTo(t', facts, w, job) &&
      (forall id :: id in facts && w.start <= facts[id].occurredAt < w.end ==>
        var key := LineageKey(id, facts[id].origin.table, facts[id].origin.record);
        key in t' && t'[key] == LineageRow(facts[id].origin.batch, facts[id].origin.version, "2c.1", job)) &&
      (forall key :: key in t' && key !in t ==>
        (key.fact in facts && w.start <= facts[key.fact].occurredAt < w.end &&
         key.table == facts[key.fact].origin.table && key.record == facts[key.fact].origin.record)) &&
      forall key :: key in t && key.fact !in InWindow(st.facts, w) && key.fact !in InWindow(facts, w) ==>
        key in t' && t'[key] == t[key]
  {
    hide *;
    var facts := Refreshed(st, c, w).facts;
    FactsKept(st, c, w);
    TracedRows(t, st.facts, facts, w, job);
    TracedFields(t, st.facts, facts, w, job);
  }

  lemma TracedRows(t: LineageTable, before: FactTable, after: FactTable, w: Window, job: nat)
    requires Anchored(t, before) && forall id :: id in before && id !in InWindow(before, w) ==> id in after
    ensures var t' := Traced(t, before, after, w, job);
      Anchored(t', after) && TracedTo(t', after, w, job) &&
      forall key :: key in t && key.fact !in InWindow(before, w) && key.fact !in InWindow(after, w) ==>
        key in t' && t'[key] == t[key]
  {
    hide InWindow;
    var t' := Traced(t, before, after, w, job);
    WindowFacts(after, w);
    forall id | id in InWindow(after, w)
      ensures KeyFor(id, after[id]) in t' && t'[KeyFor(id, after[id])] == RowFor(after[id], job)
    {
      assert KeyFor(id, after[id]) in Recorded(after, w, job);
    }
  }

  /** What is recorded of a fact in the window, and that nothing else is. */
  lemma TracedFields(t: LineageTable, before: FactTable, after: FactTable, w: Window, job: nat)
    ensures var t' := Traced(t, before, after, w, job);
      (forall id :: id in after && w.start <= after[id].occurredAt < w.end ==>
        var key := LineageKey(id, after[id].origin.table, after[id].origin.record);
        key in t' && t'[key] == LineageRow(after[id].origin.batch, after[id].origin.version, "2c.1", job)) &&
      (forall key :: key in t' && key !in t ==>
        (key.fact in after && w.start <= after[key.fact].occurredAt < w.end &&
         key.table == after[key.fact].origin.table && key.record == after[key.fact].origin.record))
  {
    var recorded := Recorded(after, w, job);
    forall id | id in after && w.start <= after[id].occurredAt < w.end
      ensures var key := LineageKey(id, after[id].origin.table, after[id].origin.record);
        key in recorded && recorded[key] == LineageRow(after[id].origin.batch, after[id].origin.version, "2c.1", job)
    {
      assert id in InWindow(after, w) && KeyFor(id, after[id]) in recorded;
    }
  }

  lemma WindowFacts(facts: FactTable, w: Window)
    ensures InWindow(facts, w).Keys <= facts.Keys
  {
  }

  lemma FactsKept(st: Store, c: Candidates, w: Window)
    ensures forall id :: id in st.facts && id !in InWindow(st.facts, w) ==> id in Refreshed(st, c, w).facts
  {
    hide Aggregated, Loaded;
  }

  // ---------------------------------------------------------------- the quality score

  ghost function Scores(facts: FactTable): (r: map<nat, real>)
    ensures r.Keys == set id | id in facts && facts[id].score.Some?
  {
    map id | id in facts && facts[id].score.Some? :: facts[id].score.value
  }

  /** The average score of the data-quality facts, if there are any. */
  ghost function QualityOf(facts: FactTable): Option<real> {
    var scores := Scores(facts);
    if scores.Keys == {} then None else Some(Sum(scores, scores.Keys) / |scores.Keys| as real)
  }

  /** There is a score exactly if some fact carries one, and it is their mean. */
  lemma QualityIsAverage(facts: FactTable)
    ensures QualityOf(facts) == None <==> forall id :: id in facts ==> facts[id].score == None
    ensures forall id :: id in Scores(facts) <==> id in facts && facts[id].score.Some?
    ensures forall id :: id in Scores(facts) ==> facts[id].score == Some(Scores(facts)[id])
    ensures QualityOf(facts).Some? ==>
      QualityOf(facts).value * |Scores(facts).Keys| as real == Sum(Scores(facts), Scores(facts).Keys)
  {
    var n := |Scores(facts).Keys| as real;
    if id :| id in facts && facts[id].score.Some? {
      assert id in Scores(facts).Keys;
    }
    hide Sum;
    if n > 0.0 {
      Mean(Sum(Scores(facts), Scores(facts).Keys), n);
    }
  }

  lemma Mean(total: real, n: real)
    requires n > 0.0
    ensures total / n * n == total
  {
  }

  method Quality(facts: FactTable) returns (r: Option<real>)
    ensures r == QualityOf(facts)
  {
    hide Sum;
    var scored := set id | id in facts && facts[id].score.Some?;
    var total, count, rest := 0.0, 0, scored;
    ghost var scores := Scores(facts);
    NoScores(scores);
    assert scored - rest == {};
    while rest != {}
      invariant rest <= scored == scores.Keys && count == |scored - rest|
      invariant total == Sum(scores, scored - rest)
      decreases rest
    {
      var id :| id in rest;
      SumInsert(scores, scored - rest, id);
      assert scored - (rest - {id}) == scored - rest + {id};
      rest := rest - {id};
      total, count := total + facts[id].score.value, count + 1;
    }
    assert scored - rest == scored;
    return if count == 0 then None else Some(total / count as real);
  }

  lemma NoScores(scores: map<nat, real>)
    ensures Sum(scores, {}) == 0.0
  {
  }
}
