/** A run in which a request is served a mixture of two versions: the net
    revenue of one day over a channel, compared with the day before. */
module TornAnswer {
  import opened Wrappers
  import opened Payloads
  import opened Facts
  import opened Filters
  import opened Snapshot
  import Dimensions
  import opened KpiCache
  import opened KpiMeasures

  const ONE_DAY := Filters(1, 1, None, None, None, None, None, None, None, Some("web"))

  function Everything(dimensions: Dimensions.Table): Access {
    Access((_, _) => true, _ => {}, _ => {})
  }

  function RevenueFormula(p: Payload): Option<real> {
    Some(Get(p, NetRevenue))
  }

  /** Any function does for the square root: there are no prices. */
  function Root(x: real): real {
    x
  }

  /** The question over the measures of the composed snapshot. */
  ghost function Revenue(): Question {
    KpiQuestion(ONE_DAY, Everything, Root, RevenueFormula, false)
  }

  function RevenueKey(day: int): AggregateKey {
    AggregateKey(day, Channel, None, None, None, None, None, Some("web"))
  }

  function RevenueTable(day: int, x: real): AggregateTable {
    map[RevenueKey(day) := AggregateRow(map[NetRevenue := x], 0)]
  }

  /** The same revenue on both days. */
  function RevenueData(x: real): Data {
    Data(RevenueTable(0, x) + RevenueTable(1, x), map[])
  }

  lemma RevenuePlan()
    ensures Sections(ONE_DAY) == [(ONE_DAY, Channel)] && |Plan(Revenue())| == 2 && GrainOf(ONE_DAY).Ok?
    ensures Plan(Revenue())[0] == (ONE_DAY, Channel) && Plan(Revenue())[1] == (PreviousWindow(ONE_DAY), Channel)
    ensures PreviousWindow(ONE_DAY) == ONE_DAY.(fromDay := 0, toDay := 0)
    ensures Revenue().filters == ONE_DAY && Revenue().access == Everything && !Revenue().bypass
    ensures Sections(PreviousWindow(ONE_DAY)) == [(PreviousWindow(ONE_DAY), Channel)]
  {
  }

  lemma RevenueRows(x: real, i: nat)
    requires i < 2
    ensures |Plan(Revenue())| == 2
    ensures Rows(Revenue(), i, RevenueData(x)) == RevenueTable(1 - i, x)
    ensures !Refused(Revenue(), i, RevenueData(x))
  {
    RevenuePlan();
    hide Plan, Sections, GrainOf, PreviousWindow, Revenue;
    var rows := Rows(Revenue(), i, RevenueData(x));
    forall key ensures key in rows <==> key == RevenueKey(1 - i) {
    }
    assert rows == RevenueTable(1 - i, x);
    assert rows.Keys == {RevenueKey(1 - i)};
  }

  /** The composed measures of one revenue row report its revenue. */
  lemma RevenueReported(f: Filters, day: int, x: real)
    requires f == ONE_DAY || f == PreviousWindow(ONE_DAY)
    ensures Get(MeasuresFrom(f, [RevenueTable(day, x)], Root), NetRevenue) == x
  {
    var t, rows := RevenueTable(day, x), [RevenueTable(day, x)];
    RevenuePlan();
    var p := MeasuresFrom(f, rows, Root);
    SectionedRow(f, rows);
    ChannelOnly(f);
    var freshness := OnlyOwn(f, rows, p);
    hide *;
    OwnRevenue(f, t, freshness);
    RevenueTotal(day, x);
  }

  lemma SectionedRow(f: Filters, rows: seq<AggregateTable>)
    requires f == ONE_DAY || f == PreviousWindow(ONE_DAY)
    requires |rows| == 1
    ensures Sectioned(f, rows)
  {
    RevenuePlan();
    hide Sections, PreviousWindow;
  }

  lemma ChannelOnly(f: Filters)
    requires f == ONE_DAY || f == PreviousWindow(ONE_DAY)
    ensures !HasProducts(f) && !HasSuppliers(f) && GrainRead(f) == Channel
  {
  }

  lemma OnlyOwn(f: Filters, rows: seq<AggregateTable>, p: Payload) returns (freshness: Option<int>)
    requires Sectioned(f, rows) && !HasProducts(f) && !HasSuppliers(f) && IsSnapshot(f, rows, 0, Root, p)
    ensures p == Own(f, rows, freshness, 0, Root)
  {
    hide Own, IsFreshness, Sections;
    var at, q, s :| IsComposed(f, rows, 0, Root, p, at, q, s);
    freshness := at;
  }

  lemma OwnRevenue(f: Filters, t: AggregateTable, freshness: Option<int>)
    requires GrainRead(f) == Channel && Sectioned(f, [t])
    ensures Get(Own(f, [t], freshness, 0, Root), NetRevenue) == Get(Total(MeasuresOf(t), t.Keys), NetRevenue)
  {
    hide Finished, Base, MeasuresOf, Sections;
    ReportedFlow(t, freshness, Channel, 0, Root, NetRevenue);
  }

  lemma RevenueTotal(day: int, x: real)
    ensures var t := RevenueTable(day, x); Get(Total(MeasuresOf(t), t.Keys), NetRevenue) == x
  {
    var t := RevenueTable(day, x);
    assert t.Keys == {RevenueKey(day)};
    TotalSingleton(MeasuresOf(t), RevenueKey(day));
  }

  lemma RevenueValue(f: Filters, day: int, x: real)
    requires f == ONE_DAY || f == PreviousWindow(ONE_DAY)
    ensures WindowValue(Revenue(), f, [RevenueTable(day, x)]) == Some(x)
  {
    RevenueReported(f, day, x);
    assert RevenueKey(day) in RevenueTable(day, x);
    hide PreviousWindow, MeasuresFrom;
  }

  lemma TwoWindows(q: Question, rows: seq<AggregateTable>)
    requires !q.bypass && |Sections(q.filters)| == 1 && |rows| == |Plan(q)| == 2
    ensures var a := Answered(q, 0, rows, None);
      a.value == WindowValue(q, q.filters, rows[..1]) &&
      a.comparison == WindowValue(q, PreviousWindow(q.filters), rows[1..])
  {
    hide Plan, Variation, PreviousWindow, WindowValue, Sections;
  }

  lemma RevenueAnswer(x: real, y: real)
    ensures |Plan(Revenue())| == 2
    ensures var rows := [Rows(Revenue(), 0, RevenueData(x)), Rows(Revenue(), 1, RevenueData(y))];
      var a := Answered(Revenue(), 0, rows, None);
      a.value == Some(x) && a.comparison == Some(y)
  {
    hide *;
    RevenueRows(x, 0);
    RevenueRows(y, 1);
    RevenuePlan();
    RevenueValue(ONE_DAY, 1, x);
    RevenueValue(PreviousWindow(ONE_DAY), 0, y);
    var rows := [Rows(Revenue(), 0, RevenueData(x)), Rows(Revenue(), 1, RevenueData(y))];
    assert rows[..1] == [RevenueTable(1, x)] && rows[1..] == [RevenueTable(0, y)];
    TwoWindows(Revenue(), rows);
  }

  lemma RevenueRecomputed(x: real, target: Option<real>)
    ensures var a := Recomputed(Revenue(), 0, RevenueData(x), target); a.value == Some(x) && a.comparison == Some(x)
  {
    hide Plan, Rows, Answered, Revenue;
    RevenueAnswer(x, x);
    var rows := [Rows(Revenue(), 0, RevenueData(x)), Rows(Revenue(), 1, RevenueData(x))];
    assert RowsUpTo(Revenue(), RevenueData(x), |Plan(Revenue())|) == rows;
    AnswerParts(Revenue(), 0, rows, None, target);
  }

  lemma TornIsTorn(qs: Questions)
    requires qs("revenue") == Revenue()
    ensures |Plan(Revenue())| == 2
    ensures IsTorn(qs, TornState(Revenue(), "revenue", RevenueData(1.0), RevenueData(2.0), 10), 1)
  {
    hide Plan, Rows, Answered, Recomputed, RevenueData, Revenue;
    RevenueAnswer(1.0, 2.0);
    var s := TornState(Revenue(), "revenue", RevenueData(1.0), RevenueData(2.0), 10);
    forall v, target | 0 <= v < |s.history|
      ensures s.requests[1].entry.answer.(cacheStatus := Miss)
           != Recomputed(Revenue(), 0, s.history[v], target).(cacheStatus := Miss)
    {
      RevenueRecomputed(1.0, target);
      RevenueRecomputed(2.0, target);
    }
  }

  /** A hit can mix two versions of the composed measures and match the
      recomputation at neither of them. */
  lemma TornHit()
    ensures exists qs: Questions, data, actions, id ::
      qs("revenue") == Revenue() && IsTorn(qs, Run(qs, Initial(data), actions), id)
  {
    hide *;
    var qs: Questions := _ => Revenue();
    var first, later := RevenueData(1.0), RevenueData(2.0);
    RevenueRows(1.0, 0);
    RevenueRows(2.0, 1);
    RevenuePlan();
    TornRuns(qs, "revenue", first, later);
    TornIsTorn(qs);
    assert IsTorn(qs, Run(qs, Initial(first), TornRun("revenue", later)), 1);
  }
}
