/** The price variance of a snapshot.

    Price facts carry the price, its square and a count of one.  These three
    moments survive aggregation, so the variance that a query computes from
    aggregate rows is the population variance of the individual prices.
 */
module Prices {
  import opened Wrappers
  import opened Payloads
  import opened Facts
  import opened Sums
  import opened Snapshot

  function Square(x: real): real {
    x * x
  }

  /** The three moment measures of the price loader. */
  ghost predicate IsPrice(p: Payload, price: real) {
    Get(p, PriceValue) == price && Get(p, PriceCount) == 1.0 && Get(p, PriceValueSquared) == Square(price)
  }

  ghost predicate NoPrice(p: Payload) {
    Get(p, PriceValue) == 0.0 && Get(p, PriceCount) == 0.0 && Get(p, PriceValueSquared) == 0.0
  }

  /** `prices` gives the price of every price fact. */
  ghost predicate PriceFacts(t: map<nat, Payload>, prices: map<nat, real>) {
    prices.Keys <= t.Keys &&
    forall id :: id in t ==> if id in prices then IsPrice(t[id], prices[id]) else NoPrice(t[id])
  }

  ghost function Deviations<K>(prices: map<K, real>, c: real): (d: map<K, real>)
    ensures d.Keys == prices.Keys
  {
    map id | id in prices :: Square(prices[id] - c)
  }

  /** The two-pass definition: the mean squared deviation from the mean. */
  ghost function PopulationVariance<K>(prices: map<K, real>, s: set<K>): real
    requires s <= prices.Keys && s != {}
  {
    var n := |s| as real;
    var mean := Sum(prices, s) / n;
    Sum(Deviations(prices, mean), s) / n
  }

  ghost function Squares(prices: map<nat, real>): (q: map<nat, real>)
    ensures q.Keys == prices.Keys
  {
    map id | id in prices :: Square(prices[id])
  }

  ghost function Ones(prices: map<nat, real>): (q: map<nat, real>)
    ensures q.Keys == prices.Keys
  {
    map id | id in prices :: 1.0
  }

  lemma {:induction false} SumOfOnes(prices: map<nat, real>, s: set<nat>)
    requires s <= prices.Keys
    ensures Sum(Ones(prices), s) == |s| as real
    decreases s
  {
    if s == {} {
    } else {
      SumOfOnes(prices, s - {Pick(s)});
    }
  }

  /** A measure that only some facts carry: its total is their sum. */
  lemma {:induction false} Moment(t: map<nat, Payload>, w: map<nat, real>, s: set<nat>, m: Measure)
    requires s <= t.Keys
    requires forall id :: id in s ==> Get(t[id], m) == if id in w then w[id] else 0.0
    ensures Get(Total(t, s), m) == Sum(w, s * w.Keys)
    decreases s
  {
    if s == {} {
      assert s * w.Keys == {};
    } else {
      var k := Pick(s);
      Moment(t, w, s - {k}, m);
      TotalGet(t, s, k, m);
      hide Total, Get;
      if k in w {
        assert (s - {k}) * w.Keys == s * w.Keys - {k};
        SumRemove(w, s * w.Keys, k);
      } else {
        assert (s - {k}) * w.Keys == s * w.Keys;
      }
    }
  }

  /** The total of any facts holds count, sum and sum of squares of their prices. */
  lemma Moments(t: map<nat, Payload>, prices: map<nat, real>, s: set<nat>)
    requires PriceFacts(t, prices) && s <= t.Keys
    ensures var p := s * prices.Keys;
      Get(Total(t, s), PriceCount) == |p| as real &&
      Get(Total(t, s), PriceValue) == Sum(prices, p) &&
      Get(Total(t, s), PriceValueSquared) == Sum(Squares(prices), p)
  {
    forall id | id in t ensures if id in prices then IsPrice(t[id], prices[id]) else NoPrice(t[id]) {
    }
    hide Total, Sum, Get, Square;
    Moment(t, prices, s, PriceValue);
    Moment(t, Squares(prices), s, PriceValueSquared);
    Moment(t, Ones(prices), s, PriceCount);
    SumOfOnes(prices, s * prices.Keys);
  }

  /** n squared deviations from c, from the moments. */
  function Expanded(squares: real, total: real, n: real, c: real): real {
    squares - 2.0 * (c * total) + (c * c) * n
  }

  lemma ExpandOne(x: real, squares: real, total: real, n: real, c: real)
    ensures Expanded(squares + Square(x), total + x, n + 1.0, c) == Expanded(squares, total, n, c) + Square(x - c)
  {
    assert c * (total + x) == c * total + c * x;
    assert (c * c) * (n + 1.0) == (c * c) * n + c * c;
    assert (x - c) * (x - c) == x * x - 2.0 * (c * x) + c * c;
  }

  lemma {:induction false} SquaredDeviations(prices: map<nat, real>, s: set<nat>, c: real)
    requires s <= prices.Keys
    ensures Sum(Deviations(prices, c), s) == Expanded(Sum(Squares(prices), s), Sum(prices, s), |s| as real, c)
    decreases s
  {
    if s == {} {
      assert Expanded(0.0, 0.0, 0.0, c) == 0.0;
    } else {
      hide Expanded, Square;
      var k := Pick(s);
      SquaredDeviations(prices, s - {k}, c);
      SumRemove(prices, s, k);
      SumRemove(Squares(prices), s, k);
      SumRemove(Deviations(prices, c), s, k);
      ExpandOne(prices[k], Sum(Squares(prices), s - {k}), Sum(prices, s - {k}), |s - {k}| as real, c);
      hide Sum;
    }
  }

  lemma TotalGet(t: map<nat, Payload>, s: set<nat>, k: nat, m: Measure)
    requires k in s && s <= t.Keys
    ensures Get(Total(t, s), m) == Get(t[k], m) + Get(Total(t, s - {k}), m)
  {
    TotalRemove(t, s, k);
  }

  lemma SquareNonNegative(x: real)
    ensures Square(x) >= 0.0
  {
  }

  lemma {:induction false} DeviationsNonNegative(prices: map<nat, real>, s: set<nat>, c: real)
    requires s <= prices.Keys
    ensures Sum(Deviations(prices, c), s) >= 0.0
    decreases s
  {
    if s == {} {
    } else {
      var k := Pick(s);
      SquareNonNegative(prices[k] - c);
      DeviationsNonNegative(prices, s - {k}, c);
    }
  }

  /** With the mean for c, the deviations divided by n are the one-pass formula. */
  lemma OnePass(squares: real, total: real, n: real)
    requires n > 0.0
    ensures var mean := total / n; Expanded(squares, total, n, mean) / n == squares / n - mean * mean
  {
    var mean := total / n;
    assert mean * n == total;
    assert (mean * mean) * n == mean * (mean * n);
    assert Expanded(squares, total, n, mean) == squares - mean * total;
    Divide(squares, mean * total, n);
    assert mean * total == (mean * mean) * n;
    assert (mean * mean) * n / n == mean * mean;
  }

  lemma Divide(a: real, b: real, n: real)
    requires n > 0.0
    ensures (a - b) / n == a / n - b / n
  {
  }

  lemma NonNegativeQuotient(a: real, n: real)
    requires n > 0.0 && a >= 0.0
    ensures a / n >= 0.0
  {
  }

  /** Over facts: the one-pass formula is the two-pass variance, and its clamp never bites. */
  lemma VarianceOfFacts(t: map<nat, Payload>, prices: map<nat, real>, s: set<nat>)
    requires PriceFacts(t, prices) && s <= t.Keys && s * prices.Keys != {}
    ensures Get(Total(t, s), PriceCount) == |s * prices.Keys| as real > 0.0
    ensures RawVariance(Total(t, s)) == PopulationVariance(prices, s * prices.Keys) >= 0.0
  {
    hide Total, Sum, Get, PriceFacts, Deviations, Squares, Expanded;
    var p, all := s * prices.Keys, Total(t, s);
    var n, mean := |p| as real, Sum(prices, p) / |p| as real;
    assert |p| > 0;
    Moments(t, prices, s);
    SquaredDeviations(prices, p, mean);
    DeviationsNonNegative(prices, p, mean);
    NonNegativeQuotient(Sum(Deviations(prices, mean), p), n);
    OnePass(Get(all, PriceValueSquared), Sum(prices, p), n);
  }

  // ---------------------------------------------------------------- over aggregate rows

  /** The facts behind some rows of a grain. */
  ghost function FactsBehind(facts: FactTable, t: AggregateTable): set<nat> {
    set id | id in facts && exists key :: key in t && id in Contributors(facts, key)
  }

  /** `t` is made of rows of one grain. */
  ghost predicate RowsOfGrain(facts: FactTable, g: Grain, t: AggregateTable) {
    t.Keys <= GroupBy(facts, g).Keys && forall key :: key in t ==> t[key] == GroupBy(facts, g)[key]
  }

  lemma PricesAreFlows()
    ensures !PointInTime(PriceValue) && !PointInTime(PriceCount) && !PointInTime(PriceValueSquared)
  {
  }

  /** Any rows of one grain hold the numbers of the facts behind them. */
  lemma RowsHoldTheirFacts(facts: FactTable, g: Grain, t: AggregateTable)
    requires RowsOfGrain(facts, g, t)
    ensures Total(MeasuresOf(t), t.Keys) == Total(NumbersTable(facts), FactsBehind(facts, t))
  {
    hide KeyOf, Numbers, GroupBy;
    var s, keys := FactsBehind(facts, t), KeyMap(facts, g);
    forall key | key in t ensures key.grain == g && Fibre(s, keys, key) == Contributors(facts, key) {
      GroupByRow(facts, g, key);
    }
    GroupingConserves(NumbersTable(facts), s, keys, t.Keys);
    forall key | key in t ensures MeasuresOf(t)[key] == GroupTotals(NumbersTable(facts), s, keys, t.Keys)[key] {
      GroupByRow(facts, g, key);
    }
    TotalFrame(MeasuresOf(t), GroupTotals(NumbersTable(facts), s, keys, t.Keys), t.Keys);
  }

  /** The price deviation that a snapshot reports is that of the prices behind
      its rows, however they were spread over days, scopes and rows; the
      variance is not negative before it is clamped. */
  lemma SnapshotDeviation(facts: FactTable, g: Grain, t: AggregateTable, prices: map<nat, real>, freshness: Option<int>,
                          now: int, root: real -> real)
    requires RowsOfGrain(facts, g, t)
    requires PriceFacts(NumbersTable(facts), prices)
    requires FactsBehind(facts, t) * prices.Keys != {}
    ensures var base := Base(t);
      var r := Finished(base, Total(PointTable(t), t.Keys), |DatesOf(t.Keys)|, freshness, g, now, root);
      var variance := PopulationVariance(prices, FactsBehind(facts, t) * prices.Keys);
      Get(base, PriceCount) > 0.0 && RawVariance(base) == variance >= 0.0 &&
      PriceStddev in r && r[PriceStddev] == root(variance)
  {
    hide *;
    PricesAreFlows();
    RowsHoldTheirFacts(facts, g, t);
    FlowOfBase(t, PriceValue);
    FlowOfBase(t, PriceCount);
    FlowOfBase(t, PriceValueSquared);
    BehindAreFacts(facts, t);
    VarianceOfFacts(NumbersTable(facts), prices, FactsBehind(facts, t));
    SameMomentsSameVariance(Base(t), Total(MeasuresOf(t), t.Keys));
    ClampIsIdle(Base(t));
    ReportedDeviation(Base(t), Total(PointTable(t), t.Keys), |DatesOf(t.Keys)|, freshness, g, now, root);
  }

  lemma ClampIsIdle(p: Payload)
    requires Get(p, PriceCount) != 0.0 && RawVariance(p) >= 0.0
    ensures PriceVariance(p) == RawVariance(p)
  {
  }

  lemma SameMomentsSameVariance(p: Payload, q: Payload)
    requires Get(p, PriceCount) == Get(q, PriceCount) != 0.0
    requires Get(p, PriceValue) == Get(q, PriceValue) && Get(p, PriceValueSquared) == Get(q, PriceValueSquared)
    ensures RawVariance(p) == RawVariance(q)
  {
  }

  lemma BehindAreFacts(facts: FactTable, t: AggregateTable)
    ensures FactsBehind(facts, t) <= facts.Keys
  {
  }
}
