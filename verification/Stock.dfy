/** Stock cover and demand from the product rows (`_dimension_derived_measures`). */
module Stock {
  import opened Wrappers
  import opened Payloads
  import opened Facts
  import opened Filters
  import opened Sorting
  import opened Prices

  datatype StockKey = StockKey(company: Option<Id>, branch: Option<Id>, product: Id)

  function StockOf(key: AggregateKey): Option<StockKey> {
    if key.product.Some? then Some(StockKey(key.company, key.branch, key.product.value)) else None
  }

  ghost function Stocks(keys: set<AggregateKey>): set<StockKey> {
    set key | key in keys && StockOf(key).Some? :: StockOf(key).value
  }

  /** No row of this stock among `keys` is later. */
  ghost predicate IsLastRow(keys: set<AggregateKey>, stock: StockKey, key: AggregateKey) {
    key in keys && StockOf(key) == Some(stock) && forall l :: l in keys && StockOf(l) == Some(stock) ==>
      l.day <= key.day
  }

  /** One latest row for every stock. */
  ghost predicate LatestRows(keys: set<AggregateKey>, latest: map<StockKey, AggregateKey>) {
    latest.Keys == Stocks(keys) && forall stock :: stock in latest ==> IsLastRow(keys, stock, latest[stock])
  }

  lemma LatestNext(done: set<AggregateKey>, latest: map<StockKey, AggregateKey>, key: AggregateKey)
    requires LatestRows(done, latest)
    ensures LatestRows(done + {key}, KeepRow(latest, key))
  {
    var more := done + {key};
    assert Stocks(more) == Stocks(done) + match StockOf(key) case None => {} case Some(stock) => {stock};
    forall stock | stock in latest ensures IsLastRow(done, stock, latest[stock]) {
    }
    hide Stocks;
  }

  /** The loop's dictionary after one more row: a later date replaces, an equal one does not. */
  function KeepRow(latest: map<StockKey, AggregateKey>, key: AggregateKey): map<StockKey, AggregateKey> {
    match StockOf(key)
    case None => latest
    case Some(stock) => if stock !in latest || key.day > latest[stock].day then latest[stock := key] else latest
  }

  /** What the loop keeps of the rows in this order. */
  function Kept(order: seq<AggregateKey>): map<StockKey, AggregateKey> {
    if order == [] then map[] else KeepRow(Kept(order[..|order| - 1]), order[|order| - 1])
  }

  /** The loop keeps, for every stock, the first row met with the latest date. */
  method KeepLatest(keys: set<AggregateKey>, order: seq<AggregateKey>) returns (latest: map<StockKey, AggregateKey>)
    requires Enumerates(order, keys)
    ensures latest == Kept(order) && LatestRows(keys, latest)
  {
    hide *;
    latest := map[];
    KeptNone();
    for i := 0 to |order|
      invariant latest == Kept(order[..i])
    {
      var key := order[i];
      KeptNext(order, i);
      var stock := StockOf(key);
      latest := if stock.Some? && (stock.value !in latest || key.day > latest[stock.value].day)
        then latest[stock.value := key] else latest;
    }
    assert order[..|order|] == order;
    KeptIsLatest(keys, order);
  }

  lemma KeptNone()
    ensures forall order: seq<AggregateKey> :: Kept(order[..0]) == map[]
  {
  }

  lemma KeptNext(order: seq<AggregateKey>, i: nat)
    requires i < |order|
    ensures var before, key := Kept(order[..i]), order[i];
      var stock := StockOf(key);
      Kept(order[..i + 1]) == (if stock.Some? && (stock.value !in before || key.day > before[stock.value].day)
                               then before[stock.value := key] else before)
    ensures Kept(order[..i + 1]) == KeepRow(Kept(order[..i]), order[i])
  {
    assert order[..i + 1][..i] == order[..i];
  }

  lemma {:induction false} KeptIsLatestSeen(keys: set<AggregateKey>, order: seq<AggregateKey>, i: nat)
    requires Enumerates(order, keys) && i <= |order|
    ensures LatestRows(Seen(order, i), Kept(order[..i]))
  {
    hide *;
    if i == 0 {
      KeptNone();
      NoRows(order);
    } else {
      KeptIsLatestSeen(keys, order, i - 1);
      SeenNext(order, keys, i - 1);
      KeptNext(order, i - 1);
      LatestNext(Seen(order, i - 1), Kept(order[..i - 1]), order[i - 1]);
    }
  }

  lemma KeptIsLatest(keys: set<AggregateKey>, order: seq<AggregateKey>)
    requires Enumerates(order, keys)
    ensures LatestRows(keys, Kept(order))
  {
    KeptIsLatestSeen(keys, order, |order|);
    SeenAll(order, keys);
    assert order[..|order|] == order;
  }

  lemma NoRows(order: seq<AggregateKey>)
    ensures LatestRows(Seen(order, 0), map[])
  {
  }

  // ---------------------------------------------------------------- when the latest row is determined

  /** No two rows of a stock share its latest day.  The stock's key leaves out
      the category, so a product listed under two categories has two such rows. */
  ghost predicate OneLastRow(keys: set<AggregateKey>) {
    forall stock, k, l :: IsLastRow(keys, stock, k) && IsLastRow(keys, stock, l) ==> k == l
  }

  ghost function LaterRows(keys: set<AggregateKey>, key: AggregateKey): set<AggregateKey> {
    set l | l in keys && StockOf(l) == StockOf(key) && key.day < l.day
  }

  lemma {:induction false} LastRowExists(keys: set<AggregateKey>, key: AggregateKey)
    requires key in keys && StockOf(key).Some?
    ensures exists l :: IsLastRow(keys, StockOf(key).value, l)
    decreases LaterRows(keys, key)
  {
    if LaterRows(keys, key) != {} {
      var l :| l in LaterRows(keys, key);
      assert LaterRows(keys, l) <= LaterRows(keys, key) && l !in LaterRows(keys, l);
      LastRowExists(keys, l);
    } else {
      forall l | l in keys && StockOf(l) == StockOf(key) ensures l.day <= key.day {
        assert l !in LaterRows(keys, key);
      }
      assert IsLastRow(keys, StockOf(key).value, key);
    }
  }

  ghost function SomeLast(keys: set<AggregateKey>, stock: StockKey): (key: AggregateKey)
    requires stock in Stocks(keys)
    ensures IsLastRow(keys, stock, key)
  {
    var k :| k in keys && StockOf(k) == Some(stock);
    LastRowExists(keys, k);
    var key :| IsLastRow(keys, stock, key);
    key
  }

  /** The rows that the loop keeps do not depend on the order exactly when no
      stock has two rows on its latest day. */
  lemma LatestIsDetermined(keys: set<AggregateKey>)
    ensures OneLastRow(keys) <==> forall a, b :: LatestRows(keys, a) && LatestRows(keys, b) ==> a == b
  {
    if OneLastRow(keys) {
      forall a, b | LatestRows(keys, a) && LatestRows(keys, b) ensures a == b {
        forall stock | stock in a ensures a[stock] == b[stock] {
          assert IsLastRow(keys, stock, a[stock]) && IsLastRow(keys, stock, b[stock]);
        }
      }
    } else {
      var stock, k, l :| IsLastRow(keys, stock, k) && IsLastRow(keys, stock, l) && k != l;
      var base := map s | s in Stocks(keys) :: SomeLast(keys, s);
      hide IsLastRow;
      assert stock in Stocks(keys) by { StockListed(keys, stock, k); }
      assert LatestRows(keys, base[stock := k]) && LatestRows(keys, base[stock := l]);
      assert base[stock := k][stock] != base[stock := l][stock];
    }
  }

  lemma StockListed(keys: set<AggregateKey>, stock: StockKey, key: AggregateKey)
    requires IsLastRow(keys, stock, key)
    ensures stock in Stocks(keys)
  {
  }

  // ---------------------------------------------------------------- every choice is made by some order

  /** The keys of a set in some order. */
  ghost function InSomeOrder(keys: set<AggregateKey>): (order: seq<AggregateKey>)
    ensures Enumerates(order, keys)
  {
    if keys == {} then [] else
    var k :| k in keys;
    var rest := InSomeOrder(keys - {k});
    InSomeOrderMore(rest, keys, k);
    rest + [k]
  }

  lemma InSomeOrderMore(rest: seq<AggregateKey>, keys: set<AggregateKey>, k: AggregateKey)
    requires k in keys && Enumerates(rest, keys - {k})
    ensures Enumerates(rest + [k], keys)
  {
    EnumeratesMore(rest, keys - {k}, k);
    assert keys - {k} + {k} == keys;
  }

  /** All rows of the choice first, then the others. */
  ghost function ChoiceFirst(keys: set<AggregateKey>, latest: map<StockKey, AggregateKey>): seq<AggregateKey> {
    InSomeOrder(latest.Values) + InSomeOrder(keys - latest.Values)
  }

  lemma ChoiceEnumerates(keys: set<AggregateKey>, latest: map<StockKey, AggregateKey>)
    requires LatestRows(keys, latest)
    ensures Enumerates(ChoiceFirst(keys, latest), keys)
  {
    var first, rest := InSomeOrder(latest.Values), InSomeOrder(keys - latest.Values);
    assert latest.Values <= keys;
    hide LatestRows, InSomeOrder;
    forall i, j | 0 <= i < |first| && 0 <= j < |rest| ensures first[i] != rest[j] {
      assert first[i] in first && rest[j] in rest;
    }
  }

  /** The stocks whose chosen row is among the first `i` of the order. */
  ghost function ChosenIn(order: seq<AggregateKey>, i: nat, latest: map<StockKey, AggregateKey>)
    : map<StockKey, AggregateKey>
    requires i <= |order|
  {
    map stock | stock in latest && latest[stock] in order[..i] :: latest[stock]
  }

  /** While the choice's rows come, each is kept. */
  lemma {:induction false} ChoiceIsKept(keys: set<AggregateKey>, latest: map<StockKey, AggregateKey>, i: nat)
    requires LatestRows(keys, latest) && i <= |InSomeOrder(latest.Values)|
    ensures Kept(InSomeOrder(latest.Values)[..i]) == ChosenIn(InSomeOrder(latest.Values), i, latest)
  {
    var order := InSomeOrder(latest.Values);
    hide InSomeOrder;
    if i == 0 {
      KeptNone();
      assert ChosenIn(order, 0, latest) == map[];
    } else {
      ChoiceIsKept(keys, latest, i - 1);
      KeptNext(order, i - 1);
      assert order[i - 1] in order;
      var stock :| stock in latest && latest[stock] == order[i - 1];
      assert IsLastRow(keys, stock, latest[stock]);
      hide Kept, LatestRows;
      ChosenNext(order, i, latest, stock);
    }
  }

  lemma ChosenNext(order: seq<AggregateKey>, i: nat, latest: map<StockKey, AggregateKey>, stock: StockKey)
    requires 0 < i <= |order| && stock in latest && latest[stock] == order[i - 1]
    requires forall a, b :: 0 <= a < b < |order| ==> order[a] != order[b]
    requires StockOf(order[i - 1]) == Some(stock)
    requires forall s :: s in latest ==> StockOf(latest[s]) == Some(s)
    ensures ChosenIn(order, i, latest) == KeepRow(ChosenIn(order, i - 1, latest), order[i - 1])
  {
  }

  /** Rows after the choice change nothing. */
  lemma {:induction false} ChoiceStays(keys: set<AggregateKey>, latest: map<StockKey, AggregateKey>,
                                       order: seq<AggregateKey>, n: nat, i: nat)
    requires LatestRows(keys, latest) && Enumerates(order, keys) && n <= i <= |order|
    requires Kept(order[..n]) == latest
    ensures Kept(order[..i]) == latest
  {
    if i <= n {
    } else {
      ChoiceStays(keys, latest, order, n, i - 1);
      KeptNext(order, i - 1);
      LaterRowIgnored(keys, latest, order[i - 1]);
    }
  }

  lemma LaterRowIgnored(keys: set<AggregateKey>, latest: map<StockKey, AggregateKey>, key: AggregateKey)
    requires LatestRows(keys, latest) && key in keys
    ensures KeepRow(latest, key) == latest
  {
    if StockOf(key).Some? {
      assert IsLastRow(keys, StockOf(key).value, latest[StockOf(key).value]);
    }
  }

  lemma AllChosen(order: seq<AggregateKey>, latest: map<StockKey, AggregateKey>)
    requires Enumerates(order, latest.Values)
    ensures ChosenIn(order, |order|, latest) == latest
  {
    assert order[..|order|] == order;
    forall stock | stock in latest ensures latest[stock] in order {
      assert latest[stock] in latest.Values;
    }
  }

  /** Every choice of latest rows is what the loop keeps in some order. */
  lemma EveryChoiceIsKept(keys: set<AggregateKey>, latest: map<StockKey, AggregateKey>)
    requires LatestRows(keys, latest)
    ensures exists order :: Enumerates(order, keys) && Kept(order) == latest
  {
    hide *;
    var first, order := InSomeOrder(latest.Values), ChoiceFirst(keys, latest);
    ChoiceEnumerates(keys, latest);
    ChoiceIsKept(keys, latest, |first|);
    ChoiceComesFirst(keys, latest);
    AllChosen(first, latest);
    assert first[..|first|] == first == order[..|first|] && order[..|order|] == order;
    ChoiceStays(keys, latest, order, |first|, |order|);
  }

  lemma ChoiceComesFirst(keys: set<AggregateKey>, latest: map<StockKey, AggregateKey>)
    ensures InSomeOrder(latest.Values) <= ChoiceFirst(keys, latest)
  {
  }

  /** What the loop keeps is the same for every order of the rows exactly when
      no stock has two rows on its latest day. */
  lemma OrderIsIrrelevant(keys: set<AggregateKey>)
    ensures OneLastRow(keys) <==>
      forall one, two :: Enumerates(one, keys) && Enumerates(two, keys) ==> Kept(one) == Kept(two)
  {
    hide Kept, LatestRows, OneLastRow, Enumerates;
    LatestIsDetermined(keys);
    if OneLastRow(keys) {
      forall one, two | Enumerates(one, keys) && Enumerates(two, keys) ensures Kept(one) == Kept(two) {
        KeptIsLatest(keys, one);
        KeptIsLatest(keys, two);
      }
    } else {
      var a, b :| LatestRows(keys, a) && LatestRows(keys, b) && a != b;
      EveryChoiceIsKept(keys, a);
      EveryChoiceIsKept(keys, b);
    }
  }

  predicate SameProductDay(f: Fact, f': Fact) {
    DayOf(f.occurredAt) == DayOf(f'.occurredAt) && f.product.Some? && f.product == f'.product
  }

  /** A product has one category on each day. */
  ghost predicate OneCategoryPerDay(facts: FactTable) {
    forall i, j :: i in facts && j in facts && SameProductDay(facts[i], facts[j]) ==>
      facts[i].category == facts[j].category
  }

  /** Then no stock has two product rows on a day, whatever rows a query selects. */
  lemma OneCategoryOneRow(facts: FactTable, keys: set<AggregateKey>)
    requires OneCategoryPerDay(facts) && keys <= GroupBy(facts, Product).Keys
    ensures OneLastRow(keys)
  {
    forall stock, k, l | IsLastRow(keys, stock, k) && IsLastRow(keys, stock, l) ensures k == l {
      SameStockSameRow(facts, k, l);
    }
  }

  lemma SameStockSameRow(facts: FactTable, k: AggregateKey, l: AggregateKey)
    requires OneCategoryPerDay(facts) && k in GroupBy(facts, Product) && l in GroupBy(facts, Product)
    requires k.day == l.day && StockOf(k).Some? && StockOf(k) == StockOf(l)
    ensures k == l
  {
    hide Numbers, GroupRow;
    KeysHaveContributors(facts, Product, k);
    KeysHaveContributors(facts, Product, l);
    var i :| i in Contributors(facts, k);
    var j :| j in Contributors(facts, l);
  }

  // ---------------------------------------------------------------- cover

  datatype Level = LowCover | ExcessStock | SlowMoving | NoSale

  /** Days of cover are what is available over the average daily sale. */
  predicate Has(level: Level, available: real, average: real) {
    match level
    case NoSale => average == 0.0 && available > 0.0
    case LowCover => average != 0.0 && available / average < 7.0
    case ExcessStock => if average == 0.0 then available > 0.0 else available / average > 90.0
    case SlowMoving => average != 0.0 && available / average > 60.0
  }

  ghost function StocksAt(level: Level, t: AggregateTable, latest: map<StockKey, AggregateKey>, sold: map<Id, real>,
                          days: real, stocks: set<StockKey>)
    : set<StockKey>
    requires stocks <= latest.Keys && latest.Values <= t.Keys && days > 0.0
  {
    set s | s in stocks && Has(level, Available(t, latest, s), Average(sold, days, s))
  }

  function Available(t: AggregateTable, latest: map<StockKey, AggregateKey>, s: StockKey): real
    requires s in latest && latest.Values <= t.Keys
  {
    Get(t[latest[s]].measures, InventoryAvailable)
  }

  function Average(sold: map<Id, real>, days: real, s: StockKey): real
    requires days > 0.0
  {
    (if s.product in sold then sold[s.product] else 0.0) / days
  }

  datatype Cover = Cover(low: nat, excess: nat, slow: nat, noSale: nat)

  ghost function CoverOf(t: AggregateTable, latest: map<StockKey, AggregateKey>, sold: map<Id, real>, days: real,
                         stocks: set<StockKey>): Cover
    requires stocks <= latest.Keys && latest.Values <= t.Keys && days > 0.0
  {
    Cover(|StocksAt(LowCover, t, latest, sold, days, stocks)|, |StocksAt(ExcessStock, t, latest, sold, days, stocks)|,
          |StocksAt(SlowMoving, t, latest, sold, days, stocks)|, |StocksAt(NoSale, t, latest, sold, days, stocks)|)
  }

  function Bit(b: bool): nat {
    if b then 1 else 0
  }

  lemma StocksAtNext(level: Level, t: AggregateTable, latest: map<StockKey, AggregateKey>, sold: map<Id, real>,
                     days: real, done: set<StockKey>, s: StockKey)
    requires done <= latest.Keys && latest.Values <= t.Keys && days > 0.0 && s in latest && s !in done
    ensures |StocksAt(level, t, latest, sold, days, done + {s})|
         == |StocksAt(level, t, latest, sold, days, done)| +
           Bit(Has(level, Available(t, latest, s), Average(sold, days, s)))
  {
    hide Has, Available, Average;
    var before := StocksAt(level, t, latest, sold, days, done);
    if Has(level, Available(t, latest, s), Average(sold, days, s)) {
      assert StocksAt(level, t, latest, sold, days, done + {s}) == before + {s};
    } else {
      assert StocksAt(level, t, latest, sold, days, done + {s}) == before;
    }
  }

  lemma CoverNext(t: AggregateTable, latest: map<StockKey, AggregateKey>, sold: map<Id, real>, days: real,
                  done: set<StockKey>, s: StockKey)
    requires done <= latest.Keys && latest.Values <= t.Keys && days > 0.0 && s in latest && s !in done
    ensures var c, a, u := CoverOf(t, latest, sold, days, done), Available(t, latest, s), Average(sold, days, s);
      CoverOf(t, latest, sold, days, done + {s}) ==
      Cover(c.low + Bit(Has(LowCover, a, u)), c.excess + Bit(Has(ExcessStock, a, u)),
            c.slow + Bit(Has(SlowMoving, a, u)), c.noSale + Bit(Has(NoSale, a, u)))
  {
    hide StocksAt, Has, Available, Average;
    StocksAtNext(LowCover, t, latest, sold, days, done, s);
    StocksAtNext(ExcessStock, t, latest, sold, days, done, s);
    StocksAtNext(SlowMoving, t, latest, sold, days, done, s);
    StocksAtNext(NoSale, t, latest, sold, days, done, s);
  }

  lemma NoCover(t: AggregateTable, latest: map<StockKey, AggregateKey>, sold: map<Id, real>, days: real)
    requires latest.Values <= t.Keys && days > 0.0
    ensures CoverOf(t, latest, sold, days, {}) == Cover(0, 0, 0, 0)
  {
    assert forall level :: StocksAt(level, t, latest, sold, days, {}) == {};
  }

  /** The counting loop; a stock without sales is left after the first two counters. */
  method CountCover(t: AggregateTable, latest: map<StockKey, AggregateKey>, sold: map<Id, real>,
                    days: real) returns (c: Cover)
    requires latest.Values <= t.Keys && days > 0.0
    ensures c == CoverOf(t, latest, sold, days, latest.Keys)
  {
    hide CoverOf, Available, Average;
    c := Cover(0, 0, 0, 0);
    NoCover(t, latest, sold, days);
    var rest := latest.Keys;
    assert latest.Keys - rest == {};
    while rest != {}
      invariant rest <= latest.Keys && c == CoverOf(t, latest, sold, days, latest.Keys - rest)
      decreases rest
    {
      var s :| s in rest;
      CoverNext(t, latest, sold, days, latest.Keys - rest, s);
      assert latest.Keys - (rest - {s}) == latest.Keys - rest + {s};
      rest := rest - {s};
      var available, average := Available(t, latest, s), Average(sold, days, s);
      if average == 0.0 {
        c := c.(noSale := c.noSale + Bit(available > 0.0), excess := c.excess + Bit(available > 0.0));
      } else {
        var coverage := available / average;
        c := c.(low := c.low + Bit(coverage < 7.0), slow := c.slow + Bit(coverage > 60.0),
                excess := c.excess + Bit(coverage > 90.0));
      }
    }
    assert latest.Keys - rest == latest.Keys;
  }

  lemma LevelsNest(available: real, average: real)
    ensures Has(NoSale, available, average) ==> Has(ExcessStock, available, average)
    ensures Has(ExcessStock, available, average) ==>
      Has(SlowMoving, available, average) || Has(NoSale, available, average)
    ensures !(Has(LowCover, available, average) && Has(SlowMoving, available, average))
    ensures Has(NoSale, available, average) ==>
      !Has(LowCover, available, average) && !Has(SlowMoving, available, average)
  {
  }

  /** The levels nest: stock without sales counts as excess, excess is slow or
      unsold, and no stock is both low and slow. */
  lemma CoverNests(t: AggregateTable, latest: map<StockKey, AggregateKey>, sold: map<Id, real>, days: real,
                   stocks: set<StockKey>)
    requires stocks <= latest.Keys && latest.Values <= t.Keys && days > 0.0
    ensures var c := CoverOf(t, latest, sold, days, stocks);
      c.noSale <= c.excess <= c.slow + c.noSale && c.low + c.slow + c.noSale <= |stocks|
  {
    var low, excess := StocksAt(LowCover, t, latest, sold, days, stocks),
      StocksAt(ExcessStock, t, latest, sold, days, stocks);
    var slow, noSale := StocksAt(SlowMoving, t, latest, sold, days, stocks),
      StocksAt(NoSale, t, latest, sold, days, stocks);
    forall s | s in stocks
      ensures s in noSale ==> s in excess && s !in low && s !in slow
      ensures s in excess ==> s in slow || s in noSale
      ensures s in low ==> s !in slow
    {
      LevelsNest(Available(t, latest, s), Average(sold, days, s));
      hide Has, Available, Average;
    }
    Nested(low, excess, slow, noSale, stocks);
    hide StocksAt;
  }

  lemma Nested(low: set<StockKey>, excess: set<StockKey>, slow: set<StockKey>, noSale: set<StockKey>,
               stocks: set<StockKey>)
    requires low <= stocks && excess <= stocks && slow <= stocks && noSale <= stocks
    requires noSale <= excess && excess <= slow + noSale && low !! slow && low !! noSale && slow !! noSale
    ensures |noSale| <= |excess| <= |slow| + |noSale| && |low| + |slow| + |noSale| <= |stocks|
  {
    SubsetSize(noSale, excess);
    SubsetSize(excess, slow + noSale);
    SubsetSize(low + slow + noSale, stocks);
  }

  // ---------------------------------------------------------------- when the cover is determined

  /** The level of cover that a row's stock available would give its stock. */
  predicate RowHas(level: Level, t: AggregateTable, sold: map<Id, real>, days: real, stock: StockKey, key: AggregateKey)
    requires days > 0.0 && key in t
  {
    Has(level, Get(t[key].measures, InventoryAvailable), Average(sold, days, stock))
  }

  /** All rows of a stock's latest day put it on the same levels of cover. */
  ghost predicate SameLevels(t: AggregateTable, sold: map<Id, real>, days: real)
    requires days > 0.0
  {
    forall stock, k, l, level :: IsLastRow(t.Keys, stock, k) && IsLastRow(t.Keys, stock, l) ==>
      (RowHas(level, t, sold, days, stock, k) <==> RowHas(level, t, sold, days, stock, l))
  }

  lemma LatestAreRows(keys: set<AggregateKey>, latest: map<StockKey, AggregateKey>)
    requires LatestRows(keys, latest)
    ensures latest.Values <= keys
  {
  }

  /** Choices that put these stocks on the same levels count them alike. */
  lemma SameCounts(t: AggregateTable, a: map<StockKey, AggregateKey>, b: map<StockKey, AggregateKey>,
                   sold: map<Id, real>, days: real, stocks: set<StockKey>)
    requires days > 0.0 && a.Values <= t.Keys && b.Values <= t.Keys && stocks <= a.Keys && stocks <= b.Keys
    requires forall s, level :: s in stocks ==>
      (RowHas(level, t, sold, days, s, a[s]) <==> RowHas(level, t, sold, days, s, b[s]))
    ensures CoverOf(t, a, sold, days, stocks) == CoverOf(t, b, sold, days, stocks)
  {
    hide Has, Average;
    forall level ensures StocksAt(level, t, a, sold, days, stocks) == StocksAt(level, t, b, sold, days, stocks) {
      forall s | s in stocks
        ensures Has(level, Available(t, a, s), Average(sold, days, s)) <==>
          Has(level, Available(t, b, s), Average(sold, days, s))
      {
        assert RowHas(level, t, sold, days, s, a[s]) <==> RowHas(level, t, sold, days, s, b[s]);
      }
    }
    hide StocksAt;
  }

  lemma LevelsDetermineCover(t: AggregateTable, a: map<StockKey, AggregateKey>, b: map<StockKey, AggregateKey>,
                             sold: map<Id, real>, days: real)
    requires days > 0.0 && SameLevels(t, sold, days) && LatestRows(t.Keys, a) && LatestRows(t.Keys, b)
    ensures a.Values <= t.Keys && b.Values <= t.Keys
    ensures CoverOf(t, a, sold, days, a.Keys) == CoverOf(t, b, sold, days, b.Keys)
  {
    LatestAreRows(t.Keys, a);
    LatestAreRows(t.Keys, b);
    hide RowHas, IsLastRow;
    assert a.Keys == b.Keys;
    SameCounts(t, a, b, sold, days, a.Keys);
  }

  /** One stock alone on different levels makes the counters differ. */
  lemma OneStockCounts(t: AggregateTable, a: map<StockKey, AggregateKey>, stock: StockKey, l: AggregateKey,
                       level: Level, sold: map<Id, real>, days: real)
    requires days > 0.0 && a.Values <= t.Keys && stock in a && l in t
    requires !(RowHas(level, t, sold, days, stock, a[stock]) <==> RowHas(level, t, sold, days, stock, l))
    ensures a[stock := l].Values <= t.Keys
    ensures CoverOf(t, a, sold, days, a.Keys) != CoverOf(t, a[stock := l], sold, days, a[stock := l].Keys)
  {
    var b := a[stock := l];
    var others := a.Keys - {stock};
    assert others + {stock} == a.Keys == b.Keys;
    SameCounts(t, a, b, sold, days, others);
    CoverNext(t, a, sold, days, others, stock);
    CoverNext(t, b, sold, days, others, stock);
    hide CoverOf, Has, Average;
  }

  /** Two orders that count differently. */
  lemma UnequalLevels(t: AggregateTable, sold: map<Id, real>, days: real)
    returns (one: seq<AggregateKey>, two: seq<AggregateKey>)
    requires days > 0.0 && !SameLevels(t, sold, days)
    ensures Enumerates(one, t.Keys) && Enumerates(two, t.Keys)
    ensures Kept(one).Values <= t.Keys && Kept(two).Values <= t.Keys
    ensures CoverOf(t, Kept(one), sold, days, Kept(one).Keys) != CoverOf(t, Kept(two), sold, days, Kept(two).Keys)
  {
    hide RowHas, Kept, CoverOf;
    var stock, k, l, level :| IsLastRow(t.Keys, stock, k) && IsLastRow(t.Keys, stock, l) &&
      !(RowHas(level, t, sold, days, stock, k) <==> RowHas(level, t, sold, days, stock, l));
    var a := ChoiceWith(t.Keys, stock, k);
    var b := a[stock := l];
    ReplacedChoice(t.Keys, a, stock, l);
    LatestAreRows(t.Keys, a);
    OneStockCounts(t, a, stock, l, level, sold, days);
    EveryChoiceIsKept(t.Keys, a);
    EveryChoiceIsKept(t.Keys, b);
    one :| Enumerates(one, t.Keys) && Kept(one) == a;
    two :| Enumerates(two, t.Keys) && Kept(two) == b;
  }

  /** A choice that keeps this row for its stock. */
  ghost function ChoiceWith(keys: set<AggregateKey>, stock: StockKey, k: AggregateKey): (a: map<StockKey, AggregateKey>)
    requires IsLastRow(keys, stock, k)
    ensures LatestRows(keys, a) && stock in a && a[stock] == k
  {
    StockListed(keys, stock, k);
    (map s | s in Stocks(keys) :: SomeLast(keys, s))[stock := k]
  }

  lemma ReplacedChoice(keys: set<AggregateKey>, a: map<StockKey, AggregateKey>, stock: StockKey, l: AggregateKey)
    requires LatestRows(keys, a) && stock in a && IsLastRow(keys, stock, l)
    ensures LatestRows(keys, a[stock := l])
  {
    hide IsLastRow;
  }

  /** The counters over the rows that the loop keeps in this order. */
  ghost function KeptCover(t: AggregateTable, order: seq<AggregateKey>, sold: map<Id, real>, days: real): Cover
    requires days > 0.0 && Enumerates(order, t.Keys)
  {
    KeptIsLatest(t.Keys, order);
    LatestAreRows(t.Keys, Kept(order));
    CoverOf(t, Kept(order), sold, days, Kept(order).Keys)
  }

  /** The counters are the same for every order of the rows exactly when all
      rows of each stock's latest day put it on the same levels of cover. */
  lemma CoverIsDetermined(t: AggregateTable, sold: map<Id, real>, days: real)
    requires days > 0.0
    ensures SameLevels(t, sold, days) <==>
      forall one, two :: Enumerates(one, t.Keys) && Enumerates(two, t.Keys) ==>
        KeptCover(t, one, sold, days) == KeptCover(t, two, sold, days)
  {
    hide SameLevels, Enumerates, Kept, CoverOf;
    if SameLevels(t, sold, days) {
      forall one, two | Enumerates(one, t.Keys) && Enumerates(two, t.Keys)
        ensures KeptCover(t, one, sold, days) == KeptCover(t, two, sold, days)
      {
        KeptIsLatest(t.Keys, one);
        KeptIsLatest(t.Keys, two);
        LevelsDetermineCover(t, Kept(one), Kept(two), sold, days);
      }
    } else {
      var one, two := UnequalLevels(t, sold, days);
      assert KeptCover(t, one, sold, days) != KeptCover(t, two, sold, days);
    }
  }

  /** Without two rows on a latest day the levels are the same. */
  lemma OneRowSameLevels(t: AggregateTable, sold: map<Id, real>, days: real)
    requires days > 0.0 && OneLastRow(t.Keys)
    ensures SameLevels(t, sold, days)
  {
    hide RowHas, IsLastRow;
  }

  // ---------------------------------------------------------------- a cover that depends on the order

  /** A stock reading of one product, which is listed under this category. */
  function Reading(category: Id, available: real): Fact {
    Fact(0, None, None, Some("p"), Some(category), None, None, None, None,
         map[InventoryAvailable := Number(available)], 0,
         Origin(None, "canonical_stock_snapshots", category, ""), None)
  }

  /** Two readings of one product on one day, taken while its category changed from a to b. */
  const TWO_READINGS: FactTable := map[0 := Reading("a", 0.0), 1 := Reading("b", 5.0)]

  function ReadingKey(category: Id): AggregateKey {
    AggregateKey(0, Product, None, None, Some("p"), Some(category), None, None)
  }

  const STOCK_P := StockKey(None, None, "p")

  lemma ReadingNumbers(category: Id, available: real)
    ensures Numbers(Reading(category, available)) == map[InventoryAvailable := available] != map[]
    ensures KeyOf(Product, Reading(category, available)) == ReadingKey(category)
  {
    assert InventoryAvailable in Numbers(Reading(category, available));
  }

  lemma ReadingRows()
    ensures GroupBy(TWO_READINGS, Product).Keys == {ReadingKey("a"), ReadingKey("b")}
    ensures GroupBy(TWO_READINGS, Product)[ReadingKey("a")].measures == map[InventoryAvailable := 0.0]
    ensures GroupBy(TWO_READINGS, Product)[ReadingKey("b")].measures == map[InventoryAvailable := 5.0]
  {
    ReadingNumbers("a", 0.0);
    ReadingNumbers("b", 5.0);
    assert TWO_READINGS[0] == Reading("a", 0.0) && TWO_READINGS[1] == Reading("b", 5.0);
    hide KeyOf, Numbers, Reading;
    var facts := TWO_READINGS;
    assert 0 in Contributors(facts, ReadingKey("a")) && 1 in Contributors(facts, ReadingKey("b"));
    assert Contributors(facts, ReadingKey("a")) == {0} && Contributors(facts, ReadingKey("b")) == {1};
    forall key ensures key in GroupBy(facts, Product) <==> key == ReadingKey("a") || key == ReadingKey("b") {
      KeysHaveContributors(facts, Product, key);
      if id :| id in Contributors(facts, key) {
        assert id == 0 || id == 1;
      }
    }
    TotalSingleton(NumbersTable(facts), 0);
    TotalSingleton(NumbersTable(facts), 1);
  }

  lemma KeptFirst(first: AggregateKey, second: AggregateKey)
    requires StockOf(first) == StockOf(second) == Some(STOCK_P) && first.day == second.day
    ensures Kept([first, second]) == map[STOCK_P := first]
  {
    KeptNone();
    assert [first, second][..0] == [];
    KeptNext([first, second], 0);
    KeptNext([first, second], 1);
    assert [first, second][..2] == [first, second];
  }

  lemma UnsoldCover(t: AggregateTable, key: AggregateKey, sold: map<Id, real>)
    requires key in t && ("p" in sold ==> sold["p"] == 0.0)
    ensures CoverOf(t, map[STOCK_P := key], sold, 1.0, {STOCK_P}).noSale ==
      if Get(t[key].measures, InventoryAvailable) > 0.0 then 1 else 0
  {
    var latest := map[STOCK_P := key];
    assert Average(sold, 1.0, STOCK_P) == 0.0;
    var at := StocksAt(NoSale, t, latest, sold, 1.0, {STOCK_P});
    if Get(t[key].measures, InventoryAvailable) > 0.0 {
      assert at == {STOCK_P};
    } else {
      assert at == {};
    }
  }

  /** The same rows, read in two orders, give different counters: the product
      rows of these facts hold one stock under two categories on one day. */
  lemma CoverDependsOnOrder(sold: map<Id, real>)
    requires "p" in sold ==> sold["p"] == 0.0
    ensures var t := GroupBy(TWO_READINGS, Product);
      var one, two := [ReadingKey("a"), ReadingKey("b")], [ReadingKey("b"), ReadingKey("a")];
      Enumerates(one, t.Keys) && Enumerates(two, t.Keys) && !OneLastRow(t.Keys) &&
      Kept(one).Values <= t.Keys && Kept(two).Values <= t.Keys &&
      CoverOf(t, Kept(one), sold, 1.0, Kept(one).Keys).noSale == 0 &&
      CoverOf(t, Kept(two), sold, 1.0, Kept(two).Keys).noSale == 1
  {
    hide *;
    var t := GroupBy(TWO_READINGS, Product);
    var a, b := ReadingKey("a"), ReadingKey("b");
    ReadingRows();
    ReadingKeys();
    TwoKeys(a, b);
    TwoKeys(b, a);
    assert {a, b} == {b, a};
    ReadingAvailable(t, a, 0.0);
    ReadingAvailable(t, b, 5.0);
    UnsoldCover(t, a, sold);
    UnsoldCover(t, b, sold);
    TwoLastRows(a, b);
  }

  lemma ReadingKeys()
    ensures var a, b := ReadingKey("a"), ReadingKey("b");
      a != b && StockOf(a) == StockOf(b) == Some(STOCK_P) && a.day == b.day
  {
    assert ReadingKey("a").category != ReadingKey("b").category;
  }

  lemma TwoKeys(a: AggregateKey, b: AggregateKey)
    requires a != b && StockOf(a) == StockOf(b) == Some(STOCK_P) && a.day == b.day
    ensures Enumerates([a, b], {a, b}) && Kept([a, b]) == map[STOCK_P := a]
    ensures Kept([a, b]).Values == {a} && Kept([a, b]).Keys == {STOCK_P}
  {
    KeptFirst(a, b);
  }

  lemma ReadingAvailable(t: AggregateTable, key: AggregateKey, x: real)
    requires key in t && t[key].measures == map[InventoryAvailable := x]
    ensures Get(t[key].measures, InventoryAvailable) == x
  {
  }

  lemma TwoLastRows(a: AggregateKey, b: AggregateKey)
    requires a != b && StockOf(a) == StockOf(b) == Some(STOCK_P) && a.day == b.day
    ensures !OneLastRow({a, b})
  {
    assert IsLastRow({a, b}, STOCK_P, a) && IsLastRow({a, b}, STOCK_P, b);
  }

  // ---------------------------------------------------------------- demand

  /** Units sold, row by row, of the rows that name a product. */
  ghost function UnitsOf(t: AggregateTable, keys: set<AggregateKey>): (v: map<AggregateKey, real>)
    requires keys <= t.Keys
    ensures v.Keys == set key | key in keys && key.product.Some?
  {
    map key | key in keys && key.product.Some? :: Get(t[key].measures, UnitsSold)
  }

  method DailyUnits(t: AggregateTable, order: seq<AggregateKey>) returns (units: Items<AggregateKey>)
    requires Enumerates(order, t.Keys)
    ensures Lists(units, UnitsOf(t, t.Keys))
  {
    hide *;
    units := [];
    NoUnits(t, order);
    for i := 0 to |order|
      invariant Seen(order, i) <= t.Keys
      invariant Lists(units, UnitsOf(t, Seen(order, i)))
    {
      var key := order[i];
      SeenNext(order, t.Keys, i);
      UnitsNext(t, Seen(order, i), units, key);
      if key.product.Some? {
        units := units + [(key, Get(t[key].measures, UnitsSold))];
      }
    }
    SeenAll(order, t.Keys);
  }

  lemma NoUnits(t: AggregateTable, order: seq<AggregateKey>)
    ensures Seen(order, 0) <= t.Keys && Lists([], UnitsOf(t, Seen(order, 0)))
  {
  }

  lemma UnitsNext(t: AggregateTable, done: set<AggregateKey>, units: Items<AggregateKey>, key: AggregateKey)
    requires done <= t.Keys && key in t && key !in done && Lists(units, UnitsOf(t, done))
    ensures Lists(if key.product.Some? then units + [(key, Get(t[key].measures, UnitsSold))]
      else units, UnitsOf(t, done + {key}))
  {
    hide Get;
    var before, after := UnitsOf(t, done), UnitsOf(t, done + {key});
    if key.product.Some? {
      assert after == before[key := Get(t[key].measures, UnitsSold)];
      ListsMore(units, before, key, Get(t[key].measures, UnitsSold));
    } else {
      assert after == before;
    }
  }

  lemma ListsMore(s: Items<AggregateKey>, v: map<AggregateKey, real>, key: AggregateKey, x: real)
    requires Lists(s, v) && key !in v
    ensures Lists(s + [(key, x)], v[key := x])
  {
    forall i | 0 <= i < |s| ensures s[i].0 != key {
      assert s[i] in s;
    }
    forall k | k in v ensures (k, v[k]) in s + [(key, x)] {
      assert (k, v[k]) in s;
    }
    assert (s + [(key, x)])[|s|] == (key, x);
  }

  /** `(value - mean) ** 2` for every listed value. */
  function DeviationItems(units: Items<AggregateKey>, mean: real): (r: Items<AggregateKey>)
    ensures |r| == |units| && forall i :: 0 <= i < |r| ==> r[i] == (units[i].0, Square(units[i].1 - mean))
  {
    seq(|units|, i requires 0 <= i < |units| => (units[i].0, Square(units[i].1 - mean)))
  }

  lemma DeviationsListed(units: Items<AggregateKey>, v: map<AggregateKey, real>, mean: real)
    requires Lists(units, v)
    ensures Lists(DeviationItems(units, mean), Deviations(v, mean))
  {
    hide Square;
    var r, d := DeviationItems(units, mean), Deviations(v, mean);
    forall i | 0 <= i < |r| ensures r[i].0 in d && d[r[i].0] == r[i].1 {
      assert units[i] in units;
    }
    forall k | k in d ensures (k, d[k]) in r {
      assert (k, v[k]) in units;
      var i :| 0 <= i < |units| && units[i] == (k, v[k]);
      assert r[i] == (k, d[k]);
    }
  }

  /** The variance of daily demand over the rows, in two passes. */
  function DemandVariance(units: Items<AggregateKey>): real
    requires units != []
  {
    var mean := Prefix(units, |units|) / |units| as real;
    var deviations := DeviationItems(units, mean);
    Prefix(deviations, |deviations|) / |units| as real
  }

  /** It is the population variance of the rows' units, in whatever order they came. */
  lemma DemandVarianceIsPopulation(units: Items<AggregateKey>, v: map<AggregateKey, real>)
    requires Lists(units, v) && units != []
    ensures v.Keys != {} && DemandVariance(units) == PopulationVariance(v, v.Keys)
  {
    hide Lists, Deviations, DeviationItems;
    AllKeys(units, v);
    PrefixIsSum(units, v, |units|);
    var mean := Prefix(units, |units|) / |units| as real;
    DeviationsListed(units, v, mean);
    var d := DeviationItems(units, mean);
    AllKeys(d, Deviations(v, mean));
    PrefixIsSum(d, Deviations(v, mean), |d|);
  }
}
