/** Measure payloads and their totals.

    Facts, aggregate rows and query results all carry a JSON object from
    measure names to numbers.  Adding two payloads key by key (a missing key
    counts as zero) is associative and commutative, so the total of a table of
    payloads does not depend on the order in which its rows are visited.
 */
module Payloads {

  /** The measures that some query step treats specially, and all the others. */
  datatype Measure =
    // latest value per entity
    | InventoryOnHand | InventoryAvailable | InventoryReserved | InventoryInTransit
    | InventoryRetailValue | InventoryCostValue | ScopedInventoryValue
    | NegativeStockProducts | ZeroStockProducts | ActiveProducts
    // derived after the fold
    | ActiveDays | ActiveHours | AverageDailyUnits | AverageInventoryCost | GrossProfit
    | NetworkNetRevenue | ScopedNetRevenue | ScopedGrossProfit | UnitsAvailableForSale
    | FreshnessSeconds | SoldProductCount | Top10Revenue | DemandStddev | LowCoverProducts
    | ExcessStockProducts | SlowMovingProducts | NoSaleProducts | ActiveSupplierCount
    | TopSupplierValue | Top5SupplierValue | SupplierProductCount | AveragePrice | PriceStddev
    | CacheHits | CacheRequests
    // read by name
    | GrossRevenue | NetRevenue | DiscountAmount | SalesTax | PurchaseValue | Cogs | UnitsSold
    | ProductGrossRevenue | ProductNetRevenue | ProductDiscountAmount | ProductSalesTax
    | ProductGrossProfit | ProductPurchaseValue
    | PriceValue | PriceCount | PriceValueSquared
    | Named(name: string)

  type Payload = map<Measure, real>

  function Get(p: Payload, m: Measure): real {
    if m in p then p[m] else 0.0
  }

  function Added(a: Payload, b: Payload): Payload {
    map m | m in a.Keys + b.Keys :: Get(a, m) + Get(b, m)
  }

  lemma AddedAssociative(a: Payload, b: Payload, c: Payload)
    ensures Added(Added(a, b), c) == Added(a, Added(b, c))
  {
    var l, r := Added(Added(a, b), c), Added(a, Added(b, c));
    assert l.Keys == a.Keys + b.Keys + c.Keys == r.Keys;
    forall m | m in l ensures l[m] == r[m] {
      assert Get(Added(a, b), m) == Get(a, m) + Get(b, m);
      assert Get(Added(b, c), m) == Get(b, m) + Get(c, m);
    }
  }

  lemma AddedCommutative(a: Payload, b: Payload)
    ensures Added(a, b) == Added(b, a)
  {
    assert Added(a, b).Keys == Added(b, a).Keys;
  }

  lemma AddedSwap(a: Payload, b: Payload, c: Payload)
    ensures Added(a, Added(b, c)) == Added(b, Added(a, c))
  {
    AddedAssociative(a, b, c);
    AddedAssociative(b, a, c);
    AddedCommutative(a, b);
  }

  lemma AddedEmpty(a: Payload)
    ensures Added(a, map[]) == a && Added(map[], a) == a
  {
    assert Added(a, map[]).Keys == a.Keys == Added(map[], a).Keys;
  }

  ghost function Pick<K>(s: set<K>): (k: K)
    requires s != {}
    ensures k in s
  {
    var k :| k in s;
    k
  }

  /** The key-by-key sum of the payloads of the rows `s` of a table. */
  ghost function Total<K>(t: map<K, Payload>, s: set<K>): Payload
    requires s <= t.Keys
    decreases s
  {
    if s == {} then map[] else
    var k := Pick(s);
    Added(t[k], Total(t, s - {k}))
  }

  /** Any row may be added last: the total does not depend on the order. */
  lemma {:induction false} TotalRemove<K>(t: map<K, Payload>, s: set<K>, k: K)
    requires k in s && s <= t.Keys
    ensures Total(t, s) == Added(t[k], Total(t, s - {k}))
    decreases s
  {
    var p := Pick(s);
    if p == k {
    } else {
      TotalRemove(t, s - {p}, k);
      TotalRemove(t, s - {k}, p);
      assert s - {p} - {k} == s - {k} - {p};
      AddedSwap(t[p], t[k], Total(t, s - {p} - {k}));
    }
  }

  lemma TotalInsert<K>(t: map<K, Payload>, s: set<K>, k: K)
    requires k !in s && s <= t.Keys && k in t
    ensures Total(t, s + {k}) == Added(Total(t, s), t[k])
  {
    TotalRemove(t, s + {k}, k);
    assert s + {k} - {k} == s;
    AddedCommutative(t[k], Total(t, s));
  }

  /** The total reads only the rows it adds. */
  lemma {:induction false} TotalFrame<K>(t: map<K, Payload>, t': map<K, Payload>, s: set<K>)
    requires s <= t.Keys && s <= t'.Keys
    requires forall k :: k in s ==> t[k] == t'[k]
    ensures Total(t, s) == Total(t', s)
    decreases s
  {
    if s == {} {
    } else {
      TotalFrame(t, t', s - {Pick(s)});
    }
  }

  lemma TotalSingleton<K>(t: map<K, Payload>, k: K)
    requires k in t
    ensures Total(t, {k}) == t[k]
  {
    TotalRemove(t, {k}, k);
    assert {k} - {k} == {};
    AddedEmpty(t[k]);
  }

  lemma {:induction false} TotalUnion<K>(t: map<K, Payload>, a: set<K>, b: set<K>)
    requires a !! b && a <= t.Keys && b <= t.Keys
    ensures Total(t, a + b) == Added(Total(t, a), Total(t, b))
    decreases b
  {
    if b == {} {
      assert a + b == a;
      AddedEmpty(Total(t, a));
    } else {
      var k := Pick(b);
      TotalUnion(t, a, b - {k});
      assert a + b - {k} == a + (b - {k});
      TotalRemove(t, a + b, k);
      AddedSwap(t[k], Total(t, a), Total(t, b - {k}));
    }
  }

  /** The rows of `s` that fall into group `x`. */
  function Fibre<K(==), G(==)>(s: set<K>, g: map<K, G>, x: G): set<K>
    requires s <= g.Keys
  {
    set k | k in s && g[k] == x
  }

  /** One total per group, for every group of `xs`. */
  ghost function GroupTotals<K, G>(t: map<K, Payload>, s: set<K>, g: map<K, G>, xs: set<G>): map<G, Payload>
    requires s <= t.Keys && s <= g.Keys
  {
    map x | x in xs :: Total(t, Fibre(s, g, x))
  }

  lemma {:induction false} TotalOfEmpty<G>(t: map<G, Payload>, s: set<G>)
    requires s <= t.Keys && forall x :: x in s ==> t[x] == map[]
    ensures Total(t, s) == map[]
    decreases s
  {
    if s == {} {
    } else {
      TotalOfEmpty(t, s - {Pick(s)});
      AddedEmpty(map[]);
    }
  }

  /** Grouping conserves: adding up first inside the groups and then over the
      groups gives the total of the ungrouped rows. */
  lemma {:induction false} GroupingConserves<K, G>(t: map<K, Payload>, s: set<K>, g: map<K, G>, xs: set<G>)
    requires s <= t.Keys && s <= g.Keys
    requires forall k :: k in s ==> g[k] in xs
    ensures Total(t, s) == Total(GroupTotals(t, s, g, xs), xs)
    decreases xs
  {
    var groups := GroupTotals(t, s, g, xs);
    if xs == {} {
      assert s == {} by { if k :| k in s { assert g[k] in xs; } }
    } else {
      var x := Pick(xs);
      var here, rest := Fibre(s, g, x), s - Fibre(s, g, x);
      GroupingConserves(t, rest, g, xs - {x});
      forall y | y in xs - {x} ensures Fibre(rest, g, y) == Fibre(s, g, y) {
      }
      TotalFrame(GroupTotals(t, rest, g, xs - {x}), groups, xs - {x});
      assert here + rest == s;
      TotalUnion(t, here, rest);
    }
  }

  /** The total has a measure exactly when some row has it. */
  lemma {:induction false} TotalKeys<K>(t: map<K, Payload>, s: set<K>, m: Measure)
    requires s <= t.Keys
    ensures m in Total(t, s) <==> exists k :: k in s && m in t[k]
    decreases s
  {
    if s == {} {
    } else {
      var k := Pick(s);
      TotalKeys(t, s - {k}, m);
      if j :| j in s && m in t[j] {
        assert j == k || j in s - {k};
      }
    }
  }

  /** The part of a payload made of the measures in `keep`. */
  ghost function Only(p: Payload, keep: iset<Measure>): Payload {
    map m | m in p && m in keep :: p[m]
  }

  /** Restricting every row restricts the total. */
  lemma {:induction false} TotalOnly<K>(t: map<K, Payload>, t': map<K, Payload>, s: set<K>, keep: iset<Measure>)
    requires s <= t.Keys && s <= t'.Keys
    requires forall k :: k in s ==> t'[k] == Only(t[k], keep)
    ensures Total(t', s) == Only(Total(t, s), keep)
    decreases s
  {
    if s == {} {
    } else {
      var k := Pick(s);
      TotalOnly(t, t', s - {k}, keep);
      OnlyAdded(t[k], Total(t, s - {k}), keep);
    }
  }

  lemma OnlyAdded(a: Payload, b: Payload, keep: iset<Measure>)
    ensures Only(Added(a, b), keep) == Added(Only(a, keep), Only(b, keep))
  {
    assert Only(Added(a, b), keep).Keys == Added(Only(a, keep), Only(b, keep)).Keys;
  }

  predicate IsLeast(s: set<nat>, k: nat) {
    k in s && forall j :: j in s ==> k <= j
  }

  lemma {:induction false} LeastExists(s: set<nat>, k: nat)
    requires k in s
    ensures exists l :: IsLeast(s, l)
  {
    if j :| j in s && j < k {
      LeastExists(s, j);
    } else {
      assert IsLeast(s, k);
    }
  }

  /** The same total, computed by visiting row identifiers in ascending order. */
  function NumberedTotal(t: map<nat, Payload>, s: set<nat>): (p: Payload)
    requires s <= t.Keys
    ensures p == Total(t, s)
    decreases s
  {
    if s == {} then
      map[]
    else
      LeastExists(s, Pick(s));
      var k :| IsLeast(s, k);
      TotalRemove(t, s, k);
      Added(t[k], NumberedTotal(t, s - {k}))
  }
}
