/** Which aggregate rows a query reads (`_aggregate_filters`, `_organizational_filters`, `_grain`). */
module Filters {
  import opened Wrappers
  import opened Facts

  datatype QueryError = UnsupportedFilterCombination | CardinalityLimit

  const MAX_AGGREGATE_ROWS := 10_000

  datatype Filters = Filters(
    fromDay: int, toDay: int,
    group: Option<Id>, company: Option<Id>, branch: Option<Id>,
    product: Option<Id>, category: Option<Id>, brand: Option<Id>, supplier: Option<Id>,
    channel: Option<string>)

  /** What the caller may see, and the current product and company dimensions. */
  datatype Access = Access(
    visible: (Option<Id>, Option<Id>) -> bool,
    productsOfBrand: Id -> set<Id>,
    companiesOfGroup: Id -> set<Id>)

  function GrainOf(f: Filters): Result<Grain, QueryError> {
    var matches :=
      (if f.product.Some? || f.brand.Some? then [Product] else []) +
      (if f.category.Some? then [Category] else []) +
      (if f.supplier.Some? then [Supplier] else []) +
      (if f.channel.Some? then [Channel] else []);
    if |matches| > 1 then Err(UnsupportedFilterCombination) else
    if matches != [] then Ok(matches[0]) else Ok(Scope)
  }

  /** Rows are read at the grain of the one dimension that the filters name, at
      scope grain if they name none, and not at all if they name several; a
      brand is a choice of products. */
  lemma GrainIsExact(f: Filters)
    ensures var product, category := f.product != None || f.brand != None, f.category != None;
      var supplier, channel := f.supplier != None, f.channel != None;
      (GrainOf(f) == Ok(Scope) <==> !product && !category && !supplier && !channel) &&
      (GrainOf(f) == Ok(Product) <==> product && !category && !supplier && !channel) &&
      (GrainOf(f) == Ok(Category) <==> !product && category && !supplier && !channel) &&
      (GrainOf(f) == Ok(Supplier) <==> !product && !category && supplier && !channel) &&
      (GrainOf(f) == Ok(Channel) <==> !product && !category && !supplier && channel) &&
      (GrainOf(f) == Err(UnsupportedFilterCombination) <==>
        (product && category) || (product && supplier) || (product && channel) || (category && supplier) ||
        (category && channel) || (supplier && channel))
  {
  }

  predicate Same(wanted: Option<Id>, column: Option<Id>) {
    wanted.Some? ==> column == wanted
  }

  predicate InScope(a: Access, f: Filters, key: AggregateKey) {
    a.visible(key.company, key.branch) && f.fromDay <= key.day <= f.toDay &&
    Same(f.company, key.company) && Same(f.branch, key.branch) &&
    (f.group.Some? ==> key.company.Some? && key.company.value in a.companiesOfGroup(f.group.value))
  }

  predicate Matches(a: Access, f: Filters, key: AggregateKey) {
    InScope(a, f, key) &&
    Same(f.product, key.product) && Same(f.category, key.category) && Same(f.supplier, key.supplier) &&
    (f.channel.Some? ==> key.grain == Channel && key.dimension == f.channel) &&
    (f.brand.Some? ==> key.product.Some? && key.product.value in a.productsOfBrand(f.brand.value))
  }

  function Selected(t: AggregateTable, a: Access, f: Filters, g: Grain): AggregateTable {
    map key | key in t && key.grain == g && Matches(a, f, key) :: t[key]
  }

  datatype Entity = Entity(company: Option<Id>, branch: Option<Id>, product: Option<Id>, category: Option<Id>,
                           supplier: Option<Id>)

  function EntityOf(key: AggregateKey): Entity {
    Entity(key.company, key.branch, key.product, key.category, key.supplier)
  }

  /** At most one row per day and entity. */
  ghost predicate OnePerDay(t: AggregateTable) {
    forall k, l :: k in t && l in t && k.day == l.day && EntityOf(k) == EntityOf(l) ==> k == l
  }

  /** Rows written by the refresh: the dimension column is null outside its grains. */
  ghost predicate WellKeyed(t: AggregateTable) {
    forall key :: key in t && key.grain in {Scope, Product, Category, Supplier} ==> key.dimension == None
  }

  lemma AggregatesAreWellKeyed(facts: FactTable)
    ensures WellKeyed(Aggregated(facts))
  {
    forall key | key in Aggregated(facts) && key.grain in {Scope, Product, Category, Supplier}
      ensures key.dimension == None
    {
      AggregatedByGrain(facts, key);
      var id :| id in Contributors(facts, key);
      assert KeyOf(key.grain, facts[id]) == key;
    }
  }

  /** A query never sees two rows of one entity on one day. */
  lemma SelectionIsOnePerDay(t: AggregateTable, a: Access, f: Filters)
    requires WellKeyed(t) && GrainOf(f).Ok?
    ensures OnePerDay(Selected(t, a, f, GrainOf(f).value))
  {
    var g := GrainOf(f).value;
    var s := Selected(t, a, f, g);
    forall k, l | k in s && l in s && k.day == l.day && EntityOf(k) == EntityOf(l) ensures k == l {
      assert k.dimension == l.dimension;
    }
  }

  /** A listing of the rows in the order the database happens to return them. */
  ghost predicate Enumerates<K(!new)>(order: seq<K>, keys: set<K>) {
    (forall k :: k in order <==> k in keys) &&
    (forall i, j :: 0 <= i < j < |order| ==> order[i] != order[j])
  }

  ghost function Seen<K>(order: seq<K>, i: nat): set<K>
    requires i <= |order|
  {
    set k | k in order[..i]
  }

  lemma SeenNext<K(!new)>(order: seq<K>, keys: set<K>, i: nat)
    requires Enumerates(order, keys) && i < |order|
    ensures order[i] in keys && order[i] !in Seen(order, i)
    ensures Seen(order, i + 1) == Seen(order, i) + {order[i]}
    ensures Seen(order, i) <= keys
  {
    assert order[..i + 1] == order[..i] + [order[i]];
  }

  lemma SeenAll<K(!new)>(order: seq<K>, keys: set<K>)
    requires Enumerates(order, keys)
    ensures Seen(order, |order|) == keys
  {
    assert order[..|order|] == order;
  }

  lemma EnumeratesMore<K(!new)>(ids: seq<K>, keys: set<K>, id: K)
    requires Enumerates(ids, keys)
    ensures id !in keys ==> Enumerates(ids + [id], keys + {id})
    ensures id in keys ==> keys + {id} == keys
  {
    EnumeratedKeys(ids, keys);
  }

  lemma EnumeratedKeys<K(!new)>(ids: seq<K>, keys: set<K>)
    requires Enumerates(ids, keys)
    ensures forall i :: 0 <= i < |ids| ==> ids[i] in keys
  {
  }
}
