/** The fact table and its seven daily grains (`_aggregate_sql`, `AGGREGATE_GRAINS`).

    A grain groups facts by day, company, branch and its own columns and adds
    up their numeric measures.  The grains are proved to conserve every measure
    and to roll up into each other.
 */
module Facts {
  import opened Wrappers
  import opened Payloads
  import opened Sums

  type Id = string

  /** Instants are microseconds since the epoch, in UTC. */
  const DAY := 86_400_000_000

  function DayOf(at: int): int {
    at / DAY
  }

  /** A value of a measure object: only numbers are aggregated. */
  datatype Json = Number(n: real) | Other

  /** The canonical record that a fact was made from. */
  datatype Origin = Origin(batch: Option<Id>, table: string, record: string, version: string)

  /** `score` is the one in the snapshot of a data-quality fact. */
  datatype Fact = Fact(
    occurredAt: int,
    company: Option<Id>, branch: Option<Id>, product: Option<Id>, category: Option<Id>, supplier: Option<Id>,
    channel: Option<string>, paymentMethod: Option<string>, movementType: Option<string>,
    measures: map<Measure, Json>,
    sourceUpdatedAt: int,
    origin: Origin,
    score: Option<real>)

  /** Facts by their identifier, which is derived from the fact type and the source record. */
  type FactTable = map<nat, Fact>

  function Numbers(f: Fact): Payload {
    map m | m in f.measures && f.measures[m].Number? :: f.measures[m].n
  }

  function NumbersTable(facts: FactTable): (r: map<nat, Payload>)
    ensures r.Keys == facts.Keys
  {
    map id | id in facts :: Numbers(facts[id])
  }

  datatype Grain = Scope | Product | Category | Supplier | Channel | PaymentMethod | MovementType

  const GRAINS: seq<Grain> := [Scope, Product, Category, Supplier, Channel, PaymentMethod, MovementType]

  /** The unique key of an aggregate row; columns outside the grain are null. */
  datatype AggregateKey = AggregateKey(
    day: int, grain: Grain,
    company: Option<Id>, branch: Option<Id>, product: Option<Id>, category: Option<Id>, supplier: Option<Id>,
    dimension: Option<string>)

  datatype AggregateRow = AggregateRow(measures: Payload, sourceMaxUpdatedAt: int)

  type AggregateTable = map<AggregateKey, AggregateRow>

  function KeyOf(g: Grain, f: Fact): (key: AggregateKey)
    ensures key.day == DayOf(f.occurredAt) && key.grain == g
    ensures key.company == f.company && key.branch == f.branch
  {
    var base := AggregateKey(DayOf(f.occurredAt), g, f.company, f.branch, None, None, None, None);
    match g
    case Scope => base
    case Product => base.(product := f.product, category := f.category)
    case Category => base.(category := f.category)
    case Supplier => base.(supplier := f.supplier)
    case Channel => base.(dimension := f.channel)
    case PaymentMethod => base.(dimension := f.paymentMethod)
    case MovementType => base.(dimension := f.movementType)
  }

  datatype Column =
    | CompanyColumn | BranchColumn | ProductColumn | CategoryColumn | SupplierColumn
    | ChannelColumn | PaymentColumn | MovementColumn

  /** The columns that a grain groups by, besides the day. */
  function ColumnsOf(g: Grain): set<Column> {
    {CompanyColumn, BranchColumn} +
    match g
    case Scope => {}
    case Product => {ProductColumn, CategoryColumn}
    case Category => {CategoryColumn}
    case Supplier => {SupplierColumn}
    case Channel => {ChannelColumn}
    case PaymentMethod => {PaymentColumn}
    case MovementType => {MovementColumn}
  }

  function ColumnValue(f: Fact, column: Column): Option<string> {
    match column
    case CompanyColumn => f.company
    case BranchColumn => f.branch
    case ProductColumn => f.product
    case CategoryColumn => f.category
    case SupplierColumn => f.supplier
    case ChannelColumn => f.channel
    case PaymentColumn => f.paymentMethod
    case MovementColumn => f.movementType
  }

  /** A row's key holds the fact's value in every column of its grain, and null
      in every other one; the last three columns share the dimension value. */
  lemma KeyHoldsColumns(g: Grain, f: Fact)
    ensures var key, columns := KeyOf(g, f), ColumnsOf(g);
      key.product == (if ProductColumn in columns then f.product else None) &&
      key.category == (if CategoryColumn in columns then f.category else None) &&
      key.supplier == (if SupplierColumn in columns then f.supplier else None) &&
      key.dimension == (if ChannelColumn in columns then f.channel else if PaymentColumn in columns then f.paymentMethod
                        else if MovementColumn in columns then f.movementType else None)
    ensures var key := KeyOf(g, f);
      key.day * 86_400_000_000 <= f.occurredAt < (key.day + 1) * 86_400_000_000 &&
      key.product == (if g == Product then f.product else None) &&
      key.category == (if g == Product || g == Category then f.category else None) &&
      key.supplier == (if g == Supplier then f.supplier else None) &&
      key.dimension == (match g case Channel => f.channel case PaymentMethod => f.paymentMethod
                                case MovementType => f.movementType case _ => None)
  {
  }

  /** Two facts fall into one row of a grain exactly when they share the day and the grain's columns. */
  lemma RowsAreGroups(g: Grain, f: Fact, f': Fact)
    ensures KeyOf(g, f) == KeyOf(g, f') <==>
      DayOf(f.occurredAt) == DayOf(f'.occurredAt) && forall column :: column in ColumnsOf(g) ==>
        ColumnValue(f, column) == ColumnValue(f', column)
  {
    assert CompanyColumn in ColumnsOf(g) && BranchColumn in ColumnsOf(g);
    match g
    case Scope =>
    case Product => assert ProductColumn in ColumnsOf(g) && CategoryColumn in ColumnsOf(g);
    case Category => assert CategoryColumn in ColumnsOf(g);
    case Supplier => assert SupplierColumn in ColumnsOf(g);
    case Channel => assert ChannelColumn in ColumnsOf(g);
    case PaymentMethod => assert PaymentColumn in ColumnsOf(g);
    case MovementType => assert MovementColumn in ColumnsOf(g);
  }

  /** The facts behind one aggregate row: those with some number to add. */
  function Contributors(facts: FactTable, key: AggregateKey): set<nat> {
    set id | id in facts && Numbers(facts[id]) != map[] && KeyOf(key.grain, facts[id]) == key
  }

  function GroupKeys(facts: FactTable, g: Grain): set<AggregateKey> {
    set id | id in facts && Numbers(facts[id]) != map[] :: KeyOf(g, facts[id])
  }

  lemma KeysHaveContributors(facts: FactTable, g: Grain, key: AggregateKey)
    ensures key in GroupKeys(facts, g) <==> key.grain == g && Contributors(facts, key) != {}
  {
    if key in GroupKeys(facts, g) {
      var id :| id in facts && Numbers(facts[id]) != map[] && KeyOf(g, facts[id]) == key;
      assert id in Contributors(facts, key);
    }
  }

  /** The latest source update among some facts. */
  function LatestUpdate(facts: FactTable, s: set<nat>): (at: int)
    requires s != {} && s <= facts.Keys
    ensures forall id :: id in s ==> facts[id].sourceUpdatedAt <= at
    ensures exists id :: id in s && facts[id].sourceUpdatedAt == at
    decreases s
  {
    LeastExists(s, Pick(s));
    var k :| IsLeast(s, k);
    if s == {k} then facts[k].sourceUpdatedAt else
    var rest := LatestUpdate(facts, s - {k});
    if facts[k].sourceUpdatedAt > rest then facts[k].sourceUpdatedAt else rest
  }

  function GroupRow(facts: FactTable, key: AggregateKey): AggregateRow
    requires Contributors(facts, key) != {}
  {
    var s := Contributors(facts, key);
    AggregateRow(NumberedTotal(NumbersTable(facts), s), LatestUpdate(facts, s))
  }

  /** One grain of the aggregate table. */
  function GroupBy(facts: FactTable, g: Grain): AggregateTable {
    map key | key in GroupKeys(facts, g) :: KeysHaveContributors(facts, g, key); GroupRow(facts, key)
  }

  /** All seven grains. */
  function Aggregated(facts: FactTable): AggregateTable {
    map key | key in (set id, g: Grain |
                        id in facts && g in GRAINS && Numbers(facts[id]) != map[] :: KeyOf(g, facts[id]))
      :: assert key in GroupKeys(facts, key.grain); KeysHaveContributors(facts, key.grain, key); GroupRow(facts, key)
  }

  lemma EveryGrain(g: Grain)
    ensures g in GRAINS
  {
    assert GRAINS[0] == Scope && GRAINS[1] == Product && GRAINS[2] == Category && GRAINS[3] == Supplier;
    assert GRAINS[4] == Channel && GRAINS[5] == PaymentMethod && GRAINS[6] == MovementType;
  }

  lemma AggregatedByGrain(facts: FactTable, key: AggregateKey)
    ensures key in Aggregated(facts) <==> Contributors(facts, key) != {}
    ensures key in Aggregated(facts) ==> Aggregated(facts)[key] == GroupRow(facts, key)
    ensures key in Aggregated(facts) <==> key in GroupBy(facts, key.grain)
  {
    KeysHaveContributors(facts, key.grain, key);
    if key in GroupKeys(facts, key.grain) {
      var id :| id in facts && Numbers(facts[id]) != map[] && KeyOf(key.grain, facts[id]) == key;
      EveryGrain(key.grain);
    }
  }

  ghost predicate HasNumber(f: Fact) {
    exists m :: m in f.measures && f.measures[m].Number?
  }

  /** A measure of every fact, zero where it is missing or not a number. */
  ghost function NumberOf(facts: FactTable, m: Measure): (v: map<nat, real>)
    ensures v.Keys == facts.Keys
  {
    map id | id in facts ::
      if m in facts[id].measures && facts[id].measures[m].Number? then facts[id].measures[m].n else 0.0
  }

  /** The facts with a number that fall on the key. */
  ghost function Behind(facts: FactTable, key: AggregateKey): (s: set<nat>)
    ensures s <= facts.Keys
  {
    set id | id in facts && KeyOf(key.grain, facts[id]) == key && HasNumber(facts[id])
  }

  /** The row of a key: it exists for the facts with a number that fall on it,
      sums each measure over them, and takes their latest update. */
  lemma RowsAreSums(facts: FactTable, key: AggregateKey, m: Measure)
    ensures var behind := Behind(facts, key);
      (key in Aggregated(facts) <==> behind != {}) &&
      (key in Aggregated(facts) ==>
        var row := Aggregated(facts)[key];
        (m in row.measures <==>
          exists id :: id in behind && m in facts[id].measures && facts[id].measures[m].Number?) &&
        Get(row.measures, m) == Sum(NumberOf(facts, m), behind) &&
        (exists id :: id in behind && facts[id].sourceUpdatedAt == row.sourceMaxUpdatedAt) &&
        forall id :: id in behind ==> facts[id].sourceUpdatedAt <= row.sourceMaxUpdatedAt)
  {
    AggregatedByGrain(facts, key);
    BehindContribute(facts, key);
    hide KeyOf, Numbers, Contributors, Aggregated, NumberOf, HasNumber, Behind, Get;
    if key in Aggregated(facts) {
      SumsOf(facts, Behind(facts, key), m);
    }
  }

  lemma BehindContribute(facts: FactTable, key: AggregateKey)
    ensures Contributors(facts, key) == Behind(facts, key)
  {
    NumbersAre(facts, Named(""));
    hide KeyOf, Numbers, HasNumber;
  }

  lemma SumsOf(facts: FactTable, behind: set<nat>, m: Measure)
    requires behind <= facts.Keys
    ensures var p := Total(NumbersTable(facts), behind);
      Get(p, m) == Sum(NumberOf(facts, m), behind) &&
      (m in p <==> exists id :: id in behind && m in facts[id].measures && facts[id].measures[m].Number?)
  {
    NumbersAre(facts, m);
    hide Numbers, NumberOf, HasNumber, Get;
    TotalIsSum(NumbersTable(facts), behind, m, NumberOf(facts, m));
    TotalKeys(NumbersTable(facts), behind, m);
  }

  lemma NumbersAre(facts: FactTable, m: Measure)
    ensures forall id :: id in facts ==> (Numbers(facts[id]) != map[] <==> HasNumber(facts[id]))
    ensures forall id :: id in facts ==>
      (m in Numbers(facts[id]) <==> m in facts[id].measures && facts[id].measures[m].Number?) &&
      Get(Numbers(facts[id]), m) == NumberOf(facts, m)[id]
  {
    forall id | id in facts ensures Numbers(facts[id]) != map[] <==> HasNumber(facts[id]) {
      if n :| n in facts[id].measures && facts[id].measures[n].Number? {
        assert n in Numbers(facts[id]);
      }
      if Numbers(facts[id]) != map[] {
        var n :| n in Numbers(facts[id]);
      }
    }
  }

  // ---------------------------------------------------------------- conservation

  function MeasuresOf(t: AggregateTable): (r: map<AggregateKey, Payload>)
    ensures r.Keys == t.Keys
  {
    map key | key in t :: t[key].measures
  }

  /** The row of the coarser grain into which a row of a finer grain rolls up. */
  function Coarsen(g: Grain, key: AggregateKey): AggregateKey {
    var base := AggregateKey(key.day, g, key.company, key.branch, None, None, None, None);
    if g == Category then base.(category := key.category) else base
  }

  predicate RollsUpTo(fine: Grain, coarse: Grain) {
    coarse == Scope || (fine == Product && coarse == Category)
  }

  function RowsWithin(facts: FactTable, fine: Grain, key: AggregateKey): set<AggregateKey> {
    set k | k in GroupBy(facts, fine) && Coarsen(key.grain, k) == key
  }

  /** The fine rows below a coarse row add up, measure by measure, to that row. */
  lemma RollUp(facts: FactTable, fine: Grain, key: AggregateKey)
    requires RollsUpTo(fine, key.grain)
    ensures key in GroupBy(facts, key.grain) ==>
            Total(MeasuresOf(GroupBy(facts, fine)), RowsWithin(facts, fine, key)) ==
              GroupBy(facts, key.grain)[key].measures
  {
    KeysHaveContributors(facts, key.grain, key);
    RollUpContributors(facts, fine, key);
  }

  lemma GroupByRow(facts: FactTable, g: Grain, key: AggregateKey)
    ensures key in MeasuresOf(GroupBy(facts, g)) <==> key.grain == g && Contributors(facts, key) != {}
    ensures key in MeasuresOf(GroupBy(facts, g)) ==>
            MeasuresOf(GroupBy(facts, g))[key] == Total(NumbersTable(facts), Contributors(facts, key))
  {
    hide KeyOf, Numbers, Contributors;
    KeysHaveContributors(facts, g, key);
  }

  lemma CoarsenKey(f: Fact, fine: Grain, coarse: Grain)
    requires RollsUpTo(fine, coarse)
    ensures Coarsen(coarse, KeyOf(fine, f)) == KeyOf(coarse, f)
  {
  }

  function KeyMap(facts: FactTable, g: Grain): map<nat, AggregateKey> {
    map id | id in facts :: KeyOf(g, facts[id])
  }

  lemma FibreIsGroup(facts: FactTable, key: AggregateKey, x: AggregateKey)
    requires RollsUpTo(x.grain, key.grain) && Coarsen(key.grain, x) == key
    ensures Fibre(Contributors(facts, key), KeyMap(facts, x.grain), x) == Contributors(facts, x)
  {
    hide Numbers;
    forall id | id in facts ensures Coarsen(key.grain, KeyOf(x.grain, facts[id])) == KeyOf(key.grain, facts[id]) {
      CoarsenKey(facts[id], x.grain, key.grain);
    }
  }

  lemma ContributorRolls(facts: FactTable, fine: Grain, key: AggregateKey, id: nat)
    requires RollsUpTo(fine, key.grain)
    requires id in facts
    ensures id in Contributors(facts, key) ==> KeyMap(facts, fine)[id] in RowsWithin(facts, fine, key)
  {
    hide Numbers, GroupRow;
    CoarsenKey(facts[id], fine, key.grain);
  }

  lemma RollUpContributors(facts: FactTable, fine: Grain, key: AggregateKey)
    requires RollsUpTo(fine, key.grain)
    ensures Total(MeasuresOf(GroupBy(facts, fine)), RowsWithin(facts, fine, key))
         == Total(NumbersTable(facts), Contributors(facts, key))
  {
    hide KeyOf, Numbers, Coarsen, GroupBy, MeasuresOf, Fibre;
    var s, t, g := Contributors(facts, key), NumbersTable(facts), KeyMap(facts, fine);
    var xs := RowsWithin(facts, fine, key);
    forall id | id in s ensures g[id] in xs {
      ContributorRolls(facts, fine, key, id);
    }
    GroupingConserves(t, s, g, xs);
    GroupByRow(facts, fine, key);
    forall x | x in xs ensures MeasuresOf(GroupBy(facts, fine))[x] == GroupTotals(t, s, g, xs)[x] {
      GroupByRow(facts, fine, x);
      FibreIsGroup(facts, key, x);
    }
    TotalFrame(MeasuresOf(GroupBy(facts, fine)), GroupTotals(t, s, g, xs), xs);
  }

  /** The facts of one day, company and branch. */
  function FactsOfScope(facts: FactTable, scope: AggregateKey): set<nat> {
    set id | id in facts && KeyOf(Scope, facts[id]) == scope
  }

  /** Conservation: in every grain, the rows of one day, company and branch add
      up to the numbers of all facts of that day, company and branch. */
  lemma GrainConserves(facts: FactTable, g: Grain, scope: AggregateKey)
    requires scope.grain == Scope
    ensures Total(MeasuresOf(GroupBy(facts, g)), RowsWithin(facts, g, scope))
         == Total(NumbersTable(facts), FactsOfScope(facts, scope))
  {
    RollUpContributors(facts, g, scope);
    hide KeyOf;
    var t, some, all := NumbersTable(facts), Contributors(facts, scope), FactsOfScope(facts, scope);
    TotalOfEmpty(t, all - some);
    TotalUnion(t, some, all - some);
    assert some + (all - some) == all;
    AddedEmpty(Total(t, some));
  }
}
