/** Requests for one indicator, served through a cache keyed by question and
    data version (`calculate_kpi`).  Requests are interleaved with each other,
    with refresh commits, goal changes and expiring entries; every database
    statement and every cache call is one step.
 */
module KpiCache {
  import opened Wrappers
  import opened Payloads
  import opened Facts
  import opened Filters
  import Dimensions

  /** What one refresh commits. */
  datatype Data = Data(aggregates: AggregateTable, dimensions: Dimensions.Table)

  /** All that the cache identity hashes, except the data version. */
  datatype Question = Question(
    filters: Filters,
    access: Dimensions.Table -> Access,
    measures: (Filters, seq<AggregateTable>) -> Payload,
    formula: Payload -> Option<real>,
    decreaseIsGood: bool,
    bypass: bool)

  /** The identity is a hash taken to be injective, so it determines the question. */
  type Questions = string -> Question

  datatype CacheStatus = Hit | Miss | Bypass
  datatype Reason = ZeroDenominator | NoData
  datatype TargetStatus = Met | Below

  datatype Answer = Answer(
    value: Option<real>, reason: Option<Reason>,
    comparison: Option<real>, absolute: Option<real>, percentage: Option<real>,
    version: nat,
    target: Option<real>, targetStatus: Option<TargetStatus>,
    cacheStatus: CacheStatus)

  // ---------------------------------------------------------------- what is read and answered

  /** The statements that read one window: the rows themselves, then the
      product and supplier rows for the derived measures. */
  function Sections(f: Filters): (r: seq<(Filters, Grain)>)
    ensures |r| > 0
  {
    [(f, match GrainOf(f) case Ok(g) => g case Err(_) => Scope)] +
    (if f.supplier.None? && f.channel.None? then [(f, Product)] else []) +
    (if f.product.None? && f.category.None? && f.channel.None? then [(f.(brand := None), Supplier)] else [])
  }

  /** Which rows a request reads: its own, the product rows unless it asks for a
      supplier or a channel, and the supplier rows, of every brand, unless it
      asks for a product, a category or a channel. */
  lemma SectionsAre(f: Filters, g: Grain)
    requires GrainOf(f) == Ok(g)
    ensures var products := f.supplier == None && f.channel == None;
      var suppliers := f.product == None && f.category == None && f.channel == None;
      Sections(f) == [(f, g)] + (if products then [(f, Product)] else []) +
        (if suppliers then [(f.(brand := None), Supplier)] else [])
  {
  }

  function PreviousWindow(f: Filters): Filters {
    var days := f.toDay - f.fromDay + 1;
    f.(fromDay := f.fromDay - days, toDay := f.fromDay - 1)
  }

  function Plan(q: Question): (r: seq<(Filters, Grain)>)
    ensures |r| > |Sections(q.filters)|
  {
    Sections(q.filters) + Sections(PreviousWindow(q.filters))
  }

  function Rows(q: Question, i: nat, data: Data): AggregateTable
    requires i < |Plan(q)|
  {
    Selected(data.aggregates, q.access(data.dimensions), Plan(q)[i].0, Plan(q)[i].1)
  }

  /** The read raises an application error. */
  predicate Refused(q: Question, i: nat, data: Data)
    requires i < |Plan(q)|
  {
    GrainOf(q.filters).Err? || |Rows(q, i, data).Keys| > MAX_AGGREGATE_ROWS
  }

  /** Round half away from zero, to four decimal places. */
  function HalfUp(x: real): real {
    Units(x) as real / 10000.0
  }

  /** Units of the fourth place, halves away from zero. */
  function Units(x: real): int {
    if x >= 0.0 then (x * 10000.0 + 0.5).Floor else -(-x * 10000.0 + 0.5).Floor
  }

  function Variation(current: Option<real>, comparison: Option<real>): (Option<real>, Option<real>) {
    if current.None? || comparison.None? then (None, None) else
    var absolute := HalfUp(current.value - comparison.value);
    (Some(absolute), if comparison.value == 0.0 then None else Some(HalfUp(absolute / comparison.value * 100.0)))
  }

  /** The variation is the difference to the nearest unit of the fourth place,
      and the percentage refers to the comparison. */
  lemma VariationIsNear(current: real, comparison: real)
    ensures var (absolute, percentage) := Variation(Some(current), Some(comparison));
      absolute.Some? && -0.00005 <= absolute.value - (current - comparison) <= 0.00005 &&
      (percentage.None? <==> comparison == 0.0) &&
      (percentage.Some? ==> -0.00005 <= percentage.value - absolute.value / comparison * 100.0 <= 0.00005)
    ensures var there, back := Variation(Some(current), Some(comparison)), Variation(Some(comparison), Some(current));
      there.0.value == -back.0.value
  {
    HalfUpIsNear(current - comparison);
    HalfUpIsNear(comparison - current);
    if comparison != 0.0 {
      HalfUpIsNear(HalfUp(current - comparison) / comparison * 100.0);
    }
    assert comparison - current == -(current - comparison);
    hide HalfUp;
  }

  /** `n` units of the fourth place are `x`, to the nearest, and halves away from zero. */
  predicate RoundsTo(x: real, n: int) {
    if x >= 0.0 then n as real - 0.5 <= x * 10000.0 < n as real + 0.5
    else n as real - 0.5 < x * 10000.0 <= n as real + 0.5
  }

  lemma HalfUpRounds(x: real, n: int)
    ensures HalfUp(x) * 10000.0 == n as real <==> RoundsTo(x, n)
  {
    var k := Units(x);
    UnitsRound(x);
    HalfUpIsUnits(x);
    hide *;
    RoundsOnce(x, n, k);
  }

  lemma HalfUpIsUnits(x: real)
    ensures HalfUp(x) * 10000.0 == Units(x) as real
  {
  }

  lemma UnitsRound(x: real)
    ensures RoundsTo(x, Units(x))
  {
    var y := if x >= 0.0 then x * 10000.0 else -x * 10000.0;
    var m := (y + 0.5).Floor;
    assert m as real <= y + 0.5 < m as real + 1.0;
    assert (-m) as real == -(m as real);
  }

  lemma RoundsOnce(x: real, n: int, k: int)
    requires RoundsTo(x, k)
    ensures n as real == k as real <==> RoundsTo(x, n)
  {
    if RoundsTo(x, n) {
      assert (n - k) as real == n as real - k as real;
      assert -1.0 < (n - k) as real < 1.0;
    }
  }

  /** The variation is a number of units of the fourth place, and which one. */
  lemma VariationIsExact(current: real, comparison: real, n: int, m: int)
    ensures var (absolute, percentage) := Variation(Some(current), Some(comparison));
      (absolute.Some? && (absolute.value * 10000.0 == n as real <==> RoundsTo(current - comparison, n))) &&
      (percentage.None? <==> comparison == 0.0) &&
      (percentage.Some? ==>
        (percentage.value * 10000.0 == m as real <==> RoundsTo(absolute.value / comparison * 100.0, m)))
  {
    HalfUpRounds(current - comparison, n);
    if comparison != 0.0 {
      HalfUpRounds(HalfUp(current - comparison) / comparison * 100.0, m);
    }
    hide HalfUp, RoundsTo;
  }

  lemma HalfUpIsNear(x: real)
    ensures -0.00005 <= HalfUp(x) - x <= 0.00005 && HalfUp(-x) == -HalfUp(x)
  {
    var y := if x >= 0.0 then x * 10000.0 else -x * 10000.0;
    var n := (y + 0.5).Floor as real;
    assert -0.5 <= n - y <= 0.5;
    if x >= 0.0 {
      assert HalfUp(x) == n / 10000.0;
    } else {
      assert HalfUp(x) == -n / 10000.0;
    }
    if x == 0.0 {
      assert -x == 0.0 && n == 0.0;
    }
  }

  /** The comparison window is as long as the window and ends the day before it. */
  lemma PreviousIsAdjacent(f: Filters)
    ensures var p := PreviousWindow(f);
      p.toDay + 1 == f.fromDay && p.toDay - p.fromDay == f.toDay - f.fromDay && GrainOf(p) == GrainOf(f) &&
      p == f.(fromDay := p.fromDay, toDay := p.toDay)
  {
  }

  /** A value at least as good as one that meets the target meets it too. */
  lemma StatusIsMonotone(q: Question, worse: real, better: real, target: real)
    requires if q.decreaseIsGood then better <= worse else worse <= better
    ensures StatusOf(q, Some(worse), Some(target)) == Some(Met) ==> StatusOf(q, Some(better), Some(target)) == Some(Met)
    ensures StatusOf(q, Some(target), Some(target)) == Some(Met)
  {
  }

  function StatusOf(q: Question, value: Option<real>, target: Option<real>): Option<TargetStatus> {
    if value.None? || target.None? then None else
    if q.decreaseIsGood then (if value.value <= target.value then Some(Met) else Some(Below)) else
    (if value.value >= target.value then Some(Met) else Some(Below))
  }

  function WindowValue(q: Question, f: Filters, rows: seq<AggregateTable>): Option<real>
    requires |rows| > 0
  {
    if rows[0].Keys == {} then None else q.formula(q.measures(f, rows))
  }

  /** The answer assembled from the rows of all reads. */
  function Answered(q: Question, version: nat, rows: seq<AggregateTable>, target: Option<real>): Answer
    requires |rows| == |Plan(q)|
  {
    var k := |Sections(q.filters)|;
    var value := WindowValue(q, q.filters, rows[..k]);
    var comparison := if q.bypass then None else WindowValue(q, PreviousWindow(q.filters), rows[k..]);
    var (absolute, percentage) := Variation(value, comparison);
    var hasData := rows[0].Keys != {};
    Answer(value,
      if hasData && value.Some? then None else if hasData then Some(ZeroDenominator) else Some(NoData),
      comparison, absolute, percentage, version, target, StatusOf(q, value, target),
      if q.bypass then Bypass else Miss)
  }

  /** A hit shows the goal of the moment in place of the stored one. */
  function Overlaid(q: Question, answer: Answer, target: Option<real>): Answer {
    answer.(cacheStatus := Hit, target := target, targetStatus := StatusOf(q, answer.value, target))
  }

  /** The answer computed from one version of the data. */
  function Recomputed(q: Question, version: nat, data: Data, target: Option<real>): Answer {
    Answered(q, version, RowsUpTo(q, data, |Plan(q)|), target)
  }

  function RowsUpTo(q: Question, data: Data, n: nat): (r: seq<AggregateTable>)
    requires n <= |Plan(q)|
    ensures |r| == n && forall i :: 0 <= i < n ==> r[i] == Rows(q, i, data)
  {
    seq(n, i requires 0 <= i < n => Rows(q, i, data))
  }

  predicate RefusedFrom(q: Question, data: Data, n: nat) {
    exists i :: n <= i < |Plan(q)| && Refused(q, i, data)
  }

  predicate AnyRefused(q: Question, data: Data) {
    RefusedFrom(q, data, 0)
  }

  // ---------------------------------------------------------------- states and steps

  /** A cached answer.  History only: the version each read saw, and the request that computed it. */
  datatype Entry = Entry(answer: Answer, sources: seq<nat>, writer: nat)

  datatype Request =
    | Versioned(ident: string, version: nat)
    | Overlaying(ident: string, version: nat, entry: Entry)
    | Reading(ident: string, version: nat, rows: seq<AggregateTable>, sources: seq<nat>)
    | Computed(ident: string, version: nat, entry: Entry)
    | Done(ident: string, version: nat, entry: Entry)
    | Failed(ident: string, version: nat)

  /** `history[v]` is what version v committed; the last one is current. */
  datatype State = State(
    history: seq<Data>,
    goals: map<string, real>,
    cache: map<(string, nat), Entry>,
    requests: map<nat, Request>)

  datatype Action =
    | Commit(data: Data)
    | ChangeGoals(goals: map<string, real>)
    | Expire(key: (string, nat))
    | Begin(id: nat, ident: string)
    | ReadCache(id: nat)
    | OverlayGoal(id: nat)
    | ReadRows(id: nat)
    | ReadGoal(id: nat)
    | WriteCache(id: nat)
    | Break(id: nat)

  function Goal(goals: map<string, real>, ident: string): Option<real> {
    if ident in goals then Some(goals[ident]) else None
  }

  function Initial(data: Data): (s: State)
    ensures |s.history| == 1
  {
    State([data], map[], map[], map[])
  }

  function Moved(s: State, id: nat, request: Request): State {
    s.(requests := s.requests[id := request])
  }

  /** One step of one request, from its program point. */
  function Advanced(q: Question, s: State, a: Action, request: Request): State
    requires |s.history| > 0
  {
    match (a, request)
    case (ReadCache(id), Versioned(ident, v)) =>
      if !q.bypass && (ident, v) in s.cache then Moved(s, id, Overlaying(ident, v, s.cache[(ident, v)]))
      else Moved(s, id, Reading(ident, v, [], []))
    case (OverlayGoal(id), Overlaying(ident, v, e)) =>
      Moved(s, id, Done(ident, v, e.(answer := Overlaid(q, e.answer, Goal(s.goals, ident)))))
    case (ReadRows(id), Reading(ident, v, rows, sources)) =>
      if |rows| >= |Plan(q)| then s else
      var current := |s.history| - 1;
      if Refused(q, |rows|, s.history[current]) then Moved(s, id, Failed(ident, v)) else
      Moved(s, id, Reading(ident, v, rows + [Rows(q, |rows|, s.history[current])], sources + [current]))
    case (ReadGoal(id), Reading(ident, v, rows, sources)) =>
      if |rows| != |Plan(q)| then s else
      Moved(s, id, Computed(ident, v, Entry(Answered(q, v, rows, Goal(s.goals, ident)), sources, id)))
    case (WriteCache(id), Computed(ident, v, e)) =>
      Moved(if q.bypass then s else s.(cache := s.cache[(ident, v) := e]), id, Done(ident, v, e))
    case (Break(id), _) => if request.Done? then s else Moved(s, id, Failed(request.ident, request.version))
    case _ => s
  }

  function Next(qs: Questions, s: State, a: Action): State
    requires |s.history| > 0
  {
    match a
    case Commit(data) => s.(history := s.history + [data])
    case ChangeGoals(goals) => s.(goals := goals)
    case Expire(key) => s.(cache := s.cache - {key})
    case Begin(id, ident) => if id in s.requests then s else Moved(s, id, Versioned(ident, |s.history| - 1))
    case _ => if a.id in s.requests then Advanced(qs(s.requests[a.id].ident), s, a, s.requests[a.id]) else s
  }

  /** A commit changes the data, a goal change the goals, an expiry its cache entry, and nothing else. */
  lemma SurroundingsMove(qs: Questions, s: State, data: Data, goals: map<string, real>, key: (string, nat))
    requires |s.history| > 0
    ensures Next(qs, s, Commit(data)) == s.(history := s.history + [data])
    ensures Next(qs, s, ChangeGoals(goals)) == s.(goals := goals)
    ensures var t := Next(qs, s, Expire(key));
      t == s.(cache := t.cache) && t.cache.Keys == s.cache.Keys - {key} &&
      forall k :: k in t.cache ==> t.cache[k] == s.cache[k]
  {
  }

  /** A step of a request changes that request alone and, when it writes, the
      cache entry of its own question and version. */
  lemma StepsAreLocal(qs: Questions, s: State, a: Action)
    requires |s.history| > 0 && !a.Commit? && !a.ChangeGoals? && !a.Expire?
    ensures var t := Next(qs, s, a);
      t.history == s.history && t.goals == s.goals &&
      t.requests - {a.id} == s.requests - {a.id} &&
      (t.cache == s.cache ||
       (a.WriteCache? && a.id in s.requests && s.requests[a.id].Computed? &&
        var r := s.requests[a.id]; t.cache == s.cache[(r.ident, r.version) := r.entry]))
  {
    hide Rows, Refused, Answered, Overlaid, Plan;
  }

  lemma NextKeepsHistory(qs: Questions, s: State, a: Action)
    requires |s.history| > 0
    ensures Next(qs, s, a).history == if a.Commit? then s.history + [a.data] else s.history
  {
    hide Rows, Refused, Answered, Overlaid, Plan;
  }

  function Run(qs: Questions, s: State, actions: seq<Action>): (r: State)
    requires |s.history| > 0
    ensures |r.history| >= |s.history|
    decreases |actions|
  {
    if actions == [] then s else
    NextKeepsHistory(qs, s, actions[0]);
    Run(qs, Next(qs, s, actions[0]), actions[1..])
  }

  function Commits(actions: seq<Action>): nat {
    if actions == [] then 0 else (if actions[0].Commit? then 1 else 0) + Commits(actions[1..])
  }

  // ---------------------------------------------------------------- the invariant

  /** Every read saw version `v` or a later one, and never an earlier one than the read before. */
  ghost predicate NotBefore(sources: seq<nat>, v: nat, now: nat) {
    (forall i :: 0 <= i < |sources| ==> v <= sources[i] < now) &&
    (forall i, j :: 0 <= i < j < |sources| ==> sources[i] <= sources[j])
  }

  /** The rows that reads of these versions return; no read was refused. */
  ghost predicate RowsAre(q: Question, history: seq<Data>, sources: seq<nat>, rows: seq<AggregateTable>) {
    |rows| == |sources| <= |Plan(q)| &&
    forall i :: 0 <= i < |sources| ==>
      (sources[i] < |history| && rows[i] == Rows(q, i, history[sources[i]]) && !Refused(q, i, history[sources[i]]))
  }

  ghost predicate Explains(q: Question, history: seq<Data>, v: nat, e: Entry, rows: seq<AggregateTable>) {
    |rows| == |Plan(q)| && RowsAre(q, history, e.sources, rows) &&
    e.answer.(cacheStatus := Miss) == Answered(q, v, rows, e.answer.target).(cacheStatus := Miss) &&
    (e.answer.cacheStatus.Hit? ==> !q.bypass) && (q.bypass <==> e.answer.cacheStatus.Bypass?)
  }

  /** The answer was computed from versions not before `v`. */
  ghost predicate EntryValid(q: Question, history: seq<Data>, v: nat, e: Entry) {
    v < |history| && NotBefore(e.sources, v, |history|) && exists rows :: Explains(q, history, v, e, rows)
  }

  ghost predicate RequestValid(qs: Questions, history: seq<Data>, request: Request) {
    var q := qs(request.ident);
    request.version < |history| &&
    match request
    case Versioned(_, _) => true
    case Overlaying(_, v, e) => !q.bypass && EntryValid(q, history, v, e)
    case Reading(_, v, rows, sources) => NotBefore(sources, v, |history|) && RowsAre(q, history, sources, rows)
    case Computed(_, v, e) => EntryValid(q, history, v, e)
    case Done(_, v, e) => EntryValid(q, history, v, e)
    case Failed(_, _) => true
  }

  ghost predicate Valid(qs: Questions, s: State) {
    |s.history| > 0 &&
    (forall key :: key in s.cache ==> !qs(key.0).bypass && EntryValid(qs(key.0), s.history, key.1, s.cache[key])) &&
    (forall id :: id in s.requests ==> RequestValid(qs, s.history, s.requests[id]))
  }

  lemma RowsKept(q: Question, history: seq<Data>, data: Data, sources: seq<nat>, rows: seq<AggregateTable>)
    requires RowsAre(q, history, sources, rows)
    ensures RowsAre(q, history + [data], sources, rows)
  {
    hide Rows, Refused, Plan;
  }

  lemma EntryKept(q: Question, history: seq<Data>, data: Data, v: nat, e: Entry)
    requires EntryValid(q, history, v, e)
    ensures EntryValid(q, history + [data], v, e)
  {
    hide RowsAre, Answered, Plan;
    var rows :| Explains(q, history, v, e, rows);
    RowsKept(q, history, data, e.sources, rows);
    assert Explains(q, history + [data], v, e, rows);
  }

  lemma RequestKept(qs: Questions, history: seq<Data>, data: Data, request: Request)
    requires RequestValid(qs, history, request)
    ensures RequestValid(qs, history + [data], request)
  {
    hide RowsAre, EntryValid;
    var q := qs(request.ident);
    match request
    case Reading(_, _, rows, sources) => RowsKept(q, history, data, sources, rows);
    case Overlaying(_, v, e) => EntryKept(q, history, data, v, e);
    case Computed(_, v, e) => EntryKept(q, history, data, v, e);
    case Done(_, v, e) => EntryKept(q, history, data, v, e);
    case _ =>
  }

  lemma OverlayKept(q: Question, history: seq<Data>, v: nat, e: Entry, target: Option<real>)
    requires EntryValid(q, history, v, e) && !q.bypass
    ensures EntryValid(q, history, v, e.(answer := Overlaid(q, e.answer, target)))
  {
    hide RowsAre, Answered, Plan, NotBefore;
    var rows :| Explains(q, history, v, e, rows);
    AnswerParts(q, v, rows, e.answer.target, target);
    assert Explains(q, history, v, e.(answer := Overlaid(q, e.answer, target)), rows);
  }

  lemma AnswerParts(q: Question, v: nat, rows: seq<AggregateTable>, stored: Option<real>, target: Option<real>)
    requires |rows| == |Plan(q)|
    ensures var one := Answered(q, v, rows, stored);
      Answered(q, v, rows, target) == one.(target := target, targetStatus := StatusOf(q, one.value, target))
    ensures Answered(q, v, rows, target).cacheStatus == (if q.bypass then Bypass else Miss)
    ensures Answered(q, v, rows, target).target == target
  {
    hide Plan, Sections, WindowValue, Variation, StatusOf;
  }

  lemma ReadKept(q: Question, history: seq<Data>, v: nat, rows: seq<AggregateTable>, sources: seq<nat>)
    requires 0 <= v < |history| && NotBefore(sources, v, |history|) && RowsAre(q, history, sources, rows) &&
      |rows| < |Plan(q)|
    requires !Refused(q, |rows|, history[|history| - 1])
    ensures NotBefore(sources + [|history| - 1], v, |history|)
    ensures RowsAre(q, history, sources + [|history| - 1], rows + [Rows(q, |rows|, history[|history| - 1])])
  {
    hide Rows, Refused, Plan;
  }

  lemma NothingRead(q: Question, history: seq<Data>, v: nat)
    ensures NotBefore([], v, |history|) && RowsAre(q, history, [], [])
  {
  }

  lemma ComputedIsValid(q: Question, history: seq<Data>, v: nat, rows: seq<AggregateTable>, sources: seq<nat>,
                        target: Option<real>, writer: nat)
    requires v < |history| && NotBefore(sources, v, |history|) && RowsAre(q, history, sources, rows) &&
      |rows| == |Plan(q)|
    ensures EntryValid(q, history, v, Entry(Answered(q, v, rows, target), sources, writer))
  {
    hide RowsAre, Answered, Plan, NotBefore;
    AnswerParts(q, v, rows, target, target);
    assert Explains(q, history, v, Entry(Answered(q, v, rows, target), sources, writer), rows);
  }

  /** A step of a request leaves it valid. */
  lemma AdvanceKeepsValid(qs: Questions, s: State, a: Action, id: nat)
    requires Valid(qs, s) && id in s.requests
    requires !a.Commit? && !a.ChangeGoals? && !a.Expire? && !a.Begin? && a.id == id
    ensures Valid(qs, Advanced(qs(s.requests[id].ident), s, a, s.requests[id]))
  {
    hide EntryValid, RowsAre, Answered, Overlaid, Plan, NotBefore, Refused, Rows;
    if a.OverlayGoal? || a.ReadRows? || a.ReadGoal? {
      ReadKeepsValid(qs, s, a, id);
    } else {
      assert RequestValid(qs, s.history, s.requests[id]);
      NothingRead(qs(s.requests[id].ident), s.history, s.requests[id].version);
    }
  }

  lemma ReadKeepsValid(qs: Questions, s: State, a: Action, id: nat)
    requires Valid(qs, s) && id in s.requests
    requires (a.OverlayGoal? || a.ReadRows? || a.ReadGoal?) && a.id == id
    ensures Valid(qs, Advanced(qs(s.requests[id].ident), s, a, s.requests[id]))
  {
    hide EntryValid, RowsAre, Answered, Overlaid, Plan, NotBefore, Refused, Rows;
    var request := s.requests[id];
    var q := qs(request.ident);
    assert RequestValid(qs, s.history, request);
    match (a, request)
    case (OverlayGoal(_), Overlaying(ident, v, e)) => OverlayKept(q, s.history, v, e, Goal(s.goals, ident));
    case (ReadRows(_), Reading(ident, v, rows, sources)) =>
      if |rows| < |Plan(q)| && !Refused(q, |rows|, s.history[|s.history| - 1]) {
        ReadKept(q, s.history, v, rows, sources);
      }
    case (ReadGoal(_), Reading(ident, v, rows, sources)) =>
      if |rows| == |Plan(q)| {
        ComputedIsValid(q, s.history, v, rows, sources, Goal(s.goals, ident), id);
      }
    case _ =>
  }

  lemma NextKeepsValid(qs: Questions, s: State, a: Action)
    requires Valid(qs, s)
    ensures Valid(qs, Next(qs, s, a))
  {
    hide EntryValid, Advanced;
    match a
    case Commit(data) =>
      hide RequestValid;
      forall key | key in s.cache ensures EntryValid(qs(key.0), s.history + [data], key.1, s.cache[key]) {
        EntryKept(qs(key.0), s.history, data, key.1, s.cache[key]);
      }
      forall id | id in s.requests ensures RequestValid(qs, s.history + [data], s.requests[id]) {
        RequestKept(qs, s.history, data, s.requests[id]);
      }
    case ChangeGoals(_) =>
    case Expire(_) =>
    case Begin(_, _) =>
    case _ =>
      if a.id in s.requests {
        AdvanceKeepsValid(qs, s, a, a.id);
      }
  }

  /** In every interleaving, each cached, pending or returned answer was computed
      only from data of its version or later, in an order that never goes back. */
  lemma {:induction false} RunsKeepValid(qs: Questions, s: State, actions: seq<Action>)
    requires Valid(qs, s)
    ensures Valid(qs, Run(qs, s, actions))
    decreases |actions|
  {
    hide Valid;
    if actions == [] {
    } else {
      StaysNonempty(qs, s);
      NextKeepsValid(qs, s, actions[0]);
      RunsKeepValid(qs, Next(qs, s, actions[0]), actions[1..]);
    }
  }

  lemma StaysNonempty(qs: Questions, s: State)
    requires Valid(qs, s)
    ensures |s.history| > 0
  {
  }

  // ---------------------------------------------------------------- what callers see

  /** The state reached from an initial one. */
  lemma ReachableIsValid(qs: Questions, data: Data, actions: seq<Action>)
    ensures Valid(qs, Run(qs, Initial(data), actions))
  {
    RunsKeepValid(qs, Initial(data), actions);
  }

  lemma ReachableWritersKnown(qs: Questions, data: Data, actions: seq<Action>)
    ensures WritersKnown(Run(qs, Initial(data), actions))
  {
    RunsKeepWriters(qs, Initial(data), actions);
  }

  /** A request never returns data older than the version it read, whether the
      answer came from the cache or was computed. */
  lemma NeverStale(qs: Questions, data: Data, actions: seq<Action>, id: nat)
    ensures var s := Run(qs, Initial(data), actions);
      id in s.requests && s.requests[id].Done? ==>
        var r := s.requests[id];
        |r.entry.sources| == |Plan(qs(r.ident))| &&
        r.entry.answer.version == r.version &&
        forall i :: 0 <= i < |r.entry.sources| ==> r.version <= r.entry.sources[i] < |s.history|
  {
    ReachableIsValid(qs, data, actions);
    var s := Run(qs, Initial(data), actions);
    hide Run;
    if id in s.requests && s.requests[id].Done? {
      var r := s.requests[id];
      assert RequestValid(qs, s.history, r);
      EntryReads(qs(r.ident), s.history, r.version, r.entry);
    }
  }

  lemma EntryReads(q: Question, history: seq<Data>, v: nat, e: Entry)
    requires EntryValid(q, history, v, e)
    ensures |e.sources| == |Plan(q)| && e.answer.version == v
    ensures forall i :: 0 <= i < |e.sources| ==> v <= e.sources[i] < |history|
  {
    hide Plan, WindowValue, Variation, StatusOf, Rows, Refused;
    var rows :| Explains(q, history, v, e, rows);
  }

  /** Which value is better follows the indicator's direction. */
  ghost predicate WorseThan(q: Question, value: real, target: real) {
    if q.decreaseIsGood then target < value else value < target
  }

  /** What an answer says about its own value, target and comparison. */
  ghost predicate Judged(q: Question, nothingRead: bool, a: Answer) {
    (a.targetStatus == None <==> a.value == None || a.target == None) &&
    (a.value.Some? && a.target.Some? ==>
      a.targetStatus == Some(if WorseThan(q, a.value.value, a.target.value) then Below else Met)) &&
    (a.reason == None <==> a.value.Some?) && (a.value == None ==> a.reason == Some(if nothingRead then NoData
      else ZeroDenominator)) &&
    (nothingRead ==> a.value == None) &&
    (a.absolute == None <==> a.value == None || a.comparison == None) &&
    (a.percentage == None <==> a.absolute == None || a.comparison == Some(0.0)) &&
    (a.cacheStatus == Bypass <==> q.bypass) && (q.bypass ==> a.comparison == None)
  }

  /** Whatever an interleaving serves, from the cache or computed, states the
      goal status that its value and target have, a reason exactly without a
      value, and a variation exactly with both values. */
  lemma AnswersAreJudged(qs: Questions, data: Data, actions: seq<Action>, id: nat)
    ensures var s := Run(qs, Initial(data), actions);
      id in s.requests && s.requests[id].Done? ==>
        var q, e := qs(s.requests[id].ident), s.requests[id].entry;
        |Plan(q)| > 0 && |e.sources| > 0 && e.sources[0] < |s.history| &&
        Judged(q, Rows(q, 0, s.history[e.sources[0]]).Keys == {}, e.answer)
  {
    ReachableIsValid(qs, data, actions);
    var s := Run(qs, Initial(data), actions);
    hide Run;
    if id in s.requests && s.requests[id].Done? {
      assert RequestValid(qs, s.history, s.requests[id]);
      EntryIsJudged(qs(s.requests[id].ident), s.history, s.requests[id].version, s.requests[id].entry);
    }
  }

  lemma EntryIsJudged(q: Question, history: seq<Data>, v: nat, e: Entry)
    requires EntryValid(q, history, v, e)
    ensures |Plan(q)| > 0 && |e.sources| > 0 && e.sources[0] < |history|
    ensures Judged(q, Rows(q, 0, history[e.sources[0]]).Keys == {}, e.answer)
  {
    hide Plan, Answered, Rows, Refused, Judged;
    var rows: seq<AggregateTable> :| Explains(q, history, v, e, rows);
    ComputedIsJudged(q, v, rows, e.answer.target);
    JudgedAlike(q, rows[0].Keys == {}, Answered(q, v, rows, e.answer.target), e.answer);
  }

  lemma JudgedAlike(q: Question, nothingRead: bool, a: Answer, b: Answer)
    requires Judged(q, nothingRead, a) && a.(cacheStatus := Miss) == b.(cacheStatus := Miss)
    requires b.cacheStatus == Bypass <==> q.bypass
    ensures Judged(q, nothingRead, b)
  {
  }

  lemma ComputedIsJudged(q: Question, v: nat, rows: seq<AggregateTable>, target: Option<real>)
    requires |rows| == |Plan(q)|
    ensures Judged(q, rows[0].Keys == {}, Answered(q, v, rows, target))
  {
    hide Plan, HalfUp, Sections;
    assert rows[..|Sections(q.filters)|][0] == rows[0];
  }

  /** The target that an answer states is the goal at the moment of its last
      read, on a hit and on a miss, and it stays when the answer is written. */
  lemma TargetIsTheGoal(qs: Questions, s: State, id: nat)
    requires |s.history| > 0 && id in s.requests
    ensures var r := s.requests[id];
      var goal := if r.ident in s.goals then Some(s.goals[r.ident]) else None;
      match r
      case Overlaying(_, _, _) =>
        var after := Next(qs, s, OverlayGoal(id)).requests;
        id in after && after[id].Done? && after[id].entry.answer.target == goal
      case Reading(_, _, rows, _) =>
        var after := Next(qs, s, ReadGoal(id)).requests;
        |rows| == |Plan(qs(r.ident))| ==> id in after && after[id].Computed? && after[id].entry.answer.target == goal
      case Computed(_, _, e) =>
        var after := Next(qs, s, WriteCache(id)).requests;
        id in after && after[id].Done? && after[id].entry == e
      case _ => true
  {
    hide Plan, Variation, WindowValue, StatusOf;
  }

  lemma RunAppends(qs: Questions, s: State, actions: seq<Action>, more: seq<Action>)
    requires |s.history| > 0
    ensures Run(qs, s, actions + more) == Run(qs, Run(qs, s, actions), more)
    decreases |actions|
  {
    hide Next;
    if actions == [] {
      assert actions + more == more;
    } else {
      NextKeepsHistory(qs, s, actions[0]);
      assert (actions + more)[1..] == actions[1..] + more;
      RunAppends(qs, Next(qs, s, actions[0]), actions[1..], more);
    }
  }

  /** Requests stay in the table with the question and version they began with. */
  lemma {:induction false} RequestStays(qs: Questions, s: State, actions: seq<Action>, id: nat)
    requires |s.history| > 0 && id in s.requests
    ensures var t := Run(qs, s, actions);
      id in t.requests && t.requests[id].ident == s.requests[id].ident &&
        t.requests[id].version == s.requests[id].version
    decreases |actions|
  {
    if actions == [] {
    } else {
      hide *;
      RunUnfolds(qs, s, actions);
      NextKeepsHistory(qs, s, actions[0]);
      StepStays(qs, s, actions[0], id);
      RequestStays(qs, Next(qs, s, actions[0]), actions[1..], id);
    }
  }

  lemma RunUnfolds(qs: Questions, s: State, actions: seq<Action>)
    requires |s.history| > 0 && actions != []
    ensures |Next(qs, s, actions[0]).history| > 0
    ensures Run(qs, s, actions) == Run(qs, Next(qs, s, actions[0]), actions[1..])
    ensures Commits(actions) == (if actions[0].Commit? then 1 else 0) + Commits(actions[1..])
  {
    hide Next;
    NextKeepsHistory(qs, s, actions[0]);
  }

  lemma StepStays(qs: Questions, s: State, a: Action, id: nat)
    requires |s.history| > 0 && id in s.requests
    ensures var t := Next(qs, s, a);
      id in t.requests && t.requests[id].ident == s.requests[id].ident &&
        t.requests[id].version == s.requests[id].version
  {
    hide Rows, Refused, Answered, Overlaid, Plan;
  }

  lemma {:induction false} CommitsRaiseVersion(qs: Questions, s: State, actions: seq<Action>)
    requires |s.history| > 0
    ensures |Run(qs, s, actions).history| == |s.history| + Commits(actions)
    ensures s.history <= Run(qs, s, actions).history
    decreases |actions|
  {
    if actions != [] {
      hide *;
      RunUnfolds(qs, s, actions);
      NextKeepsHistory(qs, s, actions[0]);
      CommitsRaiseVersion(qs, Next(qs, s, actions[0]), actions[1..]);
    } else {
      hide Next;
    }
  }

  /** At its last read, a request has seen one version only, the one its answer
      is filed under, exactly when no refresh committed since it read the version. */
  lemma TornExactlyByCommits(qs: Questions, s: State, id: nat, ident: string, actions: seq<Action>)
    requires Valid(qs, s) && id !in s.requests
    ensures var before := Run(qs, Next(qs, s, Begin(id, ident)), actions);
      id in before.requests && id in Next(qs, before, ReadRows(id)).requests &&
      var after := Next(qs, before, ReadRows(id)).requests[id];
      before.requests[id].Reading? && after.Reading? &&
        |after.rows| == |Plan(qs(ident))| > |before.requests[id].rows| ==>
        (Commits(actions) == 0 <==> forall i :: 0 <= i < |after.sources| ==> after.sources[i] == after.version)
  {
    hide Run, Valid, Advanced, Plan;
    StaysNonempty(qs, s);
    var begun := Next(qs, s, Begin(id, ident));
    NextKeepsValid(qs, s, Begin(id, ident));
    RequestStays(qs, begun, actions, id);
    RunsKeepValid(qs, begun, actions);
    CommitsRaiseVersion(qs, begun, actions);
    StepStays(qs, Run(qs, begun, actions), ReadRows(id), id);
    LastRead(qs, Run(qs, begun, actions), id);
  }

  lemma LastRead(qs: Questions, s: State, id: nat)
    requires Valid(qs, s) && id in s.requests
    ensures id in Next(qs, s, ReadRows(id)).requests
    ensures var before, after := s.requests[id], Next(qs, s, ReadRows(id)).requests[id];
      before.Reading? && after.Reading? && |after.rows| > |before.rows| ==>
        after.version == before.version && after.version < |s.history| &&
        (|s.history| - 1 == after.version <==> forall i :: 0 <= i < |after.sources| ==>
          after.sources[i] == after.version)
  {
    hide Rows, Refused, Answered, Overlaid, Plan, EntryValid;
    assert RequestValid(qs, s.history, s.requests[id]);
    var before, after := s.requests[id], Next(qs, s, ReadRows(id)).requests[id];
    if before.Reading? && after.Reading? && |after.rows| > |before.rows| {
      assert after.sources[|after.sources| - 1] == |s.history| - 1;
    }
  }

  // ---------------------------------------------------------------- who computed an entry

  /** The request that computed the entry has returned it, and read what the entry says. */
  ghost predicate Attributed(requests: map<nat, Request>, e: Entry) {
    e.writer in requests && requests[e.writer].Done? && requests[e.writer].entry.sources == e.sources
  }

  ghost predicate WriterKnown(requests: map<nat, Request>, id: nat)
    requires id in requests
  {
    match requests[id]
    case Overlaying(_, _, e) => Attributed(requests, e)
    case Computed(_, _, e) => e.writer == id
    case Done(_, _, e) => Attributed(requests, e)
    case _ => true
  }

  ghost predicate WritersKnown(s: State) {
    (forall key :: key in s.cache ==> Attributed(s.requests, s.cache[key])) &&
    (forall id :: id in s.requests ==> WriterKnown(s.requests, id))
  }

  /** A request that has returned stays as it is. */
  lemma AttributedStays(requests: map<nat, Request>, id: nat, request: Request, e: Entry)
    requires Attributed(requests, e) && (id in requests ==> !requests[id].Done?)
    ensures Attributed(requests[id := request], e)
  {
  }

  lemma MoveKeepsWriters(s: State, id: nat, request: Request)
    requires WritersKnown(s) && (id in s.requests ==> !s.requests[id].Done?)
    requires WriterKnown(s.requests[id := request], id)
    ensures WritersKnown(Moved(s, id, request))
  {
    hide Attributed;
    var t := Moved(s, id, request);
    forall key | key in t.cache ensures Attributed(t.requests, t.cache[key]) {
      AttributedStays(s.requests, id, request, s.cache[key]);
    }
    forall o | o in t.requests && o != id ensures WriterKnown(t.requests, o) {
      assert WriterKnown(s.requests, o);
      match s.requests[o]
      case Overlaying(_, _, e) => AttributedStays(s.requests, id, request, e);
      case Done(_, _, e) => AttributedStays(s.requests, id, request, e);
      case _ =>
    }
  }

  lemma CacheKeepsWriters(s: State, key: (string, nat), e: Entry)
    requires WritersKnown(s) && Attributed(s.requests, e)
    ensures WritersKnown(s.(cache := s.cache[key := e]))
  {
    hide Attributed;
    assert forall id :: id in s.requests ==> WriterKnown(s.requests, id);
  }

  lemma NextKeepsWriters(qs: Questions, s: State, a: Action)
    requires WritersKnown(s) && |s.history| > 0
    ensures WritersKnown(Next(qs, s, a))
  {
    hide Rows, Refused, Answered, Overlaid, Plan, WritersKnown;
    match a
    case Commit(_) => SameWriters(s, Next(qs, s, a));
    case ChangeGoals(_) => SameWriters(s, Next(qs, s, a));
    case Expire(_) => SameWriters(s, Next(qs, s, a));
    case Begin(id, ident) =>
      if id !in s.requests {
        MoveKeepsWriters(s, id, Versioned(ident, |s.history| - 1));
      }
    case _ =>
      if a.id in s.requests && Next(qs, s, a) != s {
        AdvanceKeepsWriters(qs(s.requests[a.id].ident), s, a, a.id);
      }
  }

  lemma SameWriters(s: State, t: State)
    requires WritersKnown(s) && t.requests == s.requests
    requires forall key :: key in t.cache ==> key in s.cache && t.cache[key] == s.cache[key]
    ensures WritersKnown(t)
  {
    hide Attributed, WriterKnown;
  }

  lemma AdvanceKeepsWriters(q: Question, s: State, a: Action, id: nat)
    requires WritersKnown(s) && |s.history| > 0 && id in s.requests
    requires !a.Commit? && !a.ChangeGoals? && !a.Expire? && !a.Begin? && a.id == id
    requires Advanced(q, s, a, s.requests[id]) != s
    ensures WritersKnown(Advanced(q, s, a, s.requests[id]))
  {
    hide Rows, Refused, Answered, Overlaid, Plan;
    var t := Advanced(q, s, a, s.requests[id]);
    var request := t.requests[id];
    assert WriterKnown(s.requests, id);
    assert !s.requests[id].Done?;
    if s.requests[id].Overlaying? {
      AttributedStays(s.requests, id, request, s.requests[id].entry);
    }
    if a.ReadCache? && request.Overlaying? {
      AttributedStays(s.requests, id, request, request.entry);
    }
    MoveKeepsWriters(s, id, request);
    if a.WriteCache? && !q.bypass {
      CacheKeepsWriters(Moved(s, id, request), (request.ident, request.version), request.entry);
    }
  }

  lemma {:induction false} RunsKeepWriters(qs: Questions, s: State, actions: seq<Action>)
    requires WritersKnown(s) && |s.history| > 0
    ensures WritersKnown(Run(qs, s, actions))
    decreases |actions|
  {
    hide *;
    if actions == [] {
      RunNothing(qs, s);
    } else {
      RunUnfolds(qs, s, actions);
      NextKeepsWriters(qs, s, actions[0]);
      RunsKeepWriters(qs, Next(qs, s, actions[0]), actions[1..]);
    }
  }

  /** All reads are done and saw these versions. */
  ghost predicate HasRead(q: Question, id: nat, request: Request, sources: seq<nat>) {
    match request
    case Reading(_, _, rows, seen) => |rows| == |Plan(q)| && seen == sources
    case Computed(_, _, e) => e.sources == sources && e.writer == id
    case Done(_, _, e) => e.sources == sources
    case Failed(_, _) => true
    case _ => false
  }

  lemma ReadsStay(qs: Questions, s: State, a: Action, id: nat, sources: seq<nat>)
    requires |s.history| > 0 && id in s.requests && HasRead(qs(s.requests[id].ident), id, s.requests[id], sources)
    ensures var t := Next(qs, s, a);
      id in t.requests && t.requests[id].ident == s.requests[id].ident &&
      HasRead(qs(t.requests[id].ident), id, t.requests[id], sources)
  {
    hide Rows, Refused, Answered, Overlaid, Plan;
  }

  lemma {:induction false} RunsKeepReads(qs: Questions, s: State, actions: seq<Action>, id: nat, sources: seq<nat>)
    requires |s.history| > 0 && id in s.requests && HasRead(qs(s.requests[id].ident), id, s.requests[id], sources)
    ensures var t := Run(qs, s, actions);
      id in t.requests && HasRead(qs(t.requests[id].ident), id, t.requests[id], sources)
    decreases |actions|
  {
    hide *;
    if actions == [] {
      RunNothing(qs, s);
    } else {
      RunUnfolds(qs, s, actions);
      ReadsStay(qs, s, actions[0], id, sources);
      RunsKeepReads(qs, Next(qs, s, actions[0]), actions[1..], id, sources);
    }
  }

  lemma EntryOfWriter(q: Question, requests: map<nat, Request>, writer: nat, sources: seq<nat>, e: Entry)
    requires writer in requests && HasRead(q, writer, requests[writer], sources)
    requires Attributed(requests, e) && e.writer == writer
    ensures e.sources == sources
  {
    hide Plan;
  }

  /** The entry that a request returns or is about to overlay. */
  ghost predicate Holds(s: State, id: nat, e: Entry) {
    id in s.requests && (s.requests[id].Overlaying? || s.requests[id].Done?) && s.requests[id].entry == e
  }

  lemma HeldIsAttributed(s: State, id: nat, e: Entry)
    requires WritersKnown(s) && Holds(s, id, e)
    ensures Attributed(s.requests, e)
  {
    assert WriterKnown(s.requests, id);
  }

  /** What a request serves, from the cache or computed by itself, mixes no
      versions if and only if no refresh committed between the version read and
      the last read of the request that computed it.  `between` are the actions
      between these two, `later` whatever happens until the answer is served. */
  lemma ServedIsTornExactlyByCommits(qs: Questions, s: State, writer: nat, ident: string, between: seq<Action>,
                                     later: seq<Action>, id: nat, e: Entry)
    requires Valid(qs, s) && WritersKnown(s) && writer !in s.requests
    ensures var before := Run(qs, Next(qs, s, Begin(writer, ident)), between);
      var after := Next(qs, before, ReadRows(writer));
      writer in before.requests && writer in after.requests &&
      (before.requests[writer].Reading? && after.requests[writer].Reading? &&
       |after.requests[writer].rows| == |Plan(qs(ident))| > |before.requests[writer].rows| &&
       Holds(Run(qs, after, later), id, e) && e.writer == writer ==>
        (Commits(between) == 0 <==> forall i :: 0 <= i < |e.sources| ==>
          e.sources[i] == after.requests[writer].version))
  {
    hide Run, Valid, Advanced, Plan, WritersKnown, Attributed, Holds;
    StaysNonempty(qs, s);
    var begun := Next(qs, s, Begin(writer, ident));
    var before := Run(qs, begun, between);
    var after := Next(qs, before, ReadRows(writer));
    NextKeepsWriters(qs, s, Begin(writer, ident));
    RequestStays(qs, begun, between, writer);
    RunsKeepWriters(qs, begun, between);
    StepStays(qs, before, ReadRows(writer), writer);
    NextKeepsHistory(qs, before, ReadRows(writer));
    NextKeepsWriters(qs, before, ReadRows(writer));
    TornExactlyByCommits(qs, s, writer, ident, between);
    RunsKeepWriters(qs, after, later);
    if after.requests[writer].Reading? && |after.requests[writer].rows| == |Plan(qs(ident))| &&
      Holds(Run(qs, after, later), id, e) && e.writer == writer
    {
      var sources := after.requests[writer].sources;
      RunsKeepReads(qs, after, later, writer, sources);
      var t := Run(qs, after, later);
      HeldIsAttributed(t, id, e);
      EntryOfWriter(qs(t.requests[writer].ident), t.requests, writer, sources, e);
    }
  }

  /** Reads never go back from one request to the next: what a request begun
      after another's answer reads is at least as recent as anything in that answer. */
  lemma MonotonicReads(qs: Questions, s: State, first: nat, second: nat, ident: string, actions: seq<Action>)
    requires Valid(qs, s) && second !in s.requests
    ensures var t := Run(qs, Next(qs, s, Begin(second, ident)), actions);
      first in s.requests && s.requests[first].Done? && second in t.requests && t.requests[second].Done? ==>
        forall i, j :: 0 <= i < |s.requests[first].entry.sources| && 0 <= j < |t.requests[second].entry.sources| ==>
          s.requests[first].entry.sources[i] <= t.requests[second].entry.sources[j]
  {
    hide Run, Valid, Advanced, Plan, EntryValid;
    StaysNonempty(qs, s);
    var begun := Next(qs, s, Begin(second, ident));
    NextKeepsValid(qs, s, Begin(second, ident));
    RequestStays(qs, begun, actions, second);
    RunsKeepValid(qs, begun, actions);
    DoneReads(qs, s, first);
    DoneReads(qs, Run(qs, begun, actions), second);
  }

  lemma DoneReads(qs: Questions, s: State, id: nat)
    requires Valid(qs, s)
    ensures id in s.requests && s.requests[id].Done? ==>
      var r := s.requests[id];
      |r.entry.sources| == |Plan(qs(r.ident))| && forall i :: 0 <= i < |r.entry.sources| ==>
        r.version <= r.entry.sources[i] < |s.history|
  {
    hide Plan, EntryValid;
    if id in s.requests && s.requests[id].Done? {
      var r := s.requests[id];
      assert RequestValid(qs, s.history, r);
      EntryReads(qs(r.ident), s.history, r.version, r.entry);
    }
  }

  // ---------------------------------------------------------------- hits and recomputations

  /** An answer whose reads all saw its version is the one computed from that version. */
  lemma CoherentIsRecomputed(q: Question, history: seq<Data>, v: nat, e: Entry, target: Option<real>)
    requires EntryValid(q, history, v, e) && forall i :: 0 <= i < |e.sources| ==> e.sources[i] == v
    ensures !AnyRefused(q, history[v])
    ensures Overlaid(q, e.answer, target) == Recomputed(q, v, history[v], target).(cacheStatus := Hit)
    ensures e.answer.(cacheStatus := Miss) == Recomputed(q, v, history[v], e.answer.target).(cacheStatus := Miss)
  {
    hide Plan, Answered, Rows, Refused, StatusOf;
    var rows :| Explains(q, history, v, e, rows);
    assert rows == RowsUpTo(q, history[v], |Plan(q)|);
    forall i | 0 <= i < |Plan(q)| ensures !Refused(q, i, history[v]) {
      assert e.sources[i] == v;
    }
    AnswerParts(q, v, rows, e.answer.target, target);
  }

  /** A hit while the version is still the current one is what computing the
      answer anew would give, with the goal of the moment, except for its status. */
  lemma HitIsRecomputation(qs: Questions, s: State, id: nat)
    requires Valid(qs, s) && id in s.requests && s.requests[id].Overlaying?
    requires |s.history| > 0 && s.requests[id].version == |s.history| - 1
    ensures !AnyRefused(qs(s.requests[id].ident), s.history[|s.history| - 1])
    ensures id in Next(qs, s, OverlayGoal(id)).requests
    ensures var r, data := s.requests[id], s.history[|s.history| - 1];
      var answer := Recomputed(qs(r.ident), r.version, data, Goal(s.goals, r.ident)).(cacheStatus := Hit);
      Next(qs, s, OverlayGoal(id)).requests[id] == Done(r.ident, r.version, r.entry.(answer := answer))
  {
    hide Plan, Answered, Rows, Refused, Recomputed, AnyRefused, Overlaid;
    var r := s.requests[id];
    assert RequestValid(qs, s.history, r);
    CoherentIsRecomputed(qs(r.ident), s.history, r.version, r.entry, Goal(s.goals, r.ident));
  }

  function ReadTimes(id: nat, n: nat): (r: seq<Action>)
    ensures |r| == n && forall i :: 0 <= i < n ==> r[i] == ReadRows(id)
  {
    Repeated(ReadRows(id), n)
  }

  /** The steps of a request that nothing interrupts. */
  function Alone(q: Question, s: State, id: nat, ident: string): seq<Action>
    requires |s.history| > 0
  {
    [Begin(id, ident), ReadCache(id)] +
    if !q.bypass && (ident, |s.history| - 1) in s.cache then [OverlayGoal(id)] else
    ReadTimes(id, |Plan(q)|) + [ReadGoal(id), WriteCache(id)]
  }

  /** The state with the request's first `n` reads done, all of the current version. */
  function AfterReads(q: Question, s: State, id: nat, ident: string, n: nat): (t: State)
    requires |s.history| > 0 && n <= |Plan(q)|
    ensures t.history == s.history && t.goals == s.goals && t.cache == s.cache
    ensures id in t.requests && t.requests[id].ident == ident
  {
    var v := |s.history| - 1;
    Moved(s, id, Reading(ident, v, RowsUpTo(q, s.history[v], n), Repeated(v, n)))
  }

  function AfterFailure(s: State, id: nat, ident: string): State
    requires |s.history| > 0
  {
    Moved(s, id, Failed(ident, |s.history| - 1))
  }

  lemma MovedTwice(s: State, id: nat, first: Request, second: Request)
    ensures Moved(Moved(s, id, first), id, second) == Moved(s, id, second)
  {
  }

  lemma OneRead(qs: Questions, s: State, id: nat, ident: string, n: nat)
    requires |s.history| > 0 && n < |Plan(qs(ident))|
    ensures var q := qs(ident);
      Next(qs, AfterReads(q, s, id, ident, n), ReadRows(id)) ==
      if Refused(q, n, s.history[|s.history| - 1]) then AfterFailure(s, id, ident)
        else AfterReads(q, s, id, ident, n + 1)
  {
    hide Plan, Rows, Refused, Answered, Overlaid;
    var q, v := qs(ident), |s.history| - 1;
    assert RowsUpTo(q, s.history[v], n) + [Rows(q, n, s.history[v])] == RowsUpTo(q, s.history[v], n + 1);
    assert Repeated(v, n) + [v] == Repeated(v, n + 1);
    MovedTwice(s, id, AfterReads(q, s, id, ident, n).requests[id],
      Next(qs, AfterReads(q, s, id, ident, n), ReadRows(id)).requests[id]);
  }

  lemma FailedStep(qs: Questions, s: State, id: nat, ident: string, a: Action)
    requires |s.history| > 0 && a in {ReadRows(id), ReadGoal(id), WriteCache(id)}
    ensures |AfterFailure(s, id, ident).history| > 0
    ensures Next(qs, AfterFailure(s, id, ident), a) == AfterFailure(s, id, ident)
  {
    hide Plan, Rows, Refused, Answered, Overlaid;
  }

  lemma {:induction false} FailedStays(qs: Questions, s: State, id: nat, ident: string, actions: seq<Action>)
    requires |s.history| > 0
    requires forall a :: a in actions ==> a in {ReadRows(id), ReadGoal(id), WriteCache(id)}
    ensures |AfterFailure(s, id, ident).history| > 0
    ensures Run(qs, AfterFailure(s, id, ident), actions) == AfterFailure(s, id, ident)
    decreases |actions|
  {
    hide *;
    if actions == [] {
      FailedStep(qs, s, id, ident, ReadRows(id));
      RunNothing(qs, AfterFailure(s, id, ident));
    } else {
      assert actions[0] in actions && forall a :: a in actions[1..] ==> a in actions;
      FailedStep(qs, s, id, ident, actions[0]);
      RunUnfolds(qs, AfterFailure(s, id, ident), actions);
      FailedStays(qs, s, id, ident, actions[1..]);
    }
  }

  /** The state after the remaining reads, from the `n`th on. */
  function AfterAllReads(q: Question, s: State, id: nat, ident: string, n: nat): State
    requires |s.history| > 0
  {
    if RefusedFrom(q, s.history[|s.history| - 1], n) then AfterFailure(s, id, ident)
      else AfterReads(q, s, id, ident, |Plan(q)|)
  }

  lemma {:induction false} ReadsTogether(qs: Questions, s: State, id: nat, ident: string, n: nat)
    requires |s.history| > 0 && n <= |Plan(qs(ident))|
    ensures Run(qs, AfterReads(qs(ident), s, id, ident, n), ReadTimes(id, |Plan(qs(ident))| - n)) ==
      AfterAllReads(qs(ident), s, id, ident, n)
    decreases |Plan(qs(ident))| - n
  {
    hide *;
    if n == |Plan(qs(ident))| {
      NoReads(qs, s, id, ident);
    } else {
      FirstRead(qs, s, id, ident, n);
      if !Refused(qs(ident), n, s.history[|s.history| - 1]) {
        ReadsTogether(qs, s, id, ident, n + 1);
      }
    }
  }

  lemma NoReads(qs: Questions, s: State, id: nat, ident: string)
    requires |s.history| > 0
    ensures var q := qs(ident);
      Run(qs, AfterReads(q, s, id, ident, |Plan(q)|), ReadTimes(id, 0)) == AfterAllReads(q, s, id, ident, |Plan(q)|)
  {
    hide Plan, AfterReads, AfterFailure;
    RunNothing(qs, AfterReads(qs(ident), s, id, ident, |Plan(qs(ident))|));
    assert ReadTimes(id, 0) == [];
  }

  lemma FirstRead(qs: Questions, s: State, id: nat, ident: string, n: nat)
    requires |s.history| > 0 && n < |Plan(qs(ident))|
    ensures var q := qs(ident);
      var all := Run(qs, AfterReads(q, s, id, ident, n), ReadTimes(id, |Plan(q)| - n));
      if Refused(q, n, s.history[|s.history| - 1]) then all == AfterAllReads(q, s, id, ident, n)
      else (all == Run(qs, AfterReads(q, s, id, ident, n + 1), ReadTimes(id, |Plan(q)| - n - 1)) &&
            AfterAllReads(q, s, id, ident, n) == AfterAllReads(q, s, id, ident, n + 1))
  {
    hide Plan, AfterReads, AfterFailure, Run, Refused, RefusedFrom, Next;
    var q := qs(ident);
    var left := |Plan(q)| - n;
    RefusedNext(q, s.history[|s.history| - 1], n);
    RunUnfolds(qs, AfterReads(q, s, id, ident, n), ReadTimes(id, left));
    assert ReadTimes(id, left)[1..] == ReadTimes(id, left - 1);
    OneRead(qs, s, id, ident, n);
    if Refused(q, n, s.history[|s.history| - 1]) {
      FailedStays(qs, s, id, ident, ReadTimes(id, left - 1));
    }
  }

  lemma RefusedNext(q: Question, data: Data, n: nat)
    requires n <= |Plan(q)|
    ensures RefusedFrom(q, data, n) <==> n < |Plan(q)| && (Refused(q, n, data) || RefusedFrom(q, data, n + 1))
  {
    hide Plan, Refused;
  }

  /** The state a request leaves when nothing interrupts it. */
  function Served(q: Question, s: State, id: nat, ident: string): State
    requires |s.history| > 0
  {
    var v := |s.history| - 1;
    var data, target := s.history[v], Goal(s.goals, ident);
    if !q.bypass && (ident, v) in s.cache then
      var e := s.cache[(ident, v)];
      Moved(s, id, Done(ident, v, e.(answer := Recomputed(q, v, data, target).(cacheStatus := Hit))))
    else if AnyRefused(q, data) then AfterFailure(s, id, ident)
    else
      var e := Entry(Recomputed(q, v, data, target), Repeated(v, |Plan(q)|), id);
      Moved(if q.bypass then s else s.(cache := s.cache[(ident, v) := e]), id, Done(ident, v, e))
  }

  lemma BeginAlone(qs: Questions, s: State, id: nat, ident: string)
    requires |s.history| > 0 && id !in s.requests
    ensures var q, v := qs(ident), |s.history| - 1;
      Run(qs, s, [Begin(id, ident), ReadCache(id)]) ==
      if !q.bypass && (ident, v) in s.cache then Found(s, id, ident) else AfterReads(q, s, id, ident, 0)
  {
    hide *;
    var actions := [Begin(id, ident), ReadCache(id)];
    var begun := Moved(s, id, Versioned(ident, |s.history| - 1));
    BeginStep(qs, s, id, ident);
    RunUnfolds(qs, s, actions);
    assert actions[1..] == [ReadCache(id)];
    RunUnfolds(qs, begun, [ReadCache(id)]);
    assert [ReadCache(id)][1..] == [];
    LookUpStep(qs, s, id, ident);
    RunNothing(qs, Next(qs, begun, ReadCache(id)));
  }

  lemma BeginStep(qs: Questions, s: State, id: nat, ident: string)
    requires |s.history| > 0 && id !in s.requests
    ensures Next(qs, s, Begin(id, ident)) == Moved(s, id, Versioned(ident, |s.history| - 1))
    ensures Moved(s, id, Versioned(ident, |s.history| - 1)).history == s.history
  {
    hide Advanced;
  }

  lemma LookUpStep(qs: Questions, s: State, id: nat, ident: string)
    requires |s.history| > 0
    ensures var q, v := qs(ident), |s.history| - 1;
      Next(qs, Moved(s, id, Versioned(ident, v)), ReadCache(id)) ==
      if !q.bypass && (ident, v) in s.cache then Found(s, id, ident) else AfterReads(q, s, id, ident, 0)
  {
    hide Plan, Rows, Refused, Answered, Overlaid;
    var q, v := qs(ident), |s.history| - 1;
    var begun := Moved(s, id, Versioned(ident, v));
    assert RowsUpTo(q, s.history[v], 0) == [] && Repeated(v, 0) == [];
    MovedTwice(s, id, begun.requests[id], Next(qs, begun, ReadCache(id)).requests[id]);
  }

  lemma RunNothing(qs: Questions, s: State)
    requires |s.history| > 0
    ensures Run(qs, s, []) == s
  {
  }

  lemma FinishAlone(qs: Questions, s: State, id: nat, ident: string)
    requires |s.history| > 0
    ensures var q, v := qs(ident), |s.history| - 1;
      var e := Entry(Recomputed(q, v, s.history[v], Goal(s.goals, ident)), Repeated(v, |Plan(q)|), id);
      Run(qs, AfterReads(q, s, id, ident, |Plan(q)|), [ReadGoal(id), WriteCache(id)]) ==
      Moved(if q.bypass then s else s.(cache := s.cache[(ident, v) := e]), id, Done(ident, v, e))
  {
    hide Plan, Rows, Refused, Answered, Overlaid, Run;
    var q, v := qs(ident), |s.history| - 1;
    var read := AfterReads(q, s, id, ident, |Plan(q)|);
    var actions := [ReadGoal(id), WriteCache(id)];
    RunUnfolds(qs, read, actions);
    assert actions[1..] == [WriteCache(id)];
    var computed := Next(qs, read, ReadGoal(id));
    RunUnfolds(qs, computed, [WriteCache(id)]);
    assert [WriteCache(id)][1..] == [];
    RunNothing(qs, Next(qs, computed, WriteCache(id)));
    MovedTwice(s, id, read.requests[id], computed.requests[id]);
    MovedTwice(if q.bypass then s
      else s.(cache := s.cache[(ident, v) := computed.requests[id].entry]), id, computed.requests[id],
        Next(qs, computed, WriteCache(id)).requests[id]);
  }

  /** A request that nothing interrupts answers with what the current data and
      the current goal give, hit or miss alike. */
  lemma AtomicRequest(qs: Questions, s: State, id: nat, ident: string)
    requires Valid(qs, s) && id !in s.requests
    ensures |s.history| > 0 && Run(qs, s, Alone(qs(ident), s, id, ident)) == Served(qs(ident), s, id, ident)
  {
    hide *;
    StaysNonempty(qs, s);
    var q, v := qs(ident), |s.history| - 1;
    var start := [Begin(id, ident), ReadCache(id)];
    BeginAlone(qs, s, id, ident);
    if !q.bypass && (ident, v) in s.cache {
      HitAlone(qs, s, id, ident);
    } else {
      var reading, finish := ReadTimes(id, |Plan(q)|), [ReadGoal(id), WriteCache(id)];
      MissAlone(q, s, id, ident);
      RunAppends(qs, s, start, reading + finish);
      RunAppends(qs, AfterReads(q, s, id, ident, 0), reading, finish);
      ReadsTogether(qs, s, id, ident, 0);
      AllReadsOutcome(q, s, id, ident);
      if AnyRefused(q, s.history[v]) {
        FailedStays(qs, s, id, ident, finish);
      } else {
        FinishAlone(qs, s, id, ident);
      }
    }
  }

  lemma AllReadsOutcome(q: Question, s: State, id: nat, ident: string)
    requires |s.history| > 0
    ensures AfterAllReads(q, s, id, ident, 0) ==
      if AnyRefused(q, s.history[|s.history| - 1]) then AfterFailure(s, id, ident)
        else AfterReads(q, s, id, ident, |Plan(q)|)
  {
    hide RefusedFrom, AfterFailure, AfterReads, Plan;
  }

  /** A request alone fails exactly if its answer is not cached and its filters
      combine two dimensions or some read finds more than ten thousand rows. */
  lemma FailsExactly(qs: Questions, s: State, id: nat, ident: string)
    requires Valid(qs, s) && id !in s.requests
    ensures |s.history| > 0
    ensures var q, v := qs(ident), |s.history| - 1;
      var after := Run(qs, s, Alone(q, s, id, ident)).requests;
      id in after &&
      (after[id].Failed? <==>
       (q.bypass || (ident, v) !in s.cache) &&
         (GrainOf(q.filters).Err? || exists i :: 0 <= i < |Plan(q)| && |Rows(q, i, s.history[v]).Keys| > 10_000))
  {
    AtomicRequest(qs, s, id, ident);
    RefusedIs(qs(ident), s.history[|s.history| - 1]);
    hide *;
    ServedFails(qs(ident), s, id, ident);
  }

  lemma ServedFails(q: Question, s: State, id: nat, ident: string)
    requires |s.history| > 0
    ensures id in Served(q, s, id, ident).requests
    ensures Served(q, s, id, ident).requests[id].Failed? <==>
      (q.bypass || (ident, |s.history| - 1) !in s.cache) && AnyRefused(q, s.history[|s.history| - 1])
  {
    hide AnyRefused, Recomputed, Plan;
  }

  lemma RefusedIs(q: Question, data: Data)
    ensures AnyRefused(q, data) <==>
      GrainOf(q.filters).Err? || exists i :: 0 <= i < |Plan(q)| && |Rows(q, i, data).Keys| > 10_000
  {
    hide Plan, Rows, GrainOf;
    if GrainOf(q.filters).Err? {
      assert Refused(q, 0, data);
    }
    if i :| 0 <= i < |Plan(q)| && |Rows(q, i, data).Keys| > 10_000 {
      assert Refused(q, i, data);
    }
  }

  lemma MissAlone(q: Question, s: State, id: nat, ident: string)
    requires |s.history| > 0 && !(!q.bypass && (ident, |s.history| - 1) in s.cache)
    ensures Alone(q, s, id, ident) ==
      [Begin(id, ident), ReadCache(id)] + (ReadTimes(id, |Plan(q)|) + [ReadGoal(id), WriteCache(id)])
    ensures var v := |s.history| - 1;
      var e := Entry(Recomputed(q, v, s.history[v], Goal(s.goals, ident)), Repeated(v, |Plan(q)|), id);
      Served(q, s, id, ident) ==
      if AnyRefused(q, s.history[v]) then AfterFailure(s, id, ident) else
      Moved(if q.bypass then s else s.(cache := s.cache[(ident, v) := e]), id, Done(ident, v, e))
  {
    hide Plan, Recomputed, AnyRefused, AfterFailure, Moved;
  }

  /** The state of a request that found the current version in the cache. */
  function Found(s: State, id: nat, ident: string): (t: State)
    requires |s.history| > 0 && (ident, |s.history| - 1) in s.cache
    ensures t.history == s.history
  {
    Moved(s, id, Overlaying(ident, |s.history| - 1, s.cache[(ident, |s.history| - 1)]))
  }

  lemma HitAlone(qs: Questions, s: State, id: nat, ident: string)
    requires Valid(qs, s) && id !in s.requests && |s.history| > 0
    requires !qs(ident).bypass && (ident, |s.history| - 1) in s.cache
    ensures Run(qs, s, Alone(qs(ident), s, id, ident)) == Served(qs(ident), s, id, ident)
  {
    hide *;
    var q, found := qs(ident), Found(s, id, ident);
    BeginAlone(qs, s, id, ident);
    RunAppends(qs, s, [Begin(id, ident), ReadCache(id)], [OverlayGoal(id)]);
    AlonePath(q, s, id, ident);
    RunUnfolds(qs, found, [OverlayGoal(id)]);
    assert [OverlayGoal(id)][1..] == [];
    RunNothing(qs, Next(qs, found, OverlayGoal(id)));
    OverlayAlone(qs, s, id, ident);
  }

  lemma AlonePath(q: Question, s: State, id: nat, ident: string)
    requires |s.history| > 0 && !q.bypass && (ident, |s.history| - 1) in s.cache
    ensures Alone(q, s, id, ident) == [Begin(id, ident), ReadCache(id)] + [OverlayGoal(id)]
  {
  }

  lemma OverlayAlone(qs: Questions, s: State, id: nat, ident: string)
    requires Valid(qs, s) && |s.history| > 0 && !qs(ident).bypass && (ident, |s.history| - 1) in s.cache
    ensures Next(qs, Found(s, id, ident), OverlayGoal(id)) == Served(qs(ident), s, id, ident)
  {
    hide Plan, Answered, Rows, Refused, Recomputed, AnyRefused, Overlaid, EntryValid, RequestValid;
    var q, v := qs(ident), |s.history| - 1;
    var e := s.cache[(ident, v)];
    EntryReads(q, s.history, v, e);
    CoherentIsRecomputed(q, s.history, v, e, Goal(s.goals, ident));
    var found := Found(s, id, ident);
    MovedTwice(s, id, found.requests[id], Next(qs, found, OverlayGoal(id)).requests[id]);
  }

  // ---------------------------------------------------------------- a torn hit

  lemma {:induction false} RunPath(qs: Questions, states: seq<State>, actions: seq<Action>)
    requires |states| == |actions| + 1
    requires forall i :: 0 <= i < |actions| ==>
      (|states[i].history| > 0 && Next(qs, states[i], actions[i]) == states[i + 1])
    requires |states[0].history| > 0
    ensures Run(qs, states[0], actions) == states[|actions|]
    decreases |actions|
  {
    hide Next;
    if actions == [] {
    } else {
      NextKeepsHistory(qs, states[0], actions[0]);
      RunPath(qs, states[1..], actions[1..]);
    }
  }

  /** Two requests for one question begin; the first reads its current window,
      a refresh commits, and it reads its previous window.  The second request
      is then served the mixture. */
  function TornRun(ident: string, later: Data): seq<Action> {
    [Begin(0, ident), Begin(1, ident), ReadCache(0), ReadRows(0), Commit(later),
     ReadRows(0), ReadGoal(0), WriteCache(0), ReadCache(1), OverlayGoal(1)]
  }

  function TornAnswer(q: Question, first: Data, later: Data): Answer
    requires |Plan(q)| == 2
  {
    Answered(q, 0, [Rows(q, 0, first), Rows(q, 1, later)], None)
  }

  function TornState(q: Question, ident: string, first: Data, later: Data, i: nat): State
    requires |Plan(q)| == 2
  {
    var v := Versioned(ident, 0);
    var e := Entry(TornAnswer(q, first, later), [0, 1], 0);
    var history := if i < 5 then [first] else [first, later];
    var one := Rows(q, 0, first);
    State(history, map[], if i < 8 then map[] else map[(ident, 0) := e],
      match i
      case 0 => map[]
      case 1 => map[0 := v]
      case 2 => map[0 := v, 1 := v]
      case 3 => map[0 := Reading(ident, 0, [], []), 1 := v]
      case 4 => map[0 := Reading(ident, 0, [one], [0]), 1 := v]
      case 5 => map[0 := Reading(ident, 0, [one], [0]), 1 := v]
      case 6 => map[0 := Reading(ident, 0, [one, Rows(q, 1, later)], [0, 1]), 1 := v]
      case 7 => map[0 := Computed(ident, 0, e), 1 := v]
      case 8 => map[0 := Done(ident, 0, e), 1 := v]
      case 9 => map[0 := Done(ident, 0, e), 1 := Overlaying(ident, 0, e)]
      case _ => map[0 := Done(ident, 0, e), 1 := Done(ident, 0, e.(answer := Overlaid(q, e.answer, None)))])
  }

  ghost predicate TornNext(qs: Questions, ident: string, first: Data, later: Data, i: nat)
    requires |Plan(qs(ident))| == 2 && i < 10
  {
    var s := TornState(qs(ident), ident, first, later, i);
    |s.history| > 0 && Next(qs, s, TornRun(ident, later)[i]) == TornState(qs(ident), ident, first, later, i + 1)
  }

  lemma TornStarts(qs: Questions, ident: string, first: Data, later: Data, i: nat)
    requires !qs(ident).bypass && |Plan(qs(ident))| == 2 && i < 3
    requires !Refused(qs(ident), 0, first) && !Refused(qs(ident), 1, later)
    ensures TornNext(qs, ident, first, later, i)
  {
    hide Plan, Rows, Refused, Answered, Overlaid;
  }

  lemma TornFirstRead(qs: Questions, ident: string, first: Data, later: Data, i: nat)
    requires !qs(ident).bypass && |Plan(qs(ident))| == 2 && i == 3
    requires !Refused(qs(ident), 0, first) && !Refused(qs(ident), 1, later)
    ensures TornNext(qs, ident, first, later, i)
  {
    hide Plan, Rows, Refused, Answered, Overlaid;
    var one := Rows(qs(ident), 0, first);
    var v: nat := 0;
    assert [] + [one] == [one] && [] + [v] == [v];
  }

  lemma TornCommit(qs: Questions, ident: string, first: Data, later: Data, i: nat)
    requires !qs(ident).bypass && |Plan(qs(ident))| == 2 && i == 4
    requires !Refused(qs(ident), 0, first) && !Refused(qs(ident), 1, later)
    ensures TornNext(qs, ident, first, later, i)
  {
    hide Plan, Rows, Refused, Answered, Overlaid, Advanced;
    assert [first] + [later] == [first, later];
  }

  lemma SecondRead(q: Question, s: State, ident: string, first: Data, later: Data)
    requires |Plan(q)| == 2 && !Refused(q, 1, later) && s.history == [first, later]
    ensures var one, two := Rows(q, 0, first), Rows(q, 1, later);
      Advanced(q, s, ReadRows(0), Reading(ident, 0, [one], [0])) ==
      Moved(s, 0, Reading(ident, 0, [one, two], [0, 1]))
  {
    hide Plan, Rows, Refused;
    var one, two := Rows(q, 0, first), Rows(q, 1, later);
    var v, w: nat := 0, 1;
    assert [one] + [two] == [one, two] && [v] + [w] == [v, w];
  }

  lemma TornSecondRead(qs: Questions, ident: string, first: Data, later: Data, i: nat)
    requires !qs(ident).bypass && |Plan(qs(ident))| == 2 && i == 5
    requires !Refused(qs(ident), 0, first) && !Refused(qs(ident), 1, later)
    ensures TornNext(qs, ident, first, later, i)
  {
    hide Plan, Rows, Refused, Answered, Overlaid, Advanced;
    SecondRead(qs(ident), TornState(qs(ident), ident, first, later, 5), ident, first, later);
  }

  lemma TornWrites(qs: Questions, ident: string, first: Data, later: Data, i: nat)
    requires !qs(ident).bypass && |Plan(qs(ident))| == 2 && 6 <= i < 8
    requires !Refused(qs(ident), 0, first) && !Refused(qs(ident), 1, later)
    ensures TornNext(qs, ident, first, later, i)
  {
    hide Plan, Rows, Refused, Answered, Overlaid;
  }

  lemma TornHits(qs: Questions, ident: string, first: Data, later: Data, i: nat)
    requires !qs(ident).bypass && |Plan(qs(ident))| == 2 && 8 <= i < 10
    requires !Refused(qs(ident), 0, first) && !Refused(qs(ident), 1, later)
    ensures TornNext(qs, ident, first, later, i)
  {
    hide Plan, Rows, Refused, Answered, Overlaid;
  }

  lemma TornRuns(qs: Questions, ident: string, first: Data, later: Data)
    requires !qs(ident).bypass && |Plan(qs(ident))| == 2
    requires !Refused(qs(ident), 0, first) && !Refused(qs(ident), 1, later)
    ensures Run(qs, Initial(first), TornRun(ident, later)) == TornState(qs(ident), ident, first, later, 10)
  {
    hide Plan, Rows, Refused, Answered, Overlaid, Next;
    var q := qs(ident);
    var states := seq(11, i requires 0 <= i < 11 => TornState(q, ident, first, later, i));
    forall i | 0 <= i < 10
      ensures |states[i].history| > 0 && Next(qs, states[i], TornRun(ident, later)[i]) == states[i + 1]
    {
      match i
      case 3 => TornFirstRead(qs, ident, first, later, i);
      case 4 => TornCommit(qs, ident, first, later, i);
      case 5 => TornSecondRead(qs, ident, first, later, i);
      case 6 => TornWrites(qs, ident, first, later, i);
      case 7 => TornWrites(qs, ident, first, later, i);
      case 8 => TornHits(qs, ident, first, later, i);
      case 9 => TornHits(qs, ident, first, later, i);
      case _ => TornStarts(qs, ident, first, later, i);
    }
    hide TornState;
    FirstTorn(q, ident, first, later);
    RunPath(qs, states, TornRun(ident, later));
  }

  lemma FirstTorn(q: Question, ident: string, first: Data, later: Data)
    requires |Plan(q)| == 2
    ensures TornState(q, ident, first, later, 0) == Initial(first)
  {
  }

  /** The request was answered by a hit that is the recomputation of no version. */
  ghost predicate IsTorn(qs: Questions, s: State, id: nat) {
    id in s.requests && s.requests[id].Done? && s.requests[id].entry.answer.cacheStatus.Hit? &&
    var r := s.requests[id];
    forall v, target :: 0 <= v < |s.history| ==>
      r.entry.answer.(cacheStatus := Miss)
      != Recomputed(qs(r.ident), r.version, s.history[v], target).(cacheStatus := Miss)
  }
}
