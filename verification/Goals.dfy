/** Goals for indicators: versioned records with their history (`create_goal`, `update_goal`). */
module Goals {
  import opened Wrappers

  type Id = string

  datatype Direction = Increase | Decrease | Target

  datatype Goal = Goal(
    company: Option<Id>, branch: Option<Id>, kpi: string, periodStart: int, periodEnd: int,
    target: Option<real>, lower: Option<real>, upper: Option<real>,
    direction: Direction, owner: Id, note: Option<string>, active: bool, version: nat)

  datatype HistoryRow = HistoryRow(goal: Id, version: nat, snapshot: Goal, reason: string)

  datatype CreateRequest = CreateRequest(
    company: Option<Id>, branch: Option<Id>, kpi: string, periodStart: int, periodEnd: int,
    target: Option<real>, lower: Option<real>, upper: Option<real>,
    direction: Direction, owner: Id, note: Option<string>)

  /** A field of an update that is left out, or given, perhaps as null. */
  datatype Change<T> = Unset | Set(value: Option<T>)

  datatype UpdateRequest = UpdateRequest(
    target: Change<real>, lower: Change<real>, upper: Change<real>, direction: Change<Direction>,
    owner: Change<Id>, note: Change<string>, active: Change<bool>,
    expectedVersion: nat, reason: string)

  /** What the caller's request finds besides the goals. */
  datatype Context = Context(
    knownKpis: set<string>, marginKpis: set<string>, financial: bool,
    mayManage: (Option<Id>, Option<Id>) -> bool, activeMembers: set<Id>)

  datatype GoalError =
    | InvalidPayload | KpiNotFound | FinancialForbidden | ForbiddenScope | NotFound
    | VersionConflict | TargetRequired | RangeInvalid | ColumnRequired | OwnerInvalid

  // ---------------------------------------------------------------- what the calls do

  predicate HasTarget(target: Option<real>, lower: Option<real>, upper: Option<real>) {
    target.Some? || lower.Some? || upper.Some?
  }

  predicate RangeOk(lower: Option<real>, upper: Option<real>) {
    lower.Some? && upper.Some? ==> lower.value <= upper.value
  }

  predicate ValidRequest(p: CreateRequest) {
    p.periodStart <= p.periodEnd && (p.branch.Some? ==> p.company.Some?) &&
    HasTarget(p.target, p.lower, p.upper) && RangeOk(p.lower, p.upper)
  }

  function Created(p: CreateRequest): Goal {
    Goal(p.company, p.branch, p.kpi, p.periodStart, p.periodEnd, p.target, p.lower, p.upper, p.direction, p.owner,
      p.note, true, 1)
  }

  function CreateOutcome(p: CreateRequest, c: Context): Result<Goal, GoalError> {
    if !ValidRequest(p) then Err(InvalidPayload) else
    if p.kpi !in c.knownKpis then Err(KpiNotFound) else
    if p.kpi in c.marginKpis && !c.financial then Err(FinancialForbidden) else
    if !c.mayManage(p.company, p.branch) then Err(ForbiddenScope) else
    if p.owner !in c.activeMembers then Err(OwnerInvalid) else
    Ok(Created(p))
  }

  function Nullable<T>(change: Change<T>, current: Option<T>): Option<T> {
    if change.Set? then change.value else current
  }

  predicate MissesColumn(p: UpdateRequest) {
    p.direction == Set(None) || p.owner == Set(None) || p.active == Set(None)
  }

  /** The goal with the given fields of the update. */
  function Changed(g: Goal, p: UpdateRequest): Goal
    requires !MissesColumn(p)
  {
    g.(target := Nullable(p.target, g.target), lower := Nullable(p.lower, g.lower), upper := Nullable(p.upper, g.upper),
       direction := Nullable(p.direction, Some(g.direction)).value, owner := Nullable(p.owner, Some(g.owner)).value,
       note := Nullable(p.note, g.note), active := Nullable(p.active, Some(g.active)).value)
  }

  function UpdateOutcome(goals: map<Id, Goal>, id: Id, p: UpdateRequest, c: Context): Result<Goal, GoalError> {
    if id !in goals then Err(NotFound) else
    var g := goals[id];
    if !c.mayManage(g.company, g.branch) then Err(ForbiddenScope) else
    if g.version != p.expectedVersion then Err(VersionConflict) else
    var target, lower, upper := Nullable(p.target, g.target), Nullable(p.lower, g.lower), Nullable(p.upper, g.upper);
    if !HasTarget(target, lower, upper) then Err(TargetRequired) else
    if !RangeOk(lower, upper) then Err(RangeInvalid) else
    if MissesColumn(p) then Err(ColumnRequired) else
    var changed := Changed(g, p);
    if changed.owner !in c.activeMembers then Err(OwnerInvalid) else
    Ok(changed.(version := g.version + 1))
  }

  // ---------------------------------------------------------------- the tables

  /** The history of one goal, in the order it was written. */
  function HistoryOf(history: seq<HistoryRow>, id: Id): seq<HistoryRow> {
    if history == [] then [] else
    var last := |history| - 1;
    HistoryOf(history[..last], id) + if history[last].goal == id then [history[last]] else []
  }

  lemma HistoryAppends(history: seq<HistoryRow>, row: HistoryRow, id: Id)
    ensures HistoryOf(history + [row], id) == HistoryOf(history, id) + if row.goal == id then [row] else []
  {
    assert (history + [row])[..|history|] == history;
  }

  predicate Sound(g: Goal) {
    g.periodStart <= g.periodEnd && (g.branch.Some? ==> g.company.Some?) &&
    HasTarget(g.target, g.lower, g.upper) && RangeOk(g.lower, g.upper)
  }

  /** What an update may not change. */
  predicate SameSubject(g: Goal, h: Goal) {
    g.company == h.company && g.branch == h.branch && g.kpi == h.kpi && g.periodStart == h.periodStart &&
      g.periodEnd == h.periodEnd
  }

  /** The history holds versions 1 to n, and its last snapshot is the live goal. */
  ghost predicate Tells(rows: seq<HistoryRow>, g: Goal) {
    |rows| == g.version > 0 && rows[|rows| - 1].snapshot == g &&
    forall i :: 0 <= i < |rows| ==>
      rows[i].version == rows[i].snapshot.version == i + 1 && Sound(rows[i].snapshot) &&
        SameSubject(rows[i].snapshot, g)
  }

  ghost predicate Consistent(goals: map<Id, Goal>, history: seq<HistoryRow>) {
    forall id :: if id in goals then Tells(HistoryOf(history, id), goals[id]) else HistoryOf(history, id) == []
  }

  class GoalStore {
    var goals: map<Id, Goal>
    var history: seq<HistoryRow>

    ghost predicate Valid()
      reads this
    {
      Consistent(goals, history)
    }

    constructor ()
      ensures Valid() && goals == map[] && history == []
    {
      goals, history := map[], [];
    }

    /** Insert a goal under a new identifier, with its first history row. */
    method CreateGoal(id: Id, p: CreateRequest, c: Context) returns (r: Result<Goal, GoalError>)
      requires Valid() && id !in goals
      modifies this
      ensures Valid() && r == CreateOutcome(p, c)
      ensures Store(goals, history) == After(old(Store(goals, history)), Create(id, p, c))
      ensures r.Ok? ==> goals == old(goals)[id := r.value]
      ensures r.Ok? ==> history == old(history) + [HistoryRow(id, 1, r.value, "created")]
      ensures r.Err? ==> unchanged(this)
    {
      if !ValidRequest(p) {
        return Err(InvalidPayload);
      }
      if p.kpi !in c.knownKpis {
        return Err(KpiNotFound);
      }
      if p.kpi in c.marginKpis && !c.financial {
        return Err(FinancialForbidden);
      }
      if !c.mayManage(p.company, p.branch) {
        return Err(ForbiddenScope);
      }
      if p.owner !in c.activeMembers {
        return Err(OwnerInvalid);
      }
      var goal := Created(p);
      CreateKeepsConsistent(goals, history, id, p);
      goals, history := goals[id := goal], history + [HistoryRow(id, goal.version, goal, "created")];
      return Ok(goal);
    }

    /** Set the given fields on the live goal, then validate it; an error rolls the fields back. */
    method UpdateGoal(id: Id, p: UpdateRequest, c: Context) returns (r: Result<Goal, GoalError>)
      requires Valid()
      modifies this
      ensures Valid()
      ensures r == UpdateOutcome(old(goals), id, p, c)
      ensures Store(goals, history) == After(old(Store(goals, history)), Update(id, p, c))
      ensures r.Ok? ==> goals == old(goals)[id := r.value]
      ensures r.Ok? ==> history == old(history) + [HistoryRow(id, r.value.version, r.value, p.reason)]
      ensures r.Err? ==> unchanged(this)
    {
      hide Consistent;
      if id !in goals {
        return Err(NotFound);
      }
      var before := goals;
      var g := goals[id];
      if !c.mayManage(g.company, g.branch) {
        return Err(ForbiddenScope);
      }
      if g.version != p.expectedVersion {
        return Err(VersionConflict);
      }
      var changed := Assign(g, p);
      goals := goals[id := changed];
      if !HasTarget(changed.target, changed.lower, changed.upper) {
        goals := before;
        return Err(TargetRequired);
      }
      if !RangeOk(changed.lower, changed.upper) {
        goals := before;
        return Err(RangeInvalid);
      }
      if MissesColumn(p) {
        goals := before;
        return Err(ColumnRequired);
      }
      if changed.owner !in c.activeMembers {
        goals := before;
        return Err(OwnerInvalid);
      }
      changed := changed.(version := changed.version + 1);
      goals := goals[id := changed];
      history := history + [HistoryRow(id, changed.version, changed, p.reason)];
      UpdateKeepsConsistent(before, old(history), id, p, c);
      assert goals == before[id := changed];
      return Ok(changed);
    }
  }

  /** Set every given field; one that must not be null keeps its value until the update is refused. */
  method Assign(g: Goal, p: UpdateRequest) returns (changed: Goal)
    ensures !MissesColumn(p) ==> changed == Changed(g, p)
    ensures changed.target == Nullable(p.target, g.target) && changed.lower == Nullable(p.lower, g.lower) &&
      changed.upper == Nullable(p.upper, g.upper)
  {
    var target, lower, upper, note := g.target, g.lower, g.upper, g.note;
    var direction, owner, active := g.direction, g.owner, g.active;
    if p.target.Set? {
      target := p.target.value;
    }
    if p.lower.Set? {
      lower := p.lower.value;
    }
    if p.upper.Set? {
      upper := p.upper.value;
    }
    if p.direction.Set? && p.direction.value.Some? {
      direction := p.direction.value.value;
    }
    if p.owner.Set? && p.owner.value.Some? {
      owner := p.owner.value.value;
    }
    if p.note.Set? {
      note := p.note.value;
    }
    if p.active.Set? && p.active.value.Some? {
      active := p.active.value.value;
    }
    changed := g.(target := target, lower := lower, upper := upper, note := note);
    changed := changed.(direction := direction, owner := owner, active := active);
  }

  lemma CreateKeepsConsistent(goals: map<Id, Goal>, history: seq<HistoryRow>, id: Id, p: CreateRequest)
    requires Consistent(goals, history) && id !in goals && ValidRequest(p)
    ensures Consistent(goals[id := Created(p)], history + [HistoryRow(id, 1, Created(p), "created")])
  {
    hide HistoryOf;
    var goal := Created(p);
    var row := HistoryRow(id, 1, goal, "created");
    forall x
      ensures if x in goals[id := goal] then Tells(HistoryOf(history + [row], x), goals[id := goal][x])
        else HistoryOf(history + [row], x) == []
    {
      HistoryAppends(history, row, x);
    }
  }

  lemma UpdateKeepsConsistent(goals: map<Id, Goal>, history: seq<HistoryRow>, id: Id, p: UpdateRequest, c: Context)
    requires Consistent(goals, history) && UpdateOutcome(goals, id, p, c).Ok?
    ensures var g := UpdateOutcome(goals, id, p, c).value;
      Consistent(goals[id := g], history + [HistoryRow(id, g.version, g, p.reason)])
  {
    hide HistoryOf;
    var g := UpdateOutcome(goals, id, p, c).value;
    var row := HistoryRow(id, g.version, g, p.reason);
    forall x
      ensures if x in goals[id := g] then Tells(HistoryOf(history + [row], x), goals[id := g][x])
        else HistoryOf(history + [row], x) == []
    {
      HistoryAppends(history, row, x);
      if x == id {
        assert Tells(HistoryOf(history, id), goals[id]);
        NextVersionTells(HistoryOf(history, id), goals[id], row);
      }
    }
  }

  lemma NextVersionTells(rows: seq<HistoryRow>, g: Goal, row: HistoryRow)
    requires Tells(rows, g) && SameSubject(g, row.snapshot)
    requires row.version == row.snapshot.version == g.version + 1
    requires HasTarget(row.snapshot.target, row.snapshot.lower, row.snapshot.upper) &&
      RangeOk(row.snapshot.lower, row.snapshot.upper)
    ensures Tells(rows + [row], row.snapshot)
  {
    assert Sound(rows[|rows| - 1].snapshot);
  }

  // ---------------------------------------------------------------- runs of calls

  datatype Call =
    | Create(id: Id, request: CreateRequest, context: Context)
    | Update(id: Id, update: UpdateRequest, context: Context)

  datatype Store = Store(goals: map<Id, Goal>, history: seq<HistoryRow>)

  const EMPTY := Store(map[], [])

  function Outcome(s: Store, call: Call): Result<Goal, GoalError> {
    match call
    case Create(id, request, context) => if id in s.goals then Err(InvalidPayload) else CreateOutcome(request, context)
    case Update(id, update, context) => UpdateOutcome(s.goals, id, update, context)
  }

  /** The tables after a call: both rows written, or nothing. */
  function After(s: Store, call: Call): Store {
    match Outcome(s, call)
    case Err(_) => s
    case Ok(g) =>
      var reason := if call.Create? then "created" else call.update.reason;
      Store(s.goals[call.id := g], s.history + [HistoryRow(call.id, g.version, g, reason)])
  }

  function Run(s: Store, calls: seq<Call>): Store {
    if calls == [] then s else After(Run(s, calls[..|calls| - 1]), calls[|calls| - 1])
  }

  lemma AfterKeepsConsistent(s: Store, call: Call)
    requires Consistent(s.goals, s.history)
    ensures Consistent(After(s, call).goals, After(s, call).history)
  {
    hide Consistent, UpdateOutcome, ValidRequest;
    match call
    case Create(id, request, context) =>
      if Outcome(s, call).Ok? {
        CreateKeepsConsistent(s.goals, s.history, id, request);
      }
    case Update(id, update, context) =>
      if Outcome(s, call).Ok? {
        UpdateKeepsConsistent(s.goals, s.history, id, update, context);
      }
  }

  /** After any run of creations and updates, accepted or refused, every goal's
      history holds its versions consecutively, every version is sound, and the
      last one is the live goal. */
  lemma {:induction false} RunsKeepHistory(calls: seq<Call>)
    ensures Consistent(Run(EMPTY, calls).goals, Run(EMPTY, calls).history)
  {
    hide Consistent;
    if calls != [] {
      RunsKeepHistory(calls[..|calls| - 1]);
      AfterKeepsConsistent(Run(EMPTY, calls[..|calls| - 1]), calls[|calls| - 1]);
    } else {
      EmptyIsConsistent();
    }
  }

  lemma EmptyIsConsistent()
    ensures Consistent(map[], [])
  {
  }

  lemma AfterRaisesVersion(s: Store, call: Call, id: Id)
    requires id in s.goals
    ensures id in After(s, call).goals
    ensures After(s, call).goals[id].version >= s.goals[id].version
    ensures call.Update? && call.id == id && Outcome(s, call).Ok? ==>
      s.goals[id].version == call.update.expectedVersion &&
        After(s, call).goals[id].version == call.update.expectedVersion + 1
  {
    hide Changed, CreateOutcome;
  }

  lemma {:induction false} RunRaisesVersion(s: Store, calls: seq<Call>, i: nat, j: nat, id: Id)
    requires i <= j <= |calls| && id in Run(s, calls[..i]).goals
    ensures id in Run(s, calls[..j]).goals &&
      Run(s, calls[..j]).goals[id].version >= Run(s, calls[..i]).goals[id].version
    decreases j
  {
    hide After;
    if i == j {
    } else {
      RunRaisesVersion(s, calls, i, j - 1, id);
      assert calls[..j][..j - 1] == calls[..j - 1];
      AfterRaisesVersion(Run(s, calls[..j - 1]), calls[j - 1], id);
    }
  }

  ghost predicate Succeeds(s: Store, calls: seq<Call>, i: nat)
    requires i < |calls|
  {
    Outcome(Run(s, calls[..i]), calls[i]).Ok?
  }

  /** Of the updates in a run that expect the same version of a goal, at most one succeeds. */
  lemma OneUpdateWins(s: Store, calls: seq<Call>, i: nat, j: nat)
    requires i < j < |calls| && calls[i].Update? && calls[j].Update? && calls[i].id == calls[j].id
    requires calls[i].update.expectedVersion == calls[j].update.expectedVersion
    ensures !(Succeeds(s, calls, i) && Succeeds(s, calls, j))
  {
    hide After, Outcome, Run;
    if Succeeds(s, calls, i) && Succeeds(s, calls, j) {
      var id := calls[i].id;
      UpdatedExists(Run(s, calls[..i]), calls[i]);
      UpdatedExists(Run(s, calls[..j]), calls[j]);
      AfterRaisesVersion(Run(s, calls[..i]), calls[i], id);
      RunNext(s, calls, i);
      RunRaisesVersion(s, calls, i + 1, j, id);
      AfterRaisesVersion(Run(s, calls[..j]), calls[j], id);
    }
  }

  lemma UpdatedExists(s: Store, call: Call)
    requires call.Update? && Outcome(s, call).Ok?
    ensures call.id in s.goals
  {
  }

  lemma RunNext(s: Store, calls: seq<Call>, i: nat)
    requires i < |calls|
    ensures Run(s, calls[..i + 1]) == After(Run(s, calls[..i]), calls[i])
  {
    hide After;
    assert calls[..i + 1][..i] == calls[..i];
  }

  // ---------------------------------------------------------------- what calls do

  /** A target or a bound, and bounds in order. */
  ghost predicate Aims(target: Option<real>, lower: Option<real>, upper: Option<real>) {
    !(target == None && lower == None && upper == None) &&
    (lower == None || upper == None || lower.value <= upper.value)
  }

  /** A creation is accepted exactly for a new identifier, an ordered period, a
      branch only within a company, an aim, a known indicator, a caller who may
      manage the scope and, for a margin indicator, see finances, and an active
      owner; then it inserts the goal as requested, active, as version 1. */
  lemma CreateIsExact(s: Store, id: Id, p: CreateRequest, c: Context)
    ensures var call := Create(id, p, c);
      (Outcome(s, call).Ok? <==>
        id !in s.goals && p.periodStart <= p.periodEnd && (p.company == None ==> p.branch == None) &&
        Aims(p.target, p.lower, p.upper) && p.kpi in c.knownKpis && (c.financial || p.kpi !in c.marginKpis) &&
        c.mayManage(p.company, p.branch) && p.owner in c.activeMembers) &&
      (Outcome(s, call).Ok? ==>
        var g := Goal(p.company, p.branch, p.kpi, p.periodStart, p.periodEnd, p.target, p.lower, p.upper, p.direction,
                      p.owner, p.note, true, 1);
        After(s, call) == Store(s.goals[id := g], s.history + [HistoryRow(id, 1, g, "created")]))
  {
  }

  /** The field has the given value, or its old one if none is given. */
  ghost predicate Takes<T>(change: Change<T>, before: Option<T>, after: Option<T>) {
    after == match change case Unset => before case Set(value) => value
  }

  /** The goal after an update of these fields. */
  ghost predicate IsUpdated(g: Goal, p: UpdateRequest, h: Goal) {
    Takes(p.target, g.target, h.target) && Takes(p.lower, g.lower, h.lower) && Takes(p.upper, g.upper, h.upper) &&
    Takes(p.note, g.note, h.note) && Takes(p.direction, Some(g.direction), Some(h.direction)) &&
    Takes(p.owner, Some(g.owner), Some(h.owner)) && Takes(p.active, Some(g.active), Some(h.active)) &&
    h.version == g.version + 1 &&
    h.company == g.company && h.branch == g.branch && h.kpi == g.kpi && h.periodStart == g.periodStart &&
    h.periodEnd == g.periodEnd
  }

  /** An update is accepted exactly for a goal at the expected version and a
      caller who may manage its scope, if the updated goal exists, which no null
      in a required column leaves, and has an aim and an active owner; then that
      goal is stored and appended to the history. */
  lemma UpdateIsExact(s: Store, id: Id, p: UpdateRequest, c: Context, h: Goal)
    ensures var call := Update(id, p, c);
      (Outcome(s, call) == Ok(h) <==>
        id in s.goals && s.goals[id].version == p.expectedVersion &&
        c.mayManage(s.goals[id].company, s.goals[id].branch) && IsUpdated(s.goals[id], p, h) &&
        Aims(h.target, h.lower, h.upper) && h.owner in c.activeMembers) &&
      (Outcome(s, call) == Ok(h) ==>
        After(s, call) == Store(s.goals[id := h], s.history + [HistoryRow(id, h.version, h, p.reason)])) &&
      (Outcome(s, call).Err? ==> After(s, call) == s)
  {
    if id in s.goals && IsUpdated(s.goals[id], p, h) {
      assert !MissesColumn(p);
      assert h == Changed(s.goals[id], p).(version := h.version);
    }
  }

  /** Each refusal says what is wrong. */
  lemma RefusalsAreJustified(s: Store, id: Id, p: UpdateRequest, c: Context)
    ensures match Outcome(s, Update(id, p, c))
      case Ok(_) => true
      case Err(NotFound) => id !in s.goals
      case Err(ForbiddenScope) => id in s.goals && !c.mayManage(s.goals[id].company, s.goals[id].branch)
      case Err(VersionConflict) => id in s.goals && s.goals[id].version != p.expectedVersion
      case Err(TargetRequired) =>
        id in s.goals && forall target, lower, upper ::
          (Takes(p.target, s.goals[id].target, target) && Takes(p.lower, s.goals[id].lower, lower) &&
           Takes(p.upper, s.goals[id].upper, upper)) ==> target == lower == upper == None
      case Err(RangeInvalid) =>
        id in s.goals && forall lower, upper ::
          (Takes(p.lower, s.goals[id].lower, lower) && Takes(p.upper, s.goals[id].upper, upper)) ==>
          lower.Some? && upper.Some? && upper.value < lower.value
      case Err(ColumnRequired) => Set(None) == p.direction || Set(None) == p.owner || Set(None) == p.active
      case Err(OwnerInvalid) =>
        id in s.goals && forall owner :: Takes(p.owner, Some(s.goals[id].owner), Some(owner)) ==>
          owner !in c.activeMembers
      case Err(_) => false
  {
  }

  /** Of several reasons the first one, in the order of the checks, is given. */
  lemma RefusalsInOrder(s: Store, id: Id, p: UpdateRequest, c: Context)
    ensures var o := Outcome(s, Update(id, p, c));
      (o == Err(NotFound) <==> id !in s.goals) &&
      (id in s.goals ==>
        var g := s.goals[id];
        (o == Err(ForbiddenScope) <==> !c.mayManage(g.company, g.branch)) &&
        (o == Err(VersionConflict) <==> c.mayManage(g.company, g.branch) && g.version != p.expectedVersion))
  {
  }

  lemma CreationRefusalsInOrder(s: Store, id: Id, p: CreateRequest, c: Context)
    requires id !in s.goals
    ensures var o := Outcome(s, Create(id, p, c));
      var valid := p.periodStart <= p.periodEnd && (p.company == None ==> p.branch == None) &&
        Aims(p.target, p.lower, p.upper);
      var known := valid && p.kpi in c.knownKpis;
      var paid := known && (c.financial || p.kpi !in c.marginKpis);
      (o == Err(InvalidPayload) <==> !valid) && (o == Err(KpiNotFound) <==> valid && !known) &&
      (o == Err(FinancialForbidden) <==> known && !paid) &&
      (o == Err(ForbiddenScope) <==> paid && !c.mayManage(p.company, p.branch)) &&
      (o == Err(OwnerInvalid) <==> paid && c.mayManage(p.company, p.branch) && p.owner !in c.activeMembers)
  {
  }

  /** The row was written by this call: it was accepted, by a caller who may
      manage the goal's scope, with an owner who was active then. */
  ghost predicate Wrote(call: Call, row: HistoryRow) {
    call.id == row.goal && call.context.mayManage(row.snapshot.company, row.snapshot.branch) &&
    row.snapshot.owner in call.context.activeMembers &&
    match call
    case Create(_, p, c) =>
      row.reason == "created" && row.version == 1 && row.snapshot.kpi == p.kpi && p.kpi in c.knownKpis &&
      (c.financial || p.kpi !in c.marginKpis)
    case Update(_, p, _) => row.reason == p.reason && row.version == p.expectedVersion + 1
  }

  /** Over every run, every version in the history was written by an authorised
      call of the run, and is sound in itself. */
  lemma {:induction false} EveryVersionWasAuthorised(calls: seq<Call>, k: nat)
    requires k < |Run(EMPTY, calls).history|
    ensures var row := Run(EMPTY, calls).history[k];
      Aims(row.snapshot.target, row.snapshot.lower, row.snapshot.upper) &&
      exists i :: 0 <= i < |calls| && Wrote(calls[i], row)
  {
    if calls == [] {
    } else {
      var n := |calls| - 1;
      var before := Run(EMPTY, calls[..n]);
      hide Run, Wrote, Aims;
      assert Run(EMPTY, calls) == After(before, calls[n]) by { RunLast(calls); }
      AcceptedWrites(before, calls[n]);
      if k < |before.history| {
        EveryVersionWasAuthorised(calls[..n], k);
        var i :| 0 <= i < n && Wrote(calls[..n][i], before.history[k]);
        assert calls[i] == calls[..n][i];
      } else {
        assert Wrote(calls[n], Run(EMPTY, calls).history[k]);
      }
    }
  }

  lemma RunLast(calls: seq<Call>)
    requires calls != []
    ensures Run(EMPTY, calls) == After(Run(EMPTY, calls[..|calls| - 1]), calls[|calls| - 1])
  {
  }

  /** A call appends at most one row, which it wrote. */
  lemma AcceptedWrites(s: Store, call: Call)
    ensures var t := After(s, call).history;
      s.history <= t && |t| <= |s.history| + 1 &&
      (|t| > |s.history| ==>
        var row := t[|s.history|];
        Wrote(call, row) && Aims(row.snapshot.target, row.snapshot.lower, row.snapshot.upper))
  {
  }
}
