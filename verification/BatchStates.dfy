/** The states of import batches and synchronisation runs, guarded by a trigger
    on the state column (`validate_integration_state_transition`). */
module BatchStates {
  import opened Wrappers

  datatype State =
    | Created | Queued | Connecting | Extracting | Received | Validating | Mapping | Normalizing | Loading
    | Completed | CompletedWithWarnings | Failed | Cancelled | Quarantined | RetryScheduled

  /** The transitions that the trigger lets through. */
  predicate Allowed(a: State, b: State) {
    match a
    case Created => b in {Queued, Cancelled, Failed}
    case Queued => b in {Connecting, Received, Cancelled, RetryScheduled, Failed}
    case Connecting => b in {Extracting, Cancelled, RetryScheduled, Failed}
    case Extracting => b in {Received, Cancelled, RetryScheduled, Failed}
    case Received => b in {Validating, Cancelled, RetryScheduled, Failed}
    case Validating => b in {Mapping, Quarantined, Cancelled, RetryScheduled, Failed}
    case Mapping => b in {Normalizing, Quarantined, Cancelled, RetryScheduled, Failed}
    case Normalizing => b in {Loading, Quarantined, Cancelled, RetryScheduled, Failed}
    case Loading => b in {Completed, CompletedWithWarnings, Quarantined, Cancelled, RetryScheduled, Failed}
    case RetryScheduled => b in {Queued, Connecting, Received, Validating, Mapping, Normalizing, Loading, Cancelled,
      Failed}
    case Quarantined => b in {Queued, Cancelled, Failed}
    case Failed => b in {Queued, Cancelled}
    case _ => false
  }

  const ABANDON: set<State> := {Cancelled, RetryScheduled, Failed}

  /** The application's own table: what may follow each state. */
  function Successors(a: State): set<State> {
    match a
    case Created => {Queued, Cancelled, Failed}
    case Queued => {Connecting, Received} + ABANDON
    case Connecting => {Extracting} + ABANDON
    case Extracting => {Received} + ABANDON
    case Received => {Validating} + ABANDON
    case Validating => {Mapping, Quarantined} + ABANDON
    case Mapping => {Normalizing, Quarantined} + ABANDON
    case Normalizing => {Loading, Quarantined} + ABANDON
    case Loading => {Completed, CompletedWithWarnings, Quarantined} + ABANDON
    case RetryScheduled => {Queued, Connecting, Received, Validating, Mapping, Normalizing, Loading, Cancelled, Failed}
    case Quarantined => {Queued, Cancelled, Failed}
    case Failed => {Queued, Cancelled}
    case Completed => {}
    case CompletedWithWarnings => {}
    case Cancelled => {}
  }

  /** The trigger and the application's table allow the same transitions. */
  lemma TriggerAgreesWithTable(a: State, b: State)
    ensures Allowed(a, b) <==> b in Successors(a)
  {
  }

  /** The number of a stage of the work, 0 for creation. */
  function Stage(a: State): Option<nat> {
    match a
    case Created => Some(0)
    case Queued => Some(1)
    case Connecting => Some(2)
    case Extracting => Some(3)
    case Received => Some(4)
    case Validating => Some(5)
    case Mapping => Some(6)
    case Normalizing => Some(7)
    case Loading => Some(8)
    case _ => None
  }

  /** The rules behind the table: a stage leads to the next one, and queueing to
      reception as well; loading completes; anything unfinished can be cancelled
      and, unless it failed, fail; a retry can be scheduled from queueing on and
      resumes at any stage but creation and extraction; data can be quarantined
      from validation on; and what was quarantined or failed can be queued again. */
  lemma TransitionsFollowRules(a: State, b: State)
    ensures Allowed(a, b) <==>
      (Stage(a).Some? && Stage(b) == Some(Stage(a).value + 1)) || (a.Queued? && b.Received?) ||
      (a.Loading? && (b.Completed? || b.CompletedWithWarnings?)) ||
      (b.Cancelled? && !a.Completed? && !a.CompletedWithWarnings? && !a.Cancelled?) ||
      (b.Failed? && !a.Completed? && !a.CompletedWithWarnings? && !a.Cancelled? && !a.Failed?) ||
      (b.RetryScheduled? && Stage(a).Some? && Stage(a).value >= 1) ||
      (b.Quarantined? && Stage(a).Some? && Stage(a).value >= 5) ||
      (a.RetryScheduled? && Stage(b).Some? && Stage(b).value >= 1 && !b.Extracting?) ||
      ((a.Quarantined? || a.Failed?) && b.Queued?)
  {
  }

  predicate Terminal(a: State) {
    a in {Completed, CompletedWithWarnings, Cancelled}
  }

  /** The terminal states are those that nothing leaves. */
  lemma TerminalIsAbsorbing(a: State)
    ensures Terminal(a) <==> forall b :: !Allowed(a, b)
  {
    if !Terminal(a) {
      assert Allowed(a, Cancelled);
    }
  }

  /** Back to an earlier state: a retry, or a quarantined or failed batch queued again. */
  predicate IsReset(a: State, b: State) {
    (a.RetryScheduled? && !b.Cancelled? && !b.Failed?) || ((a.Quarantined? || a.Failed?) && b.Queued?)
  }

  ghost predicate IsRun(run: seq<State>) {
    run != [] && forall i :: 0 <= i < |run| - 1 ==> Allowed(run[i], run[i + 1])
  }

  function Resets(run: seq<State>): nat {
    if |run| < 2 then 0 else (if IsReset(run[0], run[1]) then 1 else 0) + Resets(run[1..])
  }

  // ---------------------------------------------------------------- the guarded column

  /** A row whose state column the trigger guards; `trail` is history only. */
  class GuardedRow {
    var state: State
    ghost var trail: seq<State>

    ghost predicate Valid()
      reads this
    {
      IsRun(trail) && trail[0] == Created && trail[|trail| - 1] == state
    }

    constructor ()
      ensures Valid() && trail == [Created]
    {
      state, trail := Created, [Created];
    }

    /** `UPDATE ... SET state = to`; the trigger raises an exception on other transitions. */
    method SetState(to: State) returns (ok: bool)
      requires Valid()
      modifies this
      ensures Valid()
      ensures ok <==> to == old(state) || Allowed(old(state), to)
      ensures state == if ok then to else old(state)
      ensures trail == if ok && to != old(state) then old(trail) + [to] else old(trail)
    {
      if state == to {
        return true;
      }
      if !Allowed(state, to) {
        return false;
      }
      state, trail := to, trail + [to];
      return true;
    }
  }

  // ---------------------------------------------------------------- how long a run can be

  function Rank(a: State): nat {
    match a
    case Created => 0
    case Queued => 1
    case Connecting => 2
    case Extracting => 3
    case Received => 4
    case Validating => 5
    case Mapping => 6
    case Normalizing => 7
    case Loading => 8
    case RetryScheduled => 9
    case Quarantined => 9
    case Failed => 10
    case _ => 11
  }

  lemma RankRises(a: State, b: State)
    requires Allowed(a, b)
    ensures if IsReset(a, b) then Rank(b) + 9 >= Rank(a) else Rank(b) > Rank(a)
  {
  }

  lemma {:induction false} RankBoundsRun(run: seq<State>)
    requires IsRun(run)
    ensures |run| - 1 + Rank(run[0]) <= 10 * Resets(run) + Rank(run[|run| - 1])
  {
    if |run| <= 1 {
    } else {
      RankRises(run[0], run[1]);
      var rest := run[1..];
      forall i | 0 <= i < |rest| - 1 ensures Allowed(rest[i], rest[i + 1]) {
        assert Allowed(run[i + 1], run[i + 2]);
      }
      RankBoundsRun(rest);
    }
  }

  /** From `created`, a run with r resets has at most 10 r + 11 state changes. */
  lemma RunIsBounded(run: seq<State>)
    requires IsRun(run) && run[0] == Created
    ensures |run| - 1 <= 10 * Resets(run) + 11
  {
    RankBoundsRun(run);
  }

  lemma {:induction false} ResetsOfPart(run: seq<State>, i: nat, j: nat)
    requires i <= j <= |run|
    ensures Resets(run[i..j]) == 0 <==> forall k :: i <= k < j - 1 ==> !IsReset(run[k], run[k + 1])
    decreases j - i
  {
    if j - i < 2 {
    } else {
      assert run[i..j][1..] == run[i + 1..j];
      ResetsOfPart(run, i + 1, j);
    }
  }

  /** A state recurs only after a reset. */
  lemma NoRepeatWithoutReset(run: seq<State>, i: nat, j: nat)
    requires IsRun(run) && i < j < |run| && run[i] == run[j]
    ensures exists k :: i <= k < j && IsReset(run[k], run[k + 1])
  {
    var part := run[i..j + 1];
    RankBoundsRun(part);
    ResetsOfPart(run, i, j + 1);
  }

  /** A run that reached a terminal state is over. */
  lemma TerminalEndsRun(run: seq<State>, i: nat)
    requires IsRun(run) && i < |run|
    ensures Terminal(run[i]) ==> i == |run| - 1
  {
    if i < |run| - 1 {
      assert Allowed(run[i], run[i + 1]);
    }
  }

  // ---------------------------------------------------------------- the bound is reached

  const ATTEMPT: seq<State> :=
    [Queued, Connecting, Extracting, Received, Validating, Mapping, Normalizing, Loading, RetryScheduled, Failed]

  function Attempts(n: nat): seq<State> {
    if n == 0 then [Cancelled] else ATTEMPT + Attempts(n - 1)
  }

  lemma {:induction false} AttemptsRun(n: nat)
    ensures IsRun(Attempts(n)) && |Attempts(n)| == 10 * n + 1
    ensures Attempts(n)[0] == if n == 0 then Cancelled else Queued
    ensures n > 0 ==> Resets(Attempts(n)) == n - 1
  {
    if n == 0 {
    } else {
      AttemptsRun(n - 1);
      AttemptThen(Attempts(n - 1));
    }
  }

  lemma AttemptThen(rest: seq<State>)
    requires IsRun(rest) && rest[0] in {Cancelled, Queued}
    ensures IsRun(ATTEMPT + rest)
    ensures Resets(ATTEMPT + rest) == Resets(rest) + if rest[0] == Queued then 1 else 0
  {
    AttemptIsRun();
    var run := ATTEMPT + rest;
    forall i | 0 <= i < |run| - 1 ensures Allowed(run[i], run[i + 1]) {
      if i >= 10 {
        assert run[i] == rest[i - 10] && run[i + 1] == rest[i - 9];
      }
    }
    ResetsJoin(ATTEMPT, rest);
  }

  lemma AttemptIsRun()
    ensures IsRun(ATTEMPT) && Resets(ATTEMPT) == 0 && |ATTEMPT| == 10
  {
    hide Resets;
    forall i | 0 <= i < 9 ensures Allowed(ATTEMPT[i], ATTEMPT[i + 1]) && !IsReset(ATTEMPT[i], ATTEMPT[i + 1]) {
    }
    ResetsOfPart(ATTEMPT, 0, 10);
    assert ATTEMPT[0..10] == ATTEMPT;
  }

  lemma {:induction false} ResetsJoin(a: seq<State>, b: seq<State>)
    requires a != [] && b != []
    ensures Resets(a + b) == Resets(a) + (if IsReset(a[|a| - 1], b[0]) then 1 else 0) + Resets(b)
  {
    assert (a + b)[1..] == a[1..] + b;
    if |a| > 1 {
      ResetsJoin(a[1..], b);
    } else {
      assert a[1..] + b == b;
    }
  }

  /** For every number of resets some run takes exactly 10 r + 11 changes. */
  lemma BoundIsReached(r: nat)
    ensures exists run :: IsRun(run) && run[0] == Created && Resets(run) == r && |run| - 1 == 10 * r + 11
  {
    AttemptsRun(r + 1);
    var rest := Attempts(r + 1);
    var run := [Created] + rest;
    ResetsJoin([Created], rest);
    forall i | 0 <= i < |run| - 1 ensures Allowed(run[i], run[i + 1]) {
      if i >= 1 {
        assert run[i] == rest[i - 1] && run[i + 1] == rest[i];
      }
    }
    assert IsRun(run);
  }
}
