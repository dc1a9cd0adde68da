/** The limiter of failed logins: a counter that expires later the more
    failures it holds (`LoginRateLimiter`). */
module LoginLimiter {
  import opened Wrappers

  const SECOND := 1000

  datatype Settings = Settings(maxAttempts: nat, lockout: nat, maxLockout: nat)

  /** A counter in the key-value store; it is gone from `expiresAt` on.  Instants are milliseconds. */
  datatype Counter = Counter(count: nat, expiresAt: int)

  datatype LoginError = Unavailable | TooManyAttempts(retryAfterSeconds: int)

  function Live(counter: Option<Counter>, now: int): nat {
    if counter.Some? && now < counter.value.expiresAt then counter.value.count else 0
  }

  function Pow2(n: nat): (r: nat)
    ensures r > n
  {
    if n == 0 then 1 else 2 * Pow2(n - 1)
  }

  /** Seconds until the counter expires once it holds `count` failures. */
  function Delay(s: Settings, count: nat): nat {
    var delay := s.lockout * Pow2(if count == 0 then 0 else count - 1);
    if delay > s.maxLockout then s.maxLockout else delay
  }

  function Recorded(s: Settings, counter: Option<Counter>, now: int): Counter {
    var count := Live(counter, now) + 1;
    Counter(count, now + Delay(s, count) * SECOND)
  }

  function Lesser(a: int, b: int): int {
    if a < b then a else b
  }

  /** Without a live counter, a failure counts as the first and locks for the
      base lockout, or for the cap if that is lower. */
  lemma FirstFailure(s: Settings, counter: Option<Counter>, now: int)
    requires counter.None? || counter.value.expiresAt <= now
    ensures Recorded(s, counter, now) == Counter(1, now + Lesser(s.lockout, s.maxLockout) * 1000)
  {
    assert Pow2(0) == 1;
  }

  /** Each further failure locks for twice as long as the last one did, up to
      the cap; `before` and `at` are those of any failure that came to `c`. */
  lemma DelayDoubles(s: Settings, before: Option<Counter>, at: int, c: nat, expiresAt: int, now: int)
    requires c > 0 && now < expiresAt && Recorded(s, before, at).count == c
    ensures var last, next := Recorded(s, before, at), Recorded(s, Some(Counter(c, expiresAt)), now);
      next.count == c + 1 && next.expiresAt - now == Lesser(2 * (last.expiresAt - at), s.maxLockout * 1000)
  {
    var p := Pow2(c - 1);
    assert Pow2(c) == 2 * p;
    assert s.lockout * (2 * p) == 2 * (s.lockout * p);
  }

  /** Whole seconds left, to the nearest; -2 without a counter. */
  function Ttl(counter: Option<Counter>, now: int): int {
    if counter.Some? && now < counter.value.expiresAt then (counter.value.expiresAt - now + 500) / SECOND else -2
  }

  lemma RecordedLaws(s: Settings, counter: Option<Counter>, now: int)
    ensures counter.None? || counter.value.expiresAt <= now ==>
      Recorded(s, counter, now) == Counter(1, now + Lesser(s.lockout, s.maxLockout) * 1000)
    ensures counter.Some? && counter.value.count > 0 && now < counter.value.expiresAt ==>
      forall before, at :: Recorded(s, before, at).count == counter.value.count ==>
        Recorded(s, counter, now).expiresAt - now ==
        Lesser(2 * (Recorded(s, before, at).expiresAt - at), s.maxLockout * 1000)
  {
    hide *;
    if counter.None? || counter.value.expiresAt <= now {
      FirstFailure(s, counter, now);
    } else if counter.value.count > 0 {
      forall before, at | Recorded(s, before, at).count == counter.value.count
        ensures Recorded(s, counter, now).expiresAt - now ==
          Lesser(2 * (Recorded(s, before, at).expiresAt - at), s.maxLockout * 1000)
      {
        DelayDoubles(s, before, at, counter.value.count, counter.value.expiresAt, now);
      }
    }
  }

  class LoginRateLimiter {
    const settings: Settings
    var counters: map<string, Counter>

    constructor (settings: Settings)
      ensures this.settings == settings && counters == map[]
    {
      this.settings := settings;
      counters := map[];
    }

    function CounterOf(key: string): Option<Counter>
      reads this
    {
      if key in counters then Some(counters[key]) else None
    }

    /** The first call of `ensure_allowed`: the time left on the key's counter. */
    method TimeToLive(key: string, now: int) returns (ttl: int)
      ensures ttl == Ttl(CounterOf(key), now)
      ensures key in counters && now < counters[key].expiresAt ==>
        -500 <= counters[key].expiresAt - now - ttl * SECOND < 500
      ensures key !in counters || counters[key].expiresAt <= now ==> ttl == -2
    {
      ttl := Ttl(CounterOf(key), now);
    }

    /** The second call: refuse while the key holds too many failures.  `ttl` is
        what the first call found, before whatever happened in between, and
        `connected` says whether the store answered both. */
    method EnsureAllowed(key: string, ttl: int, now: int, connected: bool) returns (r: Result<(), LoginError>)
      ensures r == Err(Unavailable) <==> !connected
      ensures connected ==> (r.Ok? <==> Live(CounterOf(key), now) < settings.maxAttempts)
      ensures connected && settings.maxAttempts > 0 ==>
        (r.Ok? <==> key !in counters || counters[key].expiresAt <= now || counters[key].count < settings.maxAttempts)
      ensures connected && r.Err? ==> r == Err(TooManyAttempts(if ttl > 1 then ttl else 1))
    {
      if !connected {
        return Err(Unavailable);
      }
      var attempts := Live(CounterOf(key), now);
      if attempts >= settings.maxAttempts {
        return Err(TooManyAttempts(if ttl > 1 then ttl else 1));
      }
      return Ok(());
    }

    /** Count one failure and set when the counter expires, atomically.  A store error is only logged. */
    method RecordFailure(key: string, now: int, connected: bool)
      modifies this
      ensures counters == if connected then old(counters)[key := Recorded(settings, old(CounterOf(key)), now)]
        else old(counters)
      ensures connected && (key !in old(counters) || old(counters)[key].expiresAt <= now) ==>
        counters[key] == Counter(1, now + Lesser(settings.lockout, settings.maxLockout) * 1000)
      ensures connected && old(key in counters && counters[key].count > 0 && now < counters[key].expiresAt) ==>
        counters[key].count == old(counters)[key].count + 1 &&
        forall before, at :: Recorded(settings, before, at).count == old(counters)[key].count ==>
          counters[key].expiresAt - now ==
          Lesser(2 * (Recorded(settings, before, at).expiresAt - at), settings.maxLockout * 1000)
      ensures connected ==> counters[key].expiresAt <= now + settings.maxLockout * SECOND
    {
      if connected {
        RecordedLaws(settings, CounterOf(key), now);
        var count := Live(CounterOf(key), now) + 1;
        var delay := settings.lockout * Pow2(if count > 1 then count - 1 else 0);
        if delay > settings.maxLockout {
          delay := settings.maxLockout;
        }
        counters := counters[key := Counter(count, now + delay * SECOND)];
      }
    }

    method Clear(key: string, connected: bool)
      modifies this
      ensures counters == if connected then old(counters) - {key} else old(counters)
    {
      if connected {
        counters := counters - {key};
      }
    }
  }

  // ---------------------------------------------------------------- runs of logins for one key

  datatype Kind = Arrive | Fail | Succeed | Wait

  /** What happens `after` so many milliseconds. */
  datatype Event = Event(kind: Kind, after: nat)

  /** The counter and the logins admitted but not finished. */
  datatype State = State(counter: Option<Counter>, inFlight: nat, now: int)

  function At(st: State, e: Event): State {
    st.(now := st.now + e.after)
  }

  /** A login is admitted by `EnsureAllowed` and later ends in `RecordFailure` or `Clear`. */
  function Step(s: Settings, width: nat, st: State, e: Event): State {
    var t := At(st, e);
    match e.kind
    case Arrive => if t.inFlight < width && Live(t.counter, t.now) < s.maxAttempts then t.(inFlight := t.inFlight + 1)
      else t
    case Fail => if t.inFlight > 0 then t.(counter := Some(Recorded(s, t.counter, t.now)), inFlight := t.inFlight - 1)
      else t
    case Succeed => if t.inFlight > 0 then t.(counter := None, inFlight := t.inFlight - 1) else t
    case Wait => t
  }

  /** An admitted login does what the calls of the limiter do: it needs fewer
      live failures than the maximum, a failure is recorded, and a success
      clears the counter, so that whatever it held counts no more. */
  lemma StepIsTheCall(s: Settings, width: nat, st: State, e: Event)
    requires s.maxAttempts > 0
    ensures var t, now := Step(s, width, st, e), st.now + e.after;
      t.now == now &&
      match e.kind
      case Arrive =>
        t.counter == st.counter &&
        var allowed := st.counter.None? || st.counter.value.expiresAt <= now || st.counter.value.count < s.maxAttempts;
        t.inFlight == st.inFlight + (if st.inFlight < width && allowed then 1 else 0)
      case Fail =>
        if st.inFlight == 0 then t.counter == st.counter && t.inFlight == 0
        else t.counter == Some(Recorded(s, st.counter, now)) && t.inFlight == st.inFlight - 1
      case Succeed =>
        if st.inFlight == 0 then t.counter == st.counter && t.inFlight == 0
        else t.counter == None && t.inFlight == st.inFlight - 1
      case Wait => t.counter == st.counter && t.inFlight == st.inFlight
  {
    hide Recorded;
  }

  function Run(s: Settings, width: nat, st: State, events: seq<Event>): State
    decreases |events|
  {
    if events == [] then st else Run(s, width, Step(s, width, st, events[0]), events[1..])
  }

  /** How many failures the run admits. */
  function Failures(s: Settings, width: nat, st: State, events: seq<Event>): nat
    decreases |events|
  {
    if events == [] then 0 else
    (if events[0].kind.Fail? && st.inFlight > 0 then 1 else 0) +
      Failures(s, width, Step(s, width, st, events[0]), events[1..])
  }

  predicate SuccessFree(events: seq<Event>) {
    forall i :: 0 <= i < |events| ==> !events[i].kind.Succeed?
  }

  /** The most failures the counter can hold. */
  function Most(s: Settings, width: nat): int {
    s.maxAttempts - 1 + width
  }

  /** Recorded failures and pending logins together stay within the limit. */
  predicate WithinLimit(s: Settings, width: nat, st: State) {
    Live(st.counter, st.now) + st.inFlight <= Most(s, width) && st.inFlight <= width
  }

  lemma StepKeepsLimit(s: Settings, width: nat, st: State, e: Event)
    requires WithinLimit(s, width, st)
    ensures WithinLimit(s, width, Step(s, width, st, e))
  {
    hide Delay;
    assert Live(st.counter, st.now + e.after) <= Live(st.counter, st.now);
  }

  /** However logins overlap, with at most `width` in flight the counter plus
      those in flight never exceeds N - 1 + width. */
  lemma {:induction false} RunKeepsLimit(s: Settings, width: nat, st: State, events: seq<Event>)
    requires WithinLimit(s, width, st)
    ensures WithinLimit(s, width, Run(s, width, st, events))
    decreases |events|
  {
    if events == [] {
    } else {
      StepKeepsLimit(s, width, st, events[0]);
      RunKeepsLimit(s, width, Step(s, width, st, events[0]), events[1..]);
    }
  }

  // ---------------------------------------------------------------- the amortised bound

  /** The delay covers the base lockout once per failure. */
  lemma DelayCoversCount(s: Settings, count: nat)
    requires 0 < count && s.maxLockout >= count * s.lockout
    ensures Delay(s, count) >= count * s.lockout
  {
    assert Pow2(count - 1) >= count;
    assert s.lockout * Pow2(count - 1) >= s.lockout * count;
  }

  /** `f` failures so far: all but those in the counter are paid for by time that has passed. */
  ghost predicate Paid(s: Settings, width: nat, st: State, f: nat, start: int) {
    start <= st.now &&
    (f > 0 ==>
      st.counter.Some? && 0 < st.counter.value.count <= Most(s, width) &&
      var c, last := st.counter.value.count, st.counter.value.expiresAt - Delay(s, st.counter.value.count) * SECOND;
      last <= st.now && f * s.lockout * SECOND <= c * s.lockout * SECOND + last - start)
  }

  lemma StepKeepsPaid(s: Settings, width: nat, st: State, e: Event, f: nat, start: int)
    requires Paid(s, width, st, f, start) && WithinLimit(s, width, st) && !e.kind.Succeed?
    requires s.maxLockout >= Most(s, width) * s.lockout
    ensures Paid(s, width, Step(s, width, st, e), f + (if e.kind.Fail? && st.inFlight > 0 then 1 else 0), start)
  {
    hide Delay;
    if e.kind.Fail? && st.inFlight > 0 && f > 0 {
      var c, now := st.counter.value.count, st.now + e.after;
      if now >= st.counter.value.expiresAt {
        assert c * s.lockout <= Most(s, width) * s.lockout;
        DelayCoversCount(s, c);
      }
    }
  }

  lemma {:induction false} RunIsPaid(s: Settings, width: nat, st: State, events: seq<Event>, f: nat, start: int)
    requires Paid(s, width, st, f, start) && WithinLimit(s, width, st) && SuccessFree(events)
    requires s.maxLockout >= Most(s, width) * s.lockout
    ensures Paid(s, width, Run(s, width, st, events), f + Failures(s, width, st, events), start)
    decreases |events|
  {
    hide Paid, WithinLimit, Step;
    if events == [] {
    } else {
      StepKeepsPaid(s, width, st, events[0], f, start);
      StepKeepsLimit(s, width, st, events[0]);
      var more := if events[0].kind.Fail? && st.inFlight > 0 then 1 else 0;
      RunIsPaid(s, width, Step(s, width, st, events[0]), events[1..], f + more, start);
    }
  }

  /** At most `Most` failures plus one per base lockout that passes. */
  ghost predicate Bounded(s: Settings, width: nat, st: State, events: seq<Event>) {
    Failures(s, width, st, events) * s.lockout * SECOND
      <= Most(s, width) * s.lockout * SECOND + Run(s, width, st, events).now - st.now
  }

  lemma PaidIsBounded(s: Settings, width: nat, st: State, f: nat, start: int)
    requires Paid(s, width, st, f, start) && Most(s, width) >= 0
    ensures f * s.lockout * SECOND <= Most(s, width) * s.lockout * SECOND + st.now - start
  {
    hide Delay;
    if f > 0 {
      assert st.counter.value.count * s.lockout <= Most(s, width) * s.lockout;
    } else {
      assert Most(s, width) * s.lockout >= 0;
    }
  }

  lemma RunIsBounded(s: Settings, width: nat, st: State, events: seq<Event>)
    requires WithinLimit(s, width, st) && SuccessFree(events)
    requires s.maxLockout >= Most(s, width) * s.lockout
    ensures Bounded(s, width, st, events)
  {
    hide Run, Failures, Delay;
    RunIsPaid(s, width, st, events, 0, st.now);
    PaidIsBounded(s, width, Run(s, width, st, events), Failures(s, width, st, events), st.now);
  }

  // ---------------------------------------------------------------- the bound needs the cap

  lemma {:induction false} RunAppends(s: Settings, width: nat, st: State, a: seq<Event>, b: seq<Event>)
    ensures Run(s, width, st, a + b) == Run(s, width, Run(s, width, st, a), b)
    ensures Failures(s, width, st, a + b) == Failures(s, width, st, a) + Failures(s, width, Run(s, width, st, a), b)
    decreases |a|
  {
    hide Step;
    if a == [] {
      assert a + b == b;
    } else {
      assert (a + b)[1..] == a[1..] + b;
      RunAppends(s, width, Step(s, width, st, a[0]), a[1..], b);
    }
  }

  predicate Positive(s: Settings) {
    s.maxAttempts > 0 && s.lockout > 0 && s.maxLockout > 0
  }

  /** The state after `count` failures, the last of them now. */
  function Holding(s: Settings, count: nat, inFlight: nat, now: int): State {
    State(if count == 0 then None else Some(Counter(count, now + Delay(s, count) * SECOND)), inFlight, now)
  }

  lemma HoldingIsLive(s: Settings, count: nat, inFlight: nat, now: int)
    requires Positive(s)
    ensures Live(Holding(s, count, inFlight, now).counter, now) == count
  {
    if count > 0 {
      assert s.lockout * Pow2(count - 1) >= 1;
    }
  }

  lemma StepHolding(s: Settings, width: nat, count: nat, inFlight: nat, now: int)
    requires Positive(s)
    ensures inFlight < width && count < s.maxAttempts ==>
      Step(s, width, Holding(s, count, inFlight, now), Event(Arrive, 0)) == Holding(s, count, inFlight + 1, now)
    ensures inFlight > 0 ==>
      Step(s, width, Holding(s, count, inFlight, now), Event(Fail, 0)) == Holding(s, count + 1, inFlight - 1, now)
  {
    HoldingIsLive(s, count, inFlight, now);
    hide Delay;
  }

  /** So many failures in one instant: singly while the counter allows, then `width` overlapping. */
  function Burst(s: Settings, width: nat, count: nat): seq<Event>
    requires count < s.maxAttempts
    decreases s.maxAttempts - count
  {
    if count == s.maxAttempts - 1 then Repeat(Event(Arrive, 0), width) + Repeat(Event(Fail, 0), width)
    else [Event(Arrive, 0), Event(Fail, 0)] + Burst(s, width, count + 1)
  }

  function Repeat(e: Event, n: nat): seq<Event> {
    if n == 0 then [] else [e] + Repeat(e, n - 1)
  }

  lemma {:induction false} Arrivals(s: Settings, width: nat, inFlight: nat, now: int, n: nat)
    requires Positive(s) && inFlight + n <= width
    ensures Run(s, width, Holding(s, s.maxAttempts - 1, inFlight, now), Repeat(Event(Arrive, 0), n)) ==
      Holding(s, s.maxAttempts - 1, inFlight + n, now)
    ensures Failures(s, width, Holding(s, s.maxAttempts - 1, inFlight, now), Repeat(Event(Arrive, 0), n)) == 0
    decreases n
  {
    hide Step, Holding;
    if n == 0 {
    } else {
      StepHolding(s, width, s.maxAttempts - 1, inFlight, now);
      Arrivals(s, width, inFlight + 1, now, n - 1);
    }
  }

  lemma {:induction false} Endings(s: Settings, width: nat, count: nat, now: int, n: nat)
    requires Positive(s)
    ensures Run(s, width, Holding(s, count, n, now), Repeat(Event(Fail, 0), n)) == Holding(s, count + n, 0, now)
    ensures Failures(s, width, Holding(s, count, n, now), Repeat(Event(Fail, 0), n)) == n
    decreases n
  {
    hide Step, Delay;
    if n == 0 {
    } else {
      StepHolding(s, width, count, n, now);
      Endings(s, width, count + 1, now, n - 1);
    }
  }

  /** The limit N - 1 + width is reached. */
  lemma {:induction false} BurstReachesLimit(s: Settings, width: nat, count: nat, now: int)
    requires Positive(s) && width > 0 && count < s.maxAttempts
    ensures Run(s, width, Holding(s, count, 0, now), Burst(s, width, count)) ==
      Holding(s, s.maxAttempts - 1 + width, 0, now)
    ensures Failures(s, width, Holding(s, count, 0, now), Burst(s, width, count)) == Most(s, width) - count
    decreases s.maxAttempts - count
  {
    hide *;
    var start := Holding(s, count, 0, now);
    if count == s.maxAttempts - 1 {
      BurstEnds(s, width, count);
      Arrivals(s, width, 0, now, width);
      Endings(s, width, count, now, width);
      RunAppends(s, width, start, Repeat(Event(Arrive, 0), width), Repeat(Event(Fail, 0), width));
    } else {
      BurstBegins(s, width, count, now);
      BurstReachesLimit(s, width, count + 1, now);
      RunAppends(s, width, start, [Event(Arrive, 0), Event(Fail, 0)], Burst(s, width, count + 1));
    }
    MostIs(s, width);
  }

  lemma MostIs(s: Settings, width: nat)
    ensures Most(s, width) == s.maxAttempts - 1 + width
  {
  }

  lemma BurstEnds(s: Settings, width: nat, count: nat)
    requires count == s.maxAttempts - 1
    ensures Burst(s, width, count) == Repeat(Event(Arrive, 0), width) + Repeat(Event(Fail, 0), width)
  {
  }

  lemma BurstBegins(s: Settings, width: nat, count: nat, now: int)
    requires Positive(s) && width > 0 && count < s.maxAttempts - 1
    ensures Burst(s, width, count) == [Event(Arrive, 0), Event(Fail, 0)] + Burst(s, width, count + 1)
    ensures Run(s, width, Holding(s, count, 0, now), [Event(Arrive, 0), Event(Fail, 0)]) ==
      Holding(s, count + 1, 0, now)
    ensures Failures(s, width, Holding(s, count, 0, now), [Event(Arrive, 0), Event(Fail, 0)]) == 1
  {
    StepHolding(s, width, count, 0, now);
    StepHolding(s, width, count, 1, now);
    hide Step, Delay, Burst;
    var pair := [Event(Arrive, 0), Event(Fail, 0)];
    assert pair[1..] == [Event(Fail, 0)] && pair[1..][1..] == [];
  }

  /** Two bursts with just the delay between them. */
  function TwoBursts(s: Settings, width: nat): seq<Event>
    requires Positive(s) && width > 0
  {
    Burst(s, width, 0) + ([Event(Wait, Delay(s, s.maxAttempts - 1 + width) * SECOND)] + Burst(s, width, 0))
  }

  lemma {:induction false} BurstIsSuccessFree(s: Settings, width: nat, count: nat)
    requires count < s.maxAttempts
    ensures SuccessFree(Burst(s, width, count))
    decreases s.maxAttempts - count
  {
    if count == s.maxAttempts - 1 {
      RepeatIsSame(Event(Arrive, 0), width);
      RepeatIsSame(Event(Fail, 0), width);
    } else {
      BurstIsSuccessFree(s, width, count + 1);
    }
  }

  lemma {:induction false} RepeatIsSame(e: Event, n: nat)
    ensures forall i :: 0 <= i < |Repeat(e, n)| ==> Repeat(e, n)[i] == e
  {
    if n == 0 {
    } else {
      RepeatIsSame(e, n - 1);
    }
  }

  /** States that differ at most in a counter that has expired. */
  predicate Alike(a: State, b: State) {
    a.inFlight == b.inFlight && a.now == b.now &&
    (a.counter == b.counter || (Live(a.counter, a.now) == 0 && Live(b.counter, b.now) == 0))
  }

  lemma {:induction false} AlikeRuns(s: Settings, width: nat, a: State, b: State, events: seq<Event>)
    requires Alike(a, b)
    ensures Failures(s, width, a, events) == Failures(s, width, b, events)
    ensures Run(s, width, a, events).now == Run(s, width, b, events).now
    decreases |events|
  {
    hide Delay;
    if events == [] {
    } else {
      AlikeRuns(s, width, Step(s, width, a, events[0]), Step(s, width, b, events[0]), events[1..]);
    }
  }

  lemma TwoBurstsFail(s: Settings, width: nat, now: int)
    requires Positive(s) && width > 0
    ensures SuccessFree(TwoBursts(s, width))
    ensures Failures(s, width, State(None, 0, now), TwoBursts(s, width)) == 2 * Most(s, width)
    ensures Run(s, width, State(None, 0, now), TwoBursts(s, width)).now ==
      now + Delay(s, s.maxAttempts - 1 + width) * SECOND
  {
    BurstIsSuccessFree(s, width, 0);
    hide Burst, Delay, Failures, Run;
    var start, full := Holding(s, 0, 0, now), Holding(s, s.maxAttempts - 1 + width, 0, now);
    var wait := Event(Wait, Delay(s, s.maxAttempts - 1 + width) * SECOND);
    BurstReachesLimit(s, width, 0, now);
    RunAppends(s, width, start, Burst(s, width, 0), [wait] + Burst(s, width, 0));
    RunAppends(s, width, full, [wait], Burst(s, width, 0));
    Waited(s, width, full, wait);
    var waited := Holding(s, 0, 0, now + wait.after);
    BurstReachesLimit(s, width, 0, waited.now);
    AlikeRuns(s, width, full.(now := waited.now), waited, Burst(s, width, 0));
  }

  lemma Waited(s: Settings, width: nat, st: State, wait: Event)
    requires wait.kind.Wait?
    ensures Run(s, width, st, [wait]) == st.(now := st.now + wait.after) && Failures(s, width, st, [wait]) == 0
  {
    assert [wait][1..] == [];
  }

  /** The bound for every success-free run from a state within the limit. */
  ghost predicate AlwaysBounded(s: Settings, width: nat) {
    forall st, events :: WithinLimit(s, width, st) && SuccessFree(events) ==> Bounded(s, width, st, events)
  }

  /** At most N - 1 + width failures, plus one for each base lockout that
      passes, exactly when the cap on the lockout is at least that many base lockouts.
      With one login in flight at a time that is N failures, and a cap of N base lockouts. */
  lemma BoundIsExact(s: Settings, width: nat)
    requires Positive(s) && width > 0
    ensures AlwaysBounded(s, width) <==> s.maxLockout >= Most(s, width) * s.lockout
  {
    hide Bounded, SuccessFree, WithinLimit;
    if s.maxLockout >= Most(s, width) * s.lockout {
      forall st, events | WithinLimit(s, width, st) && SuccessFree(events) ensures Bounded(s, width, st, events) {
        RunIsBounded(s, width, st, events);
      }
    } else {
      LowCapFails(s, width);
      assert WithinLimit(s, width, State(None, 0, 0)) && SuccessFree(TwoBursts(s, width));
    }
  }

  lemma LowCapFails(s: Settings, width: nat)
    requires Positive(s) && width > 0 && s.maxLockout < Most(s, width) * s.lockout
    ensures WithinLimit(s, width, State(None, 0, 0)) && SuccessFree(TwoBursts(s, width))
    ensures !Bounded(s, width, State(None, 0, 0), TwoBursts(s, width))
  {
    TwoBurstsFail(s, width, 0);
    assert Delay(s, s.maxAttempts - 1 + width) <= s.maxLockout;
    hide Run, Failures, TwoBursts, SuccessFree, Delay;
    Doubled(Most(s, width), s.lockout);
  }

  lemma Doubled(m: int, b: int)
    ensures 2 * m * b * SECOND == m * b * SECOND + m * b * SECOND
  {
  }

  /** Logins one after another: at most N failures plus one per base lockout. */
  lemma SequentialBound(s: Settings, st: State, events: seq<Event>)
    requires Positive(s) && s.maxLockout >= s.maxAttempts * s.lockout
    requires st.inFlight == 0 && Live(st.counter, st.now) <= s.maxAttempts && SuccessFree(events)
    ensures (Failures(s, 1, st, events) - s.maxAttempts) * s.lockout * SECOND <= Run(s, 1, st, events).now - st.now
  {
    hide Run, Failures;
    RunIsBounded(s, 1, st, events);
  }
}
