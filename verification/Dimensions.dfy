/** The versioned dimension table (`_sync_dimensions`).

    A sync closes the current rows whose content changed and inserts a row for
    every source key without a current one.  A row's identifier is derived from
    its key and the content it was inserted with.
 */
module Dimensions {
  import opened Wrappers

  datatype Key = Key(kind: string, natural: string)

  datatype Content = Content(name: string, attributes: string, parent: Option<string>)

  /** Row identifier; the content is the one whose hash the row was inserted with. */
  datatype RowId = RowId(key: Key, hashed: Content)

  datatype Row = Row(content: Content, effectiveFrom: int, effectiveTo: Option<int>, current: bool)

  type Table = map<RowId, Row>

  datatype SourceRow = SourceRow(content: Content, updatedAt: int)

  type Source = map<Key, SourceRow>

  /** What the database refuses: an empty validity period, or an identifier that is taken. */
  datatype Refusal = EmptyPeriod | DuplicateId

  predicate Stale(t: Table, src: Source, id: RowId) {
    id in t && t[id].current && id.key in src && id.hashed != src[id.key].content
  }

  function Closed(t: Table, src: Source, now: int): Table {
    map id | id in t :: if Stale(t, src, id) then t[id].(current := false, effectiveTo := Some(now)) else t[id]
  }

  predicate HasCurrent(t: Table, key: Key) {
    exists id :: id in t && id.key == key && t[id].current
  }

  /** The source keys for which the insert finds no current row. */
  function Missing(t: Table, src: Source): set<Key> {
    set key | key in src && !HasCurrent(t, key)
  }

  /** A row of the key already starts at this instant: the insert becomes an update of it. */
  predicate StartTaken(t: Table, key: Key, at: int) {
    exists id :: id in t && id.key == key && t[id].effectiveFrom == at
  }

  predicate InsertRefused(t: Table, src: Source, key: Key)
    requires key in src
  {
    !StartTaken(t, key, src[key].updatedAt) && RowId(key, src[key].content) in t
  }

  /** A row the insert really adds. */
  predicate IsNew(t: Table, src: Source, id: RowId) {
    id.key in Missing(t, src) && !StartTaken(t, id.key, src[id.key].updatedAt) && id.hashed == src[id.key].content
  }

  function Overwritten(t: Table, src: Source, id: RowId): Row
    requires id in t
  {
    if id.key in Missing(t, src) &&
      t[id].effectiveFrom == src[id.key].updatedAt then t[id].(content := src[id.key].content) else t[id]
  }

  /** Insert the missing keys; on a taken start instant overwrite that row's
      content, but neither its validity nor its identifier. */
  function Inserted(t: Table, src: Source): Table {
    (map id | id in t :: Overwritten(t, src, id)) +
    (map key | key in Missing(t, src) && IsNew(t, src, RowId(key, src[key].content))
       :: RowId(key, src[key].content) := Row(src[key].content, src[key].updatedAt, None, true))
  }

  function Sync(t: Table, src: Source, now: int): Result<Table, Refusal> {
    if exists id :: id in t && Stale(t, src, id) && now <= t[id].effectiveFrom then Err(EmptyPeriod) else
    var closed := Closed(t, src, now);
    if exists key :: key in Missing(closed, src) && InsertRefused(closed, src, key) then Err(DuplicateId) else
    Ok(Inserted(closed, src))
  }

  // ---------------------------------------------------------------- the table's invariant

  /** At most one current row per key, start instants unique per key, and
      current rows open and holding the content they were inserted with. */
  ghost predicate Valid(t: Table) {
    (forall i, j :: i in t && j in t && i.key == j.key ==> Apart(t, i, j)) &&
    (forall i :: i in t ==> Sound(t, i))
  }

  ghost predicate Apart(t: Table, i: RowId, j: RowId)
    requires i in t && j in t
  {
    (t[i].current && t[j].current) || t[i].effectiveFrom == t[j].effectiveFrom ==> i == j
  }

  ghost predicate Sound(t: Table, i: RowId)
    requires i in t
  {
    if t[i].current then t[i].content == i.hashed && t[i].effectiveTo.None? else t[i].effectiveTo.Some?
  }

  /** Every source key has exactly one current row, and it holds the present content. */
  ghost predicate Reflects(t: Table, src: Source) {
    forall key :: key in src ==> ReflectsKey(t, key, src[key].content)
  }

  ghost predicate ReflectsKey(t: Table, key: Key, content: Content) {
    HasCurrent(t, key) &&
    forall id :: id in t && id.key == key && t[id].current ==> id.hashed == content && t[id].content == content
  }

  /** What a sync needs from the source.  A key whose content has no current row
      must come with a start instant and a content that no row of the key has
      had, and the row it replaces must have started before now. */
  predicate Fresh(t: Table, src: Source, now: int) {
    forall key :: key in src ==> FreshKey(t, key, src[key], now)
  }

  predicate UpToDate(t: Table, key: Key, content: Content) {
    RowId(key, content) in t && t[RowId(key, content)].current
  }

  predicate FreshKey(t: Table, key: Key, row: SourceRow, now: int) {
    UpToDate(t, key, row.content) ||
    (RowId(key, row.content) !in t &&
     forall id :: id in t && id.key == key ==>
       t[id].effectiveFrom != row.updatedAt && (t[id].current ==> t[id].effectiveFrom < now))
  }

  lemma ClosedValid(t: Table, src: Source, now: int)
    requires Valid(t)
    ensures Valid(Closed(t, src, now))
  {
    var c := Closed(t, src, now);
    forall i, j | i in c && j in c && i.key == j.key ensures Apart(c, i, j) {
      assert Apart(t, i, j);
    }
  }

  ghost predicate Refused(t: Table, src: Source) {
    exists key :: key in Missing(t, src) && InsertRefused(t, src, key)
  }

  lemma InsertedRow(t: Table, src: Source, id: RowId)
    requires !Refused(t, src)
    ensures id in Inserted(t, src) <==> id in t || IsNew(t, src, id)
    ensures IsNew(t, src, id) ==>
      id !in t && Inserted(t, src)[id] == Row(src[id.key].content, src[id.key].updatedAt, None, true)
    ensures id in t ==> Inserted(t, src)[id] == Overwritten(t, src, id)
  {
    if IsNew(t, src, id) {
      assert id == RowId(id.key, src[id.key].content);
      assert !InsertRefused(t, src, id.key);
    }
  }

  lemma InsertedApart(t: Table, src: Source, i: RowId, j: RowId)
    requires Valid(t) && !Refused(t, src)
    requires i in Inserted(t, src) && j in Inserted(t, src) && i.key == j.key
    ensures Apart(Inserted(t, src), i, j)
  {
    InsertedRow(t, src, i);
    InsertedRow(t, src, j);
    hide Inserted, Refused;
    if i in t && j in t {
      assert Apart(t, i, j);
    }
  }

  lemma InsertedSound(t: Table, src: Source, i: RowId)
    requires Valid(t) && !Refused(t, src)
    requires i in Inserted(t, src)
    ensures Sound(Inserted(t, src), i)
  {
    InsertedRow(t, src, i);
    hide Inserted, Refused;
    if i in t {
      assert Sound(t, i);
    }
  }

  /** A sync, fresh or not, keeps the invariant. */
  lemma SyncKeepsValid(t: Table, src: Source, now: int)
    requires Valid(t)
    ensures Sync(t, src, now).Ok? ==> Valid(Sync(t, src, now).value)
  {
    if Sync(t, src, now).Ok? {
      var c := Closed(t, src, now);
      ClosedValid(t, src, now);
      hide Closed, Inserted;
      var r := Inserted(c, src);
      forall i, j | i in r && j in r && i.key == j.key ensures Apart(r, i, j) {
        InsertedApart(c, src, i, j);
      }
      forall i | i in r ensures Sound(r, i) {
        InsertedSound(c, src, i);
      }
    }
  }

  // ---------------------------------------------------------------- when a sync works

  lemma StaleUnlessSame(t: Table, src: Source, now: int, key: Key)
    requires Valid(t) && key in src
    ensures key in Missing(Closed(t, src, now), src) <==> !UpToDate(t, key, src[key].content)
  {
    var same := RowId(key, src[key].content);
    var c := Closed(t, src, now);
    if UpToDate(t, key, src[key].content) {
      assert same in c && c[same].current;
    } else {
      forall id | id in c && id.key == key ensures !c[id].current {
        assert id.hashed == src[key].content ==> id == same;
      }
    }
  }

  lemma StartTakenClosed(t: Table, src: Source, now: int, key: Key, at: int)
    ensures StartTaken(Closed(t, src, now), key, at) <==> StartTaken(t, key, at)
  {
    var c := Closed(t, src, now);
    if id :| id in t && id.key == key && t[id].effectiveFrom == at {
      assert id in c && c[id].effectiveFrom == at;
    }
  }

  /** A key whose current row already holds the content is left alone. */
  lemma UpToDateKey(t: Table, src: Source, now: int, key: Key)
    requires Valid(t) && key in src && UpToDate(t, key, src[key].content) && Sync(t, src, now).Ok?
    ensures ReflectsKey(Sync(t, src, now).value, key, src[key].content)
  {
    var c, same := Closed(t, src, now), RowId(key, src[key].content);
    StaleUnlessSame(t, src, now, key);
    SyncKeepsValid(t, src, now);
    assert same in c && c[same] == t[same];
    var r := Sync(t, src, now).value;
    InsertedRow(c, src, same);
    hide Closed, Inserted;
    assert Sound(t, same);
    assert same in r && r[same].current;
    forall id | id in r && id.key == key && r[id].current ensures id == same {
      assert Apart(r, id, same);
    }
  }

  /** A key without an up-to-date row gets one exactly when the insert adds it. */
  lemma InsertedKey(t: Table, src: Source, now: int, key: Key)
    requires Valid(t) && key in src && !UpToDate(t, key, src[key].content) && Sync(t, src, now).Ok?
    ensures ReflectsKey(Sync(t, src, now).value, key, src[key].content) <==> !StartTaken(t, key, src[key].updatedAt)
    ensures ReflectsKey(Sync(t, src, now).value, key, src[key].content) ==> RowId(key, src[key].content) !in t
  {
    var c, same := Closed(t, src, now), RowId(key, src[key].content);
    StaleUnlessSame(t, src, now, key);
    StartTakenClosed(t, src, now, key, src[key].updatedAt);
    SyncKeepsValid(t, src, now);
    assert c.Keys == t.Keys;
    var r := Sync(t, src, now).value;
    hide Closed, Inserted;
    forall id | id in r && id.key == key ensures r[id].current <==> IsNew(c, src, id) {
      InsertedRow(c, src, id);
    }
    InsertedRow(c, src, same);
    if !StartTaken(t, key, src[key].updatedAt) {
      assert IsNew(c, src, same);
    }
  }

  lemma FreshIsAccepted(t: Table, src: Source, now: int)
    requires Valid(t) && Fresh(t, src, now)
    ensures Sync(t, src, now).Ok?
  {
    forall id | id in t && Stale(t, src, id) ensures t[id].effectiveFrom < now {
      assert FreshKey(t, id.key, src[id.key], now);
    }
    var c := Closed(t, src, now);
    assert c.Keys == t.Keys;
    forall key | key in Missing(c, src) ensures !InsertRefused(c, src, key) {
      StaleUnlessSame(t, src, now, key);
      assert FreshKey(t, key, src[key], now);
    }
  }

  /** A sync is accepted and leaves every source key with one current row of its
      present content exactly when the source is fresh. */
  lemma FreshIsExact(t: Table, src: Source, now: int)
    requires Valid(t)
    ensures Sync(t, src, now).Ok? && Reflects(Sync(t, src, now).value, src) <==> Fresh(t, src, now)
  {
    if Fresh(t, src, now) {
      FreshIsAccepted(t, src, now);
      hide Sync, Inserted, Closed;
      forall key | key in src ensures ReflectsKey(Sync(t, src, now).value, key, src[key].content) {
        FreshKeyReflected(t, src, now, key);
      }
    } else if Sync(t, src, now).Ok? {
      var key :| key in src && !FreshKey(t, key, src[key], now);
      InsertedKeyNotFresh(t, src, now, key);
    }
  }

  lemma FreshKeyReflected(t: Table, src: Source, now: int, key: Key)
    requires Valid(t) && key in src && FreshKey(t, key, src[key], now) && Sync(t, src, now).Ok?
    ensures ReflectsKey(Sync(t, src, now).value, key, src[key].content)
  {
    hide Sync, ReflectsKey;
    if UpToDate(t, key, src[key].content) {
      UpToDateKey(t, src, now, key);
    } else {
      InsertedKey(t, src, now, key);
    }
  }

  lemma InsertedKeyNotFresh(t: Table, src: Source, now: int, key: Key)
    requires Valid(t) && key in src && !FreshKey(t, key, src[key], now) && Sync(t, src, now).Ok?
    ensures !ReflectsKey(Sync(t, src, now).value, key, src[key].content)
  {
    InsertedKey(t, src, now, key);
  }

  /** Turning a dimension's content back to what it once was never works.  The
      identifier of the old row is taken, so the sync is refused; if a row of the
      key already starts at the source's update time, the insert becomes an
      update of that closed row instead, and the key is left without a current row. */
  lemma RevertedContentIsLost(t: Table, src: Source, now: int, key: Key)
    requires Valid(t) && key in src
    requires RowId(key, src[key].content) in t && !t[RowId(key, src[key].content)].current
    ensures !StartTaken(t, key, src[key].updatedAt) ==> Sync(t, src, now).Err?
    ensures StartTaken(t, key, src[key].updatedAt) && Sync(t, src, now).Ok? ==>
      !HasCurrent(Sync(t, src, now).value, key)
  {
    var c := Closed(t, src, now);
    StaleUnlessSame(t, src, now, key);
    StartTakenClosed(t, src, now, key, src[key].updatedAt);
    if !StartTaken(t, key, src[key].updatedAt) {
      assert InsertRefused(c, src, key);
    } else if Sync(t, src, now).Ok? {
      var r := Sync(t, src, now).value;
      hide Closed, Inserted;
      forall id | id in r && id.key == key ensures !r[id].current {
        InsertedRow(c, src, id);
      }
    }
  }

  /** Such a loss: the source comes back to a content with the update time it had before. */
  lemma RevertedContentLostSilently(key: Key, a: Content, b: Content)
    requires a != b
    ensures var t := map[RowId(key, a) := Row(a, 1, Some(2), false), RowId(key, b) := Row(b, 2, None, true)];
      var src := map[key := SourceRow(a, 1)];
      Valid(t) && Sync(t, src, 3).Ok? && !HasCurrent(Sync(t, src, 3).value, key)
  {
    var t := map[RowId(key, a) := Row(a, 1, Some(2), false), RowId(key, b) := Row(b, 2, None, true)];
    var src := map[key := SourceRow(a, 1)];
    var c := Closed(t, src, 3);
    assert StartTaken(t, key, 1) by { assert t[RowId(key, a)].effectiveFrom == 1; }
    StartTakenClosed(t, src, 3, key, 1);
    forall other | other in Missing(c, src) ensures !InsertRefused(c, src, other) {
    }
    forall i, j | i in t && j in t && i.key == j.key ensures Apart(t, i, j) {
    }
    RevertedContentIsLost(t, src, 3, key);
  }

  // ---------------------------------------------------------------- runs

  /** Rows are only ever closed: an old row stays, and a closed one stays as it is. */
  ghost predicate KeepsHistory(t: Table, t': Table) {
    forall id :: id in t ==> id in t' && (!t[id].current ==> t'[id] == t[id])
  }

  lemma FreshKeepsHistory(t: Table, src: Source, now: int)
    requires Valid(t) && Fresh(t, src, now)
    ensures Sync(t, src, now).Ok? && KeepsHistory(t, Sync(t, src, now).value)
  {
    FreshIsAccepted(t, src, now);
    var c := Closed(t, src, now);
    forall id | id in t ensures id in Inserted(c, src) && (!t[id].current ==> Inserted(c, src)[id] == t[id]) {
      InsertedRow(c, src, id);
      if id.key in Missing(c, src) {
        StaleUnlessSame(t, src, now, id.key);
        assert FreshKey(t, id.key, src[id.key], now);
      }
    }
  }

  /** A second sync of the same source changes nothing. */
  lemma SecondSyncIsIdle(t: Table, src: Source, now: int)
    requires Valid(t) && Reflects(t, src)
    ensures Sync(t, src, now) == Ok(t)
  {
    forall id | id in t && id.key in src && t[id].current ensures !Stale(t, src, id) {
      assert ReflectsKey(t, id.key, src[id.key].content);
    }
    assert Closed(t, src, now) == t;
    forall key | key in src ensures key !in Missing(t, src) {
      assert ReflectsKey(t, key, src[key].content);
    }
    assert Inserted(t, src) == t;
  }

  datatype Step = Step(src: Source, now: int)

  function Run(t: Table, steps: seq<Step>): Result<Table, Refusal> {
    if steps == [] then Ok(t) else
    match Run(t, steps[..|steps| - 1])
    case Err(e) => Err(e)
    case Ok(before) => Sync(before, steps[|steps| - 1].src, steps[|steps| - 1].now)
  }

  /** Every sync of the run finds its source fresh. */
  ghost predicate FreshRun(t: Table, steps: seq<Step>) {
    forall i :: 0 <= i < |steps| ==> FreshStep(t, steps, i)
  }

  ghost predicate FreshStep(t: Table, steps: seq<Step>, i: nat)
    requires i < |steps|
  {
    Run(t, steps[..i]).Ok? ==> Fresh(Run(t, steps[..i]).value, steps[i].src, steps[i].now)
  }

  /** Over any run of fresh syncs: every sync is accepted, the table stays valid
      and keeps all closed rows from the start on, and after the last sync every
      source key has exactly one current row, of its present content. */
  lemma {:induction false} FreshRunsTrackTheSource(t: Table, steps: seq<Step>)
    requires Valid(t) && FreshRun(t, steps)
    ensures Run(t, steps).Ok?
    ensures Valid(Run(t, steps).value) && KeepsHistory(t, Run(t, steps).value)
    ensures steps != [] ==> Reflects(Run(t, steps).value, steps[|steps| - 1].src)
  {
    if steps == [] {
    } else {
      var before, last := steps[..|steps| - 1], steps[|steps| - 1];
      assert FreshRun(t, before) by {
        forall i | 0 <= i < |before| ensures FreshStep(t, before, i) {
          assert FreshStep(t, steps, i) && before[..i] == steps[..i];
        }
      }
      FreshRunsTrackTheSource(t, before);
      assert FreshStep(t, steps, |steps| - 1);
      var t' := Run(t, before).value;
      hide Sync, Reflects, Fresh, Valid;
      SyncKeepsValid(t', last.src, last.now);
      FreshIsExact(t', last.src, last.now);
      FreshKeepsHistory(t', last.src, last.now);
    }
  }

  // ---------------------------------------------------------------- validity

  /** The source has another content for the key than this current row. */
  ghost predicate Outdated(t: Table, src: Source, id: RowId) {
    id in t && t[id].current && id.key in src && src[id.key].content != id.hashed
  }

  /** What an accepted sync does to each row.  An outdated row ends now, after it
      began; the validity of every other row stays.  Only a row that is not
      current can change its content, and a row that appears holds the source's
      content from the source's update time on, without an end. */
  lemma SyncEndsValidity(t: Table, src: Source, now: int, id: RowId)
    requires Valid(t) && Sync(t, src, now).Ok?
    ensures var r := Sync(t, src, now).value;
      (id in t ==> id in r && r[id].effectiveFrom == t[id].effectiveFrom) &&
      (Outdated(t, src, id) ==> !r[id].current && r[id].effectiveTo == Some(now) && r[id].effectiveFrom < now) &&
      (id in t && !Outdated(t, src, id) ==>
        r[id].current == t[id].current && r[id].effectiveTo == t[id].effectiveTo) &&
      (id in t && r[id].content != t[id].content ==>
        !r[id].current && id.key in src && r[id].content == src[id.key].content &&
        r[id].effectiveFrom == src[id.key].updatedAt) &&
      (id in t && id.key in src && t[id].effectiveFrom == src[id.key].updatedAt ==>
        UpToDate(t, id.key, src[id.key].content) || r[id].content == src[id.key].content) &&
      (id in r && id !in t ==>
        id.key in src && id.hashed == src[id.key].content &&
        r[id] == Row(src[id.key].content, src[id.key].updatedAt, None, true))
  {
    var c := Closed(t, src, now);
    assert c.Keys == t.Keys;
    assert Outdated(t, src, id) <==> Stale(t, src, id);
    if id.key in src {
      StaleUnlessSame(t, src, now, id.key);
    }
    InsertedRow(c, src, id);
    hide Inserted;
  }

  /** The keys that a sync inserts or updates are those whose present content has no current row. */
  lemma MissingAreNotUpToDate(t: Table, src: Source, now: int)
    requires Valid(t)
    ensures Missing(Closed(t, src, now), src) ==
      set key | key in src && !(RowId(key, src[key].content) in t && t[RowId(key, src[key].content)].current)
  {
    forall key | key in src ensures key in Missing(Closed(t, src, now), src) <==> !UpToDate(t, key, src[key].content) {
      StaleUnlessSame(t, src, now, key);
    }
    hide Closed, Valid;
  }

  /** Exactly which syncs are refused: those that would end a row no later than
      it began, and those that need a row that the key already had. */
  lemma RefusalIsExact(t: Table, src: Source, now: int)
    requires Valid(t)
    ensures var empty := exists id :: Outdated(t, src, id) && now <= t[id].effectiveFrom;
      var taken := exists key ::
        (key in src && RowId(key, src[key].content) in t && !t[RowId(key, src[key].content)].current &&
         forall id :: id in t && id.key == key ==> t[id].effectiveFrom != src[key].updatedAt);
      (Sync(t, src, now) == Err(EmptyPeriod) <==> empty) &&
      (Sync(t, src, now) == Err(DuplicateId) <==> !empty && taken)
  {
    assert forall id :: Outdated(t, src, id) <==> Stale(t, src, id);
    var c := Closed(t, src, now);
    assert c.Keys == t.Keys;
    forall key | key in src
      ensures key in Missing(c, src) && InsertRefused(c, src, key) <==>
        RowId(key, src[key].content) in t && !t[RowId(key, src[key].content)].current &&
        forall id :: id in t && id.key == key ==> t[id].effectiveFrom != src[key].updatedAt
    {
      StaleUnlessSame(t, src, now, key);
      StartTakenClosed(t, src, now, key, src[key].updatedAt);
    }
    hide Closed, Missing, InsertRefused, Inserted, Outdated, Stale, Valid;
  }

  /** The row was ended by the i-th sync of the run. */
  ghost predicate EndedBy(t: Table, steps: seq<Step>, i: nat, id: RowId, row: Row)
    requires i < |steps|
  {
    var before, after := Run(t, steps[..i]), Run(t, steps[..i + 1]);
    before.Ok? && after.Ok? && id in before.value && before.value[id].current &&
    id in after.value && !after.value[id].current &&
    row.effectiveTo == Some(steps[i].now) && row.effectiveFrom < steps[i].now
  }

  /** After any accepted run every closed row has an interval that is not empty
      and ends at the instant of the sync that closed it, or was closed before
      the run and has its old end. */
  lemma {:induction false} ClosedRowsEndAtTheirSync(t: Table, steps: seq<Step>, id: RowId)
    requires Valid(t) && Run(t, steps).Ok?
    ensures Valid(Run(t, steps).value)
    ensures var r := Run(t, steps).value;
      id in r && !r[id].current ==>
        (id in t && !t[id].current && r[id].effectiveTo == t[id].effectiveTo &&
         r[id].effectiveFrom == t[id].effectiveFrom) ||
        exists i :: 0 <= i < |steps| && EndedBy(t, steps, i, id, r[id])
  {
    if steps == [] {
    } else {
      var n := |steps| - 1;
      var before, r := steps[..n], Run(t, steps).value;
      var t' := Run(t, before).value;
      ClosedRowsEndAtTheirSync(t, before, id);
      hide Sync, Valid, Outdated;
      SyncKeepsValid(t', steps[n].src, steps[n].now);
      SyncEndsValidity(t', steps[n].src, steps[n].now, id);
      if id in r && !r[id].current {
        if Outdated(t', steps[n].src, id) {
          OutdatedIsCurrent(t', steps[n].src, id);
          assert steps[..n + 1] == steps;
          assert EndedBy(t, steps, n, id, r[id]);
        } else if i :| 0 <= i < n && EndedBy(t, before, i, id, t'[id]) {
          EndedBefore(t, steps, i, id, t'[id], r[id]);
        }
      }
    }
  }

  lemma EndedBefore(t: Table, steps: seq<Step>, i: nat, id: RowId, row: Row, row': Row)
    requires i < |steps| - 1 && EndedBy(t, steps[..|steps| - 1], i, id, row)
    requires row'.effectiveTo == row.effectiveTo && row'.effectiveFrom == row.effectiveFrom
    ensures EndedBy(t, steps, i, id, row')
  {
    var before := steps[..|steps| - 1];
    assert before[..i] == steps[..i] && before[..i + 1] == steps[..i + 1];
    hide Run;
  }

  lemma OutdatedIsCurrent(t: Table, src: Source, id: RowId)
    requires Outdated(t, src, id)
    ensures id in t && t[id].current
  {
  }
}
