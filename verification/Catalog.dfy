/** The versioned KPI catalogue (`_sync_catalog`).

    A sync registers the definitions of the deployed catalogue that are not
    registered yet and ends the validity of their open earlier versions.
 */
module Catalog {
  import opened Wrappers

  datatype Entry = Entry(code: string, version: int)

  datatype Definition = Definition(entry: Entry, digest: string)

  datatype Row = Row(digest: string, effectiveFrom: int, effectiveTo: Option<int>)

  type Rows = map<Entry, Row>

  /** A registered version whose definition changed without a version bump. */
  datatype Mismatch = Mismatch(entry: Entry)

  /** The deployed catalogue lists every code once. */
  ghost predicate DistinctCodes(defs: seq<Definition>) {
    forall i, j :: 0 <= i < j < |defs| ==> defs[i].entry.code != defs[j].entry.code
  }

  ghost predicate Changed(rows: Rows, d: Definition) {
    d.entry in rows && rows[d.entry].digest != d.digest
  }

  ghost predicate Registers(rows: Rows, defs: seq<Definition>, d: Definition) {
    d in defs && d.entry !in rows
  }

  /** A row is ended when a later version of its code is registered. */
  ghost predicate Ends(rows: Rows, defs: seq<Definition>, e: Entry) {
    e in rows && rows[e].effectiveTo.None? &&
    exists d :: Registers(rows, defs, d) && d.entry.code == e.code && e.version < d.entry.version
  }

  ghost predicate NewEntry(rows: Rows, defs: seq<Definition>, e: Entry) {
    exists d :: Registers(rows, defs, d) && d.entry == e
  }

  /** The outcome of a sync, row by row. */
  ghost predicate Synced(rows: Rows, defs: seq<Definition>, now: int, rows': Rows) {
    forall e :: SyncedAt(rows, defs, now, rows', e)
  }

  ghost predicate SyncedAt(rows: Rows, defs: seq<Definition>, now: int, rows': Rows, e: Entry) {
    (e in rows' <==> e in rows || NewEntry(rows, defs, e)) &&
    (e in rows ==> rows'[e] == if Ends(rows, defs, e) then rows[e].(effectiveTo := Some(now)) else rows[e]) &&
    (forall d :: Registers(rows, defs, d) && d.entry == e ==> rows'[e] == Row(d.digest, now, None))
  }

  /** The sync loop: the registered rows are read once, then every definition is
      checked, and if it is new, all registered rows are scanned for open
      earlier versions of its code. */
  method SyncCatalog(existing: Rows, defs: seq<Definition>, now: int) returns (r: Result<Rows, Mismatch>)
    requires DistinctCodes(defs)
    ensures r.Err? ==> exists d :: d in defs && Changed(existing, d) && r.error.entry == d.entry
    ensures r.Ok? ==> (forall d :: d in defs ==> !Changed(existing, d)) && Synced(existing, defs, now, r.value)
  {
    var rows := existing;
    for i := 0 to |defs|
      invariant forall d :: d in defs[..i] ==> !Changed(existing, d)
      invariant Synced(existing, defs[..i], now, rows)
    {
      var definition := defs[i];
      assert defs[..i + 1] == defs[..i] + [definition];
      if definition.entry in existing {
        if existing[definition.entry].digest != definition.digest {
          return Err(Mismatch(definition.entry));
        }
        SyncedSkip(existing, defs[..i], definition, now, rows);
      } else {
        SyncedKeys(existing, defs[..i], now, rows);
        var ended := EndEarlier(existing, rows, definition, now);
        SyncedRegister(existing, defs, i, now, rows, ended);
        rows := ended[definition.entry := Row(definition.digest, now, None)];
      }
    }
    assert defs[..|defs|] == defs;
    return Ok(rows);
  }

  /** Whether registering `d` ends the row of `e`. */
  predicate EndedBy(rows: Rows, e: Entry, d: Definition)
    requires e in rows
  {
    e.code == d.entry.code && e.version < d.entry.version && rows[e].effectiveTo.None?
  }

  /** The inner loop over the registered rows. */
  method EndEarlier(existing: Rows, rows: Rows, d: Definition, now: int) returns (rows': Rows)
    requires existing.Keys <= rows.Keys
    ensures rows'.Keys == rows.Keys
    ensures forall e :: e in rows ==>
      rows'[e] == if e in existing && EndedBy(rows, e, d) then rows[e].(effectiveTo := Some(now)) else rows[e]
  {
    rows' := rows;
    var rest := existing.Keys;
    while rest != {}
      invariant rest <= existing.Keys && rows'.Keys == rows.Keys
      invariant forall e :: e in rows ==>
                  rows'[e] == if e in existing && e !in rest &&
                    EndedBy(rows, e, d) then rows[e].(effectiveTo := Some(now)) else rows[e]
      decreases rest
    {
      var e :| e in rest;
      rest := rest - {e};
      if e.code == d.entry.code && e.version < d.entry.version && rows'[e].effectiveTo.None? {
        rows' := rows'[e := rows'[e].(effectiveTo := Some(now))];
      }
    }
  }

  lemma SyncedKeys(existing: Rows, defs: seq<Definition>, now: int, rows: Rows)
    requires Synced(existing, defs, now, rows)
    ensures existing.Keys <= rows.Keys
  {
    forall e | e in existing ensures e in rows {
      assert SyncedAt(existing, defs, now, rows, e);
    }
  }

  lemma MoreDefinitions(rows: Rows, defs: seq<Definition>, last: Definition, e: Entry)
    ensures forall d :: Registers(rows, defs + [last], d) <==>
      Registers(rows, defs, d) || (d == last && last.entry !in rows)
    ensures NewEntry(rows, defs + [last], e) <==> NewEntry(rows, defs, e) || (e == last.entry && last.entry !in rows)
    ensures Ends(rows, defs + [last], e) <==>
      Ends(rows, defs, e) || (e in rows && last.entry !in rows && EndedBy(rows, e, last))
  {
    forall d
      ensures Registers(rows, defs + [last], d) <==> Registers(rows, defs, d) || (d == last && last.entry !in rows)
    {
    }
    if last.entry !in rows {
      assert Registers(rows, defs + [last], last);
    }
    hide Registers;
    if d :| Registers(rows, defs, d) && d.entry == e {
      assert Registers(rows, defs + [last], d);
    }
    if e in rows && rows[e].effectiveTo.None? {
      if d :| Registers(rows, defs, d) && d.entry.code == e.code && e.version < d.entry.version {
        assert Registers(rows, defs + [last], d);
      }
    }
  }

  lemma SyncedSkip(existing: Rows, defs: seq<Definition>, last: Definition, now: int, rows: Rows)
    requires Synced(existing, defs, now, rows) && last.entry in existing
    ensures Synced(existing, defs + [last], now, rows)
  {
    forall e ensures SyncedAt(existing, defs + [last], now, rows, e) {
      MoreDefinitions(existing, defs, last, e);
      assert SyncedAt(existing, defs, now, rows, e);
      hide Registers, NewEntry, Ends;
    }
  }

  lemma SyncedRegister(existing: Rows, defs: seq<Definition>, i: nat, now: int, rows: Rows, ended: Rows)
    requires DistinctCodes(defs) && i < |defs|
    requires Synced(existing, defs[..i], now, rows) && defs[i].entry !in existing && existing.Keys <= rows.Keys
    requires ended.Keys == rows.Keys
    requires forall e :: e in rows ==>
      ended[e] == if e in existing && EndedBy(rows, e, defs[i]) then rows[e].(effectiveTo := Some(now)) else rows[e]
    ensures Synced(existing, defs[..i] + [defs[i]], now, ended[defs[i].entry := Row(defs[i].digest, now, None)])
  {
    var last := defs[i];
    var rows' := ended[last.entry := Row(last.digest, now, None)];
    forall e ensures SyncedAt(existing, defs[..i] + [last], now, rows', e) {
      MoreDefinitions(existing, defs[..i], last, e);
      assert SyncedAt(existing, defs[..i], now, rows, e);
      forall d | Registers(existing, defs[..i], d) ensures d.entry != last.entry {
        assert exists j :: 0 <= j < i && defs[j] == d;
      }
      hide Registers, NewEntry, Ends, DistinctCodes;
    }
  }

  // ---------------------------------------------------------------- validity intervals

  ghost predicate Later(e: Entry, f: Entry) {
    e.code == f.code && e.version < f.version
  }

  ghost predicate Highest(rows: Rows, e: Entry) {
    forall f :: f in rows ==> !Later(e, f)
  }

  ghost predicate Adjacent(rows: Rows, e: Entry, f: Entry) {
    Later(e, f) && forall g :: g in rows ==> !(Later(e, g) && Later(g, f))
  }

  /** The open version of a code is its highest one, and no other is open. */
  ghost predicate OpenIsHighest(rows: Rows) {
    forall e :: e in rows ==> (rows[e].effectiveTo.None? <==> Highest(rows, e))
  }

  /** Each version is valid until the next one starts: no gap and no overlap. */
  ghost predicate GapFree(rows: Rows) {
    forall e, f :: e in rows && f in rows && Adjacent(rows, e, f) ==> rows[e].effectiveTo == Some(rows[f].effectiveFrom)
  }

  ghost predicate Chronological(rows: Rows) {
    forall e, f :: e in rows && f in rows && Later(e, f) ==> rows[e].effectiveFrom <= rows[f].effectiveFrom
  }

  ghost predicate WellFormed(rows: Rows) {
    OpenIsHighest(rows) && GapFree(rows) && Chronological(rows)
  }

  /** No definition newly registered is older than a registered one of its code. */
  ghost predicate Ascending(rows: Rows, defs: seq<Definition>) {
    forall d, e :: Registers(rows, defs, d) && e in rows ==> !Later(d.entry, e)
  }

  ghost predicate NotAfter(rows: Rows, now: int) {
    forall e :: e in rows ==> rows[e].effectiveFrom <= now
  }

  /** A registered definition never changes, nor does its start. */
  ghost predicate Preserved(rows: Rows, rows': Rows) {
    forall e :: e in rows ==>
      e in rows' && rows'[e].digest == rows[e].digest && rows'[e].effectiveFrom == rows[e].effectiveFrom
  }

  lemma SyncPreserves(rows: Rows, defs: seq<Definition>, now: int, rows': Rows)
    requires Synced(rows, defs, now, rows')
    ensures Preserved(rows, rows')
    ensures NotAfter(rows, now) ==> NotAfter(rows', now)
  {
    forall e | e in rows || e in rows'
      ensures e in rows ==>
        e in rows' && rows'[e].digest == rows[e].digest && rows'[e].effectiveFrom == rows[e].effectiveFrom
      ensures e in rows' && e !in rows ==> rows'[e].effectiveFrom == now
    {
      assert SyncedAt(rows, defs, now, rows', e);
      hide Ends;
    }
  }

  /** What is known of one row after a sync that registers in ascending order. */
  lemma RowAfter(rows: Rows, defs: seq<Definition>, now: int, rows': Rows, e: Entry)
    requires DistinctCodes(defs) && OpenIsHighest(rows) && Ascending(rows, defs) && Synced(rows, defs, now, rows')
    requires e in rows'
    ensures e !in rows ==> rows'[e].effectiveTo.None? && rows'[e].effectiveFrom == now && Highest(rows', e)
    ensures e in rows && !Highest(rows, e) ==> rows'[e] == rows[e]
    ensures e in rows && Highest(rows, e) ==> rows'[e].effectiveTo == if Highest(rows', e) then None else Some(now)
  {
    assert SyncedAt(rows, defs, now, rows', e);
    if e !in rows {
      var d :| Registers(rows, defs, d) && d.entry == e;
      forall f | f in rows' ensures !Later(e, f) {
        assert SyncedAt(rows, defs, now, rows', f);
        if f !in rows && Later(e, f) {
          var d' :| Registers(rows, defs, d') && d'.entry == f;
          OneRegistrationPerCode(rows, defs, d, d');
        }
      }
    } else if Highest(rows, e) {
      EndsWhenOvertaken(rows, defs, now, rows', e);
    }
  }

  lemma OneRegistrationPerCode(rows: Rows, defs: seq<Definition>, d: Definition, d': Definition)
    requires DistinctCodes(defs) && Registers(rows, defs, d) && Registers(rows, defs, d')
    requires d.entry.code == d'.entry.code
    ensures d == d'
  {
    var i :| 0 <= i < |defs| && defs[i] == d;
    var j :| 0 <= j < |defs| && defs[j] == d';
  }

  lemma EndsWhenOvertaken(rows: Rows, defs: seq<Definition>, now: int, rows': Rows, e: Entry)
    requires OpenIsHighest(rows) && Synced(rows, defs, now, rows')
    requires e in rows && e in rows' && Highest(rows, e)
    ensures Ends(rows, defs, e) <==> !Highest(rows', e)
  {
    if Ends(rows, defs, e) {
      var d :| Registers(rows, defs, d) && d.entry.code == e.code && e.version < d.entry.version;
      assert SyncedAt(rows, defs, now, rows', d.entry);
      assert Later(e, d.entry);
    }
    if !Highest(rows', e) {
      var f :| f in rows' && Later(e, f);
      assert SyncedAt(rows, defs, now, rows', f);
      var d :| Registers(rows, defs, d) && d.entry == f;
    }
  }

  lemma AscendingKeepsWellFormed(rows: Rows, defs: seq<Definition>, now: int, rows': Rows)
    requires DistinctCodes(defs) && WellFormed(rows) && NotAfter(rows, now) && Synced(rows, defs, now, rows')
    requires Ascending(rows, defs)
    ensures WellFormed(rows')
  {
    SyncPreserves(rows, defs, now, rows');
    forall e | e in rows'
      ensures e !in rows ==> rows'[e].effectiveTo.None? && rows'[e].effectiveFrom == now && Highest(rows', e)
      ensures e in rows && !Highest(rows, e) ==> rows'[e] == rows[e]
      ensures e in rows && Highest(rows, e) ==> rows'[e].effectiveTo == if Highest(rows', e) then None else Some(now)
    {
      RowAfter(rows, defs, now, rows', e);
    }
    hide Synced, Ascending, DistinctCodes;
    forall e | e in rows' ensures rows'[e].effectiveTo.None? <==> Highest(rows', e) {
      if e in rows && !Highest(rows, e) {
        var f :| f in rows && Later(e, f);
        assert f in rows';
      }
    }
    forall e, f | e in rows' && f in rows' && Adjacent(rows', e, f)
      ensures rows'[e].effectiveTo == Some(rows'[f].effectiveFrom)
    {
      AdjacentAfter(rows, now, rows', e, f);
    }
  }

  lemma AdjacentAfter(rows: Rows, now: int, rows': Rows, e: Entry, f: Entry)
    requires WellFormed(rows) && Preserved(rows, rows')
    requires e in rows' && f in rows' && Adjacent(rows', e, f)
    requires forall g :: g in rows' && g !in rows ==> rows'[g].effectiveFrom == now && Highest(rows', g)
    requires e in rows && !Highest(rows, e) ==> rows'[e] == rows[e]
    requires e in rows && Highest(rows, e) ==> rows'[e].effectiveTo == if Highest(rows', e) then None else Some(now)
    ensures rows'[e].effectiveTo == Some(rows'[f].effectiveFrom)
  {
    assert e in rows by { assert Later(e, f); }
    if f in rows {
      assert Later(e, f) && !Highest(rows, e);
      assert Adjacent(rows, e, f);
    }
  }

  /** Registering in ascending order is exactly what the intervals need. */
  lemma AscendingIsExact(rows: Rows, defs: seq<Definition>, now: int, rows': Rows)
    requires DistinctCodes(defs) && WellFormed(rows) && NotAfter(rows, now) && Synced(rows, defs, now, rows')
    ensures WellFormed(rows') <==> Ascending(rows, defs)
  {
    if Ascending(rows, defs) {
      AscendingKeepsWellFormed(rows, defs, now, rows');
    } else {
      var d, e :| Registers(rows, defs, d) && e in rows && Later(d.entry, e);
      assert SyncedAt(rows, defs, now, rows', d.entry);
      assert SyncedAt(rows, defs, now, rows', e);
      assert d.entry in rows' && rows'[d.entry].effectiveTo.None? && !Highest(rows', d.entry);
    }
  }

  /** Such a deployment: version 1 of a code is registered after version 2, and
      both are open. */
  lemma OlderVersionStaysOpen(code: string, one: string, two: string, rows': Rows)
    requires Synced(map[Entry(code, 2) := Row(two, 0, None)], [Definition(Entry(code, 1), one)], 5, rows')
    ensures WellFormed(map[Entry(code, 2) := Row(two, 0, None)])
    ensures IsOpen(rows', Entry(code, 1)) && IsOpen(rows', Entry(code, 2)) && !WellFormed(rows')
  {
    var rows, defs := map[Entry(code, 2) := Row(two, 0, None)], [Definition(Entry(code, 1), one)];
    assert SyncedAt(rows, defs, 5, rows', Entry(code, 1)) && SyncedAt(rows, defs, 5, rows', Entry(code, 2));
    assert defs[0] in defs && Registers(rows, defs, defs[0]);
    assert Later(Entry(code, 1), Entry(code, 2));
  }

  /** After an accepted sync every definition is registered with its digest,
      open and from now on if it is new; a row changes only by ending now, and
      only for a new definition of its code with a higher version. */
  lemma SyncRegisters(rows: Rows, defs: seq<Definition>, now: int, rows': Rows, d: Definition, e: Entry)
    requires DistinctCodes(defs) && Synced(rows, defs, now, rows')
    requires d in defs && (d.entry in rows ==> rows[d.entry].digest == d.digest)
    ensures d.entry in rows' && rows'[d.entry].digest == d.digest
    ensures d.entry !in rows ==> rows'[d.entry] == Row(d.digest, now, None)
    ensures e in rows' && e !in rows ==> exists f :: f in defs && f.entry == e
    ensures e in rows ==>
      e in rows' && (rows'[e] != rows[e] <==>
        rows[e].effectiveTo == None &&
        exists f :: f in defs && f.entry !in rows && f.entry.code == e.code && e.version < f.entry.version)
    ensures e in rows && rows'[e] != rows[e] ==> rows'[e] == Row(rows[e].digest, rows[e].effectiveFrom, Some(now))
  {
    assert SyncedAt(rows, defs, now, rows', d.entry) && SyncedAt(rows, defs, now, rows', e);
    assert d.entry !in rows ==> Registers(rows, defs, d);
    assert (exists f :: Registers(rows, defs, f) && f.entry.code == e.code && e.version < f.entry.version) <==>
      (exists f :: f in defs && f.entry !in rows && f.entry.code == e.code && e.version < f.entry.version);
    if e in rows' && e !in rows {
      var f :| Registers(rows, defs, f) && f.entry == e;
    }
  }

  /** A second sync of the same definitions is accepted and changes nothing. */
  lemma SecondSyncIsIdle(rows: Rows, defs: seq<Definition>, now: int, rows': Rows, later: int, rows'': Rows)
    requires DistinctCodes(defs) && Synced(rows, defs, now, rows') && forall d :: d in defs ==> !Changed(rows, d)
    ensures forall d :: d in defs ==> !Changed(rows', d)
    ensures Synced(rows', defs, later, rows'') ==> rows'' == rows'
  {
    hide Synced, DistinctCodes;
    forall d | d in defs ensures d.entry in rows' && !Changed(rows', d) {
      SyncRegisters(rows, defs, now, rows', d, d.entry);
    }
    if Synced(rows', defs, later, rows'') {
      forall e ensures (e in rows'' <==> e in rows') && (e in rows' ==> rows''[e] == rows'[e]) {
        NothingRegistered(rows', defs, later, rows'', e);
      }
    }
  }

  lemma NothingRegistered(rows: Rows, defs: seq<Definition>, now: int, rows': Rows, e: Entry)
    requires Synced(rows, defs, now, rows') && forall d :: d in defs ==> d.entry in rows
    ensures (e in rows' <==> e in rows) && (e in rows ==> rows'[e] == rows[e])
  {
    assert SyncedAt(rows, defs, now, rows', e);
  }

  /** Each registered code has one open version, and only one. */
  lemma {:induction false} OneOpenVersion(rows: Rows, e: Entry)
    requires OpenIsHighest(rows) && e in rows
    ensures exists f :: IsOpen(rows, f) && f.code == e.code && forall g :: IsOpen(rows, g) && g.code == e.code ==>
      g == f
    decreases LaterVersions(rows, e)
  {
    if LaterVersions(rows, e) != {} {
      var g :| g in LaterVersions(rows, e);
      assert LaterVersions(rows, g) <= LaterVersions(rows, e) && g !in LaterVersions(rows, g);
      OneOpenVersion(rows, g);
    } else {
      assert forall f :: f in rows ==> f !in LaterVersions(rows, e);
      assert IsOpen(rows, e);
    }
  }

  ghost function LaterVersions(rows: Rows, e: Entry): set<Entry> {
    set g | g in rows && Later(e, g)
  }

  ghost predicate IsOpen(rows: Rows, e: Entry) {
    e in rows && rows[e].effectiveTo.None?
  }

  // ---------------------------------------------------------------- runs

  datatype Deployment = Deployment(defs: seq<Definition>, now: int)

  /** A run of syncs: the states between them, starting from an empty catalogue. */
  ghost predicate IsRun(states: seq<Rows>, run: seq<Deployment>) {
    |states| == |run| + 1 && states[0] == map[] &&
    forall i :: 0 <= i < |run| ==> RunStep(states[i], run[i], states[i + 1])
  }

  ghost predicate RunStep(before: Rows, d: Deployment, after: Rows) {
    DistinctCodes(d.defs) && NotAfter(before, d.now) && Ascending(before, d.defs) &&
      Synced(before, d.defs, d.now, after)
  }

  /** Over any run of ascending deployments the catalogue stays well formed, and
      a definition once registered is never changed. */
  lemma {:induction false} RunsStayWellFormed(states: seq<Rows>, run: seq<Deployment>, i: nat, j: nat)
    requires IsRun(states, run) && i <= j <= |run|
    ensures WellFormed(states[j])
    ensures Preserved(states[i], states[j])
    decreases j
  {
    if j == 0 {
    } else {
      assert RunStep(states[j - 1], run[j - 1], states[j]);
      hide WellFormed, Synced, Ascending, DistinctCodes, NotAfter;
      RunsStayWellFormed(states, run, if i < j then i else 0, j - 1);
      AscendingKeepsWellFormed(states[j - 1], run[j - 1].defs, run[j - 1].now, states[j]);
      SyncPreserves(states[j - 1], run[j - 1].defs, run[j - 1].now, states[j]);
    }
  }
}
