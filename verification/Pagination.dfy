/** Keyset pagination: the canonical listings and the walk along `next_cursor`. */
module Pagination {
  import opened Wrappers
  import opened CursorText

  /** The order of the listings is descending in this one. */
  predicate Before(p: Position, q: Position) {
    p.at < q.at || (p.at == q.at && p.id < q.id)
  }

  function Below(table: set<Position>, cursor: Option<Position>): set<Position> {
    set p | p in table && (cursor.Some? ==> Before(p, cursor.value))
  }

  ghost predicate IsLargest(s: set<Position>, p: Position) {
    p in s && forall q :: q in s && q != p ==> Before(q, p)
  }

  lemma {:induction false} LargestExists(s: set<Position>)
    requires s != {}
    ensures exists p :: IsLargest(s, p)
  {
    var p :| p in s;
    if s == {p} {
      assert IsLargest(s, p);
    } else {
      LargestExists(s - {p});
      var q :| IsLargest(s - {p}, q);
      var larger := if Before(p, q) then q else p;
      forall r | r in s && r != larger ensures Before(r, larger) {
        assert r == p || r in s - {p};
      }
      assert IsLargest(s, larger);
    }
  }

  ghost function Largest(s: set<Position>): (p: Position)
    requires s != {}
    ensures IsLargest(s, p)
  {
    LargestExists(s);
    var p :| IsLargest(s, p);
    p
  }

  /** `ORDER BY time DESC, id DESC` */
  ghost function Sorted(s: set<Position>): seq<Position> {
    if s == {} then [] else [Largest(s)] + Sorted(s - {Largest(s)})
  }

  ghost predicate Descending(s: seq<Position>) {
    forall i, j :: 0 <= i < j < |s| ==> Before(s[j], s[i])
  }

  lemma {:induction false} SortedIsSorted(s: set<Position>)
    ensures |Sorted(s)| == |s| && Descending(Sorted(s))
    ensures forall p :: p in Sorted(s) <==> p in s
  {
    if s == {} {
    } else {
      SortedIsSorted(s - {Largest(s)});
    }
  }

  /** A descending sequence is determined by its members. */
  lemma {:induction false} SortedIsUnique(s: seq<Position>, table: set<Position>)
    requires Descending(s) && forall p :: p in s <==> p in table
    ensures s == Sorted(table)
  {
    if s == [] {
      assert table == {};
    } else {
      assert s[0] in table;
      var largest := Largest(table);
      assert largest in s;
      assert s[0] == largest;
      forall p ensures p in s[1..] <==> p in table - {largest} {
        assert p in s ==> p == s[0] || p in s[1..];
      }
      SortedIsUnique(s[1..], table - {largest});
    }
  }

  // ---------------------------------------------------------------- one page

  datatype Page<T> = Page(items: seq<Position>, next: Option<T>)

  /** `LIMIT limit + 1`, of which `limit` are shown. */
  ghost function PageOf(table: set<Position>, cursor: Option<Position>, limit: nat): (page: Page<Position>)
    requires limit > 0
    ensures |page.items| <= limit
    ensures page.next.Some? ==> |page.items| == limit && page.next.value == page.items[limit - 1]
  {
    var all := Sorted(Below(table, cursor));
    var rows := if |all| > limit + 1 then all[..limit + 1] else all;
    if |rows| <= limit then Page(rows, None) else Page(rows[..limit], Some(rows[limit - 1]))
  }

  /** Later instants first, and larger identifiers first within an instant. */
  ghost predicate NewestFirst(items: seq<Position>) {
    forall i, j :: 0 <= i < j < |items| ==>
      items[j].at < items[i].at || (items[j].at == items[i].at && items[j].id < items[i].id)
  }

  /** A page shows the largest rows below its cursor, and says there is a next one exactly when it leaves rows out. */
  lemma PageIsTop(table: set<Position>, cursor: Option<Position>, limit: nat)
    requires limit > 0
    ensures var page := PageOf(table, cursor, limit);
      Descending(page.items) && NewestFirst(page.items) &&
      (forall p :: p in page.items ==> p in Below(table, cursor)) &&
      (forall p, q :: p in Below(table, cursor) && p !in page.items && q in page.items ==> Before(p, q)) &&
      (page.next.None? <==> forall p :: p in Below(table, cursor) ==> p in page.items)
  {
    var below := Below(table, cursor);
    var all := Sorted(below);
    SortedIsSorted(below);
    var page := PageOf(table, cursor, limit);
    hide Below, Sorted, Descending, Before;
    assert page.items == all[..|page.items|];
    PrefixIsTop(all, |page.items|);
    hide PageOf;
  }

  lemma PrefixIsTop(all: seq<Position>, n: nat)
    requires Descending(all) && n <= |all|
    ensures Descending(all[..n])
    ensures forall p, q :: p in all && p !in all[..n] && q in all[..n] ==> Before(p, q)
    ensures n < |all| ==> all[n] !in all[..n]
  {
    forall p, q | p in all && p !in all[..n] && q in all[..n] ensures Before(p, q) {
      var i :| 0 <= i < |all| && all[i] == p;
      var j :| 0 <= j < n && all[j] == q;
      assert i >= n;
    }
  }

  /** The listing's handler on the cursor's text. */
  ghost function ListPage(table: set<Position>, cursor: Option<string>, limit: nat,
                          other: string -> Option<Position>): Result<Page<string>, CursorError>
    requires limit > 0
  {
    match DecodeCursor(cursor, other)
    case Err(e) => Err(e)
    case Ok(decoded) =>
      var page := PageOf(table, decoded, limit);
      Ok(Page(page.items, if page.next.None? then None else Some(EncodeCursor(page.next.value))))
  }

  // ---------------------------------------------------------------- the walk

  datatype Walked = Walked(items: seq<Position>, finished: bool, pages: nat)

  /** Follow `next_cursor`; the table may be another one at every page. */
  ghost function Walk(tables: seq<set<Position>>, cursor: Option<Position>, limit: nat): Walked
    requires limit > 0
  {
    if tables == [] then Walked([], false, 0) else
    var page := PageOf(tables[0], cursor, limit);
    if page.next.None? then Walked(page.items, true, 1) else
    var rest := Walk(tables[1..], page.next, limit);
    Walked(page.items + rest.items, rest.finished, rest.pages + 1)
  }

  /** The same walk on the texts that the client sees. */
  ghost function WalkTexts(tables: seq<set<Position>>, cursor: Option<string>, limit: nat,
                           other: string -> Option<Position>): Result<Walked, CursorError>
    requires limit > 0
    decreases |tables|
  {
    if tables == [] then Ok(Walked([], false, 0)) else
    match ListPage(tables[0], cursor, limit, other)
    case Err(e) => Err(e)
    case Ok(page) =>
      if page.next.None? then Ok(Walked(page.items, true, 1)) else
      match WalkTexts(tables[1..], page.next, limit, other)
      case Err(e) => Err(e)
      case Ok(rest) => Ok(Walked(page.items + rest.items, rest.finished, rest.pages + 1))
  }

  /** Cursors as text change nothing: no page of a walk is refused. */
  lemma {:induction false} TextsWalkTheSame(tables: seq<set<Position>>, cursor: Option<Position>, limit: nat,
                                           other: string -> Option<Position>)
    requires limit > 0
    ensures WalkTexts(tables, if cursor.None? then None else Some(EncodeCursor(cursor.value)), limit, other)
         == Ok(Walk(tables, cursor, limit))
    decreases |tables|
  {
    hide PageOf, EncodeCursor, DecodeCursor;
    if tables == [] {
    } else {
      if cursor.Some? {
        CursorRoundTrip(cursor.value, other);
      } else {
        NoCursor(other);
      }
      TextsWalkTheSame(tables[1..], PageOf(tables[0], cursor, limit).next, limit, other);
    }
  }

  lemma NoCursor(other: string -> Option<Position>)
    ensures DecodeCursor(None, other) == Ok(None)
  {
  }

  ghost predicate AllBelow(items: seq<Position>, cursor: Option<Position>) {
    cursor.Some? ==> forall p :: p in items ==> Before(p, cursor.value)
  }

  /** A row that is there at every page of the walk. */
  ghost predicate Throughout(tables: seq<set<Position>>, pages: nat, p: Position)
    requires pages <= |tables|
  {
    forall i :: 0 <= i < pages ==> p in tables[i]
  }

  lemma {:induction false} WalkPages(tables: seq<set<Position>>, cursor: Option<Position>, limit: nat)
    requires limit > 0
    ensures Walk(tables, cursor, limit).pages <= |tables|
  {
    if tables == [] {
    } else {
      hide PageOf;
      WalkPages(tables[1..], PageOf(tables[0], cursor, limit).next, limit);
    }
  }

  lemma {:induction false} WalkDescends(tables: seq<set<Position>>, cursor: Option<Position>, limit: nat)
    requires limit > 0
    ensures Descending(Walk(tables, cursor, limit).items) && AllBelow(Walk(tables, cursor, limit).items, cursor)
    decreases |tables|
  {
    hide PageOf;
    if tables == [] {
    } else {
      var page := PageOf(tables[0], cursor, limit);
      PageIsTop(tables[0], cursor, limit);
      if page.next.Some? {
        WalkDescends(tables[1..], page.next, limit);
        Continues(page.items, Walk(tables[1..], page.next, limit).items, limit, cursor);
      }
    }
  }

  lemma Continues(items: seq<Position>, rest: seq<Position>, limit: nat, cursor: Option<Position>)
    requires limit > 0 && |items| == limit && Descending(items) && AllBelow(items, cursor)
    requires Descending(rest) && AllBelow(rest, Some(items[limit - 1]))
    ensures Descending(items + rest) && AllBelow(items + rest, cursor)
  {
    forall i, j | 0 <= i < limit && 0 <= j < |rest| ensures Before(rest[j], items[i]) {
      assert rest[j] in rest;
    }
    forall p | p in rest && cursor.Some? ensures Before(p, cursor.value) {
      assert items[limit - 1] in items;
    }
  }

  lemma {:induction false} WalkIsComplete(tables: seq<set<Position>>, cursor: Option<Position>, limit: nat, p: Position)
    requires limit > 0
    ensures var w := Walk(tables, cursor, limit);
      w.pages <= |tables| &&
      (w.finished && Throughout(tables, w.pages, p) && (cursor.Some? ==> Before(p, cursor.value)) ==> p in w.items)
    decreases |tables|
  {
    hide PageOf;
    WalkPages(tables, cursor, limit);
    if tables == [] {
    } else {
      var page := PageOf(tables[0], cursor, limit);
      PageIsTop(tables[0], cursor, limit);
      var w := Walk(tables, cursor, limit);
      if page.next.Some? {
        var rest := Walk(tables[1..], page.next, limit);
        WalkIsComplete(tables[1..], page.next, limit, p);
        if w.finished && Throughout(tables, w.pages, p) && (cursor.Some? ==> Before(p, cursor.value)) &&
          p !in page.items {
          assert p in Below(tables[0], cursor);
          assert page.items[limit - 1] in page.items;
          assert Throughout(tables[1..], rest.pages, p);
        }
      }
    }
  }

  lemma {:induction false} WalkReturnsRows(tables: seq<set<Position>>, cursor: Option<Position>, limit: nat,
                                           p: Position)
    requires limit > 0
    ensures p in Walk(tables, cursor, limit).items ==> exists i :: 0 <= i < |tables| && p in tables[i]
    decreases |tables|
  {
    hide PageOf;
    if tables == [] {
    } else {
      var page := PageOf(tables[0], cursor, limit);
      PageIsTop(tables[0], cursor, limit);
      if page.next.Some? && p in Walk(tables, cursor, limit).items && p !in page.items {
        WalkReturnsRows(tables[1..], page.next, limit, p);
        var i :| 0 <= i < |tables[1..]| && p in tables[1..][i];
        assert p in tables[i + 1];
      }
    }
  }

  ghost function Occurrences(items: seq<Position>, p: Position): nat {
    multiset(items)[p]
  }

  lemma {:induction false} DescendingOccursOnce(items: seq<Position>, p: Position)
    requires Descending(items)
    ensures Occurrences(items, p) == if p in items then 1 else 0
  {
    if items == [] {
    } else {
      assert items == [items[0]] + items[1..];
      DescendingOccursOnce(items[1..], p);
    }
  }

  /** The identifier keeps its position in every table of the walk. */
  ghost predicate KeysStable(tables: seq<set<Position>>) {
    forall i, j, p, q :: 0 <= i < |tables| && 0 <= j < |tables| && p in tables[i] && q in tables[j] && p.id == q.id ==>
      p == q
  }

  /** A finished walk from the start, over a table that changes between pages,
      returns rows in descending order, every row that was there throughout
      exactly once, and no row twice. */
  lemma WalkIsSound(tables: seq<set<Position>>, limit: nat)
    requires limit > 0
    ensures var w := Walk(tables, None, limit);
      w.pages <= |tables| && Descending(w.items) && NewestFirst(w.items) &&
      (forall p :: w.finished && Throughout(tables, w.pages, p) ==> Occurrences(w.items, p) == 1) &&
      (forall p :: Occurrences(w.items, p) <= 1) &&
      (KeysStable(tables) ==> forall i, j :: 0 <= i < j < |w.items| ==> w.items[i].id != w.items[j].id)
  {
    var w := Walk(tables, None, limit);
    WalkPages(tables, None, limit);
    WalkDescends(tables, None, limit);
    hide Walk, Descending, Occurrences;
    forall p ensures w.finished && Throughout(tables, w.pages, p) ==> Occurrences(w.items, p) == 1
             ensures Occurrences(w.items, p) <= 1 {
      DescendingOccursOnce(w.items, p);
      WalkIsComplete(tables, None, limit, p);
    }
    if KeysStable(tables) {
      forall i, j | 0 <= i < j < |w.items| ensures w.items[i].id != w.items[j].id {
        WalkReturnsRows(tables, None, limit, w.items[i]);
        WalkReturnsRows(tables, None, limit, w.items[j]);
        DifferentItems(w.items, i, j);
      }
    }
  }

  lemma DifferentItems(items: seq<Position>, i: nat, j: nat)
    requires Descending(items) && i < j < |items|
    ensures items[i] != items[j]
  {
  }

  // ---------------------------------------------------------------- a table that does not change

  /** max(1, ceil(n / limit)) */
  function Pages(n: nat, limit: nat): nat
    requires limit > 0
  {
    if n <= limit then 1 else (n + limit - 1) / limit
  }

  lemma MorePages(n: nat, limit: nat)
    requires limit > 0 && n > limit
    ensures Pages(n, limit) == Pages(n - limit, limit) + 1
  {
    if n - limit <= limit {
      Quotient(n + limit - 1, limit, 2);
    } else {
      var q := (n - limit + limit - 1) / limit;
      Quotient(n + limit - 1, limit, q + 1);
    }
  }

  lemma Quotient(x: int, d: int, q: int)
    requires d > 0 && q * d <= x < (q + 1) * d
    ensures x / d == q
  {
    var r := x / d;
    assert r * d <= x < (r + 1) * d;
    Ordered(q, r, d);
    Ordered(r, q, d);
  }

  lemma Ordered(q: int, r: int, d: int)
    requires d > 0 && q * d < (r + 1) * d
    ensures q <= r
  {
    var gap := q - (r + 1);
    assert gap * d == q * d - (r + 1) * d;
  }

  /** What is left after a page is what is below its last row. */
  lemma Remaining(table: set<Position>, cursor: Option<Position>, limit: nat)
    requires limit > 0
    ensures var page, below := PageOf(table, cursor, limit), Below(table, cursor);
      page.next.None? ==> page.items == Sorted(below) && |below| <= limit
    ensures var page, below := PageOf(table, cursor, limit), Below(table, cursor);
      page.next.Some? ==>
        |below| > limit && |Below(table, page.next)| == |below| - limit &&
        Sorted(below) == page.items + Sorted(Below(table, page.next))
  {
    var below := Below(table, cursor);
    SortedIsSorted(below);
    hide Sorted, Below, Descending, Before;
    var page := PageOf(table, cursor, limit);
    if page.next.Some? {
      RestIsSorted(table, cursor, limit);
      SortedIsSorted(Below(table, page.next));
      assert Sorted(below) == page.items + Sorted(below)[limit..];
    }
  }

  lemma RestIsSorted(table: set<Position>, cursor: Option<Position>, limit: nat)
    requires limit > 0 && |Sorted(Below(table, cursor))| > limit
    ensures var all := Sorted(Below(table, cursor)); all[limit..] == Sorted(Below(table, Some(all[limit - 1])))
  {
    var below := Below(table, cursor);
    var all := Sorted(below);
    SortedIsSorted(below);
    hide Sorted;
    var last := all[limit - 1];
    assert last in all;
    forall p ensures p in all[limit..] <==> p in Below(table, Some(last)) {
      RestIsBelow(all, limit, p);
    }
    SortedIsUnique(all[limit..], Below(table, Some(last)));
  }

  lemma RestIsBelow(all: seq<Position>, limit: nat, p: Position)
    requires Descending(all) && 0 < limit < |all|
    ensures p in all[limit..] <==> p in all && Before(p, all[limit - 1])
  {
    if p in all {
      var i :| 0 <= i < |all| && all[i] == p;
      if i >= limit {
        assert all[limit..][i - limit] == p;
      }
    }
  }

  lemma WalkNext(table: set<Position>, cursor: Option<Position>, limit: nat, n: nat)
    requires limit > 0 && n > 0
    ensures var page := PageOf(table, cursor, limit);
      Walk(Repeated(table, n), cursor, limit) ==
      if page.next.None? then Walked(page.items, true, 1) else
      var rest := Walk(Repeated(table, n - 1), page.next, limit);
      Walked(page.items + rest.items, rest.finished, rest.pages + 1)
  {
    hide PageOf;
    assert Repeated(table, n)[1..] == Repeated(table, n - 1);
  }

  /** On a table of n rows that does not change the walk takes exactly
      max(1, ceil(n / limit)) pages, which together are the sorted table. */
  lemma {:induction false} StaticWalk(table: set<Position>, cursor: Option<Position>, limit: nat, n: nat)
    requires limit > 0 && n >= Pages(|Below(table, cursor)|, limit)
    ensures Walk(Repeated(table, n), cursor, limit) ==
      Walked(Sorted(Below(table, cursor)), true, Pages(|Below(table, cursor)|, limit))
    decreases n
  {
    hide PageOf, Below, Sorted;
    Remaining(table, cursor, limit);
    var page := PageOf(table, cursor, limit);
    WalkNext(table, cursor, limit, n);
    if page.next.Some? {
      MorePages(|Below(table, cursor)|, limit);
      hide Pages, Walk, Repeated;
      StaticWalk(table, page.next, limit, n - 1);
    }
  }

  lemma WholeTableIsWalked(table: set<Position>, limit: nat, n: nat)
    requires limit > 0 && n >= Pages(|table|, limit)
    ensures Walk(Repeated(table, n), None, limit) == Walked(Sorted(table), true, Pages(|table|, limit))
  {
    assert Below(table, None) == table;
    hide Walk, Sorted, Pages;
    StaticWalk(table, None, limit, n);
  }
}
