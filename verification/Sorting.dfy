/** Stable sorting of keyed values, largest first, and sums of the largest. */
module Sorting {
  import opened Sums

  type Items<K> = seq<(K, real)>

  function Insert<K>(x: (K, real), s: Items<K>): Items<K> {
    if s == [] || x.1 >= s[0].1 then [x] + s else [s[0]] + Insert(x, s[1..])
  }

  /** `sorted(items, key=value, reverse=True)`. */
  function SortDescending<K>(s: Items<K>): Items<K> {
    if s == [] then [] else Insert(s[0], SortDescending(s[1..]))
  }

  ghost predicate Descending<K>(s: Items<K>) {
    forall i, j :: 0 <= i < j < |s| ==> s[i].1 >= s[j].1
  }

  lemma InsertSorts<K>(x: (K, real), s: Items<K>)
    requires Descending(s)
    ensures Descending(Insert(x, s)) && multiset(Insert(x, s)) == multiset(s) + multiset{x}
    ensures |Insert(x, s)| == |s| + 1
  {
    hide *;
    InsertDescends(x, s);
    InsertAdds(x, s);
  }

  lemma {:induction false} InsertAdds<K>(x: (K, real), s: Items<K>)
    ensures multiset(Insert(x, s)) == multiset(s) + multiset{x} && |Insert(x, s)| == |s| + 1
  {
    if s == [] || x.1 >= s[0].1 {
    } else {
      InsertAdds(x, s[1..]);
      assert s == [s[0]] + s[1..];
    }
  }

  lemma {:induction false} InsertDescends<K>(x: (K, real), s: Items<K>)
    requires Descending(s)
    ensures Descending(Insert(x, s)) && Insert(x, s) != []
    ensures Insert(x, s)[0] == x || (s != [] && Insert(x, s)[0] == s[0])
  {
    if s == [] || x.1 >= s[0].1 {
    } else {
      InsertDescends(x, s[1..]);
      DescendingNext(s[0], Insert(x, s[1..]));
    }
  }

  lemma DescendingNext<K>(first: (K, real), rest: Items<K>)
    requires Descending(rest) && rest != [] && first.1 >= rest[0].1
    ensures Descending([first] + rest)
  {
  }

  lemma {:induction false} SortSorts<K>(s: Items<K>)
    ensures Descending(SortDescending(s)) && multiset(SortDescending(s)) == multiset(s)
    ensures |SortDescending(s)| == |s|
  {
    if s == [] {
    } else {
      SortSorts(s[1..]);
      InsertSorts(s[0], SortDescending(s[1..]));
      assert s == [s[0]] + s[1..];
    }
  }

  /** The items of one value, in their order. */
  function OfValue<K>(s: Items<K>, x: real): Items<K> {
    if s == [] then [] else (if s[0].1 == x then [s[0]] else []) + OfValue(s[1..], x)
  }

  lemma OfValueNext<K>(first: (K, real), rest: Items<K>, v: real)
    ensures OfValue([first] + rest, v) == (if first.1 == v then [first] else []) + OfValue(rest, v)
  {
    assert ([first] + rest)[1..] == rest;
  }

  lemma {:induction false} InsertIsStable<K>(x: (K, real), s: Items<K>, v: real)
    ensures OfValue(Insert(x, s), v) == (if x.1 == v then [x] else []) + OfValue(s, v)
  {
    if s == [] || x.1 >= s[0].1 {
      OfValueNext(x, s, v);
      hide OfValue;
    } else {
      InsertIsStable(x, s[1..], v);
      hide OfValue;
      OfValueNext(s[0], Insert(x, s[1..]), v);
      OfValueNext(s[0], s[1..], v);
      assert s == [s[0]] + s[1..];
    }
  }

  /** Sorting is stable: items of equal value keep their order. */
  lemma {:induction false} SortIsStable<K>(s: Items<K>, v: real)
    ensures OfValue(SortDescending(s), v) == OfValue(s, v)
  {
    if s == [] {
    } else {
      SortIsStable(s[1..], v);
      InsertIsStable(s[0], SortDescending(s[1..]), v);
      OfValueNext(s[0], s[1..], v);
      assert s == [s[0]] + s[1..];
      hide OfValue, Insert;
    }
  }

  /** `x` stands somewhere before `y`. */
  ghost predicate StandsBefore<K(!new)>(s: Items<K>, x: (K, real), y: (K, real)) {
    exists i, j :: 0 <= i < j < |s| && s[i] == x && s[j] == y
  }

  lemma StandsBeforeNext<K(!new)>(first: (K, real), rest: Items<K>, x: (K, real), y: (K, real))
    ensures StandsBefore([first] + rest, x, y) <==> (first == x && y in rest) || StandsBefore(rest, x, y)
  {
    var s := [first] + rest;
    if i, j :| 0 <= i < j < |s| && s[i] == x && s[j] == y {
      assert s[j] == rest[j - 1];
      if i > 0 {
        assert s[i] == rest[i - 1];
      }
    }
    if first == x && y in rest {
      var j :| 0 <= j < |rest| && rest[j] == y;
      assert s[0] == x && s[j + 1] == y;
    }
    if i, j :| 0 <= i < j < |rest| && rest[i] == x && rest[j] == y {
      assert s[i + 1] == x && s[j + 1] == y;
    }
  }

  lemma {:induction false} OrderOfValue<K(!new)>(s: Items<K>, v: real, x: (K, real), y: (K, real))
    ensures y in OfValue(s, v) <==> y in s && y.1 == v
    ensures StandsBefore(OfValue(s, v), x, y) <==> StandsBefore(s, x, y) && x.1 == v && y.1 == v
  {
    if s == [] {
    } else {
      var first, rest := s[0], s[1..];
      OrderOfValue(rest, v, x, y);
      assert s == [first] + rest;
      OfValueNext(first, rest, v);
      hide OfValue, StandsBefore;
      StandsBeforeNext(first, rest, x, y);
      StandsBeforeNext(first, OfValue(rest, v), x, y);
      assert first.1 != v ==> OfValue(s, v) == OfValue(rest, v);
    }
  }

  /** Of two items of equal value, the one that stood first still does. */
  lemma TiesKeepOrder<K(!new)>(s: Items<K>, x: (K, real), y: (K, real))
    requires x.1 == y.1
    ensures StandsBefore(SortDescending(s), x, y) <==> StandsBefore(s, x, y)
  {
    hide SortDescending, OfValue, StandsBefore;
    SortIsStable(s, x.1);
    OrderOfValue(s, x.1, x, y);
    OrderOfValue(SortDescending(s), x.1, x, y);
  }

  function Prefix<K>(s: Items<K>, n: nat): real
    requires n <= |s|
  {
    if n == 0 then 0.0 else Prefix(s, n - 1) + s[n - 1].1
  }

  /** `sum(sorted(values, reverse=True)[:n])`. */
  function TopSum<K>(s: Items<K>, n: nat): real {
    var sorted := SortDescending(s);
    SortSorts(s);
    Prefix(sorted, if n < |s| then n else |s|)
  }

  ghost predicate DistinctKeys<K>(s: Items<K>) {
    forall i, j :: 0 <= i < j < |s| ==> s[i].0 != s[j].0
  }

  /** The items list the table: every key once, with its value. */
  ghost predicate Lists<K(!new)>(s: Items<K>, v: map<K, real>) {
    DistinctKeys(s) && (forall y :: y in s ==> y.0 in v && v[y.0] == y.1) && (forall k :: k in v ==> (k, v[k]) in s)
  }

  lemma {:induction false} InsertMembers<K>(x: (K, real), s: Items<K>, y: (K, real))
    ensures y in Insert(x, s) <==> y == x || y in s
  {
    if s == [] || x.1 >= s[0].1 {
    } else {
      InsertMembers(x, s[1..], y);
      assert s == [s[0]] + s[1..];
    }
  }

  lemma {:induction false} InsertDistinct<K(!new)>(x: (K, real), s: Items<K>)
    requires DistinctKeys(s) && forall y :: y in s ==> y.0 != x.0
    ensures DistinctKeys(Insert(x, s))
  {
    if s == [] || x.1 >= s[0].1 {
    } else {
      InsertDistinct(x, s[1..]);
      var rest := Insert(x, s[1..]);
      forall i | 0 <= i < |rest| ensures rest[i].0 != s[0].0 {
        InsertMembers(x, s[1..], rest[i]);
      }
    }
  }

  lemma {:induction false} SortMembers<K>(s: Items<K>, y: (K, real))
    ensures y in SortDescending(s) <==> y in s
  {
    if s == [] {
    } else {
      SortMembers(s[1..], y);
      InsertMembers(s[0], SortDescending(s[1..]), y);
      assert s == [s[0]] + s[1..];
    }
  }

  lemma {:induction false} SortDistinct<K(!new)>(s: Items<K>)
    requires DistinctKeys(s)
    ensures DistinctKeys(SortDescending(s))
  {
    if s == [] {
    } else {
      SortDistinct(s[1..]);
      forall y | y in SortDescending(s[1..]) ensures y.0 != s[0].0 {
        SortMembers(s[1..], y);
      }
      InsertDistinct(s[0], SortDescending(s[1..]));
    }
  }

  lemma SortLists<K(!new)>(s: Items<K>, v: map<K, real>)
    requires Lists(s, v)
    ensures Lists(SortDescending(s), v)
  {
    SortDistinct(s);
    forall y ensures y in SortDescending(s) <==> y in s {
      SortMembers(s, y);
    }
  }

  // ---------------------------------------------------------------- the largest values have the largest sum

  ghost function KeysBefore<K>(s: Items<K>, n: nat): set<K>
    requires n <= |s|
    decreases n
  {
    if n == 0 then {} else KeysBefore(s, n - 1) + {s[n - 1].0}
  }

  lemma {:induction false} KeysBeforeMembers<K(!new)>(s: Items<K>, n: nat, k: K)
    requires n <= |s|
    ensures k in KeysBefore(s, n) <==> exists i :: 0 <= i < n && s[i].0 == k
  {
    if n == 0 {
    } else {
      KeysBeforeMembers(s, n - 1, k);
    }
  }

  lemma ListedItem<K(!new)>(s: Items<K>, v: map<K, real>, i: nat)
    requires Lists(s, v) && i < |s|
    ensures s[i].0 in v && v[s[i].0] == s[i].1 && s[i].0 !in KeysBefore(s, i)
  {
    assert s[i] in s;
    KeysBeforeMembers(s, i, s[i].0);
  }

  lemma {:induction false} PrefixIsSum<K(!new)>(s: Items<K>, v: map<K, real>, n: nat)
    requires Lists(s, v) && n <= |s|
    ensures KeysBefore(s, n) <= v.Keys && |KeysBefore(s, n)| == n
    ensures Sum(v, KeysBefore(s, n)) == Prefix(s, n)
  {
    hide Lists;
    if n == 0 {
    } else {
      PrefixIsSum(s, v, n - 1);
      ListedItem(s, v, n - 1);
      SumInsert(v, KeysBefore(s, n - 1), s[n - 1].0);
    }
  }

  lemma SubsetSize<K>(a: set<K>, b: set<K>)
    requires a <= b
    ensures |a| <= |b|
  {
    assert b == a + (b - a);
  }

  lemma TopBoundNext<K(!new)>(s: Items<K>, v: map<K, real>, n: nat, chosen: set<K>)
    requires 0 < n <= |s| && Descending(s) && chosen <= v.Keys && |chosen| <= n
    requires var k := s[n - 1].0;
      k in chosen && v[k] == s[n - 1].1 && |chosen - {k}| <= n && Sum(v, chosen - {k}) <= Prefix(s, |chosen - {k}|)
    ensures Sum(v, chosen) <= Prefix(s, |chosen|)
  {
    hide Sum;
    SumRemove(v, chosen, s[n - 1].0);
    assert |chosen - {s[n - 1].0}| == |chosen| - 1;
    assert s[|chosen| - 1].1 >= s[n - 1].1;
  }

  /** No set of keys of this size has a larger sum than the first items. */
  lemma {:induction false} TopBound<K(!new)>(s: Items<K>, v: map<K, real>, n: nat, chosen: set<K>)
    requires Lists(s, v) && Descending(s) && n <= |s|
    requires chosen <= KeysBefore(s, n)
    ensures chosen <= v.Keys && |chosen| <= n && Sum(v, chosen) <= Prefix(s, |chosen|)
    decreases n
  {
    hide Lists;
    PrefixIsSum(s, v, n);
    SubsetSize(chosen, KeysBefore(s, n));
    if n == 0 {
    } else {
      var last := s[n - 1];
      ListedItem(s, v, n - 1);
      if last.0 in chosen {
        TopBound(s, v, n - 1, chosen - {last.0});
        hide *;
        TopBoundNext(s, v, n, chosen);
      } else {
        TopBound(s, v, n - 1, chosen);
      }
    }
  }

  function Least(a: nat, b: nat): (r: nat)
    ensures r <= a && r <= b && (r == a || r == b)
  {
    if a < b then a else b
  }

  /** `x` is the largest sum over min(n, |v|) keys of the table. */
  ghost predicate IsTopSum<K(!new)>(v: map<K, real>, n: nat, x: real) {
    (forall chosen: set<K> :: chosen <= v.Keys && |chosen| == Least(n, |v.Keys|) ==> Sum(v, chosen) <= x) &&
    (exists chosen: set<K> :: chosen <= v.Keys && |chosen| == Least(n, |v.Keys|) && Sum(v, chosen) == x)
  }

  lemma AllKeys<K(!new)>(s: Items<K>, v: map<K, real>)
    requires Lists(s, v)
    ensures KeysBefore(s, |s|) == v.Keys && |v.Keys| == |s|
  {
    PrefixIsSum(s, v, |s|);
    forall k | k in v ensures k in KeysBefore(s, |s|) {
      assert (k, v[k]) in s;
      var i :| 0 <= i < |s| && s[i] == (k, v[k]);
      KeysBeforeMembers(s, |s|, k);
    }
  }

  /** The sum of the n largest values is optimal. */
  lemma TopSumIsOptimal<K(!new)>(s: Items<K>, v: map<K, real>, n: nat)
    requires Lists(s, v)
    ensures IsTopSum(v, n, TopSum(s, n))
  {
    hide Lists;
    var sorted := SortDescending(s);
    SortSorts(s);
    SortLists(s, v);
    AllKeys(sorted, v);
    hide SortDescending, Insert;
    var m := Least(n, |v.Keys|);
    forall chosen: set<K> | chosen <= v.Keys && |chosen| == m ensures Sum(v, chosen) <= TopSum(s, n) {
      TopBound(sorted, v, |sorted|, chosen);
    }
    PrefixIsSum(sorted, v, m);
  }

  /** The entries of a table in some order. */
  ghost function ItemsOf<K(!new)>(v: map<K, real>, keys: set<K>): (items: Items<K>)
    requires keys <= v.Keys
    ensures DistinctKeys(items) && forall y :: y in items <==> y.0 in keys && v[y.0] == y.1
  {
    if keys == {} then [] else
    var k :| k in keys;
    ItemsOf(v, keys - {k}) + [(k, v[k])]
  }

  /** Every table has a largest sum over n keys. */
  lemma TopSumExists<K(!new)>(v: map<K, real>, n: nat)
    ensures exists x :: IsTopSum(v, n, x)
  {
    TopSumIsOptimal(ItemsOf(v, v.Keys), v, n);
  }

  lemma TopSumIsUnique<K(!new)>(v: map<K, real>, n: nat, x: real, y: real)
    requires IsTopSum(v, n, x) && IsTopSum(v, n, y)
    ensures x == y
  {
  }
}
