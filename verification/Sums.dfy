/** Sums of real-valued tables over sets of keys. */
module Sums {
  import opened Payloads

  ghost function Sum<K>(v: map<K, real>, s: set<K>): real
    requires s <= v.Keys
    decreases s
  {
    if s == {} then 0.0 else
    var k := Pick(s);
    v[k] + Sum(v, s - {k})
  }

  lemma {:induction false} SumRemove<K>(v: map<K, real>, s: set<K>, k: K)
    requires k in s && s <= v.Keys
    ensures Sum(v, s) == v[k] + Sum(v, s - {k})
    decreases s
  {
    var p := Pick(s);
    if p == k {
    } else {
      SumRemove(v, s - {p}, k);
      SumRemove(v, s - {k}, p);
      assert s - {p} - {k} == s - {k} - {p};
    }
  }

  lemma SumInsert<K>(v: map<K, real>, s: set<K>, k: K)
    requires k !in s && s <= v.Keys && k in v
    ensures Sum(v, s + {k}) == Sum(v, s) + v[k]
  {
    SumRemove(v, s + {k}, k);
    assert s + {k} - {k} == s;
  }

  /** A measure of a total is the sum of that measure over the rows. */
  lemma {:induction false} TotalIsSum<K>(t: map<K, Payload>, s: set<K>, m: Measure, v: map<K, real>)
    requires s <= t.Keys && s <= v.Keys
    requires forall k :: k in s ==> v[k] == Get(t[k], m)
    ensures Get(Total(t, s), m) == Sum(v, s)
    decreases s
  {
    if s == {} {
    } else {
      TotalIsSum(t, s - {Pick(s)}, m, v);
    }
  }
}
