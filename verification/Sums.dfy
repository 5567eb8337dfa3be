/** Sums over finite maps and sizes of finite sets. */
module Sums {

  ghost function Pick<K>(s: set<K>): (k: K)
    requires s != {}
    ensures k in s
  {
    var k :| k in s;
    k
  }

  ghost function Sum<K>(m: map<K, int>): int
    decreases |m.Keys|
  {
    if m.Keys == {} then 0
    else
      var k := Pick(m.Keys);
      assert (m - {k}).Keys == m.Keys - {k};
      m[k] + Sum(m - {k})
  }

  ghost function SumReal<K>(m: map<K, real>): real
    decreases |m.Keys|
  {
    if m.Keys == {} then 0.0
    else
      var k := Pick(m.Keys);
      assert (m - {k}).Keys == m.Keys - {k};
      m[k] + SumReal(m - {k})
  }

  /** The sum does not depend on which key is taken out first. */
  lemma {:induction false} SumRemove<K>(m: map<K, int>, k: K)
    requires k in m
    ensures Sum(m) == m[k] + Sum(m - {k})
    decreases |m.Keys|
  {
    var j := Pick(m.Keys);
    if j != k {
      assert (m - {j}).Keys == m.Keys - {j} && (m - {k}).Keys == m.Keys - {k};
      SumRemove(m - {j}, k);
      SumRemove(m - {k}, j);
      assert m - {j} - {k} == m - {k} - {j};
    }
  }

  lemma {:induction false} SumRealRemove<K>(m: map<K, real>, k: K)
    requires k in m
    ensures SumReal(m) == m[k] + SumReal(m - {k})
    decreases |m.Keys|
  {
    var j := Pick(m.Keys);
    if j != k {
      assert (m - {j}).Keys == m.Keys - {j} && (m - {k}).Keys == m.Keys - {k};
      SumRealRemove(m - {j}, k);
      SumRealRemove(m - {k}, j);
      assert m - {j} - {k} == m - {k} - {j};
    }
  }

  /** Changing or adding one value moves the sum by exactly that change. */
  lemma SumUpdate<K>(m: map<K, int>, k: K, v: int)
    ensures Sum(m[k := v]) == Sum(m) + v - (if k in m then m[k] else 0)
  {
    SumRemove(m[k := v], k);
    assert m[k := v] - {k} == m - {k};
    if k in m {
      SumRemove(m, k);
    } else {
      assert m - {k} == m;
    }
  }

  lemma SumRealUpdate<K>(m: map<K, real>, k: K, v: real)
    ensures SumReal(m[k := v]) == SumReal(m) + v - (if k in m then m[k] else 0.0)
  {
    SumRealRemove(m[k := v], k);
    assert m[k := v] - {k} == m - {k};
    if k in m {
      SumRealRemove(m, k);
    } else {
      assert m - {k} == m;
    }
  }

  /** The product `n * x`, one addition at a time. */
  ghost function Times(n: nat, x: nat): nat {
    if n == 0 then 0 else Times(n - 1, x) + x
  }

  lemma {:induction false} TimesIsProduct(n: nat, x: nat)
    ensures Times(n, x) == n * x
  {
    if n > 0 {
      TimesIsProduct(n - 1, x);
      OneMore(n - 1, x);
    }
  }

  lemma {:induction false} SumAtMostTimes<K>(m: map<K, int>, busy: set<K>, most: nat)
    requires forall k :: k in m ==> m[k] <= if k in busy then most else 0
    ensures Sum(m) <= Times(|busy|, most)
    decreases |m.Keys|
  {
    if m.Keys != {} {
      var k := Pick(m.Keys);
      var rest := m - {k};
      assert rest.Keys == m.Keys - {k};
      SumAtMostTimes(rest, busy - {k}, most);
      if k !in busy { assert busy - {k} == busy; }
    }
  }

  /** At most `most` for each busy key and nothing for the others. */
  lemma SumAtMost<K>(m: map<K, int>, busy: set<K>, most: nat)
    requires forall k :: k in m ==> m[k] <= if k in busy then most else 0
    ensures Sum(m) <= |busy| * most
  {
    SumAtMostTimes(m, busy, most);
    TimesIsProduct(|busy|, most);
  }

  lemma {:induction false} SumNatural<K>(m: map<K, int>)
    requires forall k :: k in m ==> m[k] >= 0
    ensures Sum(m) >= 0
    decreases |m.Keys|
  {
    if m.Keys != {} {
      var k := Pick(m.Keys);
      assert (m - {k}).Keys == m.Keys - {k};
      SumNatural(m - {k});
    }
  }

  lemma OneMore(n: int, x: int)
    ensures (n + 1) * x == n * x + x
  {
  }

  lemma SubsetSmaller<T>(x: set<T>, y: set<T>)
    requires x < y
    ensures |x| < |y|
  {
    var e :| e in y && e !in x;
    assert x <= y - {e};
    SubsetNotLarger(x, y - {e});
  }

  lemma {:induction false} SubsetNotLarger<T>(x: set<T>, y: set<T>)
    requires x <= y
    ensures |x| <= |y|
    decreases x
  {
    if x != {} {
      var e :| e in x;
      SubsetNotLarger(x - {e}, y - {e});
    }
  }

  function Numbers(n: nat): (r: set<nat>)
    ensures forall t: nat :: t in r <==> t < n
    ensures |r| == n
  {
    if n == 0 then {} else Numbers(n - 1) + {n - 1}
  }
}
