/** Small data types shared by the other modules. */
module Prelude {

  datatype Option<+T> = None | Some(value: T)

  function Min(a: int, b: int): (m: int)
    ensures m <= a && m <= b && (m == a || m == b)
  {
    if a <= b then a else b
  }

  function Max(a: int, b: int): (m: int)
    ensures a <= m && b <= m && (m == a || m == b)
  {
    if a <= b then b else a
  }

  /** The / operator of C++ on int: the quotient is truncated toward zero. */
  function TruncDiv(a: int, b: int): (q: int)
    requires b > 0
    ensures a >= 0 ==> q * b <= a < (q + 1) * b
    ensures a <= 0 ==> (q - 1) * b < a <= q * b
  {
    if a >= 0 then a / b else -((-a) / b)
  }

  lemma SomeKey<V>(m: map<int, V>)
    requires m != map[]
    ensures exists k :: k in m.Keys
  {
    if forall k :: k !in m.Keys {
    }
  }

  lemma Regroup<T>(a: seq<T>, b: seq<T>, c: seq<T>)
    ensures a + (b + c) == a + b + c
  {
  }

  /** The middle of a concatenation. */
  lemma Middle<T>(a: seq<T>, b: seq<T>, c: seq<T>)
    ensures (a + b + c)[|a|..|a| + |b|] == b
    ensures (a + b + c)[|a| + |b|..] == c
    ensures forall k :: 0 <= k < |b| ==> (a + b + c)[|a| + k] == b[k]
  {
  }

  /** P holds of every prefix of a run. */
  ghost predicate Always<T(!new)>(P: seq<T> -> bool, xs: seq<T>) {
    forall k :: 0 <= k <= |xs| ==> P(xs[..k])
  }

  /** Q holds of every element of a run and what comes before it. */
  ghost predicate EachStep<T(!new)>(Q: (seq<T>, T) -> bool, xs: seq<T>) {
    forall k :: 0 <= k < |xs| ==> Q(xs[..k], xs[k])
  }

  lemma AlwaysSnoc<T(!new)>(P: seq<T> -> bool, before: seq<T>, x: T)
    ensures Always(P, before + [x]) <==> Always(P, before) && P(before + [x])
  {
    var xs := before + [x];
    forall k | 0 <= k <= |before| ensures xs[..k] == before[..k] {
    }
    assert xs[..|xs|] == xs;
    if Always(P, xs) {
      assert P(xs[..|xs|]);
      forall k | 0 <= k <= |before| ensures P(before[..k]) {
        assert P(xs[..k]);
      }
    }
  }

  lemma EachStepSnoc<T(!new)>(Q: (seq<T>, T) -> bool, before: seq<T>, x: T)
    ensures EachStep(Q, before + [x]) <==> EachStep(Q, before) && Q(before, x)
  {
    var xs := before + [x];
    forall k | 0 <= k < |before| ensures xs[..k] == before[..k] && xs[k] == before[k] {
    }
    assert xs[..|before|] == before && xs[|before|] == x;
    if EachStep(Q, xs) {
      assert Q(xs[..|before|], xs[|before|]);
      forall k | 0 <= k < |before| ensures Q(before[..k], before[k]) {
        assert Q(xs[..k], xs[k]);
      }
    }
  }

  /** A property of all prefixes that a step keeps exactly if it is a good one holds throughout
      exactly if all steps are good. */
  lemma {:induction false} AlwaysIffEachStep<T(!new)>(P: seq<T> -> bool, Q: (seq<T>, T) -> bool, xs: seq<T>)
    requires P([])
    requires forall before, x :: P(before) ==> (P(before + [x]) <==> Q(before, x))
    ensures Always(P, xs) <==> EachStep(Q, xs)
    decreases |xs|
  {
    if xs == [] {
      assert xs[..0] == [];
    } else {
      var before, x := xs[..|xs| - 1], xs[|xs| - 1];
      assert before + [x] == xs;
      AlwaysIffEachStep(P, Q, before);
      AlwaysSnoc(P, before, x);
      EachStepSnoc(Q, before, x);
      if Always(P, before) {
        assert before[..|before|] == before;
        assert P(before[..|before|]);
      }
    }
  }

  /** Where the first element of one list stands in a permutation of it. */
  lemma FindIn<T>(xs: seq<T>, ys: seq<T>) returns (k: nat)
    requires xs != [] && multiset(xs) == multiset(ys)
    ensures k < |ys| && ys[k] == xs[0]
    ensures multiset(xs[1..]) == multiset(ys[..k] + ys[k + 1..])
  {
    assert xs[0] in multiset(ys);
    k :| 0 <= k < |ys| && ys[k] == xs[0];
    var one := multiset{xs[0]};
    assert ys == ys[..k] + ([ys[k]] + ys[k + 1..]);
    assert xs == [xs[0]] + xs[1..];
    assert multiset(xs[1..]) == multiset(xs) - one;
    assert multiset(ys[..k] + ys[k + 1..]) == multiset(ys) - one;
  }

  lemma SomeElement(s: set<int>)
    requires s != {}
    ensures exists x :: x in s
  {
    if forall x :: x !in s {
    }
  }

  lemma SameMap<V>(m: map<int, V>, n: map<int, V>)
    requires forall k :: (k in m <==> k in n) && (k in m ==> m[k] == n[k])
    ensures m == n
  {
    forall k ensures k in m.Keys <==> k in n.Keys {
    }
    assert m.Keys == n.Keys;
    forall k | k in m ensures m[k] == n[k] {
    }
  }

  /** The sum of f over the values of a table. */
  ghost function MapSum<V>(m: map<int, V>, f: V -> int): int
    decreases |m|
  {
    if m == map[] then 0
    else
      SomeKey(m);
      var k :| k in m.Keys;
      f(m[k]) + MapSum(m - {k}, f)
  }

  /** The sum does not depend on the order of summation. */
  lemma {:induction false} MapSumSplit<V>(m: map<int, V>, f: V -> int, k: int)
    requires k in m
    ensures MapSum(m, f) == f(m[k]) + MapSum(m - {k}, f)
    decreases |m|
  {
    SomeKey(m);
    var j :| j in m.Keys && MapSum(m, f) == f(m[j]) + MapSum(m - {j}, f);
    if j != k {
      MapSumSplit(m - {j}, f, k);
      MapSumSplit(m - {k}, f, j);
      assert m - {j} - {k} == m - {k} - {j};
    }
  }

  lemma MapSumUpdate<V>(m: map<int, V>, f: V -> int, k: int, v: V)
    ensures MapSum(m[k := v], f) == MapSum(m - {k}, f) + f(v)
    ensures k in m ==> MapSum(m[k := v], f) == MapSum(m, f) - f(m[k]) + f(v)
  {
    MapSumSplit(m[k := v], f, k);
    assert m[k := v] - {k} == m - {k};
    if k in m { MapSumSplit(m, f, k); }
    else { assert m - {k} == m; }
  }
}
