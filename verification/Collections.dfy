/** Facts about sets and sequences that the rest relies on. */
module Collections {

  predicate NoDuplicates<T(==)>(s: seq<T>) {
    forall i, j :: 0 <= i < j < |s| ==> s[i] != s[j]
  }

  lemma AppendDistinct<T>(s: seq<T>, x: T)
    requires NoDuplicates(s) && x !in s
    ensures NoDuplicates(s + [x])
  {
  }

  lemma TailDistinct<T>(s: seq<T>)
    requires NoDuplicates(s) && s != []
    ensures NoDuplicates(s[1..]) && s[0] !in s[1..] && forall y :: y in s <==> y == s[0] || y in s[1..]
  {
  }

  lemma {:induction false} DistinctSize<T>(s: seq<T>)
    requires NoDuplicates(s)
    ensures |set x | x in s| == |s|
  {
    if s != [] {
      TailDistinct(s);
      DistinctSize(s[1..]);
      assert (set x | x in s) == (set x | x in s[1..]) + {s[0]};
    }
  }

  lemma {:induction false} OnceEach<T>(s: seq<T>, x: T)
    requires NoDuplicates(s)
    ensures multiset(s)[x] == if x in s then 1 else 0
    decreases |s|
  {
    if s != [] {
      var rest := s[..|s| - 1];
      OnceEach(rest, x);
      assert s == rest + [s[|s| - 1]];
    }
  }

  lemma Inhabited(s: set<int>)
    requires s != {}
    ensures exists x :: x in s
  {
    if forall x :: x !in s {
      Vacant(s);
    }
  }

  lemma Vacant(s: set<int>)
    requires forall x :: x !in s
    ensures s == {}
  {
    var e: set<int> := {};
    assert forall x :: x in s <==> x in e;
  }

  lemma SubsetCount(a: set<int>, b: set<int>)
    requires a <= b
    ensures |a| <= |b|
  {
    assert b == a + (b - a);
  }

  lemma {:induction false} Listing<T(!new)>(s: set<T>) returns (q: seq<T>)
    ensures NoDuplicates(q) && forall x :: x in q <==> x in s
  {
    q := [];
    if s != {} {
      var x :| x in s;
      q := Listing(s - {x});
      AppendDistinct(q, x);
      q := q + [x];
    }
  }

  lemma {:induction false} Least(s: set<int>) returns (least: int)
    requires s != {}
    ensures least in s && forall x :: x in s ==> least <= x
    decreases |s|
  {
    Inhabited(s);
    var x :| x in s;
    var rest := s - {x};
    assert forall y :: y in s ==> y == x || y in rest;
    if rest == {} {
      least := x;
    } else {
      var other := Least(rest);
      least := if other < x then other else x;
    }
  }

  function UpTo(n: nat): (r: set<int>)
    ensures |r| == n && forall i :: i in r <==> 0 <= i < n
  {
    if n == 0 then {} else UpTo(n - 1) + {n - 1}
  }

  lemma AppendBag<T>(q: seq<T>, x: T)
    ensures multiset(q + [x]) == multiset(q) + multiset{x}
  {
  }

  lemma AppendCount<T>(q: seq<T>, x: T, e: T)
    ensures multiset(q + [x])[e] == multiset(q)[e] + if e == x then 1 else 0
  {
    AppendBag(q, x);
  }

  lemma HeadCount<T>(q: seq<T>, e: T)
    requires q != []
    ensures multiset(q)[e] == multiset(q[1..])[e] + if e == q[0] then 1 else 0
  {
    assert q == [q[0]] + q[1..];
    assert multiset(q) == multiset{q[0]} + multiset(q[1..]);
  }

  // ----- Sums over a map -----

  /** The values of a map, added up in some order. */
  ghost function Total<K(!new), V>(m: map<K, V>, zero: V, add: (V, V) -> V): V {
    if m == map[] then zero else var k :| k in m; add(m[k], Total(m - {k}, zero, add))
  }

  ghost predicate OrderFree<V(!new)>(add: (V, V) -> V) {
    forall x, y, z :: add(x, add(y, z)) == add(y, add(x, z))
  }

  /** The order does not matter: any value may come first. */
  lemma {:induction false} TotalAt<K(!new), V(!new)>(m: map<K, V>, zero: V, add: (V, V) -> V, k: K)
    requires k in m && OrderFree(add)
    ensures Total(m, zero, add) == add(m[k], Total(m - {k}, zero, add))
    decreases |m|
  {
    var c :| c in m && Total(m, zero, add) == add(m[c], Total(m - {c}, zero, add));
    if c != k {
      var rest := m - {c} - {k};
      assert rest == m - {k} - {c};
      assert add(m[c], add(m[k], Total(rest, zero, add))) == add(m[k], add(m[c], Total(rest, zero, add)));
      hide OrderFree;
      TotalAt(m - {c}, zero, add, k);
      TotalAt(m - {k}, zero, add, c);
    }
  }

  function Plus(x: int, y: int): int { x + y }

  function Union(x: multiset<int>, y: multiset<int>): multiset<int> { x + y }

  lemma SumsOrderFree()
    ensures OrderFree(Plus) && OrderFree(Union)
  {
    forall x: multiset<int>, y: multiset<int>, z: multiset<int> ensures Union(x, Union(y, z)) == Union(y, Union(x, z)) {
      assert x + (y + z) == y + (x + z);
    }
  }

  ghost function Sum<K(!new)>(m: map<K, int>): int { Total(m, 0, Plus) }

  lemma SumAt<K(!new)>(m: map<K, int>, k: K)
    requires k in m
    ensures Sum(m) == m[k] + Sum(m - {k})
  {
    SumsOrderFree();
    TotalAt(m, 0, Plus, k);
  }

  ghost function Gathered<K(!new)>(m: map<K, multiset<int>>): multiset<int> { Total(m, multiset{}, Union) }

  lemma GatheredAt<K(!new)>(m: map<K, multiset<int>>, k: K)
    requires k in m
    ensures Gathered(m) == m[k] + Gathered(m - {k})
  {
    SumsOrderFree();
    TotalAt(m, multiset{}, Union, k);
  }

  /** One value changes. */
  lemma GatheredUpdate<K(!new)>(m: map<K, multiset<int>>, k: K, v: multiset<int>)
    requires k in m
    ensures Gathered(m[k := v]) + m[k] == Gathered(m) + v
  {
    GatheredAt(m, k);
    GatheredAt(m[k := v], k);
    assert m[k := v] - {k} == m - {k};
  }

  lemma {:induction false} GatheredNothing<K(!new)>(m: map<K, multiset<int>>)
    requires forall k :: k in m ==> m[k] == multiset{}
    ensures Gathered(m) == multiset{}
    decreases |m|
  {
    if m != map[] {
      var k :| k in m;
      GatheredAt(m, k);
      GatheredNothing(m - {k});
    }
  }

  /** No value rises, and one falls. */
  lemma {:induction false} SumFalls<K(!new)>(m: map<K, int>, m': map<K, int>, k: K, d: nat)
    requires m.Keys == m'.Keys && k in m && m'[k] + d <= m[k]
    requires forall e :: e in m ==> m'[e] <= m[e]
    ensures Sum(m') + d <= Sum(m)
  {
    SumAt(m, k);
    SumAt(m', k);
    SumRises(m' - {k}, m - {k});
  }

  lemma {:induction false} SumRises<K(!new)>(m: map<K, int>, m': map<K, int>)
    requires m.Keys == m'.Keys && forall e :: e in m ==> m[e] <= m'[e]
    ensures Sum(m) <= Sum(m')
    decreases |m|
  {
    if m == map[] {
      assert m' == map[];
    } else {
      var k :| k in m;
      SumAt(m, k);
      SumAt(m', k);
      SumRises(m - {k}, m' - {k});
    }
  }

  lemma {:induction false} SumNatural<K(!new)>(m: map<K, int>)
    requires forall e :: e in m ==> m[e] >= 0
    ensures Sum(m) >= 0
    decreases |m|
  {
    if m != map[] {
      var k :| k in m;
      SumAt(m, k);
      SumNatural(m - {k});
    }
  }
}
