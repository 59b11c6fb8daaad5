/** Sums over the values of a finite map, independent of the order in which entries are visited. */
module MapSums {

  ghost function Sum<K, V>(m: map<K, V>, w: V -> int): int
  {
    if m == map[] then 0
    else
      var k :| k in m;
      w(m[k]) + Sum(m - {k}, w)
  }

  /** Any key may be split off first. */
  lemma {:induction false} SumSplit<K, V>(m: map<K, V>, w: V -> int, k: K)
    requires k in m
    ensures Sum(m, w) == w(m[k]) + Sum(m - {k}, w)
    decreases |m|
  {
    var j :| j in m && Sum(m, w) == w(m[j]) + Sum(m - {j}, w);
    if j != k {
      SumSplit(m - {j}, w, k);
      SumSplit(m - {k}, w, j);
      assert m - {j} - {k} == m - {k} - {j};
    }
  }

  lemma SumUpdate<K, V>(m: map<K, V>, w: V -> int, k: K, v: V)
    ensures Sum(m[k := v], w) == Sum(m - {k}, w) + w(v)
    ensures k in m ==> Sum(m[k := v], w) == Sum(m, w) - w(m[k]) + w(v)
    ensures k !in m ==> Sum(m[k := v], w) == Sum(m, w) + w(v)
  {
    SumSplit(m[k := v], w, k);
    assert m[k := v] - {k} == m - {k};
    if k in m {
      SumSplit(m, w, k);
    } else {
      assert m - {k} == m;
    }
  }

  lemma {:induction false} SumDrop<K, V>(m: map<K, V>, w: V -> int, k: K)
    ensures k in m ==> Sum(m - {k}, w) == Sum(m, w) - w(m[k])
    ensures k !in m ==> Sum(m - {k}, w) == Sum(m, w)
  {
    if k in m {
      SumSplit(m, w, k);
    } else {
      assert m - {k} == m;
    }
  }

  lemma {:induction false} SumNonNegative<K, V>(m: map<K, V>, w: V -> int)
    requires forall k :: k in m ==> w(m[k]) >= 0
    ensures Sum(m, w) >= 0
    ensures forall k :: k in m ==> w(m[k]) <= Sum(m, w)
    decreases |m|
  {
    forall k | k in m
      ensures 0 <= w(m[k]) <= Sum(m, w)
    {
      SumSplit(m, w, k);
      SumNonNegative(m - {k}, w);
    }
    if m != map[] {
      var k :| k in m;
    }
  }

  lemma {:induction false} SumZero<K, V>(m: map<K, V>, w: V -> int)
    requires forall k :: k in m ==> w(m[k]) == 0
    ensures Sum(m, w) == 0
    decreases |m|
  {
    if m != map[] {
      var k :| k in m;
      SumSplit(m, w, k);
      SumZero(m - {k}, w);
    }
  }

  lemma SomeKey<K, V>(m: map<K, V>) returns (k: K)
    requires m != map[]
    ensures k in m
  {
    k :| k in m;
  }

  /** u is the disjoint union of m and n. */
  ghost predicate Splits<K(!new), V>(u: map<K, V>, m: map<K, V>, n: map<K, V>) {
    && (forall k :: k in u <==> k in m || k in n)
    && (forall k :: k in m ==> k !in n && u[k] == m[k])
    && (forall k :: k in n ==> u[k] == n[k])
  }

  lemma {:induction false} SumUnion<K(!new), V>(u: map<K, V>, m: map<K, V>, n: map<K, V>, w: V -> int)
    requires Splits(u, m, n)
    ensures Sum(u, w) == Sum(m, w) + Sum(n, w)
    decreases |n|
  {
    if n == map[] {
      assert u == m;
    } else {
      var k := SomeKey(n);
      SumSplit(u, w, k);
      SumSplit(n, w, k);
      SumUnion(u - {k}, m, n - {k}, w);
    }
  }

  lemma SizeUnion<K, V>(m: map<K, V>, n: map<K, V>)
    requires m.Keys !! n.Keys
    ensures |m + n| == |m| + |n|
  {
  }
}
