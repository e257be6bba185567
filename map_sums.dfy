/** Order-independent sums over the values of a map. A Rust `HashMap` is
    iterated in an unspecified order; every fold the programs run over one is
    stated against `Total`, whose value does not depend on that order
    (`TotalRemove`). */
module MapSums {

  /** The sum of the values of `m`. */
  ghost function Total<K>(m: map<K, int>): int
    decreases |m|
  {
    if m == map[] then 0
    else
      var k :| k in m;
      m[k] + Total(m - {k})
  }

  lemma RemoveSize<K, V>(m: map<K, V>, k: K)
    requires k in m
    ensures |m - {k}| == |m| - 1
  {
    assert (m - {k}).Keys == m.Keys - {k};
  }

  /** Removing any key, not only the one `Total` happens to pick, splits the sum. */
  lemma {:induction false} TotalRemove<K>(m: map<K, int>, k: K)
    requires k in m
    ensures Total(m) == m[k] + Total(m - {k})
    decreases |m|
  {
    var j :| j in m && Total(m) == m[j] + Total(m - {j});
    if j != k {
      RemoveSize(m, j);
      RemoveSize(m, k);
      TotalRemove(m - {j}, k);
      TotalRemove(m - {k}, j);
      assert m - {j} - {k} == m - {k} - {j};
    }
  }

  /** Adding a new key adds its value to the sum. */
  lemma TotalInsert<K>(m: map<K, int>, k: K, v: int)
    requires k !in m
    ensures Total(m[k := v]) == Total(m) + v
  {
    TotalRemove(m[k := v], k);
    assert m[k := v] - {k} == m;
  }

  /** Non-negative values have a non-negative sum. */
  lemma {:induction false} TotalNonNegative<K>(m: map<K, int>)
    requires forall k | k in m :: m[k] >= 0
    ensures Total(m) >= 0
    decreases |m|
  {
    if m != map[] {
      var k :| k in m;
      TotalRemove(m, k);
      RemoveSize(m, k);
      TotalNonNegative(m - {k});
    }
  }

  /** Every value within [lo, hi] puts the sum within [lo * |m|, hi * |m|]. */
  lemma {:induction false} TotalBounds<K>(m: map<K, int>, lo: int, hi: int)
    requires forall k | k in m :: lo <= m[k] <= hi
    ensures lo * |m| <= Total(m) <= hi * |m|
    decreases |m|
  {
    if m != map[] {
      var k :| k in m;
      var rest := m - {k};
      TotalRemove(m, k);
      RemoveSize(m, k);
      TotalBounds(rest, lo, hi);
      ScaleStep(lo, |rest|);
      ScaleStep(hi, |rest|);
    }
  }

  lemma ScaleStep(c: int, n: nat)
    ensures c * (n + 1) == c * n + c
  {
  }

  /** The sum of two maps over the same keys, added pointwise. */
  lemma {:induction false} TotalAdd<K>(f: map<K, int>, g: map<K, int>, h: map<K, int>)
    requires f.Keys == g.Keys == h.Keys
    requires forall k | k in h :: h[k] == f[k] + g[k]
    ensures Total(h) == Total(f) + Total(g)
    decreases |h|
  {
    if h != map[] {
      var k :| k in h;
      TotalRemove(f, k);
      TotalRemove(g, k);
      TotalRemove(h, k);
      RemoveSize(h, k);
      TotalAdd(f - {k}, g - {k}, h - {k});
    }
  }

  /** Two maps that agree everywhere but at `k` differ in sum by the difference at `k`. */
  lemma TotalUpdate<K>(m: map<K, int>, k: K, v: int)
    requires k in m
    ensures Total(m[k := v]) == Total(m) - m[k] + v
  {
    TotalRemove(m, k);
    TotalRemove(m[k := v], k);
    assert m[k := v] - {k} == m - {k};
  }

  /** Adds up the values of `m`, visiting its keys in whatever order they come. */
  method SumValues<K(==)>(m: map<K, int>) returns (s: int)
    ensures s == Total(m)
  {
    s := 0;
    var rest := m;
    while rest != map[]
      invariant s + Total(rest) == Total(m)
      decreases |rest|
    {
      var k :| k in rest;
      TotalRemove(rest, k);
      RemoveSize(rest, k);
      s := s + rest[k];
      rest := rest - {k};
    }
  }

  /** The values of `m`, with repetitions. */
  ghost function ValueBag<K>(m: map<K, nat>): multiset<nat>
    decreases |m|
  {
    if m == map[] then multiset{}
    else
      var k :| k in m;
      multiset{m[k]} + ValueBag(m - {k})
  }

  /** Removing any key removes one copy of its value from the bag. */
  lemma {:induction false} ValueBagRemove<K>(m: map<K, nat>, k: K)
    requires k in m
    ensures ValueBag(m) == multiset{m[k]} + ValueBag(m - {k})
    decreases |m|, 1
  {
    var j :| j in m && ValueBag(m) == multiset{m[j]} + ValueBag(m - {j});
    if j != k {
      ValueBagSwap(m, j, k);
    }
  }

  /** Taking out `j` first or `k` first leaves the same bag. */
  lemma {:induction false} ValueBagSwap<K>(m: map<K, nat>, j: K, k: K)
    requires j in m && k in m && j != k
    ensures multiset{m[j]} + ValueBag(m - {j}) == multiset{m[k]} + ValueBag(m - {k})
    decreases |m|, 0
  {
    var withoutJ := m - {j};
    var withoutK := m - {k};
    RemoveSize(m, j);
    RemoveSize(m, k);
    var both := withoutJ - {k};
    assert withoutK - {j} == both;
    var vj := m[j];
    var vk := m[k];
    assert withoutJ[k] == vk && withoutK[j] == vj;
    ValueBagRemove(withoutJ, k);
    ValueBagRemove(withoutK, j);
    var rest := ValueBag(both);
    assert ValueBag(withoutJ) == multiset{vk} + rest;
    assert ValueBag(withoutK) == multiset{vj} + rest;
    assert multiset{vj} + (multiset{vk} + rest) == multiset{vk} + (multiset{vj} + rest);
  }

  /** `m.values().collect()`: the values of `m` in whatever order the keys come. */
  method CollectValues<K(==)>(m: map<K, nat>) returns (vals: seq<nat>)
    ensures multiset(vals) == ValueBag(m)
    ensures |vals| == |m|
  {
    vals := [];
    var rest := m;
    while rest != map[]
      invariant multiset(vals) + ValueBag(rest) == ValueBag(m)
      invariant |vals| + |rest| == |m|
      decreases |rest|
    {
      var k :| k in rest;
      ValueBagRemove(rest, k);
      RemoveSize(rest, k);
      vals := vals + [rest[k]];
      rest := rest - {k};
    }
  }
}
