/** Finite sums over maps, used to state conservation laws. */
module Sums {

  lemma CardMinus<K, V>(m: map<K, V>, k: K)
    requires k in m
    ensures |m - {k}| == |m| - 1
  {
    assert (m - {k}).Keys == m.Keys - {k};
    assert |(m - {k}).Keys| == |m.Keys| - 1;
  }

  ghost function Sum<K(!new)>(m: map<K, int>): int
    decreases |m|
  {
    if m.Keys == {} then 0
    else
      var k :| k in m.Keys;
      assert |m - {k}| < |m| by { CardMinus(m, k); }
      m[k] + Sum(m - {k})
  }

  /** The sum does not depend on the order in which keys are taken. */
  lemma {:induction false} SumWithout<K(!new)>(m: map<K, int>, k: K)
    requires k in m
    ensures Sum(m) == m[k] + Sum(m - {k})
    decreases |m|
  {
    var c :| c in m.Keys && Sum(m) == m[c] + Sum(m - {c});
    if c != k {
      CardMinus(m, c);
      CardMinus(m, k);
      var rest := m - {c} - {k};
      assert rest == m - {k} - {c};
      assert Sum(m - {c}) == m[k] + Sum(rest) by { SumWithout(m - {c}, k); }
      assert Sum(m - {k}) == m[c] + Sum(rest) by { SumWithout(m - {k}, c); }
    }
  }

  lemma SumUpdate<K(!new)>(m: map<K, int>, k: K, v: int)
    ensures Sum(m[k := v]) == Sum(m) - (if k in m then m[k] else 0) + v
  {
    SumWithout(m[k := v], k);
    if k in m {
      SumWithout(m, k);
      assert m[k := v] - {k} == m - {k};
    } else {
      assert m[k := v] - {k} == m;
    }
  }

  /** Keys whose value is zero may be dropped. */
  lemma {:induction false} SumDropZeros<K(!new)>(m: map<K, int>, gone: set<K>)
    requires forall k | k in gone && k in m :: m[k] == 0
    ensures Sum(m - gone) == Sum(m)
    decreases |m|
  {
    if k :| k in m.Keys && k in gone {
      CardMinus(m, k);
      SumDropZeros(m - {k}, gone);
      SumWithout(m, k);
      assert m - {k} - gone == m - gone;
    } else {
      assert m - gone == m;
    }
  }

  /** Sums add pointwise. */
  lemma {:induction false} SumPlus<K(!new)>(a: map<K, int>, b: map<K, int>, c: map<K, int>)
    requires a.Keys == b.Keys == c.Keys
    requires forall k | k in c :: c[k] == a[k] + b[k]
    ensures Sum(c) == Sum(a) + Sum(b)
    decreases |a|
  {
    if a.Keys == {} {
      assert a == map[] && b == map[] && c == map[];
    } else {
      var k :| k in a.Keys;
      CardMinus(a, k);
      SumPlus(a - {k}, b - {k}, c - {k});
      SumWithout(a, k);
      SumWithout(b, k);
      SumWithout(c, k);
    }
  }

  lemma SumZero<K(!new)>(m: map<K, int>)
    requires forall k | k in m :: m[k] == 0
    ensures Sum(m) == 0
  {
    SumDropZeros(m, m.Keys);
    assert m - m.Keys == map[];
  }

  /** A sum of naturals vanishes only if every term does. */
  lemma {:induction false} SumOfNaturals<K(!new)>(m: map<K, int>)
    requires forall k | k in m :: m[k] >= 0
    ensures Sum(m) >= 0
    ensures Sum(m) == 0 <==> forall k | k in m :: m[k] == 0
    decreases |m|
  {
    if m.Keys == {} {
    } else {
      var k :| k in m.Keys;
      CardMinus(m, k);
      SumWithout(m, k);
      SumOfNaturals(m - {k});
      assert forall x | x in m :: x == k || x in m - {k};
    }
  }

  /** The sum of `m` along a sequence of its keys. */
  ghost function SumAlong<K(!new)>(m: map<K, int>, ks: seq<K>): int
    requires forall k | k in ks :: k in m
  {
    if ks == [] then 0 else SumAlong(m, ks[..|ks| - 1]) + m[ks[|ks| - 1]]
  }

  /** Walking over some keys, each once, splits the sum into what was met and what was not. */
  lemma {:induction false} SumAlongSplits<K(!new)>(m: map<K, int>, ks: seq<K>)
    requires forall k | k in ks :: k in m
    requires forall i | 0 <= i < |ks| :: ks[i] !in ks[..i]
    ensures Sum(m) == SumAlong(m, ks) + Sum(map k | k in m && k !in ks :: m[k])
    decreases |ks|
  {
    if ks == [] {
      assert (map k | k in m && k !in ks :: m[k]) == m;
    } else {
      var front, last := ks[..|ks| - 1], ks[|ks| - 1];
      assert forall i | 0 <= i < |front| :: front[..i] == ks[..i];
      SumAlongSplits(m, front);
      var rest := map k | k in m && k !in front :: m[k];
      assert last in ks;
      SumWithout(rest, last);
      assert rest - {last} == map k | k in m && k !in ks :: m[k];
    }
  }
}
