/** Sums over the values of a map, and why opposite entries drop out of them. */
module MapSums {
  ghost function Total<K>(m: map<K, int>): int
    decreases |m|
  {
    if m == map[] then 0
    else
      var k :| k in m;
      m[k] + Total(m - {k})
  }

  /** The order in which keys are summed does not matter. */
  lemma {:induction false} TotalWithout<K>(m: map<K, int>, k: K)
    requires k in m
    ensures Total(m) == m[k] + Total(m - {k})
    decreases |m|
  {
    var picked :| picked in m && Total(m) == m[picked] + Total(m - {picked});
    if picked != k {
      TotalWithout(m - {picked}, k);
      TotalWithout(m - {k}, picked);
      assert m - {picked} - {k} == m - {k} - {picked};
    }
  }

  lemma OppositePairSumsToNothing<K>(m: map<K, int>, k: K, l: K)
    requires k in m && l in m && k != l && m[k] == -m[l]
    ensures Total(m) == Total(m - {k, l})
  {
    TotalWithout(m, k);
    TotalWithout(m - {k}, l);
    assert m - {k} - {l} == m - {k, l};
  }

  /** Every key of `pairs` cancels the key it is paired with, and no key is used twice. */
  ghost predicate CancellingPairs<K(!new)>(m: map<K, int>, pairs: map<K, K>) {
    && (forall k :: k in pairs ==> k in m && pairs[k] in m && pairs[k] !in pairs && m[k] == -m[pairs[k]])
    && (forall k, l :: k in pairs && l in pairs && pairs[k] == pairs[l] ==> k == l)
  }

  ghost function Paired<K(!new)>(pairs: map<K, K>): set<K> {
    pairs.Keys + (set k | k in pairs :: pairs[k])
  }

  lemma WithoutOnePair<K(!new)>(m: map<K, int>, pairs: map<K, K>, k: K)
    requires CancellingPairs(m, pairs) && k in pairs
    ensures CancellingPairs(m - {k, pairs[k]}, pairs - {k})
    ensures m - {k, pairs[k]} - Paired(pairs - {k}) == m - Paired(pairs)
  {
    var rest := pairs - {k};
    assert forall l :: l in rest ==> l in pairs && rest[l] == pairs[l];
    assert Paired(pairs) == Paired(rest) + {k, pairs[k]} by {
      forall x | x in Paired(pairs) ensures x in Paired(rest) + {k, pairs[k]} {
        if x !in pairs {
          var l :| l in pairs && pairs[l] == x;
          assert l == k || l in rest;
        }
      }
    }
  }

  /** Leaving cancelling pairs out of a sum leaves the sum as it was. */
  lemma {:induction false} CancellingPairsSumToNothing<K(!new)>(m: map<K, int>, pairs: map<K, K>)
    requires CancellingPairs(m, pairs)
    ensures Total(m) == Total(m - Paired(pairs))
    decreases |pairs|
  {
    if pairs == map[] {
      assert m - Paired(pairs) == m;
    } else {
      var k :| k in pairs;
      OppositePairSumsToNothing(m, k, pairs[k]);
      WithoutOnePair(m, pairs, k);
      CancellingPairsSumToNothing(m - {k, pairs[k]}, pairs - {k});
    }
  }
}
