/** What it means for a list of point movements to be a history that the ledger could have written:
    rows are only ever appended, a mistake is cancelled by a reversal row and may then be said again
    by a correction row. The rows may be named by database ids or by the refs of a backup file. */
module LedgerHistory {
  import opened Basics
  import MapSums

  datatype Move<K> = Move(key: K, amount: int, reverses: Option<K>, corrects: Option<K>)

  /** Among the first n rows, `key` names a row that is not itself a reversal. */
  ghost predicate Plain<K(!new)>(h: seq<Move<K>>, n: nat, key: K)
    requires n <= |h|
  {
    exists j :: 0 <= j < n && h[j].key == key && h[j].reverses.None?
  }

  /** ... and that row moved `amount` points. */
  ghost predicate PlainOf<K(!new)>(h: seq<Move<K>>, n: nat, key: K, amount: int)
    requires n <= |h|
  {
    exists j :: 0 <= j < n && h[j].key == key && h[j].reverses.None? && h[j].amount == amount
  }

  ghost predicate Reversed<K(!new)>(h: seq<Move<K>>, n: nat, key: K)
    requires n <= |h|
  {
    exists j :: 0 <= j < n && h[j].reverses == Some(key)
  }

  ghost predicate Corrected<K(!new)>(h: seq<Move<K>>, n: nat, key: K)
    requires n <= |h|
  {
    exists j :: 0 <= j < n && h[j].corrects == Some(key)
  }

  ghost predicate FreshKey<K(!new)>(h: seq<Move<K>>, i: nat)
    requires i < |h|
  {
    forall j :: 0 <= j < i ==> h[j].key != h[i].key
  }

  /** Row i may be written after the rows before it. A correction needs its target to be reversed
      at or before the correction row: one row may both reverse and correct the same target. */
  ghost predicate Writable<K(!new)>(h: seq<Move<K>>, i: nat)
    requires i < |h|
  {
    && FreshKey(h, i)
    && (h[i].reverses.Some? ==>
          && PlainOf(h, i, h[i].reverses.value, -h[i].amount)
          && !Reversed(h, i, h[i].reverses.value))
    && (h[i].corrects.Some? ==>
          && Plain(h, i, h[i].corrects.value)
          && !Corrected(h, i, h[i].corrects.value)
          && Reversed(h, i + 1, h[i].corrects.value))
  }

  ghost predicate Consistent<K(!new)>(h: seq<Move<K>>) {
    forall i :: 0 <= i < |h| ==> Writable(h, i)
  }

  lemma SameFacts<K(!new)>(h: seq<Move<K>>, g: seq<Move<K>>, n: nat, key: K)
    requires n <= |h| && n <= |g| && h[..n] == g[..n]
    ensures Plain(h, n, key) <==> Plain(g, n, key)
    ensures forall amount :: PlainOf(h, n, key, amount) <==> PlainOf(g, n, key, amount)
    ensures Reversed(h, n, key) <==> Reversed(g, n, key)
    ensures Corrected(h, n, key) <==> Corrected(g, n, key)
  {
    forall j | 0 <= j < n ensures h[j] == g[j] { assert h[..n][j] == g[..n][j]; }
  }

  /** Whether a row may be written is decided by the rows up to it. */
  lemma WritableInExtension<K(!new)>(h: seq<Move<K>>, g: seq<Move<K>>, i: nat)
    requires i < |h| <= |g| && g[..|h|] == h
    ensures Writable(h, i) <==> Writable(g, i)
  {
  }

  lemma ConsistentAppend<K(!new)>(h: seq<Move<K>>, row: Move<K>)
    ensures Consistent(h + [row]) <==> Consistent(h) && Writable(h + [row], |h|)
  {
    var g := h + [row];
    assert g[..|h|] == h;
    forall i | 0 <= i < |h| ensures Writable(h, i) <==> Writable(g, i) {
      WritableInExtension(h, g, i);
    }
  }

  // ---------------------------------------------------------------- cancelling pairs

  /** The facts about reversals that survive taking any part of a history in any order: rows keep
      their own key, and a reversal whose target is present is the only one, is not reversed itself
      and takes back exactly the target's points. */
  ghost predicate WellPaired<K(!new)>(h: seq<Move<K>>) {
    && (forall i, j :: 0 <= i < |h| && 0 <= j < |h| && h[i].key == h[j].key ==> i == j)
    && (forall i, j :: 0 <= i < |h| && 0 <= j < |h| && h[i].reverses == Some(h[j].key) ==>
          h[j].reverses.None? && h[i].amount == -h[j].amount)
    && (forall i, j :: 0 <= i < |h| && 0 <= j < |h| && h[i].reverses.Some? && h[i].reverses == h[j].reverses ==> i == j)
  }

  lemma ConsistentIsWellPaired<K(!new)>(h: seq<Move<K>>)
    requires Consistent(h)
    ensures WellPaired(h)
  {
    forall i, j | 0 <= i < |h| && 0 <= j < |h| && h[i].key == h[j].key ensures i == j {
      assert Writable(h, i) && Writable(h, j);
    }
    forall i, j | 0 <= i < |h| && 0 <= j < |h| && h[i].reverses == Some(h[j].key)
      ensures h[j].reverses.None? && h[i].amount == -h[j].amount
    {
      assert Writable(h, i);
      var k :| 0 <= k < i && h[k].key == h[j].key && h[k].reverses.None? && h[k].amount == -h[i].amount;
      assert Writable(h, k) && Writable(h, j);
    }
    forall i, j | 0 <= i < |h| && 0 <= j < |h| && h[i].reverses.Some? && h[i].reverses == h[j].reverses ensures i == j {
      assert Writable(h, i) && Writable(h, j);
    }
  }

  function Amounts<K>(h: seq<Move<K>>): seq<int> { seq(|h|, i requires 0 <= i < |h| => h[i].amount) }

  function Keys<K>(h: seq<Move<K>>): set<K> { set i | 0 <= i < |h| :: h[i].key }

  /** The keys of the pairs both of whose rows are in the list. */
  function CancelledKeys<K(==)>(h: seq<Move<K>>): set<K> {
    (set i | 0 <= i < |h| && h[i].reverses.Some? && h[i].reverses.value in Keys(h) :: h[i].key)
    + (set i | 0 <= i < |h| && h[i].reverses.Some? && h[i].reverses.value in Keys(h) :: h[i].reverses.value)
  }

  function Uncancelled<K(==)>(cancelled: set<K>): Move<K> -> bool { (m: Move<K>) => m.key !in cancelled }

  /** The list without its cancelled pairs. */
  function Kept<K(==)>(h: seq<Move<K>>): seq<Move<K>> { Filter(h, Uncancelled(CancelledKeys(h))) }

  ghost function ByKey<K(!new)>(h: seq<Move<K>>): map<K, int>
    ensures ByKey(h).Keys == Keys(h)
  {
    if h == [] then map[] else
      var last := h[|h| - 1];
      assert h == h[..|h| - 1] + [last];
      ByKey(h[..|h| - 1])[last.key := last.amount]
  }

  ghost predicate DistinctKeys<K(!new)>(h: seq<Move<K>>) {
    forall i, j :: 0 <= i < |h| && 0 <= j < |h| && h[i].key == h[j].key ==> i == j
  }

  lemma AmountsOfSnoc<K(!new)>(h: seq<Move<K>>)
    requires h != []
    ensures Sum(Amounts(h)) == Sum(Amounts(h[..|h| - 1])) + h[|h| - 1].amount
  {
    assert Amounts(h)[..|h| - 1] == Amounts(h[..|h| - 1]);
  }

  lemma ByKeyWithoutLast<K(!new)>(h: seq<Move<K>>)
    requires h != [] && DistinctKeys(h)
    ensures var last := h[|h| - 1];
            last.key in ByKey(h) && ByKey(h)[last.key] == last.amount && ByKey(h) - {last.key} == ByKey(h[..|h| - 1])
  {
    assert h[|h| - 1].key !in ByKey(h[..|h| - 1]);
  }

  lemma {:induction false} ByKeyTotal<K(!new)>(h: seq<Move<K>>)
    requires DistinctKeys(h)
    ensures Sum(Amounts(h)) == MapSums.Total(ByKey(h))
    ensures forall i :: 0 <= i < |h| ==> h[i].key in ByKey(h) && ByKey(h)[h[i].key] == h[i].amount
  {
    if h != [] {
      hide Sum, Amounts, MapSums.Total;
      var front, last := h[..|h| - 1], h[|h| - 1];
      ByKeyTotal(front);
      AmountsOfSnoc(h);
      ByKeyWithoutLast(h);
      MapSums.TotalWithout(ByKey(h), last.key);
      forall i | 0 <= i < |h| ensures h[i].key in ByKey(h) && ByKey(h)[h[i].key] == h[i].amount {
        if i < |front| {
          assert front[i] == h[i];
        }
      }
    }
  }

  lemma ByKeyOfSnoc<K(!new)>(h: seq<Move<K>>, last: Move<K>)
    ensures ByKey(h + [last]) == ByKey(h)[last.key := last.amount]
  {
    assert (h + [last])[..|h + [last]| - 1] == h;
  }

  lemma UpdateMinus<K(!new)>(m: map<K, int>, key: K, amount: int, keys: set<K>)
    ensures m[key := amount] - keys == if key in keys then m - keys else (m - keys)[key := amount]
  {
  }

  lemma {:induction false} ByKeyOfFilter<K(!new)>(h: seq<Move<K>>, cancelled: set<K>)
    ensures ByKey(Filter(h, Uncancelled(cancelled))) == ByKey(h) - cancelled
  {
    if h != [] {
      var front, last := h[..|h| - 1], h[|h| - 1];
      var kept := Filter(front, Uncancelled(cancelled));
      ByKeyOfFilter(front, cancelled);
      hide Filter, ByKey, Keys;
      assert h == front + [last];
      FilterSnoc(front, last, Uncancelled(cancelled));
      UpdateMinus(ByKey(front), last.key, last.amount, cancelled);
      ByKeyOfSnoc(front, last);
      if last.key in cancelled {
        assert kept + [] == kept;
      } else {
        ByKeyOfSnoc(kept, last);
      }
    }
  }

  lemma {:induction false} DistinctKeysOfFilter<K(!new)>(h: seq<Move<K>>, p: Move<K> -> bool)
    requires DistinctKeys(h)
    ensures DistinctKeys(Filter(h, p))
  {
    if h != [] {
      var front, last := h[..|h| - 1], h[|h| - 1];
      DistinctKeysOfFilter(front, p);
      FilterMembers(front, p);
      forall m | m in Filter(front, p) ensures m.key != last.key {
        assert m in front;
      }
    }
  }

  ghost function PairMap<K(!new)>(h: seq<Move<K>>): map<K, K>
    requires WellPaired(h)
  {
    map i | 0 <= i < |h| && h[i].reverses.Some? && h[i].reverses.value in Keys(h) :: h[i].key := h[i].reverses.value
  }

  lemma PairAt<K(!new)>(h: seq<Move<K>>, k: K) returns (i: nat, j: nat)
    requires WellPaired(h) && k in PairMap(h)
    ensures i < |h| && j < |h| && h[i].key == k && h[j].key == PairMap(h)[k]
    ensures h[i].reverses == Some(h[j].key)
    ensures h[j].reverses.None? && h[i].amount == -h[j].amount
  {
    i :| 0 <= i < |h| && h[i].key == k && h[i].reverses == Some(PairMap(h)[k]) && PairMap(h)[k] in Keys(h);
    j :| 0 <= j < |h| && h[j].key == PairMap(h)[k];
    assert h[i].reverses == Some(h[j].key);
  }

  lemma AmountByKey<K(!new)>(h: seq<Move<K>>, i: nat)
    requires DistinctKeys(h) && i < |h|
    ensures h[i].key in ByKey(h) && ByKey(h)[h[i].key] == h[i].amount
  {
  }

  lemma PairIsOpposite<K(!new)>(h: seq<Move<K>>, k: K)
    requires WellPaired(h) && k in PairMap(h)
    ensures var t := PairMap(h)[k];
            k in ByKey(h) && t in ByKey(h) && t !in PairMap(h) && ByKey(h)[k] == -ByKey(h)[t]
  {
    var i, j := PairAt(h, k);
    AmountByKey(h, i);
    AmountByKey(h, j);
    if h[j].key in PairMap(h) {
      var i', j' := PairAt(h, h[j].key);
    }
  }

  lemma PairsAreApart<K(!new)>(h: seq<Move<K>>, k: K, l: K)
    requires WellPaired(h) && k in PairMap(h) && l in PairMap(h) && PairMap(h)[k] == PairMap(h)[l]
    ensures k == l
  {
  }

  lemma PairMapCancels<K(!new)>(h: seq<Move<K>>)
    requires WellPaired(h)
    ensures MapSums.CancellingPairs(ByKey(h), PairMap(h))
  {
    var m, pairs := ByKey(h), PairMap(h);
    forall k | k in pairs ensures k in m && pairs[k] in m && pairs[k] !in pairs && m[k] == -m[pairs[k]] {
      PairIsOpposite(h, k);
    }
    forall k, l | k in pairs && l in pairs && pairs[k] == pairs[l] ensures k == l {
      PairsAreApart(h, k, l);
    }
  }

  lemma CancelledKeysArePairs<K(!new)>(h: seq<Move<K>>)
    requires WellPaired(h)
    ensures CancelledKeys(h) == MapSums.Paired(PairMap(h))
  {
    var pairs := PairMap(h);
    forall i | 0 <= i < |h| && h[i].reverses.Some? && h[i].reverses.value in Keys(h)
      ensures h[i].key in pairs && pairs[h[i].key] == h[i].reverses.value
    {
    }
    forall k | k in pairs ensures k in CancelledKeys(h) && pairs[k] in CancelledKeys(h) {
      var i, j := PairAt(h, k);
    }
  }

  /** Leaving out both halves of every cancelled pair does not change the total. */
  lemma KeptHasSameTotal<K(!new)>(h: seq<Move<K>>)
    requires WellPaired(h)
    ensures Sum(Amounts(Kept(h))) == Sum(Amounts(h))
  {
    var c := CancelledKeys(h);
    PairMapCancels(h);
    CancelledKeysArePairs(h);
    MapSums.CancellingPairsSumToNothing(ByKey(h), PairMap(h));
    ByKeyOfFilter(h, c);
    DistinctKeysOfFilter(h, Uncancelled(c));
    ByKeyTotal(h);
    ByKeyTotal(Kept(h));
  }

  // ---------------------------------------------------------------- conservation

  /** Row i still counts: it is neither a reversal nor reversed by any row of the history. */
  ghost predicate Live<K(!new)>(h: seq<Move<K>>, i: nat)
    requires i < |h|
  {
    h[i].reverses.None? && !Reversed(h, |h|, h[i].key)
  }

  ghost function StillCounts<K(!new)>(h: seq<Move<K>>): Move<K> -> bool {
    (m: Move<K>) => m.reverses.None? && !Reversed(h, |h|, m.key)
  }

  ghost function LiveRows<K(!new)>(h: seq<Move<K>>): seq<Move<K>> { Filter(h, StillCounts(h)) }

  lemma TargetIsPresent<K(!new)>(h: seq<Move<K>>, i: nat)
    requires Consistent(h) && i < |h| && h[i].reverses.Some?
    ensures h[i].reverses.value in Keys(h)
  {
    assert Writable(h, i);
    var j :| 0 <= j < i && h[j].key == h[i].reverses.value;
  }

  lemma LiveMeansKept<K(!new)>(h: seq<Move<K>>, i: nat)
    requires Consistent(h) && i < |h|
    ensures Live(h, i) <==> h[i].key !in CancelledKeys(h)
  {
    ConsistentIsWellPaired(h);
    if h[i].reverses.Some? {
      TargetIsPresent(h, i);
    }
    if Reversed(h, |h|, h[i].key) {
      var j :| 0 <= j < |h| && h[j].reverses == Some(h[i].key);
      TargetIsPresent(h, j);
    }
  }

  /** Conservation: in a history that could have been written, the plain sum of every row is the sum
      of the rows that still count. */
  lemma BalanceIsSumOfLiveRows<K(!new)>(h: seq<Move<K>>)
    requires Consistent(h)
    ensures Sum(Amounts(h)) == Sum(Amounts(LiveRows(h)))
  {
    ConsistentIsWellPaired(h);
    KeptHasSameTotal(h);
    forall m | m in h ensures StillCounts(h)(m) == Uncancelled(CancelledKeys(h))(m) {
      var i :| 0 <= i < |h| && h[i] == m;
      LiveMeansKept(h, i);
    }
    FilterAgree(h, StillCounts(h), Uncancelled(CancelledKeys(h)));
  }

  /** Each row of the path was said again by the next one. */
  ghost predicate CorrectionChain<K(!new)>(h: seq<Move<K>>, path: seq<nat>) {
    && (forall k :: 0 <= k < |path| ==> path[k] < |h|)
    && (forall k :: 0 <= k < |path| - 1 ==> h[path[k + 1]].corrects == Some(h[path[k]].key))
  }

  lemma CorrectedIsNotLive<K(!new)>(h: seq<Move<K>>, i: nat, j: nat)
    requires Consistent(h) && i < |h| && j < |h| && h[j].corrects == Some(h[i].key)
    ensures i < j && !Live(h, i)
  {
    assert Writable(h, j);
    var i' :| 0 <= i' < j && h[i'].key == h[i].key;
    assert Writable(h, i) && Writable(h, i');
    assert i == i';
    var k :| 0 <= k < j + 1 && h[k].reverses == Some(h[i].key);
    assert Reversed(h, |h|, h[i].key);
  }

  /** Along a chain of corrections time moves forward and only the last row can still count. */
  lemma OnlyLastCorrectionCounts<K(!new)>(h: seq<Move<K>>, path: seq<nat>, k: nat)
    requires Consistent(h) && CorrectionChain(h, path) && k < |path| - 1
    ensures path[k] < path[k + 1] && !Live(h, path[k])
  {
    CorrectedIsNotLive(h, path[k], path[k + 1]);
  }

  /** No row is said again twice, so correction chains never branch. */
  lemma CorrectionsDoNotBranch<K(!new)>(h: seq<Move<K>>, i: nat, j: nat)
    requires Consistent(h) && i < |h| && j < |h|
    requires h[i].corrects.Some? && h[i].corrects == h[j].corrects
    ensures i == j
  {
    assert Writable(h, i) && Writable(h, j);
  }

  // ---------------------------------------------------------------- renaming

  /** The two lists move the same points and link the same positions; only the names differ. */
  ghost predicate SameShape<K(!new), L(!new)>(h: seq<Move<K>>, g: seq<Move<L>>) {
    && |h| == |g|
    && (forall i :: 0 <= i < |h| ==>
          && h[i].amount == g[i].amount
          && (h[i].reverses.Some? <==> g[i].reverses.Some?)
          && (h[i].corrects.Some? <==> g[i].corrects.Some?))
    && (forall i, j :: 0 <= i < |h| && 0 <= j < |h| && h[i].reverses == Some(h[j].key) ==> g[i].reverses == Some(g[j].key))
    && (forall i, j :: 0 <= i < |h| && 0 <= j < |h| && h[i].corrects == Some(h[j].key) ==> g[i].corrects == Some(g[j].key))
  }

  lemma ReversalTargetKeepsPlace<K(!new), L(!new)>(h: seq<Move<K>>, g: seq<Move<L>>, i: nat) returns (j: nat)
    requires Consistent(h) && SameShape(h, g) && DistinctKeys(g) && i < |h| && h[i].reverses.Some?
    ensures j < i && h[i].reverses == Some(h[j].key) && g[i].reverses == Some(g[j].key)
    ensures h[j].reverses.None? && h[j].amount == -h[i].amount
  {
    assert Writable(h, i);
    j :| 0 <= j < i && h[j].key == h[i].reverses.value && h[j].reverses.None? && h[j].amount == -h[i].amount;
  }

  lemma CorrectionTargetKeepsPlace<K(!new), L(!new)>(h: seq<Move<K>>, g: seq<Move<L>>, i: nat) returns (j: nat)
    requires Consistent(h) && SameShape(h, g) && DistinctKeys(g) && i < |h| && h[i].corrects.Some?
    ensures j < i && h[i].corrects == Some(h[j].key) && g[i].corrects == Some(g[j].key)
    ensures h[j].reverses.None?
  {
    assert Writable(h, i);
    j :| 0 <= j < i && h[j].key == h[i].corrects.value && h[j].reverses.None?;
  }

  lemma RenamedReversal<K(!new), L(!new)>(h: seq<Move<K>>, g: seq<Move<L>>, i: nat)
    requires Consistent(h) && SameShape(h, g) && DistinctKeys(g) && i < |h| && h[i].reverses.Some?
    ensures PlainOf(g, i, g[i].reverses.value, -g[i].amount) && !Reversed(g, i, g[i].reverses.value)
  {
    var j := ReversalTargetKeepsPlace(h, g, i);
    assert Writable(h, i);
    forall k | 0 <= k < i && g[k].reverses.Some? ensures g[k].reverses != g[i].reverses {
      var j' := ReversalTargetKeepsPlace(h, g, k);
      assert h[k].reverses != h[i].reverses;
      assert j' != j;
    }
  }

  lemma RenamedCorrection<K(!new), L(!new)>(h: seq<Move<K>>, g: seq<Move<L>>, i: nat)
    requires Consistent(h) && SameShape(h, g) && DistinctKeys(g) && i < |h| && h[i].corrects.Some?
    ensures var t := g[i].corrects.value; Plain(g, i, t) && !Corrected(g, i, t) && Reversed(g, i + 1, t)
  {
    var j := CorrectionTargetKeepsPlace(h, g, i);
    assert Writable(h, i);
    var r :| 0 <= r < i + 1 && h[r].reverses == h[i].corrects;
    assert g[r].reverses == Some(g[j].key);
    forall k | 0 <= k < i && g[k].corrects.Some? ensures g[k].corrects != g[i].corrects {
      var j' := CorrectionTargetKeepsPlace(h, g, k);
      assert h[k].corrects != h[i].corrects;
      assert j' != j;
    }
  }

  /** Giving the rows new names of their own keeps a history one that could be written. */
  lemma RenamedHistoryIsConsistent<K(!new), L(!new)>(h: seq<Move<K>>, g: seq<Move<L>>)
    requires Consistent(h) && SameShape(h, g) && DistinctKeys(g)
    ensures Consistent(g)
  {
    forall i | 0 <= i < |g| ensures Writable(g, i) {
      if h[i].reverses.Some? {
        RenamedReversal(h, g, i);
      }
      if h[i].corrects.Some? {
        RenamedCorrection(h, g, i);
      }
    }
  }
}
