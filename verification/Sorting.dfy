/** The library sorts the application calls (Python's `sorted` and JavaScript's `Array.prototype.sort`),
    with keys compared lexicographically. */
module Sorting {
  import opened Basics

  datatype Key = Key(first: int, second: int, third: int) {
    predicate AtMost(other: Key) {
      first < other.first ||
      (first == other.first && (second < other.second ||
                                (second == other.second && third <= other.third)))
    }
  }

  ghost predicate Sorted<T>(xs: seq<T>, key: T -> Key) {
    forall i, j :: 0 <= i < j < |xs| ==> key(xs[i]).AtMost(key(xs[j]))
  }

  /** Different elements never share a key. */
  ghost predicate KeysDistinguish<T(!new)>(xs: seq<T>, key: T -> Key) {
    forall x, y :: x in xs && y in xs && key(x) == key(y) ==> x == y
  }

  /** Puts x behind every element that is not greater, as a stable sort does. */
  function Insert<T>(xs: seq<T>, x: T, key: T -> Key): seq<T> {
    if xs == [] then [x]
    else if key(xs[|xs| - 1]).AtMost(key(x)) then xs + [x]
    else Insert(xs[..|xs| - 1], x, key) + [xs[|xs| - 1]]
  }

  function SortBy<T>(xs: seq<T>, key: T -> Key): seq<T> {
    if xs == [] then [] else Insert(SortBy(xs[..|xs| - 1], key), xs[|xs| - 1], key)
  }

  lemma {:induction false} InsertPermutes<T>(xs: seq<T>, x: T, key: T -> Key)
    ensures multiset(Insert(xs, x, key)) == multiset(xs) + multiset{x}
  {
    if xs != [] && !key(xs[|xs| - 1]).AtMost(key(x)) {
      InsertPermutes(xs[..|xs| - 1], x, key);
      assert xs == xs[..|xs| - 1] + [xs[|xs| - 1]];
    }
  }

  lemma {:induction false} InsertSorts<T>(xs: seq<T>, x: T, key: T -> Key)
    requires Sorted(xs, key)
    ensures Sorted(Insert(xs, x, key), key)
  {
    if xs != [] && !key(xs[|xs| - 1]).AtMost(key(x)) {
      var front, last := xs[..|xs| - 1], xs[|xs| - 1];
      InsertSorts(front, x, key);
      InsertPermutes(front, x, key);
      var inserted := Insert(front, x, key);
      forall i | 0 <= i < |inserted| ensures key(inserted[i]).AtMost(key(last)) {
        assert inserted[i] in multiset(inserted);
        assert inserted[i] in front || inserted[i] == x;
      }
    }
  }

  lemma {:induction false} SortPermutes<T>(xs: seq<T>, key: T -> Key)
    ensures multiset(SortBy(xs, key)) == multiset(xs)
    ensures |SortBy(xs, key)| == |xs|
    ensures forall x :: x in SortBy(xs, key) <==> x in xs
  {
    if xs != [] {
      SortPermutes(xs[..|xs| - 1], key);
      InsertPermutes(SortBy(xs[..|xs| - 1], key), xs[|xs| - 1], key);
      assert xs == xs[..|xs| - 1] + [xs[|xs| - 1]];
    }
    assert |multiset(SortBy(xs, key))| == |SortBy(xs, key)|;
    forall x ensures x in SortBy(xs, key) <==> x in xs {
      assert x in SortBy(xs, key) <==> x in multiset(SortBy(xs, key));
      assert x in xs <==> x in multiset(xs);
    }
  }

  lemma {:induction false} SortSorts<T>(xs: seq<T>, key: T -> Key)
    ensures Sorted(SortBy(xs, key), key)
  {
    if xs != [] {
      SortSorts(xs[..|xs| - 1], key);
      InsertSorts(SortBy(xs[..|xs| - 1], key), xs[|xs| - 1], key);
    }
  }

  lemma LastOfSorted<T(!new)>(xs: seq<T>, ys: seq<T>, key: T -> Key)
    requires Sorted(xs, key) && Sorted(ys, key)
    requires multiset(xs) == multiset(ys) && |xs| == |ys| > 0
    requires KeysDistinguish(xs, key)
    ensures xs[|xs| - 1] == ys[|ys| - 1]
  {
    var n := |xs| - 1;
    var x, y := xs[n], ys[n];
    assert x in multiset(ys) && y in multiset(xs);
    var i :| 0 <= i < |ys| && ys[i] == x;
    var j :| 0 <= j < |xs| && xs[j] == y;
    assert key(x).AtMost(key(y));
    assert key(y).AtMost(key(x));
    assert key(x) == key(y);
  }

  lemma SameFronts<T>(xs: seq<T>, ys: seq<T>)
    requires |xs| > 0 && |ys| > 0 && multiset(xs) == multiset(ys)
    requires xs[|xs| - 1] == ys[|ys| - 1]
    ensures multiset(xs[..|xs| - 1]) == multiset(ys[..|ys| - 1])
  {
    var x := xs[|xs| - 1];
    assert xs == xs[..|xs| - 1] + [x] && ys == ys[..|ys| - 1] + [x];
    assert multiset(xs[..|xs| - 1]) == multiset(xs) - multiset{x};
    assert multiset(ys[..|ys| - 1]) == multiset(ys) - multiset{x};
  }

  lemma SameLength<T>(xs: seq<T>, ys: seq<T>)
    requires multiset(xs) == multiset(ys)
    ensures |xs| == |ys|
  {
    assert |multiset(xs)| == |xs| && |multiset(ys)| == |ys|;
  }

  /** There is only one way to list the same elements in key order. */
  lemma {:induction false} SortedOnce<T(!new)>(xs: seq<T>, ys: seq<T>, key: T -> Key)
    requires Sorted(xs, key) && Sorted(ys, key)
    requires multiset(xs) == multiset(ys)
    requires KeysDistinguish(xs, key)
    ensures xs == ys
  {
    SameLength(xs, ys);
    if xs != [] {
      LastOfSorted(xs, ys, key);
      SameFronts(xs, ys);
      var n := |xs| - 1;
      assert KeysDistinguish(xs[..n], key) by {
        forall x, y | x in xs[..n] && y in xs[..n] && key(x) == key(y) ensures x == y {
          assert x in xs && y in xs;
        }
      }
      SortedOnce(xs[..n], ys[..n], key);
      assert xs == xs[..n] + [xs[n]] && ys == ys[..n] + [ys[n]];
    }
  }

  lemma SortOfPermutation<T(!new)>(xs: seq<T>, ys: seq<T>, key: T -> Key)
    requires multiset(xs) == multiset(ys)
    requires KeysDistinguish(xs, key)
    ensures SortBy(xs, key) == SortBy(ys, key)
  {
    SortSorts(xs, key);
    SortSorts(ys, key);
    SortPermutes(xs, key);
    SortPermutes(ys, key);
    SortedOnce(SortBy(xs, key), SortBy(ys, key), key);
  }

  lemma {:induction false} SortOfSorted<T>(xs: seq<T>, key: T -> Key)
    requires Sorted(xs, key)
    ensures SortBy(xs, key) == xs
  {
    if xs != [] {
      var front := xs[..|xs| - 1];
      SortOfSorted(front, key);
      assert xs == front + [xs[|xs| - 1]];
    }
  }

  lemma SameElementsDistinguish<T(!new)>(xs: seq<T>, ys: seq<T>, key: T -> Key)
    requires multiset(xs) == multiset(ys) && KeysDistinguish(xs, key)
    ensures KeysDistinguish(ys, key)
  {
    forall x, y | x in ys && y in ys && key(x) == key(y) ensures x == y {
      assert x in multiset(xs) && y in multiset(xs);
    }
  }

  lemma {:induction false} FilterKeepsSorted<T(!new)>(xs: seq<T>, p: T -> bool, key: T -> Key)
    requires Sorted(xs, key)
    ensures Sorted(Filter(xs, p), key)
  {
    if xs != [] {
      var front, last := xs[..|xs| - 1], xs[|xs| - 1];
      FilterKeepsSorted(front, p, key);
      FilterMembers(front, p);
      forall i | 0 <= i < |Filter(front, p)| ensures key(Filter(front, p)[i]).AtMost(key(last)) {
        assert Filter(front, p)[i] in front;
      }
    }
  }

  /** A list in key order with the elements of xs is what sorting xs gives. */
  lemma SortIsTheOnlyOrder<T(!new)>(xs: seq<T>, ordered: seq<T>, key: T -> Key)
    requires Sorted(ordered, key) && multiset(ordered) == multiset(xs)
    requires KeysDistinguish(xs, key)
    ensures SortBy(xs, key) == ordered
  {
    SortSorts(xs, key);
    SortPermutes(xs, key);
    SameElementsDistinguish(xs, ordered, key);
    SortedOnce(ordered, SortBy(xs, key), key);
  }

  /** Selecting from a sorted list is sorting the selection. */
  lemma FilterOfSort<T(!new)>(xs: seq<T>, p: T -> bool, key: T -> Key)
    requires KeysDistinguish(xs, key)
    ensures Filter(SortBy(xs, key), p) == SortBy(Filter(xs, p), key)
  {
    SortPermutes(xs, key);
    SortSorts(xs, key);
    FilterPermutation(SortBy(xs, key), xs, p);
    FilterKeepsSorted(SortBy(xs, key), p, key);
    FilterMembers(xs, p);
    assert KeysDistinguish(Filter(xs, p), key);
    SortIsTheOnlyOrder(Filter(xs, p), Filter(SortBy(xs, key), p), key);
  }
}
