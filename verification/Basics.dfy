/** Vocabulary shared by every model: optional values, results, sums and filters over sequences. */
module Basics {
  datatype Option<+T> = None | Some(value: T)

  /** The value, or the error when there is none. */
  function OrError<T, E>(found: Option<T>, error: E): Result<T, E> {
    if found.Some? then Ok(found.value) else Err(error)
  }

  datatype Result<+T, +E> = Ok(value: T) | Err(error: E)

  /** No two positions hold the same value. */
  ghost predicate Distinct<T(!new)>(xs: seq<T>) {
    forall i, j :: 0 <= i < j < |xs| ==> xs[i] != xs[j]
  }

  function Sum(xs: seq<int>): int {
    if xs == [] then 0 else Sum(xs[..|xs| - 1]) + xs[|xs| - 1]
  }

  lemma {:induction false} SumAppend(xs: seq<int>, ys: seq<int>)
    ensures Sum(xs + ys) == Sum(xs) + Sum(ys)
  {
    if ys == [] {
      assert xs + ys == xs;
    } else {
      var front := ys[..|ys| - 1];
      assert (xs + ys)[..|xs + ys| - 1] == xs + front;
      SumAppend(xs, front);
    }
  }

  /** The elements satisfying p, in their original order. */
  function Filter<T>(xs: seq<T>, p: T -> bool): (kept: seq<T>)
    ensures |kept| <= |xs|
  {
    if xs == [] then []
    else
      var last := xs[|xs| - 1];
      Filter(xs[..|xs| - 1], p) + (if p(last) then [last] else [])
  }

  lemma {:induction false} FilterMembers<T(!new)>(xs: seq<T>, p: T -> bool)
    ensures forall x :: x in Filter(xs, p) <==> x in xs && p(x)
  {
    if xs != [] {
      FilterMembers(xs[..|xs| - 1], p);
      assert xs == xs[..|xs| - 1] + [xs[|xs| - 1]];
    }
  }

  lemma {:induction false} FilterAppend<T(!new)>(xs: seq<T>, ys: seq<T>, p: T -> bool)
    ensures Filter(xs + ys, p) == Filter(xs, p) + Filter(ys, p)
  {
    if ys == [] {
      assert xs + ys == xs;
    } else {
      var front := ys[..|ys| - 1];
      assert (xs + ys)[..|xs + ys| - 1] == xs + front;
      FilterAppend(xs, front, p);
    }
  }

  lemma {:induction false} FilterAll<T(!new)>(xs: seq<T>, p: T -> bool)
    requires forall x :: x in xs ==> p(x)
    ensures Filter(xs, p) == xs
  {
    if xs != [] {
      FilterAll(xs[..|xs| - 1], p);
      assert xs == xs[..|xs| - 1] + [xs[|xs| - 1]];
    }
  }

  lemma {:induction false} FilterNone<T(!new)>(xs: seq<T>, p: T -> bool)
    requires forall x :: x in xs ==> !p(x)
    ensures Filter(xs, p) == []
  {
    if xs != [] {
      FilterNone(xs[..|xs| - 1], p);
    }
  }

  /** Filtering sees only how often each element occurs. */
  lemma {:induction false} FilterCounts<T(!new)>(xs: seq<T>, p: T -> bool, x: T)
    ensures multiset(Filter(xs, p))[x] == if p(x) then multiset(xs)[x] else 0
  {
    if xs != [] {
      FilterCounts(xs[..|xs| - 1], p, x);
      assert xs == xs[..|xs| - 1] + [xs[|xs| - 1]];
    }
  }

  lemma FilterPermutation<T(!new)>(xs: seq<T>, ys: seq<T>, p: T -> bool)
    requires multiset(xs) == multiset(ys)
    ensures multiset(Filter(xs, p)) == multiset(Filter(ys, p))
    ensures |Filter(xs, p)| == |Filter(ys, p)|
  {
    var fx, fy := multiset(Filter(xs, p)), multiset(Filter(ys, p));
    forall x: T ensures fx[x] == fy[x] {
      FilterCounts(xs, p, x);
      FilterCounts(ys, p, x);
    }
    assert fx == fy;
    assert |fx| == |Filter(xs, p)| && |fy| == |Filter(ys, p)|;
  }

  lemma FilterAround<T(!new)>(front: seq<T>, x: T, rest: seq<T>, p: T -> bool)
    ensures Filter(front + [x] + rest, p) == Filter(front, p) + (if p(x) then [x] else []) + Filter(rest, p)
  {
    FilterSnoc(front, x, p);
    hide Filter;
    FilterAppend(front + [x], rest, p);
  }

  lemma SomethingKept<T(!new)>(xs: seq<T>, p: T -> bool, i: nat)
    requires i < |xs| && p(xs[i])
    ensures |Filter(xs, p)| >= 1
  {
    hide Filter;
    FilterAround(xs[..i], xs[i], xs[i + 1..], p);
    assert xs[..i] + [xs[i]] + xs[i + 1..] == xs;
  }

  lemma OnlyOnePlace<T(!new)>(xs: seq<T>, p: T -> bool, i: nat, j: nat)
    requires |Filter(xs, p)| == 1 && i < |xs| && p(xs[i]) && j < |xs| && p(xs[j])
    ensures i == j
  {
    hide Filter;
    FilterAround(xs[..i], xs[i], xs[i + 1..], p);
    assert xs[..i] + [xs[i]] + xs[i + 1..] == xs;
    if j < i {
      SomethingKept(xs[..i], p, j);
    } else if j > i {
      SomethingKept(xs[i + 1..], p, j - i - 1);
    }
  }

  lemma OnePlaceIsKept<T(!new)>(xs: seq<T>, p: T -> bool, i: nat)
    requires i < |xs| && p(xs[i]) && forall j :: 0 <= j < |xs| && p(xs[j]) ==> j == i
    ensures |Filter(xs, p)| == 1
  {
    hide Filter;
    FilterAround(xs[..i], xs[i], xs[i + 1..], p);
    assert xs[..i] + [xs[i]] + xs[i + 1..] == xs;
    FilterNone(xs[..i], p);
    FilterNone(xs[i + 1..], p);
  }

  /** Exactly one element is kept exactly when p holds at one place only. */
  lemma FilterKeepsOneIff<T(!new)>(xs: seq<T>, p: T -> bool)
    ensures |Filter(xs, p)| == 1 <==> exists i :: 0 <= i < |xs| && p(xs[i]) && forall j :: 0 <= j < |xs| && p(xs[j]) ==> j == i
  {
    hide Filter;
    if |Filter(xs, p)| == 1 {
      var at := FilterPositions(xs, p);
      FilterMembers(xs, p);
      assert Filter(xs, p)[0] in Filter(xs, p);
      var i := at[0];
      forall j | 0 <= j < |xs| && p(xs[j]) ensures j == i {
        OnlyOnePlace(xs, p, i, j);
      }
    }
    if i :| 0 <= i < |xs| && p(xs[i]) && forall j :: 0 <= j < |xs| && p(xs[j]) ==> j == i {
      OnePlaceIsKept(xs, p, i);
    }
  }

  lemma {:induction false} FilterAgree<T>(xs: seq<T>, p: T -> bool, q: T -> bool)
    requires forall x :: x in xs ==> p(x) == q(x)
    ensures Filter(xs, p) == Filter(xs, q)
  {
    if xs != [] {
      FilterAgree(xs[..|xs| - 1], p, q);
      assert xs[|xs| - 1] in xs;
    }
  }

  lemma FilterSnoc<T>(xs: seq<T>, x: T, p: T -> bool)
    ensures Filter(xs + [x], p) == Filter(xs, p) + (if p(x) then [x] else [])
  {
  }

  /** Where the kept elements stood, in order. */
  lemma {:induction false} FilterPositions<T(!new)>(xs: seq<T>, p: T -> bool) returns (at: seq<nat>)
    ensures |at| == |Filter(xs, p)|
    ensures forall i :: 0 <= i < |at| ==> at[i] < |xs| && Filter(xs, p)[i] == xs[at[i]]
    ensures forall i, j :: 0 <= i < j < |at| ==> at[i] < at[j]
  {
    at := [];
    if xs != [] {
      var front, last := xs[..|xs| - 1], xs[|xs| - 1];
      at := FilterPositions(front, p);
      assert Filter(xs, p) == Filter(front, p) + (if p(last) then [last] else []);
      hide Filter;
      if p(last) {
        at := at + [|xs| - 1];
      }
    }
  }

  function BothHold<T>(p: T -> bool, q: T -> bool): T -> bool { x => p(x) && q(x) }

  lemma {:induction false} FilterTwice<T(!new)>(xs: seq<T>, p: T -> bool, q: T -> bool)
    ensures Filter(Filter(xs, p), q) == Filter(xs, BothHold(p, q))
  {
    if xs != [] {
      var front, last := xs[..|xs| - 1], xs[|xs| - 1];
      FilterTwice(front, p, q);
      if p(last) {
        FilterSnoc(Filter(front, p), last, q);
      } else {
        assert Filter(xs, p) == Filter(front, p);
      }
    }
  }

  // ---------------------------------------------------------------- distinct elements

  lemma {:induction false} DistinctCountsOnce<T(!new)>(xs: seq<T>, x: T)
    requires Distinct(xs)
    ensures multiset(xs)[x] <= 1
  {
    if xs != [] {
      var front, last := xs[..|xs| - 1], xs[|xs| - 1];
      DistinctCountsOnce(front, x);
      assert xs == front + [last];
      if last == x {
        assert x !in front;
      }
    }
  }

  lemma RepeatedCountsTwice<T>(xs: seq<T>, i: nat, j: nat)
    requires i < j < |xs| && xs[i] == xs[j]
    ensures multiset(xs)[xs[i]] >= 2
  {
    assert xs == xs[..i] + [xs[i]] + xs[i + 1..j] + [xs[j]] + xs[j + 1..];
  }

  lemma DistinctPermutation<T(!new)>(xs: seq<T>, ys: seq<T>)
    requires Distinct(xs) && multiset(xs) == multiset(ys)
    ensures Distinct(ys)
  {
    forall i, j | 0 <= i < j < |ys| ensures ys[i] != ys[j] {
      if ys[i] == ys[j] {
        RepeatedCountsTwice(ys, i, j);
        DistinctCountsOnce(xs, ys[i]);
      }
    }
  }

  lemma FilterKeepsDistinct<T(!new)>(xs: seq<T>, p: T -> bool)
    requires Distinct(xs)
    ensures Distinct(Filter(xs, p))
  {
    var at := FilterPositions(xs, p);
    forall i, j | 0 <= i < j < |Filter(xs, p)| ensures Filter(xs, p)[i] != Filter(xs, p)[j] {
      assert xs[at[i]] != xs[at[j]];
    }
  }
}
