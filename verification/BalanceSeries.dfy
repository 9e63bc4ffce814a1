/** The balance over time, recomputed by the browser from the rows it was sent. */
module BalanceSeries {
  import opened Basics
  import opened Sorting
  import opened LedgerHistory
  import opened PointTransactions
  import opened LedgerUseCases

  const DAY := 24 * 60 * 60 * 1000

  datatype BalancePoint = BalancePoint(at: int, balance: int, change: int, reason: string)

  function ByTime(): Transaction -> Key { (t: Transaction) => Key(t.occurredAt, t.id, 0) }

  /** The rows of the pairs both of whose halves are at hand. */
  function Cancelled(rows: seq<Transaction>): set<nat> {
    var ids := set i | 0 <= i < |rows| :: rows[i].id;
    (set i | 0 <= i < |rows| && rows[i].reversalOf.Some? && rows[i].reversalOf.value in ids :: rows[i].id)
    + (set i | 0 <= i < |rows| && rows[i].reversalOf.Some? && rows[i].reversalOf.value in ids :: rows[i].reversalOf.value)
  }

  function Outside(ids: set<nat>): Transaction -> bool { (t: Transaction) => t.id !in ids }

  /** The rows that are drawn, oldest first. */
  function Drawn(rows: seq<Transaction>): seq<Transaction> {
    SortBy(Filter(rows, Outside(Cancelled(rows))), ByTime())
  }

  function AmountsOf(rows: seq<Transaction>): seq<int> { seq(|rows|, i requires 0 <= i < |rows| => rows[i].amount) }

  /** The point of row i, its balance being the plain sum of the rows up to it. */
  function PointAt(drawn: seq<Transaction>, i: nat): BalancePoint
    requires i < |drawn|
  {
    BalancePoint(drawn[i].occurredAt, Sum(AmountsOf(drawn[..i + 1])), drawn[i].amount, drawn[i].reason)
  }

  function Series(rows: seq<Transaction>): seq<BalancePoint> {
    var drawn := Drawn(rows);
    seq(|drawn|, i requires 0 <= i < |drawn| => PointAt(drawn, i))
  }

  lemma AmountsOfSnoc(rows: seq<Transaction>, n: nat)
    requires n < |rows|
    ensures Sum(AmountsOf(rows[..n + 1])) == Sum(AmountsOf(rows[..n])) + rows[n].amount
  {
    assert AmountsOf(rows[..n + 1])[..n] == AmountsOf(rows[..n]);
  }

  /** The running sum gives every point the sum of all rows up to it. */
  method BalanceSeriesOf(rows: seq<Transaction>) returns (points: seq<BalancePoint>)
    ensures points == Series(rows)
  {
    var ordered := Drawn(rows);
    var balance := 0;
    points := [];
    for i := 0 to |ordered|
      invariant balance == Sum(AmountsOf(ordered[..i]))
      invariant |points| == i && forall k :: 0 <= k < i ==> points[k] == PointAt(ordered, k)
    {
      AmountsOfSnoc(ordered, i);
      balance := balance + ordered[i].amount;
      points := points + [BalancePoint(ordered[i].occurredAt, balance, ordered[i].amount, ordered[i].reason)];
    }
  }

  // ---------------------------------------------------------------- sums and orders

  lemma {:induction false} SumOfInsert(rows: seq<Transaction>, t: Transaction, key: Transaction -> Key)
    ensures Sum(AmountsOf(Insert(rows, t, key))) == Sum(AmountsOf(rows)) + t.amount
  {
    if rows != [] && !key(rows[|rows| - 1]).AtMost(key(t)) {
      var front, last := rows[..|rows| - 1], rows[|rows| - 1];
      SumOfInsert(front, t, key);
      SumOfSnoc(Insert(front, t, key), last);
      SumOfSnoc(front, last);
      assert front + [last] == rows;
    } else {
      SumOfSnoc(rows, t);
    }
  }

  lemma SumOfSnoc(rows: seq<Transaction>, t: Transaction)
    ensures Sum(AmountsOf(rows + [t])) == Sum(AmountsOf(rows)) + t.amount
  {
    assert AmountsOf(rows + [t])[..|rows|] == AmountsOf(rows);
  }

  lemma {:induction false} SumOfSort(rows: seq<Transaction>, key: Transaction -> Key)
    ensures Sum(AmountsOf(SortBy(rows, key))) == Sum(AmountsOf(rows))
  {
    if rows != [] {
      var front, last := rows[..|rows| - 1], rows[|rows| - 1];
      SumOfSort(front, key);
      SumOfInsert(SortBy(front, key), last, key);
      SumOfSnoc(front, last);
      assert front + [last] == rows;
    }
  }

  lemma CancelledAsMoves(rows: seq<Transaction>)
    ensures Cancelled(rows) == CancelledKeys(MovesOf(rows))
  {
    assert forall i :: 0 <= i < |rows| ==> MovesOf(rows)[i] == MoveOfRow(rows[i]);
  }

  lemma {:induction false} FilterAsMoves(rows: seq<Transaction>, ids: set<nat>)
    ensures MovesOf(Filter(rows, Outside(ids))) == Filter(MovesOf(rows), Uncancelled(ids))
  {
    if rows != [] {
      var front := rows[..|rows| - 1];
      FilterAsMoves(front, ids);
      assert MovesOf(rows)[..|rows| - 1] == MovesOf(front);
    }
  }

  /** Any rows of one history, each once, in any order, keep the facts about pairs. */
  lemma SubListIsWellPaired(history: seq<Transaction>, rows: seq<Transaction>)
    requires Consistent(MovesOf(history)) && Distinct(rows) && forall t :: t in rows ==> t in history
    ensures WellPaired(MovesOf(rows))
  {
    ConsistentIsWellPaired(MovesOf(history));
    hide Consistent;
    var at := PlacesIn(history, rows);
    var h, g := MovesOf(history), MovesOf(rows);
    assert forall i :: 0 <= i < |g| ==> g[i] == h[at[i]];
    forall i, j | 0 <= i < |g| && 0 <= j < |g| && h[at[i]] == h[at[j]] ensures i == j {
      assert at[i] == at[j];
      assert rows[i] == rows[j];
    }
  }

  lemma PlacesIn(history: seq<Transaction>, rows: seq<Transaction>) returns (at: seq<nat>)
    requires forall t :: t in rows ==> t in history
    ensures |at| == |rows| && forall i :: 0 <= i < |rows| ==> at[i] < |history| && history[at[i]] == rows[i]
  {
    at := [];
    for n := 0 to |rows|
      invariant |at| == n && forall i :: 0 <= i < n ==> at[i] < |history| && history[at[i]] == rows[i]
    {
      assert rows[n] in history;
      var k :| 0 <= k < |history| && history[k] == rows[n];
      at := at + [k];
    }
  }

  // ---------------------------------------------------------------- the trend agrees with the ledger

  function FinalBalance(points: seq<BalancePoint>): int { if points == [] then 0 else points[|points| - 1].balance }

  /** Leaving the cancelled pairs out, sorting and summing up ends where the plain sum of the given
      rows ends, for any rows of a history, in any order. */
  lemma SeriesEndsAtPlainSum(history: seq<Transaction>, rows: seq<Transaction>)
    requires Consistent(MovesOf(history)) && Distinct(rows) && forall t :: t in rows ==> t in history
    ensures FinalBalance(Series(rows)) == Sum(AmountsOf(rows))
  {
    hide Consistent, WellPaired, Filter, SortBy, Sum;
    SubListIsWellPaired(history, rows);
    KeptSumsUp(rows);
    SumOfSort(Filter(rows, Outside(Cancelled(rows))), ByTime());
    var drawn := Drawn(rows);
    assert drawn[..|drawn|] == drawn;
    assert drawn == [] ==> AmountsOf(drawn) == [] && Sum([]) == 0 by { EmptySum(); }
  }

  lemma EmptySum()
    ensures Sum([]) == 0
  {
  }

  lemma KeptSumsUp(rows: seq<Transaction>)
    requires WellPaired(MovesOf(rows))
    ensures Sum(AmountsOf(Filter(rows, Outside(Cancelled(rows))))) == Sum(AmountsOf(rows))
  {
    hide WellPaired, Filter, Sum, Cancelled;
    var kept := Filter(rows, Outside(Cancelled(rows)));
    KeptHasSameTotal(MovesOf(rows));
    CancelledAsMoves(rows);
    FilterAsMoves(rows, Cancelled(rows));
    assert Amounts(MovesOf(rows)) == AmountsOf(rows);
    assert Amounts(MovesOf(kept)) == AmountsOf(kept);
  }

  /** A balance is the previous one plus the change. */
  ghost predicate Follows(points: seq<BalancePoint>, i: nat)
    requires i < |points|
  {
    points[i].balance == (if i == 0 then 0 else points[i - 1].balance) + points[i].change
  }

  ghost predicate InTimeOrder(points: seq<BalancePoint>) {
    forall i, j :: 0 <= i < j < |points| ==> points[i].at <= points[j].at
  }

  /** One point after the other: in time order, each balance the previous one plus the change. */
  ghost predicate IsSeries(points: seq<BalancePoint>) {
    InTimeOrder(points) && forall i :: 0 <= i < |points| ==> Follows(points, i)
  }

  lemma SeriesIsSeries(rows: seq<Transaction>)
    ensures IsSeries(Series(rows))
    ensures Sorted(Drawn(rows), ByTime())
  {
    hide Cancelled, Filter, SortBy, Sum;
    var drawn := Drawn(rows);
    SortSorts(Filter(rows, Outside(Cancelled(rows))), ByTime());
    forall i, j | 0 <= i < j < |drawn| ensures drawn[i].occurredAt <= drawn[j].occurredAt {
      assert ByTime()(drawn[i]).AtMost(ByTime()(drawn[j]));
    }
    EmptySum();
    forall i | 0 <= i < |drawn| ensures Follows(Series(rows), i) {
      AmountsOfSnoc(drawn, i);
      assert i == 0 ==> AmountsOf(drawn[..0]) == [];
    }
  }

  /** Point i is row i of those that are drawn: its time, its amount and its reason; rows are drawn in the
      order of their times, and of their ids where the times are the same. */
  lemma PointsSayTheRows(rows: seq<Transaction>)
    ensures |Series(rows)| == |Drawn(rows)|
    ensures forall i :: 0 <= i < |Drawn(rows)| ==>
              && Series(rows)[i].at == Drawn(rows)[i].occurredAt
              && Series(rows)[i].change == Drawn(rows)[i].amount
              && Series(rows)[i].reason == Drawn(rows)[i].reason
    ensures forall i, j :: 0 <= i < j < |Drawn(rows)| ==>
              Drawn(rows)[i].occurredAt < Drawn(rows)[j].occurredAt
              || (Drawn(rows)[i].occurredAt == Drawn(rows)[j].occurredAt && Drawn(rows)[i].id <= Drawn(rows)[j].id)
  {
    SeriesIsSeries(rows);
    hide Drawn, Sum;
    var drawn := Drawn(rows);
    forall i, j | 0 <= i < j < |drawn|
      ensures drawn[i].occurredAt < drawn[j].occurredAt || (drawn[i].occurredAt == drawn[j].occurredAt && drawn[i].id <= drawn[j].id)
    {
      assert ByTime()(drawn[i]).AtMost(ByTime()(drawn[j]));
    }
  }

  /** A row is left out exactly when it and its counterpart are both at hand: no cancelled pair is
      drawn, and nothing else is missing. */
  lemma OnlyPairsAreLeftOut(rows: seq<Transaction>, t: Transaction)
    requires t in rows && forall x, y :: x in rows && y in rows && x.id == y.id ==> x == y
    ensures t in Drawn(rows) <==>
              !(exists u :: u in rows && (u.reversalOf == Some(t.id) || t.reversalOf == Some(u.id)))
  {
    var kept := Filter(rows, Outside(Cancelled(rows)));
    FilterMembers(rows, Outside(Cancelled(rows)));
    SortPermutes(kept, ByTime());
    if t.id in Cancelled(rows) {
      var i :| 0 <= i < |rows| && rows[i].reversalOf.Some? && (rows[i].id == t.id || rows[i].reversalOf.value == t.id)
               && exists j :: 0 <= j < |rows| && rows[j].id == rows[i].reversalOf.value;
      var j :| 0 <= j < |rows| && rows[j].id == rows[i].reversalOf.value;
      assert rows[i] in rows && rows[j] in rows;
      assert rows[i].id == t.id ==> rows[i] == t;
    }
  }

  lemma CancelledOfPermutation(rows: seq<Transaction>, others: seq<Transaction>)
    requires multiset(rows) == multiset(others)
    ensures Cancelled(rows) == Cancelled(others)
  {
    assert forall t :: t in rows <==> t in multiset(rows);
    assert forall t :: t in others <==> t in multiset(others);
    CancelledOnlySees(rows, others);
    CancelledOnlySees(others, rows);
  }

  lemma CancelledOnlySees(rows: seq<Transaction>, others: seq<Transaction>)
    requires forall t :: t in rows ==> t in others
    ensures Cancelled(rows) <= Cancelled(others)
  {
    forall id | id in Cancelled(rows) ensures id in Cancelled(others) {
      var i :| 0 <= i < |rows| && rows[i].reversalOf.Some? && (rows[i].id == id || rows[i].reversalOf.value == id)
               && exists j :: 0 <= j < |rows| && rows[j].id == rows[i].reversalOf.value;
      var j :| 0 <= j < |rows| && rows[j].id == rows[i].reversalOf.value;
      assert rows[i] in others && rows[j] in others;
      var i' :| 0 <= i' < |others| && others[i'] == rows[i];
      var j' :| 0 <= j' < |others| && others[j'] == rows[j];
    }
  }

  /** The curve does not depend on the order in which the rows arrive. */
  lemma SeriesIgnoresInputOrder(rows: seq<Transaction>, others: seq<Transaction>)
    requires multiset(rows) == multiset(others)
    requires forall x, y :: x in rows && y in rows && x.id == y.id ==> x == y
    ensures Series(rows) == Series(others)
  {
    var p := Outside(Cancelled(rows));
    CancelledOfPermutation(rows, others);
    FilterPermutation(rows, others, p);
    FilterMembers(rows, p);
    SortOfPermutation(Filter(rows, p), Filter(others, p), ByTime());
  }

  // ---------------------------------------------------------------- windows

  datatype TrendRange = Month | Quarter | All

  datatype TrendWindow = TrendWindow(start: int, end: int, startBalance: int, points: seq<BalancePoint>)

  function Before(time: int): BalancePoint -> bool { (p: BalancePoint) => p.at < time }

  function Between(start: int, end: int): BalancePoint -> bool { (p: BalancePoint) => start <= p.at && p.at <= end }

  function After(time: int): BalancePoint -> bool { (p: BalancePoint) => p.at > time }

  function UpTo(time: int): BalancePoint -> bool { (p: BalancePoint) => p.at <= time }

  function Min(a: int, b: int): int { if a <= b then a else b }

  function WindowStart(series: seq<BalancePoint>, range: TrendRange, now: int): int {
    match range
    case All => Min(if series == [] then now - DAY else series[0].at, now - DAY)
    case Month => now - 30 * DAY
    case Quarter => now - 90 * DAY
  }

  function Window(series: seq<BalancePoint>, range: TrendRange, now: int): TrendWindow {
    var start := WindowStart(series, range, now);
    TrendWindow(start, now, FinalBalance(Filter(series, Before(start))), Filter(series, Between(start, now)))
  }

  function Changes(points: seq<BalancePoint>): seq<int> { seq(|points|, i requires 0 <= i < |points| => points[i].change) }

  lemma PrefixIsSeries(series: seq<BalancePoint>, n: nat)
    requires IsSeries(series) && n <= |series|
    ensures IsSeries(series[..n])
  {
    forall i | 0 <= i < n ensures Follows(series[..n], i) {
      assert Follows(series, i);
    }
  }

  /** One condition holds in front, the other behind. */
  ghost predicate CutBy(series: seq<BalancePoint>, p: BalancePoint -> bool, q: BalancePoint -> bool) {
    && (forall x :: x in series ==> q(x) == !p(x))
    && (forall i, j :: 0 <= i < j < |series| && p(series[j]) ==> p(series[i]))
  }

  lemma HoldsThroughout(series: seq<BalancePoint>, p: BalancePoint -> bool, q: BalancePoint -> bool)
    requires series != [] && p(series[|series| - 1])
    requires CutBy(series, p, q)
    ensures Filter(series, p) == series && Filter(series, q) == []
  {
    forall x | x in series ensures p(x) {
      var i :| 0 <= i < |series| && series[i] == x;
    }
    FilterAll(series, p);
    FilterNone(series, q);
  }

  lemma CutOfFront(front: seq<BalancePoint>, last: BalancePoint, p: BalancePoint -> bool, q: BalancePoint -> bool)
    requires CutBy(front + [last], p, q)
    ensures CutBy(front, p, q) && q(last) == !p(last)
  {
    var series := front + [last];
    assert series[|front|] == last;
    forall x | x in front ensures q(x) == !p(x) {
      assert x in series;
    }
    forall i, j | 0 <= i < j < |front| && p(front[j]) ensures p(front[i]) {
      assert p(series[j]) && series[i] == front[i];
    }
  }

  /** A condition that never comes back once it is gone cuts a list in two. */
  lemma {:induction false} CutInTwo(series: seq<BalancePoint>, p: BalancePoint -> bool, q: BalancePoint -> bool)
    requires CutBy(series, p, q)
    ensures series == Filter(series, p) + Filter(series, q)
  {
    if series != [] {
      var front, last := series[..|series| - 1], series[|series| - 1];
      assert series == front + [last];
      if p(last) {
        HoldsThroughout(series, p, q);
      } else {
        hide CutBy, Filter;
        CutOfFront(front, last, p, q);
        CutInTwo(front, p, q);
        FilterSnoc(front, last, p);
        FilterSnoc(front, last, q);
      }
    }
  }

  function NotBefore(time: int): BalancePoint -> bool { (p: BalancePoint) => p.at >= time }

  /** In time order the points before, inside and behind a window are three contiguous parts. */
  lemma WindowSplitsSeries(series: seq<BalancePoint>, start: int, now: int)
    requires InTimeOrder(series) && start <= now
    ensures Filter(series, UpTo(now)) == Filter(series, Before(start)) + Filter(series, Between(start, now))
    ensures series == Filter(series, Before(start)) + Filter(series, Between(start, now)) + Filter(series, After(now))
  {
    var seen := Filter(series, UpTo(now));
    CutInTwo(series, UpTo(now), After(now));
    assert seen == series[..|seen|];
    CutInTwo(seen, Before(start), NotBefore(start));
    FilterTwice(series, UpTo(now), Before(start));
    FilterAgree(series, BothHold(UpTo(now), Before(start)), Before(start));
    FilterTwice(series, UpTo(now), NotBefore(start));
    FilterAgree(series, BothHold(UpTo(now), NotBefore(start)), Between(start, now));
  }

  lemma {:induction false} FinalBalanceIsSumOfChanges(series: seq<BalancePoint>)
    requires IsSeries(series)
    ensures FinalBalance(series) == Sum(Changes(series))
  {
    if series != [] {
      var front := series[..|series| - 1];
      PrefixIsSeries(series, |series| - 1);
      FinalBalanceIsSumOfChanges(front);
      assert Changes(series)[..|series| - 1] == Changes(front);
      assert Follows(series, |series| - 1);
    }
  }

  lemma ChangesUpTo(series: seq<BalancePoint>, start: int, now: int)
    requires IsSeries(series) && start <= now
    ensures FinalBalance(Filter(series, Before(start))) + Sum(Changes(Filter(series, Between(start, now))))
            == FinalBalance(Filter(series, UpTo(now)))
  {
    hide Follows, InTimeOrder, Filter, FinalBalance, Before, Between, UpTo, After;
    var before, inside, seen := Filter(series, Before(start)), Filter(series, Between(start, now)), Filter(series, UpTo(now));
    WindowSplitsSeries(series, start, now);
    assert seen == series[..|seen|] && before == series[..|before|];
    PrefixIsSeries(series, |seen|);
    PrefixIsSeries(series, |before|);
    hide IsSeries;
    FinalBalanceIsSumOfChanges(seen);
    FinalBalanceIsSumOfChanges(before);
    assert Changes(seen) == Changes(before) + Changes(inside);
    SumAppend(Changes(before), Changes(inside));
  }

  /** The balance a window starts with and the changes inside it lead to the balance at its end; the
      points shown are a contiguous part of the series, and the range "all" starts at nothing. */
  lemma WindowReconciles(series: seq<BalancePoint>, range: TrendRange, now: int)
    requires IsSeries(series)
    ensures var w := Window(series, range, now);
            && w.startBalance + Sum(Changes(w.points)) == FinalBalance(Filter(series, UpTo(now)))
            && series == Filter(series, Before(w.start)) + w.points + Filter(series, After(now))
            && (range.All? ==> Filter(series, Before(w.start)) == [] && w.startBalance == 0)
  {
    var start := WindowStart(series, range, now);
    ChangesUpTo(series, start, now);
    WindowSplitsSeries(series, start, now);
    if range.All? {
      forall p | p in series ensures p.at >= start {
        var i :| 0 <= i < |series| && series[i] == p;
      }
      FilterNone(series, Before(start));
    }
  }

  /** A window ends now and begins 30 or 90 days ago; the range "all" begins with the first point, and a
      day ago at the latest. It shows the points from its begin to its end. */
  lemma WindowInFull(series: seq<BalancePoint>, range: TrendRange, now: int)
    ensures var w := Window(series, range, now);
            && w.end == now
            && (range == Month ==> w.start == now - 30 * 86_400_000)
            && (range == Quarter ==> w.start == now - 90 * 86_400_000)
            && (range == All ==> w.start == if series != [] && series[0].at <= now - 86_400_000 then series[0].at else now - 86_400_000)
            && (forall p :: p in w.points <==> p in series && w.start <= p.at <= now)
  {
    FilterMembers(series, Between(WindowStart(series, range, now), now));
  }

  /** The balance at a time is that of the last point up to it. */
  lemma BalanceAtPoint(series: seq<BalancePoint>, time: int, k: nat)
    requires IsSeries(series) && k < |series|
    requires series[k].at <= time && forall j :: k < j < |series| ==> time < series[j].at
    ensures FinalBalance(Filter(series, UpTo(time))) == series[k].balance
  {
    var front, rest := series[..k + 1], series[k + 1..];
    assert series == front + rest;
    FilterAppend(front, rest, UpTo(time));
    FilterAll(front, UpTo(time));
    FilterNone(rest, UpTo(time));
  }

  // ---------------------------------------------------------------- forecast

  const FORECAST_BASIS_DAYS := 30.0
  const FORECAST_MIN_HISTORY_DAYS := 7.0
  const FORECAST_HORIZONS := [7, 30]

  datatype Expected = Expected(days: int, at: int, balance: int)

  datatype BalanceForecast = BalanceForecast(perDay: real, basisDays: int, points: seq<Expected>)

  /** Half-way values go up, as `Math.round` has it. */
  function Round(x: real): int { (x + 0.5).Floor }

  function HistoryDays(series: seq<BalancePoint>, now: int): real
    requires series != []
  {
    (now - series[0].at) as real / DAY as real
  }

  /** The days the estimate is made from, before they are rounded for display. */
  function Basis(series: seq<BalancePoint>, now: int): real
    requires series != []
  {
    var days := HistoryDays(series, now);
    if days < FORECAST_BASIS_DAYS then days else FORECAST_BASIS_DAYS
  }

  function BeforeMoment(time: real): BalancePoint -> bool { (p: BalancePoint) => p.at as real < time }

  function Forecast(series: seq<BalancePoint>, now: int): Option<BalanceForecast> {
    if series == [] || HistoryDays(series, now) < FORECAST_MIN_HISTORY_DAYS then None
    else
      var days := Basis(series, now);
      var since := now as real - days * DAY as real;
      var before := FinalBalance(Filter(series, BeforeMoment(since)));
      var current := FinalBalance(Filter(series, UpTo(now)));
      var perDay := (current - before) as real / days;
      Some(BalanceForecast(perDay, Round(days),
        seq(|FORECAST_HORIZONS|, i requires 0 <= i < |FORECAST_HORIZONS| =>
          var ahead := FORECAST_HORIZONS[i];
          Expected(ahead, now + ahead * DAY, Round(current as real + perDay * ahead as real)))))
  }

  /** The first moment the estimate looks at: 30 days back, or the first point when there are less. */
  function BasisStart(series: seq<BalancePoint>, now: int): int
    requires series != []
  {
    if HistoryDays(series, now) < FORECAST_BASIS_DAYS then series[0].at else now - 30 * DAY
  }

  lemma BasisStartIsExact(series: seq<BalancePoint>, now: int)
    requires series != []
    ensures now as real - Basis(series, now) * DAY as real == BasisStart(series, now) as real
  {
  }

  /** The estimate is what really happened in the basis period, spread over its days. */
  lemma ForecastReconciles(series: seq<BalancePoint>, now: int)
    requires IsSeries(series) && Forecast(series, now).Some?
    ensures FORECAST_MIN_HISTORY_DAYS <= Basis(series, now) <= FORECAST_BASIS_DAYS
    ensures Forecast(series, now).value.perDay * Basis(series, now)
            == Sum(Changes(Filter(series, Between(BasisStart(series, now), now)))) as real
  {
    hide IsSeries, Filter, Changes, Sum, FinalBalance;
    var start, days := BasisStart(series, now), Basis(series, now);
    BasisStartIsExact(series, now);
    FilterAgree(series, BeforeMoment(now as real - days * DAY as real), Before(start));
    assert start <= now;
    ChangesUpTo(series, start, now);
    var change := Sum(Changes(Filter(series, Between(start, now))));
    assert Forecast(series, now).value.perDay == change as real / days;
    assert change as real / days * days == change as real;
  }

  /** The nearest whole number, and of two equally near ones the greater. */
  predicate Rounds(x: real, whole: int) { x - 0.5 < whole as real <= x + 0.5 }

  /** There is no forecast before a week of history. From then on it says what the balance, as point k has
      it, will be in 7 and in 30 days at the daily rate, in whole points; and the rate is taken from the
      history, but from 30 days of it at most. */
  lemma ForecastInFull(series: seq<BalancePoint>, now: int, k: nat)
    requires IsSeries(series) && k < |series|
    requires series[k].at <= now && forall j :: k < j < |series| ==> now < series[j].at
    ensures var forecast, week := Forecast(series, now), 7 * 86_400_000;
            && (forecast.None? <==> now - series[0].at < week)
            && (forecast.Some? ==>
                  var f := forecast.value;
                  && |f.points| == 2
                  && f.points[0].days == 7 && f.points[0].at == now + week
                  && Rounds(series[k].balance as real + f.perDay * 7.0, f.points[0].balance)
                  && f.points[1].days == 30 && f.points[1].at == now + 30 * 86_400_000
                  && Rounds(series[k].balance as real + f.perDay * 30.0, f.points[1].balance)
                  && Rounds(Basis(series, now), f.basisDays)
                  && Basis(series, now) * 86_400_000.0 ==
                       if now - series[0].at < 30 * 86_400_000 then (now - series[0].at) as real else 30.0 * 86_400_000.0)
  {
    BalanceAtPoint(series, now, k);
    hide IsSeries, Filter, FinalBalance;
    HistoryInDays(series, now);
    if Forecast(series, now).Some? {
      var f := Forecast(series, now).value;
      assert f.perDay * (7 as real) == f.perDay * 7.0 && f.perDay * (30 as real) == f.perDay * 30.0;
      RoundRounds(series[k].balance as real + f.perDay * 7.0);
      RoundRounds(series[k].balance as real + f.perDay * 30.0);
      RoundRounds(Basis(series, now));
    }
  }

  lemma HistoryInDays(series: seq<BalancePoint>, now: int)
    requires series != []
    ensures HistoryDays(series, now) * 86_400_000.0 == (now - series[0].at) as real
  {
  }

  lemma RoundRounds(x: real)
    ensures Rounds(x, Round(x))
  {
  }

  /** With the rounded number of days that the forecast reports, the same product is the real change
      only when the days are whole (as they are from 30 days of history on) or nothing changed. */
  lemma ReportedDaysReconcileIff(series: seq<BalancePoint>, now: int)
    requires series != [] && IsSeries(series) && Forecast(series, now).Some?
    ensures var change := Sum(Changes(Filter(series, Between(BasisStart(series, now), now))));
            var f := Forecast(series, now).value;
            f.perDay * f.basisDays as real == change as real <==>
              change == 0 || Basis(series, now) == Basis(series, now).Floor as real
    ensures HistoryDays(series, now) >= FORECAST_BASIS_DAYS ==> Forecast(series, now).value.basisDays == 30
  {
    hide *;
    DaysAreRounded(series, now);
    ForecastReconciles(series, now);
    RoundedProductIff(Forecast(series, now).value.perDay, Basis(series, now),
                      Sum(Changes(Filter(series, Between(BasisStart(series, now), now)))));
  }

  /** A witness: one point of ten, read seven and a half days later. The rate is ten in 7.5 days; times
      the 8 days that are reported it is not ten. */
  lemma HalfADayTooMuch()
    ensures var series, now := [BalancePoint(0, 10, 10, "x")], 15 * DAY / 2;
            var f := Forecast(series, now);
            && IsSeries(series) && f.Some? && Basis(series, now) == 7.5 && f.value.basisDays == 8
            && f.value.perDay * f.value.basisDays as real
               != Sum(Changes(Filter(series, Between(BasisStart(series, now), now)))) as real
  {
    var point := BalancePoint(0, 10, 10, "x");
    var series, now := [point], 15 * DAY / 2;
    assert Follows(series, 0);
    TenInTheBasis(point);
    assert Forecast(series, now).Some?;
    hide Forecast, Round, Filter, Changes, Sum, BasisStart, IsSeries;
    DaysAreRounded(series, now);
    SevenAndAHalf();
    ReportedDaysReconcileIff(series, now);
  }

  lemma TenInTheBasis(point: BalancePoint)
    requires point.at == 0 && point.change == 10
    ensures var series, now := [point], 15 * DAY / 2;
            && HistoryDays(series, now) == Basis(series, now) == 7.5
            && Sum(Changes(Filter(series, Between(BasisStart(series, now), now)))) == 10
  {
    var series, now := [point], 15 * DAY / 2;
    assert series[..0] == [];
    assert Filter(series, Between(BasisStart(series, now), now)) == [point];
    assert Changes([point]) == [10] && [10][..0] == [];
  }

  lemma SevenAndAHalf()
    ensures Round(7.5) == 8 && 7.5.Floor == 7
  {
  }

  lemma DaysAreRounded(series: seq<BalancePoint>, now: int)
    requires Forecast(series, now).Some?
    ensures Forecast(series, now).value.basisDays == Round(Basis(series, now)) && Basis(series, now) > 0.0
    ensures HistoryDays(series, now) >= FORECAST_BASIS_DAYS ==> Round(Basis(series, now)) == 30
  {
    hide Filter, Round;
    ThirtyIsRound();
  }

  lemma ThirtyIsRound()
    ensures Round(30.0) == 30
  {
  }

  lemma RoundedProductIff(perDay: real, days: real, change: int)
    requires days > 0.0 && perDay * days == change as real
    ensures perDay * Round(days) as real == change as real <==> change == 0 || days == days.Floor as real
  {
    hide Round;
    ProductsAgreeIff(perDay, days, Round(days) as real);
    WholeIffRoundedIsSame(days);
    ProductIsZeroIff(perDay, days);
  }

  lemma ProductsAgreeIff(x: real, a: real, b: real)
    ensures x * a == x * b <==> x == 0.0 || a == b
  {
    assert x * a - x * b == x * (a - b);
    if x != 0.0 && x * (a - b) == 0.0 {
      assert a - b == 0.0 / x;
    }
  }

  lemma ProductIsZeroIff(x: real, a: real)
    requires a != 0.0
    ensures x * a == 0.0 <==> x == 0.0
  {
    if x * a == 0.0 {
      assert x == 0.0 / a;
    }
  }

  lemma WholeIffRoundedIsSame(x: real)
    ensures x == Round(x) as real <==> x == x.Floor as real
  {
    var low, near := x.Floor, (x + 0.5).Floor;
    assert low as real <= x < low as real + 1.0;
    assert near as real <= x + 0.5 < near as real + 1.0;
    if x == near as real {
      assert low == near;
    }
    if x == low as real {
      assert low == near;
    }
  }
}
