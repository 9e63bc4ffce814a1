/** The tick marks of the balance axis. */
module TrendAxis {
  import opened Decimal

  const COUNT := 4

  /** The largest power of ten that is at most a quarter of the span. */
  function PowerOf(span: int): (power: int)
    requires span >= COUNT
    ensures COUNT * power <= span < COUNT * 10 * power
    ensures exists k: nat :: power == Pow10(k)
  {
    if span < COUNT * 10 then
      assert Pow10(0) == 1;
      1
    else
      var smaller := PowerOf(span / 10);
      assert exists k: nat :: 10 * smaller == Pow10(k) by {
        var k: nat :| smaller == Pow10(k);
        assert Pow10(k + 1) == 10 * smaller;
      }
      10 * smaller
  }

  /** The first of 1, 2, 5 and 10 times the power that is at least a quarter of the span. */
  function StepOf(span: int): int
    requires span >= COUNT
  {
    var power := PowerOf(span);
    if COUNT * power >= span then power
    else if COUNT * 2 * power >= span then 2 * power
    else if COUNT * 5 * power >= span then 5 * power
    else 10 * power
  }

  /** 1, 2 or 5 times a power of ten. */
  ghost predicate Nice(step: int) {
    exists k: nat :: step == Pow10(k) || step == 2 * Pow10(k) || step == 5 * Pow10(k)
  }

  lemma StepIsNice(span: int)
    requires span >= COUNT
    ensures var step := StepOf(span); step > 0 && 8 * step <= 5 * span && span <= COUNT * step
    ensures Nice(StepOf(span))
  {
    var power := PowerOf(span);
    var k: nat :| power == Pow10(k);
    assert 10 * power == Pow10(k + 1);
  }

  lemma {:induction false} PowersRise(k: nat, l: nat)
    requires k < l
    ensures 10 * Pow10(k) <= Pow10(l)
  {
    if k < l - 1 {
      PowersRise(k, l - 1);
    }
  }

  /** No smaller step of this kind is a quarter of the span. */
  lemma StepIsTheSmallest(span: int, step: int)
    requires span >= COUNT && Nice(step) && COUNT * step >= span
    ensures StepOf(span) <= step
  {
    var power := PowerOf(span);
    var k: nat :| power == Pow10(k);
    var l: nat :| step == Pow10(l) || step == 2 * Pow10(l) || step == 5 * Pow10(l);
    if l < k {
      PowersRise(l, k);
    } else if k < l {
      PowersRise(k, l);
    }
  }

  function CeilDiv(a: int, b: int): int
    requires b > 0
  {
    -((-a) / b)
  }

  function NiceTicks(min: int, max: int): seq<int>
    requires max - min >= COUNT
  {
    var step := StepOf(max - min);
    assert step > 0 by { StepIsNice(max - min); }
    var first := min / step * step;
    var wanted := CeilDiv(max - first, step);
    var steps := if wanted < 1 then 1 else wanted;
    seq(steps + 1, i requires 0 <= i < steps + 1 => first + i * step)
  }

  /** Equally spaced ticks around all values, with none to spare at either end and one at zero. */
  ghost predicate Covers(ticks: seq<int>, step: int, min: int, max: int)
    requires |ticks| >= 2
  {
    && (forall i :: 0 <= i < |ticks| - 1 ==> ticks[i + 1] == ticks[i] + step)
    && ticks[0] <= min && max <= ticks[|ticks| - 1]
    && min < ticks[1] && ticks[|ticks| - 2] < max
    && 0 in ticks
  }

  /** For the one way the axis is drawn - zero is inside and the top is at least ten - the ticks are
      equally spaced by 1, 2 or 5 times a power of ten, there are three to six of them, they cover
      all values, and zero is always one of them. */
  lemma TicksAreNice(min: int, max: int)
    requires min <= 0 && max >= 10
    ensures 3 <= |NiceTicks(min, max)| <= 6 && StepOf(max - min) > 0
    ensures Covers(NiceTicks(min, max), StepOf(max - min), min, max)
    ensures Nice(StepOf(max - min))
  {
    var step := StepOf(max - min);
    StepIsNice(max - min);
    hide StepOf, Nice, NiceTicks, Covers, AreSteps;
    var q, steps := TicksAreSteps(min, max, step);
    EquallySpaced(NiceTicks(min, max), q, step, steps, min, max);
  }

  /** Ticks from q steps on, reaching just around all values. */
  ghost predicate AreSteps(ticks: seq<int>, q: int, step: int, steps: int, min: int, max: int) {
    && 2 <= steps <= 5 && |ticks| == steps + 1
    && (forall i :: 0 <= i <= steps ==> ticks[i] == q * step + i * step)
    && q <= 0 && q * step <= min < q * step + step && (steps - 1) * step < max - q * step <= steps * step
  }

  lemma TicksAreSteps(min: int, max: int, step: int) returns (q: int, steps: int)
    requires min <= 0 && max >= 10 && step == StepOf(max - min) > 0
    requires 8 * step <= 5 * (max - min) && max - min <= COUNT * step
    ensures AreSteps(NiceTicks(min, max), q, step, steps, min, max)
  {
    hide StepOf;
    Floors(min, step);
    q := min / step;
    var first := q * step;
    Ceils(max - first, step);
    steps := CeilDiv(max - first, step);
    hide CeilDiv;
    StepsAreFew(min, max, step, first, steps);
  }

  lemma EquallySpaced(ticks: seq<int>, q: int, step: int, steps: int, min: int, max: int)
    requires AreSteps(ticks, q, step, steps, min, max) && step > 0 && max > 0
    ensures 3 <= |ticks| <= 6 && Covers(ticks, step, min, max)
  {
    var first := q * step;
    ZeroIsReached(q, steps, step);
    forall i | 0 <= i < steps ensures ticks[i + 1] == ticks[i] + step {
      Distribute(i + 1, step);
    }
    assert ticks[0] == first + 0 * step && ticks[1] == first + 1 * step;
    assert ticks[-q] == first + -q * step;
  }

  lemma Distribute(n: int, step: int)
    ensures n * step == (n - 1) * step + step
  {
  }

  lemma Floors(a: int, b: int)
    requires b > 0
    ensures a / b * b <= a < a / b * b + b
    ensures a <= 0 ==> a / b <= 0
  {
  }

  lemma Ceils(a: int, b: int)
    requires b > 0
    ensures (CeilDiv(a, b) - 1) * b < a <= CeilDiv(a, b) * b
  {
    Floors(-a, b);
    var q := (-a) / b;
    assert CeilDiv(a, b) * b == -(q * b);
    assert (CeilDiv(a, b) - 1) * b == -(q * b) - b;
  }

  lemma Fewer(a: int, b: int, step: int)
    requires step > 0 && a * step < b * step
    ensures a < b
  {
    assert (b - a) * step > 0;
  }

  lemma StepsAreFew(min: int, max: int, step: int, first: int, steps: int)
    requires step > 0 && 8 * step <= 5 * (max - min) && max - min <= COUNT * step
    requires first <= min < first + step && (steps - 1) * step < max - first <= steps * step
    ensures 2 <= steps <= 5
  {
    Fewer(1, steps, step);
    Fewer(steps - 1, 5, step);
  }

  lemma ZeroIsReached(q: int, steps: int, step: int)
    requires step > 0 && q <= 0 && q * step + steps * step > 0
    ensures 0 <= -q <= steps && q * step + -q * step == 0
  {
    assert (q + steps) * step == q * step + steps * step;
    Fewer(0, q + steps, step);
  }
}
