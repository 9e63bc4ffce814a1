/** The decimal text an f-string gives a counting number, as used in the refs `m1`, `t1`, ... */
module Decimal {
  const DIGITS := ['0', '1', '2', '3', '4', '5', '6', '7', '8', '9']

  function Text(n: nat): string {
    if n < 10 then [DIGITS[n]] else Text(n / 10) + [DIGITS[n % 10]]
  }

  function DigitValue(c: char): nat {
    if '0' <= c <= '9' then (c - '0') as nat else 0
  }

  function Value(s: string): nat {
    if s == [] then 0 else 10 * Value(s[..|s| - 1]) + DigitValue(s[|s| - 1])
  }

  lemma {:induction false} ValueOfText(n: nat)
    ensures Value(Text(n)) == n
  {
    if n < 10 {
      assert Text(n)[..0] == [];
    } else {
      ValueOfText(n / 10);
      assert Text(n)[|Text(n)| - 1] == DIGITS[n % 10] && DigitValue(DIGITS[n % 10]) == n % 10;
      assert Text(n)[..|Text(n)| - 1] == Text(n / 10);
    }
  }

  /** Two counting numbers never print alike, so numbered refs never collide. */
  lemma TextInjective(m: nat, n: nat)
    requires Text(m) == Text(n)
    ensures m == n
  {
    ValueOfText(m);
    ValueOfText(n);
  }

  /** The ref with the given prefix and number: `m1`, `t1`, ... */
  function Ref(prefix: char, n: nat): string { [prefix] + Text(n) }

  lemma RefInjective(prefix: char, m: nat, n: nat)
    ensures Ref(prefix, m) == Ref(prefix, n) <==> m == n
  {
    if Ref(prefix, m) == Ref(prefix, n) {
      assert Ref(prefix, m)[1..] == Text(m) && Ref(prefix, n)[1..] == Text(n);
      TextInjective(m, n);
    }
  }

  /** A ref is its prefix and the decimal digits of its number, the most significant digit first. */
  lemma RefInDigits(prefix: char, n: nat)
    ensures n < 10 ==> Ref(prefix, n) == [prefix, (48 + n) as char]
    ensures n >= 10 ==> Ref(prefix, n) == Ref(prefix, n / 10) + [(48 + n % 10) as char]
  {
    var d := n % 10;
    assert DIGITS[d] == (48 + d) as char;
  }

  function Pow10(k: nat): (p: nat)
    ensures p >= 1
  {
    if k == 0 then 1 else 10 * Pow10(k - 1)
  }

  lemma {:induction false} TextShape(n: nat, k: nat)
    requires n < Pow10(k) && k >= 1
    ensures 1 <= |Text(n)| <= k && forall c :: c in Text(n) ==> '0' <= c <= '9'
  {
    if n >= 10 {
      assert Pow10(1) == 10;
      TextShape(n / 10, k - 1);
    }
  }
}
