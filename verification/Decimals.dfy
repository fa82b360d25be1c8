/** Decimal digits of a natural number, as values, and back. */
module Decimals {
  /** n in w digits, most significant first; what does not fit is cut off at the front. */
  function Digits(n: nat, w: nat): (d: seq<nat>)
    ensures |d| == w && forall i | 0 <= i < w :: d[i] < 10
  {
    if w == 0 then [] else Digits(n / 10, w - 1) + [n % 10]
  }

  function Value(d: seq<nat>): nat {
    if d == [] then 0 else 10 * Value(d[..|d| - 1]) + d[|d| - 1]
  }

  /** How many digits n takes. */
  function Width(n: nat): (w: nat)
    ensures w >= 1
  {
    if n < 10 then 1 else 1 + Width(n / 10)
  }

  function Pow10(w: nat): nat { if w == 0 then 1 else 10 * Pow10(w - 1) }

  lemma {:induction false} DigitsValue(n: nat, w: nat)
    requires n < Pow10(w)
    ensures Value(Digits(n, w)) == n
  {
    if w > 0 {
      DigitsValue(n / 10, w - 1);
      assert Digits(n, w)[..w - 1] == Digits(n / 10, w - 1);
    }
  }

  lemma {:induction false} WidthBound(n: nat, w: nat)
    requires w >= 1
    ensures Width(n) <= w <==> n < Pow10(w)
  {
    if w == 1 {
      assert Pow10(1) == 10 * Pow10(0) == 10;
    } else if n < 10 {
      Pow10AtLeast(w - 1);
    } else {
      WidthBound(n / 10, w - 1);
    }
  }

  lemma {:induction false} Pow10AtLeast(w: nat)
    ensures Pow10(w) >= 1
  {
    if w > 0 { Pow10AtLeast(w - 1); }
  }

  /** In its own width a number has no leading zero, unless it is zero. */
  lemma {:induction false} NoLeadingZero(n: nat)
    ensures Digits(n, Width(n))[0] == 0 <==> n == 0
  {
    if n < 10 {
      assert Digits(n, 1) == [] + [n % 10];
    } else {
      NoLeadingZero(n / 10);
    }
  }

  /** In its own width a number keeps its value. */
  lemma OwnWidth(n: nat)
    ensures Value(Digits(n, Width(n))) == n
  {
    WidthBound(n, Width(n));
    DigitsValue(n, Width(n));
  }
}
