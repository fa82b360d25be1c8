/** Whole-number arithmetic: extremes, multiplication and division, one fact at a time. */
module Division {
  function Max(x: int, y: int): int { if x >= y then x else y }

  function Min(x: int, y: int): int { if x <= y then x else y }

  /** 0, 1, 2 and so on below n. */
  function UpTo(n: nat): (s: set<nat>)
    ensures |s| == n && forall i: nat :: i in s <==> i < n
  {
    if n == 0 then {} else UpTo(n - 1) + {n - 1}
  }

  lemma DivMod(n: nat, d: nat)
    requires d > 0
    ensures n == n / d * d + n % d && n % d < d
  {
  }

  lemma DivUnique(n: nat, d: nat, q: nat, r: nat)
    requires d > 0 && n == q * d + r && r < d
    ensures n / d == q && n % d == r
  {
    DivMod(n, d);
    var k := n / d;
    if k < q { MulMono(k + 1, q, d); } else if q < k { MulMono(q + 1, k, d); }
  }

  lemma MulMono(x: nat, y: nat, d: nat)
    requires x <= y
    ensures x * d <= y * d
  {
  }

  lemma MulLess(x: int, y: int, d: nat)
    requires x * d < y * d
    ensures x < y
  {
  }

  lemma MulSame(d: nat, x: nat, y: nat)
    requires d > 0 && d * x == d * y
    ensures x == y
  {
  }

  /** A quotient against a bound given as a multiple of the divisor. */
  lemma DivAgainst(n: nat, d: nat, q: nat)
    requires d > 0
    ensures n >= q * d <==> n / d >= q
  {
    DivMod(n, d);
    if n >= q * d { MulLess(q, n / d + 1, d); }
    if n / d >= q { MulMono(q, n / d, d); }
  }

  // ------------------------------------------------------------------ greatest common divisors

  function Gcd(a: nat, b: nat): (d: nat)
    requires a > 0 || b > 0
    ensures d > 0
    decreases b
  {
    if b == 0 then a else Gcd(b, a % b)
  }

  lemma {:induction false} GcdDivides(a: nat, b: nat) returns (x: nat, y: nat)
    requires a > 0 || b > 0
    ensures a == x * Gcd(a, b) && b == y * Gcd(a, b)
    decreases b
  {
    if b == 0 {
      x, y := 1, 0;
    } else {
      var u, v := GcdDivides(b, a % b);
      DivMod(a, b);
      Recombine(a / b, u, v, Gcd(a, b));
      x, y := a / b * u + v, u;
    }
  }

  lemma Recombine(q: int, u: int, v: int, d: int)
    ensures q * (u * d) + v * d == (q * u + v) * d
  {
  }

  lemma {:induction false} Bezout(a: nat, b: nat) returns (x: int, y: int)
    requires a > 0 || b > 0
    ensures a * x + b * y == Gcd(a, b)
    decreases b
  {
    if b == 0 {
      x, y := 1, 0;
    } else {
      var u, v := Bezout(b, a % b);
      DivMod(a, b);
      BezoutStep(a, b, a / b, a % b, u, v);
      x, y := v, u - a / b * v;
    }
  }

  lemma BezoutStep(a: int, b: int, q: int, m: int, u: int, v: int)
    requires a == q * b + m
    ensures a * v + b * (u - q * v) == b * u + m * v
  {
    assert (q * b + m) * v == q * b * v + m * v;
    assert b * (u - q * v) == b * u - b * (q * v);
    assert q * b * v == b * (q * v);
  }

  /** Some multiple of a stands exactly one common divisor short of a multiple of b. */
  lemma OneDivisorShort(a: nat, b: nat) returns (i: nat, k: nat)
    requires a > 0 && b > 0
    ensures i * a == k * b + (b - Gcd(a, b))
  {
    var x, y := Bezout(a, b);
    var m := if x < 0 then -x else x;
    MulUp(m, b);
    var i', k' := b * m - x, a * m + y - 1;
    Shifted(a, b, x, y, m, Gcd(a, b));
    GcdAtMost(a, b);
    NotNegative(k', b, i' * a, b - Gcd(a, b));
    i, k := i', k';
  }

  lemma MulUp(m: nat, b: nat)
    requires b > 0
    ensures b * m >= m
  {
  }

  lemma Shifted(a: int, b: int, x: int, y: int, m: int, d: int)
    requires a * x + b * y == d
    ensures (b * m - x) * a == (a * m + y - 1) * b + (b - d)
  {
    assert (b * m - x) * a == b * m * a - x * a;
    assert (a * m + y - 1) * b == a * m * b + y * b - b;
    assert b * m * a == a * m * b;
  }

  lemma GcdAtMost(a: nat, b: nat)
    requires b > 0
    ensures Gcd(a, b) <= b
  {
    var x, y := GcdDivides(a, b);
    if y >= 1 { MulMono(1, y, Gcd(a, b)); }
  }

  lemma GcdOfDivisor(a: nat, b: nat)
    requires a > 0 && b > 0 && b % a == 0
    ensures Gcd(a, b) == a
  {
    if a < b {
      DivUnique(a, b, 0, a);
      assert Gcd(a, b) == Gcd(b, a) == Gcd(a, 0);
    } else {
      ProperDivisor(a, b);
      DivUnique(a, a, 1, 0);
      assert Gcd(a, a) == Gcd(a, 0);
    }
  }

  /** A divisor is the number itself or at most half of it. */
  lemma ProperDivisor(a: nat, b: nat)
    requires a > 0 && b > 0 && b % a == 0
    ensures a == b || 2 * a <= b
  {
    DivMod(b, a);
    var k := b / a;
    assert k != 0;
    if k >= 2 { MulMono(2, k, a); }
  }

  lemma GcdSwaps(a: nat, b: nat)
    requires a > 0 && b > 0
    ensures Gcd(a, b) == Gcd(b, a)
  {
    if a < b {
      DivUnique(a, b, 0, a);
    } else if b < a {
      DivUnique(b, a, 0, b);
    }
  }

  lemma NotNegative(k: int, b: nat, n: int, r: int)
    requires n >= 0 && n == k * b + r && r < b
    ensures k >= 0
  {
    if k < 0 { MulDown(k, b); }
  }

  lemma MulDown(k: int, b: nat)
    requires k <= -1
    ensures k * b + b <= 0
  {
  }

  /** A multiple of a that stays below the next multiple of b is past this one by at most b less the divisor. */
  lemma AtMostOneShort(a: nat, b: nat, i: nat, j: nat)
    requires a > 0 && b > 0 && i * a < (j + 1) * b
    ensures i * a <= j * b + (b - Gcd(a, b))
  {
    var x, y := GcdDivides(a, b);
    Regroup(i, x, Gcd(a, b));
    Regroup(j + 1, y, Gcd(a, b));
    WholeStep(i * x, (j + 1) * y, Gcd(a, b));
    Distribute(j, b);
  }

  lemma Regroup(i: int, x: int, d: int)
    ensures i * (x * d) == i * x * d
  {
  }

  lemma Distribute(j: int, b: int)
    ensures (j + 1) * b == j * b + b
  {
  }

  /** Multiples of d that differ are at least d apart. */
  lemma WholeStep(p: nat, q: nat, d: nat)
    requires p * d < q * d
    ensures p * d + d <= q * d
  {
    MulLess(p, q, d);
    MulMono(p + 1, q, d);
    Distribute(p, d);
  }
}
