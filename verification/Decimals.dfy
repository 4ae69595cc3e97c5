/**
  Decimal arithmetic under the default context: every result is rounded, half to even,
  to 28 significant digits.  The values of one finite history have a common scale s, so a
  value is the integer number of units of 10^-s; rounding depends on the value alone.
*/
module Decimals {

  const PRECISION: nat := 28

  function Pow10(n: nat): (p: nat)
    ensures p > 0
  {
    if n == 0 then 1 else 10 * Pow10(n - 1)
  }

  function Abs(x: int): nat {
    if x < 0 then -x else x
  }

  /** Number of decimal digits of n; 0 has none. */
  function Digits(n: nat): (d: nat)
    ensures n < Pow10(d)
    ensures n > 0 ==> d > 0 && Pow10(d - 1) <= n
  {
    if n == 0 then 0 else 1 + Digits(n / 10)
  }

  /** The multiple of q nearest to x; a tie goes to the even multiple. */
  function NearestMultiple(x: int, q: nat): int
    requires q > 0
  {
    var rest := x % q;
    if 2 * rest < q || (2 * rest == q && x / q % 2 == 0) then x - rest else x - rest + q
  }

  /** It is one of the two multiples around x, the nearer one. */
  lemma NearestIsNeighbour(x: int, q: nat)
    requires q > 0
    ensures var n := NearestMultiple(x, q);
            n % q == 0 && 2 * Abs(n - x) <= q
  {
    var low := x / q;
    assert x - x % q == low * q && (low + 1) * q == low * q + q;
    MultipleHasNoRest(low, q);
    MultipleHasNoRest(low + 1, q);
  }

  /** It is a multiple, no multiple is nearer, and half way between two it is the even one. */
  lemma NearestMultipleIsNearest(x: int, q: nat, m: int)
    requires q > 0
    ensures NearestMultiple(x, q) % q == 0
    ensures Abs(NearestMultiple(x, q) - x) <= Abs(m * q - x)
    ensures 2 * Abs(NearestMultiple(x, q) - x) == q ==> NearestMultiple(x, q) / q % 2 == 0
  {
    var n := NearestMultiple(x, q);
    NearestIsNeighbour(x, q);
    MultiplesAreApart(n, m, q);
    if 2 * (x % q) == q {
      TieIsEven(x, q);
    }
  }

  lemma TieIsEven(x: int, q: nat)
    requires q > 0 && 2 * (x % q) == q
    ensures NearestMultiple(x, q) / q % 2 == 0
  {
    var low := x / q;
    assert x - x % q == low * q && x - x % q + q == (low + 1) * q;
    QuotientIsUnique(low * q, low, 0, q);
    QuotientIsUnique((low + 1) * q, low + 1, 0, q);
  }

  /** Different multiples of q are at least q apart. */
  lemma MultiplesAreApart(n: int, m: int, q: nat)
    requires q > 0 && n % q == 0
    ensures n == m * q || Abs(n - m * q) >= q
  {
    var d := n / q - m;
    assert n == n / q * q;
    assert d * q == n - m * q;
    StepsOf(d, q);
  }

  lemma MultipleHasNoRest(m: int, q: nat)
    requires q > 0
    ensures m * q % q == 0
  {
    QuotientIsUnique(m * q, m, 0, q);
  }

  lemma QuotientIsUnique(x: int, m: int, rest: int, q: nat)
    requires q > 0 && 0 <= rest < q && x == m * q + rest
    ensures x / q == m && x % q == rest
  {
    var d := x / q - m;
    assert d * q == rest - x % q;
    StepsOf(d, q);
  }

  lemma StepsOf(d: int, q: int)
    requires q > 0
    ensures d >= 1 ==> d * q >= q
    ensures d <= -1 ==> d * q <= -q
  {
    assert (d - 1) * q == d * q - q && (d + 1) * q == d * q + q;
    assert d >= 1 ==> (d - 1) * q >= 0;
    assert d <= -1 ==> (d + 1) * q <= 0;
  }

  /** Units of the last digit kept when x is rounded to p digits. */
  function Quantum(p: nat, x: int): (q: nat)
    ensures q > 0
  {
    var d := Digits(Abs(x));
    if d <= p then 1 else Pow10(d - p)
  }

  function RoundTo(p: nat, x: int): int {
    NearestMultiple(x, Quantum(p, x))
  }

  function RoundToContext(x: int): int { RoundTo(PRECISION, x) }

  function ContextAdd(a: int, b: int): int { RoundToContext(a + b) }

  function ContextMul(a: int, b: int): int { RoundToContext(a * b) }

  /** Rounding keeps a value exactly when its digits past the p-th are zero. */
  lemma ExactIff(p: nat, x: int)
    ensures RoundTo(p, x) == x <==> x % Quantum(p, x) == 0
  {
  }

  /** 10^28: every value up to it in magnitude survives rounding. */
  const LIMIT: nat := 10_000_000_000_000_000_000_000_000_000

  lemma LimitIsPow10()
    ensures LIMIT == Pow10(PRECISION)
  {
    assert Pow10(7) == 10_000_000;
    PowOfSum(7, 7);
    PowOfSum(14, 14);
  }

  lemma {:induction false} PowOfSum(a: nat, b: nat)
    ensures Pow10(a + b) == Pow10(a) * Pow10(b)
  {
    if a > 0 {
      PowOfSum(a - 1, b);
      assert Pow10(a + b) == 10 * (Pow10(a - 1) * Pow10(b));
    }
  }

  lemma {:induction false} PowMonotone(a: nat, b: nat)
    requires a <= b
    ensures Pow10(a) <= Pow10(b)
  {
    if a < b {
      PowMonotone(a, b - 1);
    }
  }

  /** 10^(d-1) <= n < 10^d fixes d. */
  lemma DigitsOf(n: nat, d: nat)
    requires d > 0 && Pow10(d - 1) <= n < Pow10(d)
    ensures Digits(n) == d
  {
    var e := Digits(n);
    if e < d {
      PowMonotone(e, d - 1);
    }
    if d < e {
      PowMonotone(d, e - 1);
    }
  }

  lemma TensDivide(k: nat, x: int)
    requires k > 0 && Abs(x) == Pow10(k)
    ensures x % 10 == 0
  {
    var tenth: int := Pow10(k - 1);
    QuotientIsUnique(x, if x < 0 then 0 - tenth else tenth, 0, 10);
  }

  /** Only 10^p itself needs one digit more, and that digit is zero. */
  lemma OneDigitMore(p: nat, x: int)
    requires p > 0 && Abs(x) <= Pow10(p) && Digits(Abs(x)) > p
    ensures Abs(x) == Pow10(p) && Quantum(p, x) == 10
  {
    PowMonotone(p, Digits(Abs(x)) - 1);
    assert Pow10(p) < Pow10(p + 1);
    DigitsOf(Abs(x), p + 1);
    assert Pow10(1) == 10;
  }

  lemma WithinPrecision(p: nat, x: int)
    requires p > 0 && Abs(x) <= Pow10(p)
    ensures RoundTo(p, x) == x
  {
    if Digits(Abs(x)) > p {
      OneDigitMore(p, x);
      TensDivide(p, x);
    }
    ExactIff(p, x);
  }

  /** A value of more than 28 digits goes to the nearest multiple of the 28th. */
  lemma RoundsToDigits(x: int, d: nat)
    requires d > 28 && Pow10(d - 1) <= Abs(x) < Pow10(d)
    ensures RoundToContext(x) == NearestMultiple(x, Pow10(d - 28))
  {
    DigitsOf(Abs(x), d);
  }

  lemma ExactWithinLimit(x: int)
    requires Abs(x) <= LIMIT
    ensures RoundToContext(x) == x
  {
    LimitIsPow10();
    WithinPrecision(PRECISION, x);
  }

  lemma RoundsDown(x: int, low: int, q: nat)
    requires low * q <= x && 2 * (x - low * q) < q
    ensures NearestMultiple(x, q) == low * q
    ensures NearestMultiple(x, q) == x - (x - low * q)
  {
    QuotientIsUnique(x, low, x - low * q, q);
  }

  lemma PastPrecision(p: nat, big: nat)
    requires p > 0 && big == Pow10(p)
    ensures RoundTo(p, big + 1) == big
  {
    var x := big + 1;
    var low := Pow10(p - 1);
    assert big == 10 * low;
    assert Pow10(p + 1) == 10 * big;
    DigitsOf(x, p + 1);
    assert Quantum(p, x) == Pow10(1);
    RoundsDown(x, low, 10);
  }

  /** The first value past the limit is lost, so the limit cannot be raised. */
  lemma LimitIsTight()
    ensures ContextAdd(LIMIT, 1) == LIMIT
  {
    LimitIsPow10();
    PastPrecision(PRECISION, LIMIT);
  }
}
