/** Textual LSNs: two hexadecimal halves, as section 8.20 of the PostgreSQL 16 documentation has them. */
module Lsn {
  import opened Prelude

  const HALF: nat := 0x1_0000_0000
  const SLASH: byte := 47

  function Digit(d: nat): byte
    requires d < 16
  {
    if d < 10 then 48 + d else 55 + d
  }

  /** A hexadecimal digit of either case. */
  function DigitValue(b: byte): Option<nat> {
    if 48 <= b <= 57 then Some(b - 48)
    else if 65 <= b <= 70 then Some(b - 55)
    else if 97 <= b <= 102 then Some(b - 87)
    else None
  }

  /** Upper-case hexadecimal without leading zeros. */
  function Hex(n: nat): (t: Text)
    ensures t != [] && SLASH !in t
  {
    if n < 16 then [Digit(n)] else Hex(n / 16) + [Digit(n % 16)]
  }

  /** The value of plain hexadecimal digits. */
  function HexValue(t: Text): Option<nat> {
    if t == [] then None
    else
      match DigitValue(t[|t| - 1])
      case None => None
      case Some(d) =>
        if |t| == 1 then Some(d)
        else match HexValue(t[..|t| - 1]) case None => None case Some(rest) => Some(16 * rest + d)
  }

  /** Bitwise or. */
  function Or(a: nat, b: nat): nat {
    if a == 0 && b == 0 then 0
    else 2 * Or(a / 2, b / 2) + (if a % 2 == 1 || b % 2 == 1 then 1 else 0)
  }

  function FormatLsn(n: nat): Text { Hex(n / HALF) + [SLASH] + Hex(n % HALF) }

  /** The high half shifted, or-ed with the low half; the low half is not checked to fit 32 bits. */
  function ParseLsn(t: Text): Result<nat> {
    var parts := Split(t, SLASH);
    if |parts| != 2 then Err(WalfluxError)
    else
      match (HexValue(parts[0]), HexValue(parts[1]))
      case (Some(high), Some(low)) => Ok(Or(high * HALF, low))
      case _ => Err(WalfluxError)
  }

  // ---- round trip --------------------------------------------------------------------

  lemma {:induction false} HexReadsBack(n: nat)
    ensures HexValue(Hex(n)) == Some(n)
  {
    if n >= 16 {
      HexReadsBack(n / 16);
      var t := Hex(n);
      assert t[..|t| - 1] == Hex(n / 16);
    }
  }

  function Pow2(k: nat): (p: nat)
    ensures p > 0
  {
    if k == 0 then 1 else 2 * Pow2(k - 1)
  }

  /** Disjoint bits add. */
  lemma {:induction false} OrAdds(high: nat, k: nat, low: nat)
    requires low < Pow2(k)
    ensures Or(high * Pow2(k), low) == high * Pow2(k) + low
    decreases k
  {
    if k == 0 {
      OrZero(high);
    } else {
      var half := high * Pow2(k - 1);
      assert high * Pow2(k) == 2 * half;
      OrAdds(high, k - 1, low / 2);
      OrHalves(half, low);
    }
  }

  lemma OrHalves(half: nat, low: nat)
    ensures Or(2 * half, low) == 2 * Or(half, low / 2) + low % 2
  {
    assert 2 * half / 2 == half && 2 * half % 2 == 0;
  }

  lemma {:induction false} OrZero(a: nat)
    ensures Or(a, 0) == a
  {
    if a > 0 {
      OrZero(a / 2);
    }
  }

  lemma HalfIsPow2()
    ensures HALF == Pow2(32)
  {
    assert Pow2(8) == 256;
    assert Pow2(16) == 65536;
    assert Pow2(24) == 16777216;
  }

  lemma ParseOfHalves(a: Text, b: Text, high: nat, low: nat)
    requires SLASH !in a && SLASH !in b && HexValue(a) == Some(high) && HexValue(b) == Some(low)
    ensures ParseLsn(a + [SLASH] + b) == Ok(Or(high * HALF, low))
  {
    SplitAt(a, b, SLASH);
  }

  lemma HalvesAdd(high: nat, low: nat)
    requires low < HALF
    ensures Or(high * HALF, low) == high * HALF + low
  {
    HalfIsPow2();
    OrAdds(high, 32, low);
  }

  /** parse_lsn(format_lsn(n)) == n, for every n. */
  lemma ParseInvertsFormat(n: nat)
    ensures ParseLsn(FormatLsn(n)) == Ok(n)
  {
    HexReadsBack(n / HALF);
    HexReadsBack(n % HALF);
    ParseOfHalves(Hex(n / HALF), Hex(n % HALF), n / HALF, n % HALF);
    HalvesAdd(n / HALF, n % HALF);
  }

  /** Any two plain halves of which the low one fits 32 bits: the value is high * 2^32 + low. */
  lemma ParseValue(a: Text, b: Text, high: nat, low: nat)
    requires HexValue(a) == Some(high) && HexValue(b) == Some(low) && low < 0x1_0000_0000
    requires '/' as int !in a && '/' as int !in b
    ensures ParseLsn(a + ['/' as int] + b) == Ok(high * 0x1_0000_0000 + low)
  {
    ParseOfHalves(a, b, high, low);
    HalvesAdd(high, low);
  }

  /** Integer order is the lexicographic order of the halves. */
  lemma OrderIsLexicographic(m: nat, n: nat)
    ensures m < n <==> m / HALF < n / HALF || (m / HALF == n / HALF && m % HALF < n % HALF)
  {
    assert m == m / HALF * HALF + m % HALF && n == n / HALF * HALF + n % HALF;
  }

  /** Texts are as different as the positions they stand for. */
  lemma FormatIsInjective(m: nat, n: nat)
    requires FormatLsn(m) == FormatLsn(n)
    ensures m == n
  {
    ParseInvertsFormat(m);
    ParseInvertsFormat(n);
  }

  lemma UpperDigits(d: nat)
    requires d < 16
    ensures Digit(d) == Ascii("0123456789ABCDEF")[d]
  {
    assert Ascii("0123456789ABCDEF") == [48, 49, 50, 51, 52, 53, 54, 55, 56, 57, 65, 66, 67, 68, 69, 70];
  }

  lemma LowerDigits(d: nat)
    requires d < 16
    ensures DigitValue(Ascii("0123456789abcdef")[d]) == Some(d)
  {
    assert Ascii("0123456789abcdef") == [48, 49, 50, 51, 52, 53, 54, 55, 56, 57, 97, 98, 99, 100, 101, 102];
  }

  /** The hexadecimal digits: upper case is written, either case is read. */
  lemma DigitsAre(d: nat)
    requires d < 16
    ensures Digit(d) == Ascii("0123456789ABCDEF")[d]
    ensures DigitValue(Ascii("0123456789ABCDEF")[d]) == DigitValue(Ascii("0123456789abcdef")[d]) == Some(d)
  {
    UpperDigits(d);
    LowerDigits(d);
  }

  /** What is written of one half: upper-case digits without a leading zero. */
  lemma {:induction false} HexLooks(n: nat)
    ensures forall i :: 0 <= i < |Hex(n)| ==> Hex(n)[i] in Ascii("0123456789ABCDEF")
    ensures Hex(n)[0] == '0' as int ==> n == 0 && |Hex(n)| == 1
  {
    DigitsAre(n % 16);
    if n >= 16 {
      HexLooks(n / 16);
    }
  }

  lemma HexAppends(t: Text, b: byte, d: nat)
    requires DigitValue(b) == Some(d) && HexValue(t).Some?
    ensures HexValue([b]) == Some(d) && HexValue(t + [b]) == Some(16 * HexValue(t).value + d)
  {
    assert (t + [b])[..|t|] == t;
  }

  /** A digit alone is its value; one more digit makes sixteen times the number, and the digit. */
  lemma HexReadsOn(t: Text, b: byte, d: nat)
    requires d < 16 && (b == Ascii("0123456789ABCDEF")[d] || b == Ascii("0123456789abcdef")[d]) && HexValue(t).Some?
    ensures HexValue([b]) == Some(d) && HexValue(t + [b]) == Some(16 * HexValue(t).value + d)
  {
    DigitsAre(d);
    HexAppends(t, b, d);
  }

  predicate Bit(n: nat, k: nat) {
    if k == 0 then n % 2 == 1 else Bit(n / 2, k - 1)
  }

  lemma OrStep(a: nat, b: nat)
    ensures Or(a, b) / 2 == Or(a / 2, b / 2) && (Or(a, b) % 2 == 1 <==> a % 2 == 1 || b % 2 == 1)
  {
  }

  /** The halves are joined bit by bit, whatever they are. */
  lemma {:induction false} OrIsBitwise(a: nat, b: nat, k: nat)
    ensures Bit(Or(a, b), k) <==> Bit(a, k) || Bit(b, k)
    decreases k
  {
    OrStep(a, b);
    if k > 0 {
      OrIsBitwise(a / 2, b / 2, k - 1);
    }
  }
}
