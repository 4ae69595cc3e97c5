/** convert_value: text cells to values by type, numbers in units of 10^-scale. */
module Conversions {
  import opened Prelude
  import opened Decimals
  import opened Views
  import opened RowMessages
  import opened Protocol

  const BOOL: nat := 16
  const NUMERIC: nat := 1700
  const DOT: byte := 46
  const MINUS: byte := 45
  const NAN: Text := [78, 97, 78]                              // NaN
  const INFINITY: Text := [73, 110, 102, 105, 110, 105, 116, 121]  // Infinity

  predicate IsInt(typeOid: nat) { typeOid in {20, 21, 23, 26} }

  predicate IsFloat(typeOid: nat) { typeOid in {700, 701} }

  /** The value of a run of decimal digits. */
  function DigitsValue(t: Text): Option<nat> {
    if t == [] then None
    else
      var last := t[|t| - 1];
      if !Between(last, 48, 57) then None
      else if |t| == 1 then Some(last - 48)
      else match DigitsValue(t[..|t| - 1]) case None => None case Some(n) => Some(10 * n + (last - 48))
  }

  function Negate(r: Option<nat>, negative: bool): Option<int> {
    match r
    case None => None
    case Some(n) =>
      var m: int := n;
      Some(if negative then -m else m)
  }

  function Unsign(t: Text): Text { if t != [] && t[0] == MINUS then t[1..] else t }

  predicate Negative(t: Text) { t != [] && t[0] == MINUS }

  /** All digits as one number, times the units of the last one; there is no more than one point,
      and there are no more fractional digits than the scale has. */
  function Magnitude(t: Text, scale: nat): Option<nat> {
    var parts := Split(t, DOT);
    if |parts| == 1 then Shifted(DigitsValue(t), scale)
    else if |parts| == 2 && |parts[1]| <= scale then Shifted(DigitsValue(parts[0] + parts[1]), scale - |parts[1]|)
    else None
  }

  function Shifted(r: Option<nat>, places: nat): Option<nat> {
    match r case None => None case Some(n) => Some(n * Pow10(places))
  }

  function NumberOf(t: Text, scale: nat): Result<Value> {
    match Negate(Magnitude(Unsign(t), scale), Negative(t))
    case None => Err(RuntimeError)
    case Some(n) => Ok(Num(n))
  }

  function ConvertValue(scale: nat, text: Text, typeOid: nat): Result<Value> {
    if typeOid == BOOL then Ok(Bool(text == [116]))
    else if IsInt(typeOid) then
      (if DOT in text then Err(RuntimeError) else NumberOf(text, scale))
    else if IsFloat(typeOid) then Ok(Float(text))
    else if typeOid == NUMERIC then
      (if text == NAN || Unsign(text) == INFINITY then Ok(NonFinite(text)) else NumberOf(text, scale))
    else Ok(Txt(text))
  }

  // ---- the server's text form --------------------------------------------------------

  predicate AreDigits(t: Text) { forall i :: 0 <= i < |t| ==> Between(t[i], 48, 57) }

  function Less(width: nat): nat { if width == 0 then 0 else width - 1 }

  /** Decimal digits of n, at least `width` of them. */
  function Padded(n: nat, width: nat): (t: Text)
    ensures |t| >= width && AreDigits(t)
    decreases n, width
  {
    if n == 0 && width == 0 then []
    else Padded(n / 10, Less(width)) + ['0' as int + n % 10]
  }

  /** The magnitude of a numeric(p, s) as the server prints it: s digits after the point, at least
      one before it. */
  function PrintMagnitude(m: nat, scale: nat): Text {
    var digits := Padded(m, scale + 1);
    if scale == 0 then digits else digits[..|digits| - scale] + ['.' as int] + digits[|digits| - scale..]
  }

  function WithSign(negative: bool, body: Text): Text { (if negative then ['-' as int] else []) + body }

  function Print(n: int, scale: nat): Text {
    WithSign(n < 0, PrintMagnitude(Abs(n), scale))
  }

  lemma DigitsSnoc(t: Text, d: nat)
    requires d < 10 && t != []
    ensures DigitsValue(t + [48 + d]) ==
            match DigitsValue(t) case None => None case Some(n) => Some(10 * n + d)
  {
    assert (t + [48 + d])[..|t|] == t;
  }

  lemma DigitAlone(d: nat)
    requires d < 10
    ensures DigitsValue([48 + d]) == Some(d)
  {
  }

  lemma PaddedLast(n: nat, width: nat)
    requires n > 0 || width > 0
    ensures Padded(n, width) == Padded(n / 10, Less(width)) + [48 + n % 10]
    ensures Padded(n / 10, Less(width)) == [] <==> n / 10 == 0 && Less(width) == 0
  {
  }

  /** One more digit after those of m, or alone. */
  lemma DigitsJoin(t: Text, head: Text, d: nat, m: nat, n: nat)
    requires d < 10 && t == head + [48 + d] && n == 10 * m + d
    requires if head == [] then m == 0 else DigitsValue(head) == Some(m)
    ensures DigitsValue(t) == Some(n)
  {
    if head == [] {
      DigitAlone(d);
      assert t == [48 + d];
    } else {
      DigitsSnoc(head, d);
    }
  }

  lemma {:induction false} PaddedReadsBack(n: nat, width: nat)
    requires n > 0 || width > 0
    ensures DigitsValue(Padded(n, width)) == Some(n)
    decreases n, width
  {
    PaddedLast(n, width);
    if n / 10 > 0 || Less(width) > 0 {
      PaddedReadsBack(n / 10, Less(width));
    }
    DigitsJoin(Padded(n, width), Padded(n / 10, Less(width)), n % 10, n / 10, n);
  }

  lemma NotShifted(m: nat)
    ensures Shifted(Some(m), 0) == Some(m)
  {
    assert Pow10(0) == 1;
  }

  lemma PartsReadBack(whole: Text, part: Text, m: nat)
    requires AreDigits(whole) && AreDigits(part) && DigitsValue(whole + part) == Some(m)
    ensures Magnitude(whole + [DOT] + part, |part|) == Some(m)
  {
    SplitAt(whole, part, DOT);
    NotShifted(m);
  }

  lemma WholeReadsBack(digits: Text, m: nat)
    requires AreDigits(digits) && DigitsValue(digits) == Some(m)
    ensures Magnitude(digits, 0) == Some(m)
  {
    SplitWithout(digits, DOT);
    NotShifted(m);
  }

  /** The printed magnitude is read back. */
  lemma MagnitudeReadsBack(m: nat, scale: nat)
    ensures Magnitude(PrintMagnitude(m, scale), scale) == Some(m)
  {
    var digits := Padded(m, scale + 1);
    PaddedReadsBack(m, scale + 1);
    if scale == 0 {
      WholeReadsBack(digits, m);
    } else {
      var whole, part := digits[..|digits| - scale], digits[|digits| - scale..];
      assert whole + part == digits;
      PartsReadBack(whole, part, m);
    }
  }

  lemma StartsWithDigit(m: nat, scale: nat)
    ensures PrintMagnitude(m, scale) != [] && Between(PrintMagnitude(m, scale)[0], 48, 57)
  {
    var digits := Padded(m, scale + 1);
    assert Between(digits[0], 48, 57);
  }

  lemma UnsignWithSign(negative: bool, body: Text)
    requires body != [] && Between(body[0], 48, 57)
    ensures Unsign(WithSign(negative, body)) == body && (Negative(WithSign(negative, body)) <==> negative)
  {
    assert negative ==> WithSign(negative, body)[1..] == body;
    assert !negative ==> WithSign(negative, body) == body;
  }

  lemma NotSpecial(negative: bool, body: Text)
    requires body != [] && Between(body[0], 48, 57)
    ensures WithSign(negative, body) != NAN && body != INFINITY
  {
    assert WithSign(negative, body)[0] == if negative then MINUS else body[0];
    assert NAN[0] == 78 && INFINITY[0] == 73;
  }

  lemma SignedReadsBack(body: Text, negative: bool, m: nat, scale: nat)
    requires body != [] && Between(body[0], 48, 57) && Magnitude(body, scale) == Some(m)
    ensures ConvertValue(scale, WithSign(negative, body), NUMERIC) == Ok(Num(if negative then 0 - m else m))
  {
    UnsignWithSign(negative, body);
    NotSpecial(negative, body);
  }

  /** Every value of a numeric column at the scale survives printing and conversion. */
  lemma NumericReadsBack(n: int, scale: nat)
    ensures ConvertValue(scale, Print(n, scale), 1700) == Ok(Num(n))
  {
    MagnitudeReadsBack(Abs(n), scale);
    StartsWithDigit(Abs(n), scale);
    SignedReadsBack(PrintMagnitude(Abs(n), scale), n < 0, Abs(n), scale);
  }

  /** An integer as the server prints it. */
  function PrintInt(n: int): Text { WithSign(n < 0, Padded(Abs(n), 1)) }

  lemma IntMagnitude(m: nat, scale: nat)
    ensures Magnitude(Padded(m, 1), scale) == Some(m * Pow10(scale))
    ensures DOT !in Padded(m, 1)
  {
    PaddedReadsBack(m, 1);
    SplitWithout(Padded(m, 1), DOT);
  }

  lemma SignOfProduct(n: int, m: nat, power: nat)
    requires m == Abs(n)
    ensures (if n < 0 then -(m * power) else m * power) == n * power
  {
    if n < 0 {
      assert n == 0 - m;
    }
  }

  /** Every value of an int2, int4, int8 or oid column survives printing and conversion. */
  lemma IntReadsBack(n: int, scale: nat, typeOid: nat)
    requires typeOid == 20 || typeOid == 21 || typeOid == 23 || typeOid == 26
    ensures ConvertValue(scale, PrintInt(n), typeOid) == Ok(Num(n * Pow10(scale)))
  {
    var body := Padded(Abs(n), 1);
    IntMagnitude(Abs(n), scale);
    UnsignWithSign(n < 0, body);
    SignOfProduct(n, Abs(n), Pow10(scale));
    assert DOT !in PrintInt(n);
  }

  /** The other values: booleans, the numerics that are no numbers, and what stays as it was sent. */
  lemma OthersReadBack(scale: nat, text: Text, typeOid: nat)
    ensures ConvertValue(scale, Ascii("t"), 16) == Ok(Bool(true))
    ensures ConvertValue(scale, Ascii("f"), 16) == Ok(Bool(false))
    ensures text == Ascii("NaN") || text == Ascii("Infinity") || text == Ascii("-Infinity") ==>
              ConvertValue(scale, text, 1700) == Ok(NonFinite(text))
    ensures typeOid == 700 || typeOid == 701 ==> ConvertValue(scale, text, typeOid) == Ok(Float(text))
    ensures typeOid !in {16, 20, 21, 23, 26, 700, 701, 1700} ==> ConvertValue(scale, text, typeOid) == Ok(Txt(text))
  {
    assert Ascii("f")[0] == 102;
    assert Ascii("NaN") == NAN && Ascii("Infinity") == INFINITY;
    assert Ascii("-Infinity")[1..] == INFINITY;
  }

  /** No conversion yields the marker or NULL: those come from the cell kind alone. */
  lemma ConversionIsPlain(scale: nat, text: Text, typeOid: nat)
    ensures ConvertValue(scale, text, typeOid) != Ok(Unchanged) && ConvertValue(scale, text, typeOid) != Ok(Null)
  {
  }

  /** As used by the daemon, where columns of a relation have different names. */
  lemma ConversionIsSound(scale: nat, columns: seq<Column>)
    requires DistinctColumns(columns)
    ensures Sound((text, typeOid: nat) => ConvertValue(scale, text, typeOid), columns)
  {
  }

  // ---- the program's semantics of values ------------------------------------------------

  /** _as_decimal: the finite decimal of a value, in units of the scale; booleans are 0 and 1, floats and
      text are read as numbers. */
  function DecimalOf(scale: nat, v: Value): Option<int> {
    match v
    case Null => None
    case Unchanged => None
    case Bool(b) => Some(if b then Pow10(scale) else 0)
    case Num(n) => Some(n)
    case NonFinite(_) => None
    case Float(repr) => Negate(Magnitude(Unsign(repr), scale), Negative(repr))
    case Txt(text) => Negate(Magnitude(Unsign(text), scale), Negative(text))
  }

  /** Keys of a dictionary: equal values, but a NaN is no key that was met before. */
  predicate SameKey(a: Key, b: Key) {
    a == b && forall i :: 0 <= i < |a| ==> a[i] != NonFinite(NAN)
  }

  /** Whatever keys the server takes for equal, the program's values meet what is asked of them; so does a
      dictionary that finds no key at all. */
  lemma ProgramSemanticsAreValid(scale: nat, eq: Key -> Key)
    ensures Semantics(eq, SameKey, v => DecimalOf(scale, v)).Valid()
    ensures Semantics(eq, (a, b) => false, v => DecimalOf(scale, v)).Valid()
    ensures !SameKey([NonFinite(NAN)], [NonFinite(NAN)])
  {
    assert [NonFinite(NAN)][0] == NonFinite(NAN);
  }

  lemma SpelledNumber(body: Text, negative: bool, m: nat, scale: nat)
    requires body != [] && Between(body[0], 48, 57) && Magnitude(body, scale) == Some(m)
    ensures var t := WithSign(negative, body);
            Negate(Magnitude(Unsign(t), scale), Negative(t)) == Some(if negative then 0 - m else m)
  {
    UnsignWithSign(negative, body);
  }

  /** A boolean counts as 0 or 1, a float or a text as the number that it spells. */
  lemma DecimalsRead(scale: nat, n: int)
    ensures DecimalOf(scale, Bool(true)) == Some(Pow10(scale)) && DecimalOf(scale, Bool(false)) == Some(0)
    ensures DecimalOf(scale, Txt(Print(n, scale))) == Some(n) && DecimalOf(scale, Float(Print(n, scale))) == Some(n)
  {
    MagnitudeReadsBack(Abs(n), scale);
    StartsWithDigit(Abs(n), scale);
    SpelledNumber(PrintMagnitude(Abs(n), scale), n < 0, Abs(n), scale);
  }
}
