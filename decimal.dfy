/**
 * `decimal.NewFromString` of the shopspring decimal library, which the core uses
 * for its `double` literals and to coerce column text to a decimal. A decimal is
 * an exact rational number, so it is modelled as a `real`: equality and order on
 * the library's decimals are equality and order of the numbers they denote.
 */
module Decimal {
  import opened Wrappers
  import GoText
  import Strconv

  const MinInt32: int := -0x8000_0000
  const MaxInt32: int := 0x7fff_ffff

  /** Ten to the power `e`, for any integer `e`. */
  function Pow10(e: int): (r: real)
    ensures r > 0.0
    decreases if e < 0 then -e else e
  {
    if e == 0 then 1.0
    else if e > 0 then 10.0 * Pow10(e - 1)
    else Pow10(e + 1) / 10.0
  }

  /** The value of a non-empty run of decimal digits; anything else has none. */
  function DigitsValue(s: string): (r: Option<nat>)
    ensures r.Some? <==> s != [] && forall i :: 0 <= i < |s| ==> '0' <= s[i] <= '9'
  {
    if s == [] || !('0' <= s[|s| - 1] <= '9') then None
    else
      var d := s[|s| - 1] as int - '0' as int;
      if |s| == 1 then Some(d)
      else match DigitsValue(s[..|s| - 1])
        case None => None
        case Some(v) => Some(10 * v + d)
  }

  /** `big.Int.SetString(s, 10)`: an optional sign followed by decimal digits. */
  function ParseCoefficient(s: string): (r: Option<int>)
    ensures s == "" ==> r.None?
  {
    if s != [] && (s[0] == '-' || s[0] == '+') then
      match DigitsValue(s[1..])
      case None => None
      case Some(v) => Some(if s[0] == '-' then -(v as int) else v)
    else
      match DigitsValue(s)
      case None => None
      case Some(v) => Some(v)
  }

  /**
   * The last step of `NewFromString`: the coefficient text scaled by ten to `exp`,
   * refused when the exponent does not fit the library's 32-bit exponent.
   */
  function Scaled(intString: string, exp: int): (r: Option<real>)
    ensures r.Some? ==> MinInt32 <= exp <= MaxInt32 && ParseCoefficient(intString).Some?
  {
    if exp < MinInt32 || exp > MaxInt32 then None
    else match ParseCoefficient(intString)
      case None => None
      case Some(c) => Some(ScaledBy(c, exp))
  }

  /**
   * `decimal.NewFromString(s)`. The text after the first `e` or `E` is a base-10
   * `int32` exponent; what comes before it has at most one `.`, whose fractional
   * digits lower the exponent; the digits with the point removed are the coefficient.
   * `None` stands for the library's error.
   */
  function NewFromString(s: string): (r: Option<real>)
    ensures s == "" ==> r.None?
  {
    var (mantissa, exponent) :=
      match GoText.FirstIndexOf(s, {'e', 'E'})
      case None => (s, Strconv.ParseInt("0", 10, 32))
      case Some(k) => (s[..k], Strconv.ParseInt(s[k + 1..], 10, 32));
    if exponent.Err? then None else Mantissa(mantissa, exponent.value)
  }

  /**
   * The text before the exponent: at most one `.`, whose fractional digits lower
   * the exponent `exp`; the digits with the point removed are the coefficient.
   */
  function Mantissa(mantissa: string, exp: int): (r: Option<real>)
    ensures mantissa == "" ==> r.None?
  {
    match GoText.FirstIndexOf(mantissa, {'.'})
    case None => Scaled(mantissa, exp)
    case Some(d) =>
      if '.' in mantissa[d + 1..] then None
      else Scaled(mantissa[..d] + mantissa[d + 1..], exp - (|mantissa| - d - 1))
  }

  /** The digits `FormatUint` writes in base 10 are read back as the same number. */
  lemma {:induction false} DigitsValueFormatUnsigned(m: nat)
    ensures DigitsValue(Strconv.FormatUnsigned(m, 10)) == Some(m)
    decreases m
  {
    var s := Strconv.FormatUnsigned(m, 10);
    if m >= 10 {
      Strconv.DivModBase(m, 10);
      assert s[..|s| - 1] == Strconv.FormatUnsigned(m / 10, 10);
      DigitsValueFormatUnsigned(m / 10);
    }
  }

  /** The base-10 digits of `m` are decimal digits: no sign, point or exponent marker. */
  lemma FormatUnsignedDecimalDigits(m: nat)
    ensures forall i :: 0 <= i < |Strconv.FormatUnsigned(m, 10)| ==> '0' <= Strconv.FormatUnsigned(m, 10)[i] <= '9'
  {
    var digits := Strconv.FormatUnsigned(m, 10);
    forall i | 0 <= i < |digits|
      ensures '0' <= digits[i] <= '9'
    {
      assert Strconv.DigitValue(digits[i]).value < 10;
    }
  }

  /** An optionally signed run of digits has no exponent and no point. */
  lemma SignedDigitsPlain(sign: string, digits: string)
    requires sign == "" || sign == "-"
    requires forall i :: 0 <= i < |digits| ==> '0' <= digits[i] <= '9'
    ensures GoText.FirstIndexOf(sign + digits, {'e', 'E'}) == None
    ensures GoText.FirstIndexOf(sign + digits, {'.'}) == None
  {
    var s := sign + digits;
    forall i | 0 <= i < |s|
      ensures s[i] !in {'e', 'E', '.'}
    {
      if i >= |sign| {
        assert s[i] == digits[i - |sign|];
      }
    }
  }

  /** `%d`'s text for `n` is its sign and digits, and reads back as the coefficient `n`. */
  lemma FormatIntCoefficient(n: int)
    ensures ParseCoefficient(Strconv.FormatInt(n)) == Some(n)
  {
    var m: nat := if n < 0 then -n else n;
    var digits := Strconv.FormatUnsigned(m, 10);
    var sign := if n < 0 then "-" else "";
    assert Strconv.FormatInt(n) == sign + digits;
    DigitsValueFormatUnsigned(m);
    if n < 0 {
      assert (sign + digits)[1..] == digits;
    }
  }

  /** `%d`'s text for `n` has no exponent marker and no point. */
  lemma FormatIntPlain(n: int)
    ensures GoText.FirstIndexOf(Strconv.FormatInt(n), {'e', 'E'}) == None
    ensures GoText.FirstIndexOf(Strconv.FormatInt(n), {'.'}) == None
  {
    var m: nat := if n < 0 then -n else n;
    var digits := Strconv.FormatUnsigned(m, 10);
    var sign := if n < 0 then "-" else "";
    assert Strconv.FormatInt(n) == sign + digits;
    FormatUnsignedDecimalDigits(m);
    SignedDigitsPlain(sign, digits);
  }

  /** Every integer written in decimal, as `fmt`'s `%d` writes it, parses to itself. */
  lemma NewFromStringFormatInt(n: int)
    ensures NewFromString(Strconv.FormatInt(n)) == Some(n as real)
  {
    var s := Strconv.FormatInt(n);
    FormatIntPlain(n);
    NoExponent(s);
    FormatIntCoefficient(n);
    assert Mantissa(s, 0) == Scaled(s, 0);
  }

  lemma ExponentZero()
    ensures Strconv.ParseInt("0", 10, 32) == Ok(0)
  {
    Strconv.ParseIntFormatInt(0, 32);
  }

  /** Text without an exponent marker has the implicit exponent `0`. */
  lemma NoExponent(s: string)
    requires GoText.FirstIndexOf(s, {'e', 'E'}) == None
    ensures NewFromString(s) == Mantissa(s, 0)
  {
    ExponentZero();
  }

  /** A run of decimal digits, possibly empty. */
  predicate IsDigits(s: string) {
    forall i :: 0 <= i < |s| ==> '0' <= s[i] <= '9'
  }

  /** The number a sign (`""`, `"-"` or `"+"`) gives to the magnitude `v`. */
  function Signed(sign: string, v: nat): int {
    if sign == "-" then -(v as int) else v
  }

  /** The integer coefficient `v` scaled by ten to `e`. */
  function ScaledBy(v: int, e: int): real {
    v as real * Pow10(e)
  }

  /** Scaling by ten to `-n` divides by ten to `n`. */
  lemma ScaledByNegative(v: int, n: nat)
    ensures ScaledBy(v, -(n as int)) == v as real / Pow10(n)
  {
    Pow10Negative(n);
  }

  /** Ten to `-n` is the inverse of ten to `n`. */
  lemma {:induction false} Pow10Negative(n: nat)
    ensures Pow10(-(n as int)) * Pow10(n) == 1.0
  {
    if n > 0 {
      var k: int := n;
      Pow10Negative(n - 1);
      assert Pow10(-k) == Pow10(-k + 1) / 10.0;
      assert Pow10(k) == 10.0 * Pow10(k - 1);
    }
  }

  /** A sign followed by a non-empty run of digits is the signed value of those digits. */
  lemma SignedCoefficient(sign: string, digits: string)
    requires sign == "" || sign == "-" || sign == "+"
    requires IsDigits(digits) && digits != ""
    ensures DigitsValue(digits).Some?
    ensures ParseCoefficient(sign + digits) == Some(Signed(sign, DigitsValue(digits).value))
  {
    var s := sign + digits;
    var v := DigitsValue(digits).value;
    if sign == "" {
      assert s == digits;
      assert !(s[0] == '-' || s[0] == '+') by {
        assert s[0] == digits[0];
      }
    } else {
      assert s[0] == sign[0] && s[1..] == digits;
    }
  }

  /** Text without `e` or `E` has the implicit exponent `0`. */
  lemma PlainAt(m: string)
    requires forall i :: 0 <= i < |m| ==> m[i] != 'e' && m[i] != 'E'
    ensures NewFromString(m) == Mantissa(m, 0)
  {
    assert GoText.FirstIndexOf(m, {'e', 'E'}) == None;
    NoExponent(m);
  }

  /**
   * A mantissa whose only `.` is at `d`, with `n` digits after it, is the coefficient
   * the text around the point denotes, scaled by ten to `exp` less `n`.
   */
  lemma PointAt(m: string, d: nat, n: nat, exp: int, c: string, v: int)
    requires d < |m| && m[d] == '.' && |m| - d - 1 == n
    requires forall i :: 0 <= i < |m| && i != d ==> m[i] != '.'
    requires m[..d] + m[d + 1..] == c && ParseCoefficient(c) == Some(v)
    requires MinInt32 <= exp - n <= MaxInt32
    ensures Mantissa(m, exp) == Some(ScaledBy(v, exp - n))
  {
    GoText.FirstIndexOfAt(m, {'.'}, d);
    var tail := m[d + 1..];
    forall i | 0 <= i < |tail|
      ensures tail[i] != '.'
    {
      assert tail[i] == m[d + 1 + i];
    }
    assert Mantissa(m, exp) == Scaled(c, exp - n);
    ScaledAt(c, exp - n, v);
  }

  /**
   * Text whose first exponent marker is at `k` and is followed by the base-10 text of
   * an `int32` `x` is its text before the marker with the exponent `x`.
   */
  lemma ExponentAt(t: string, k: nat, x: int)
    requires k < |t| && t[k] == 'e'
    requires forall j :: 0 <= j < k ==> t[j] != 'e' && t[j] != 'E'
    requires t[k + 1..] == Strconv.FormatInt(x)
    requires MinInt32 <= x <= MaxInt32
    ensures NewFromString(t) == Mantissa(t[..k], x)
  {
    GoText.FirstIndexOfAt(t, {'e', 'E'}, k);
    Strconv.Pow2At31();
    Strconv.ParseIntFormatInt(x, 32);
  }

  /** A coefficient with an exponent that fits 32 bits is the coefficient scaled by ten to it. */
  lemma ScaledAt(c: string, e: int, v: int)
    requires ParseCoefficient(c) == Some(v)
    requires MinInt32 <= e <= MaxInt32
    ensures Scaled(c, e) == Some(ScaledBy(v, e))
  {
    assert ParseCoefficient(c).value == v;
  }

  /** An optionally signed run of digits without a point, such as `007` or `+5`, is that integer. */
  lemma NewFromStringSigned(sign: string, digits: string)
    requires sign == "" || sign == "-" || sign == "+"
    requires IsDigits(digits) && digits != ""
    ensures DigitsValue(digits).Some?
    ensures NewFromString(sign + digits) == Some(Signed(sign, DigitsValue(digits).value) as real)
  {
    var m := sign + digits;
    forall i | 0 <= i < |m|
      ensures m[i] !in {'e', 'E', '.'}
    {
      if i >= |sign| {
        assert m[i] == digits[i - |sign|];
      }
    }
    PlainAt(m);
    assert GoText.FirstIndexOf(m, {'.'}) == None;
    SignedCoefficient(sign, digits);
    var v := Signed(sign, DigitsValue(digits).value);
    ScaledAt(m, 0, v);
    assert ScaledBy(v, 0) == v as real;
  }

  /** A signed run of digits with one point holds no exponent marker and no other point. */
  lemma PointedChars(sign: string, whole: string, frac: string, i: nat)
    requires sign == "" || sign == "-" || sign == "+"
    requires IsDigits(whole) && IsDigits(frac)
    requires i < |sign + whole + "." + frac|
    ensures (sign + whole + "." + frac)[i] != 'e' && (sign + whole + "." + frac)[i] != 'E'
    ensures i != |sign + whole| ==> (sign + whole + "." + frac)[i] != '.'
  {
    if i < |sign| {
      assert (sign + whole + "." + frac)[i] == sign[0];
    } else if i < |sign + whole| {
      assert (sign + whole + "." + frac)[i] == whole[i - |sign|];
    } else if i > |sign + whole| {
      assert (sign + whole + "." + frac)[i] == frac[i - |sign + whole| - 1];
    }
  }

  /** Removing the point from `sign whole.frac` leaves `sign whole frac`. */
  lemma PointRemoved(sign: string, whole: string, frac: string)
    ensures (sign + whole + "." + frac)[|sign + whole|] == '.'
    ensures (sign + whole + "." + frac)[..|sign + whole|] + (sign + whole + "." + frac)[|sign + whole| + 1..]
         == sign + (whole + frac)
  {
    var m := sign + whole + "." + frac;
    assert m[..|sign + whole|] == sign + whole;
    assert m[|sign + whole| + 1..] == frac;
  }

  /** The digits of `whole` followed by those of `frac` are digits. */
  lemma DigitsJoin(whole: string, frac: string)
    requires IsDigits(whole) && IsDigits(frac)
    ensures IsDigits(whole + frac)
  {
    forall i | 0 <= i < |whole + frac|
      ensures '0' <= (whole + frac)[i] <= '9'
    {
      if i >= |whole| {
        assert (whole + frac)[i] == frac[i - |whole|];
      }
    }
  }

  /**
   * The mantissa `sign whole.frac` with the exponent `exp` is the signed digits
   * `whole frac` scaled by ten to `exp` less the number of fractional digits; without
   * an exponent marker the exponent is `0`.
   */
  lemma MantissaPointed(sign: string, whole: string, frac: string, m: string, exp: int)
    requires sign == "" || sign == "-" || sign == "+"
    requires IsDigits(whole) && IsDigits(frac) && whole + frac != ""
    requires m == sign + whole + "." + frac
    requires MinInt32 <= exp - |frac| <= MaxInt32
    ensures DigitsValue(whole + frac).Some?
    ensures Mantissa(m, exp) == Some(ScaledBy(Signed(sign, DigitsValue(whole + frac).value), exp - |frac|))
  {
    PointedShape(sign, whole, frac, m);
    PointAt(m, |sign + whole|, |frac|, exp, sign + (whole + frac), Signed(sign, DigitsValue(whole + frac).value));
  }

  /** `sign whole . frac` has its only point after the whole part, and without it is a coefficient. */
  lemma PointedShape(sign: string, whole: string, frac: string, m: string)
    requires sign == "" || sign == "-" || sign == "+"
    requires IsDigits(whole) && IsDigits(frac) && whole + frac != ""
    requires m == sign + whole + "." + frac
    ensures DigitsValue(whole + frac).Some?
    ensures |sign + whole| < |m| && m[|sign + whole|] == '.' && |m| - |sign + whole| - 1 == |frac|
    ensures forall i :: 0 <= i < |m| && i != |sign + whole| ==> m[i] != '.'
    ensures m[..|sign + whole|] + m[|sign + whole| + 1..] == sign + (whole + frac)
    ensures ParseCoefficient(sign + (whole + frac)) == Some(Signed(sign, DigitsValue(whole + frac).value))
  {
    var d := |sign + whole|;
    forall i | 0 <= i < |m|
      ensures i != d ==> m[i] != '.'
    {
      PointedChars(sign, whole, frac, i);
    }
    PointRemoved(sign, whole, frac);
    DigitsJoin(whole, frac);
    SignedCoefficient(sign, whole + frac);
  }

  /**
   * Every signed decimal written with a point and no exponent is read as its digits
   * divided by ten to the number of fractional digits.
   */
  lemma NewFromStringPointed(sign: string, whole: string, frac: string)
    requires sign == "" || sign == "-" || sign == "+"
    requires IsDigits(whole) && IsDigits(frac) && whole + frac != ""
    requires |frac| <= 0x8000_0000
    ensures DigitsValue(whole + frac).Some?
    ensures NewFromString(sign + whole + "." + frac)
         == Some(Signed(sign, DigitsValue(whole + frac).value) as real / Pow10(|frac|))
  {
    PointedPlain(sign, whole, frac);
    PlainAt(sign + whole + "." + frac);
    MantissaPointed(sign, whole, frac, sign + whole + "." + frac, 0);
    ScaledByNegative(Signed(sign, DigitsValue(whole + frac).value), |frac|);
  }

  /**
   * Every signed decimal written with a point and a base-10 `int32` exponent `x` is
   * read as its digits scaled by ten to `x` less the number of fractional digits,
   * as long as that exponent fits 32 bits too.
   */
  lemma NewFromStringPointedExponent(sign: string, whole: string, frac: string, x: int)
    requires sign == "" || sign == "-" || sign == "+"
    requires IsDigits(whole) && IsDigits(frac) && whole + frac != ""
    requires MinInt32 <= x <= MaxInt32 && MinInt32 <= x - |frac|
    ensures DigitsValue(whole + frac).Some?
    ensures NewFromString(sign + whole + "." + frac + "e" + Strconv.FormatInt(x))
         == Some(ScaledBy(Signed(sign, DigitsValue(whole + frac).value), x - |frac|))
  {
    PointedPlain(sign, whole, frac);
    ExponentJoined(sign + whole + "." + frac, x);
    MantissaPointed(sign, whole, frac, sign + whole + "." + frac, x);
  }

  /** `sign whole.frac` holds no exponent marker. */
  lemma PointedPlain(sign: string, whole: string, frac: string)
    requires sign == "" || sign == "-" || sign == "+"
    requires IsDigits(whole) && IsDigits(frac)
    ensures forall i :: 0 <= i < |sign + whole + "." + frac| ==>
      (sign + whole + "." + frac)[i] != 'e' && (sign + whole + "." + frac)[i] != 'E'
  {
    forall i | 0 <= i < |sign + whole + "." + frac|
      ensures (sign + whole + "." + frac)[i] != 'e' && (sign + whole + "." + frac)[i] != 'E'
    {
      PointedChars(sign, whole, frac, i);
    }
  }

  /** A mantissa without an exponent marker, followed by `e` and an `int32` `x`, has the exponent `x`. */
  lemma ExponentJoined(m: string, x: int)
    requires forall i :: 0 <= i < |m| ==> m[i] != 'e' && m[i] != 'E'
    requires MinInt32 <= x <= MaxInt32
    ensures NewFromString(m + "e" + Strconv.FormatInt(x)) == Mantissa(m, x)
  {
    var t := m + "e" + Strconv.FormatInt(x);
    forall j | 0 <= j < |m|
      ensures t[j] != 'e' && t[j] != 'E'
    {
      assert t[j] == m[j];
    }
    assert t[|m|] == 'e';
    assert t[..|m|] == m;
    assert t[|m| + 1..] == Strconv.FormatInt(x);
    ExponentAt(t, |m|, x);
  }

  /** "13.1" has no exponent and its point before the last digit. */
  lemma FractionSplit()
    ensures NewFromString("13.1") == Scaled("131", -1)
  {
    assert GoText.FirstIndexOf("13.1", {'e', 'E'}) == None;
    NoExponent("13.1");
    assert GoText.FirstIndexOf("13.1", {'.'}) == Some(2);
    assert "13.1"[..2] + "13.1"[3..] == "131";
  }

  /** The coefficient 131 scaled down by ten is 13.1. */
  lemma FractionCoefficient()
    ensures Scaled("131", -1) == Some(13.1)
  {
    assert DigitsValue("131") == Some(131) by {
      assert "131"[..2] == "13" && "13"[..1] == "1";
    }
    assert Pow10(-1) == 0.1;
  }

  /** A point moves the coefficient's digits below the units: "13.1" is exactly 13.1. */
  lemma NewFromStringFraction()
    ensures NewFromString("13.1") == Some(13.1)
  {
    FractionSplit();
    FractionCoefficient();
  }

  /** "13.0" has no exponent and its point before the last digit. */
  lemma WholeFractionSplit()
    ensures NewFromString("13.0") == Scaled("130", -1)
  {
    assert GoText.FirstIndexOf("13.0", {'e', 'E'}) == None;
    NoExponent("13.0");
    assert GoText.FirstIndexOf("13.0", {'.'}) == Some(2);
    assert "13.0"[..2] + "13.0"[3..] == "130";
  }

  /** The coefficient 130 scaled down by ten is 13.0. */
  lemma WholeFractionCoefficient()
    ensures Scaled("130", -1) == Some(13.0)
  {
    assert DigitsValue("130") == Some(130) by {
      assert "130"[..2] == "13" && "13"[..1] == "1";
    }
    assert Pow10(-1) == 0.1;
  }

  /** A zero fraction leaves a whole number: "13.0" is exactly 13. */
  lemma NewFromStringWholeFraction()
    ensures NewFromString("13.0") == Some(13.0)
  {
    WholeFractionSplit();
    WholeFractionCoefficient();
  }

  /** Text that is not a number is refused. */
  lemma NewFromStringRefusesWord()
    ensures NewFromString("zzz") == None
  {
    ExponentZero();
    assert GoText.FirstIndexOf("zzz", {'e', 'E'}) == None;
    assert GoText.FirstIndexOf("zzz", {'.'}) == None;
    assert DigitsValue("zzz") == None;
  }

  /** A number with two points is refused. */
  lemma NewFromStringRefusesTwoPoints()
    ensures NewFromString("1.2.3") == None
  {
    ExponentZero();
    assert GoText.FirstIndexOf("1.2.3", {'e', 'E'}) == None;
    assert GoText.FirstIndexOf("1.2.3", {'.'}) == Some(1);
    assert '.' in "1.2.3"[2..] by {
      assert "1.2.3"[2..][1] == '.';
    }
    assert Mantissa("1.2.3", 0) == None;
  }

  /** "2.5e2" is the mantissa "2.5" with the exponent 2. */
  lemma ExponentSplit()
    ensures NewFromString("2.5e2") == Mantissa("2.5", 2)
  {
    assert GoText.FirstIndexOf("2.5e2", {'e', 'E'}) == Some(3);
    assert "2.5e2"[..3] == "2.5" && "2.5e2"[4..] == "2";
    assert Strconv.ParseInt("2", 10, 32) == Ok(2) by {
      Strconv.ParseIntFormatInt(2, 32);
      assert Strconv.FormatInt(2) == "2";
    }
  }

  /** The mantissa "2.5" with exponent 2 is the coefficient 25 times ten. */
  lemma ExponentMantissa()
    ensures Mantissa("2.5", 2) == Some(250.0)
  {
    assert GoText.FirstIndexOf("2.5", {'.'}) == Some(1);
    assert "2.5"[..1] + "2.5"[2..] == "25";
    assert DigitsValue("25") == Some(25) by {
      assert "25"[..1] == "2";
    }
    assert Pow10(1) == 10.0;
  }

  /** The exponent after `e` scales the value: "2.5e2" is 250. */
  lemma NewFromStringExponent()
    ensures NewFromString("2.5e2") == Some(250.0)
  {
    ExponentSplit();
    ExponentMantissa();
  }
}
