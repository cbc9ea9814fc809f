/**
 * The part of Go's `strconv` package the core calls: `ParseInt` (with `ParseUint`
 * underneath) and the decimal formatting that `fmt`'s `%d` and `strconv.FormatInt`
 * produce. Bit sizes 2..64 are modelled; the core uses 32 and 64.
 */
module Strconv {
  import opened Wrappers
  import GoText

  const MinInt64: int := -0x8000_0000_0000_0000
  const MaxInt64: int := 0x7fff_ffff_ffff_ffff

  /** Go's `int64`. */
  type int64 = x: int | MinInt64 <= x <= MaxInt64

  function Pow(base: nat, k: nat): (r: nat)
    ensures base >= 1 ==> r >= 1
  {
    if k == 0 then 1 else base * Pow(base, k - 1)
  }

  lemma {:induction false} PowAdd(base: nat, j: nat, k: nat)
    ensures Pow(base, j + k) == Pow(base, j) * Pow(base, k)
    decreases j
  {
    if j > 0 {
      PowAdd(base, j - 1, k);
    }
  }

  lemma Pow2At31()
    ensures Pow(2, 31) == 0x8000_0000
  {
    assert Pow(2, 8) == 256;
    PowAdd(2, 8, 8);
    assert Pow(2, 15) == 32768;
    PowAdd(2, 16, 15);
  }

  lemma Pow2At63()
    ensures Pow(2, 63) == MaxInt64 + 1
    ensures Pow(2, 64) == 2 * (MaxInt64 + 1)
  {
    assert Pow(2, 1) == 2;
    assert Pow(2, 7) == 128;
    PowAdd(2, 7, 7);
    assert Pow(2, 14) == 16384;
    PowAdd(2, 14, 14);
    assert Pow(2, 28) == 268435456;
    PowAdd(2, 28, 28);
    assert Pow(2, 56) == 72057594037927936;
    PowAdd(2, 56, 7);
    assert Pow(2, 63) == 9223372036854775808;
    PowAdd(2, 63, 1);
  }

  /** Euclidean division by a digit base, as the formatting loop uses it. */
  lemma DivModBase(m: nat, base: nat)
    requires 2 <= base && m >= base
    ensures m == (m / base) * base + m % base
    ensures m % base < base && 0 < m / base < m
  {
  }

  datatype NumErrorKind = InvalidSyntax | OutOfRange

  /** `strconv.NumError`: the function, the input it was given, and what went wrong. */
  datatype NumError = NumError(fn: string, num: string, kind: NumErrorKind) {
    /** The text of `NumError.Error()`. */
    function Message(): string {
      "strconv." + fn + ": parsing " + GoText.Quote(num) + ": "
        + (if kind == InvalidSyntax then "invalid syntax" else "value out of range")
    }
  }

  /**
   * The digit value `ParseUint` gives a byte: `0`-`9` are 0..9 and letters of
   * either case are 10..35; anything else is not a digit.
   */
  function DigitValue(c: char): (d: Option<nat>)
    ensures d.Some? ==> d.value < 36
    ensures d.Some? && d.value < 10 <==> '0' <= c <= '9'
  {
    if '0' <= c <= '9' then Some(c as int - '0' as int)
    else if 'a' <= c <= 'z' then Some(c as int - 'a' as int + 10)
    else if 'A' <= c <= 'Z' then Some(c as int - 'A' as int + 10)
    else None
  }

  /**
   * The digit loop of `ParseUint`: digits are read left to right; a byte that is not
   * a digit of `base` is a syntax error, and the first step whose value exceeds
   * `maxVal` is a range error, even when a bad byte follows.
   */
  function ScanDigits(s: string, base: nat, maxVal: nat, acc: nat): (r: Result<nat, NumErrorKind>)
    requires 2 <= base <= 36 && acc <= maxVal
    ensures r.Ok? ==> acc <= r.value <= maxVal
    ensures (forall i :: 0 <= i < |s| ==> DigitValue(s[i]).None?) && s != [] ==> r == Err(InvalidSyntax)
    decreases |s|
  {
    if s == [] then Ok(acc)
    else match DigitValue(s[0])
      case None => Err(InvalidSyntax)
      case Some(d) =>
        if d >= base then Err(InvalidSyntax)
        else
          var next := acc * base + d;
          if next > maxVal then Err(OutOfRange)
          else
            ScaleUp(acc, base, d);
            ScanDigits(s[1..], base, maxVal, next)
  }

  /** One more digit never makes the accumulated value smaller. */
  lemma ScaleUp(acc: nat, base: nat, d: nat)
    requires base >= 1
    ensures acc <= acc * base + d
  {
    assert acc * base == acc + acc * (base - 1);
  }

  /** `strconv.ParseUint(s, base, bitSize)` for an explicit base, by error kind. */
  function ParseUint(s: string, base: nat, bitSize: nat): (r: Result<nat, NumErrorKind>)
    requires 2 <= base <= 36 && 1 <= bitSize <= 64
    ensures r.Ok? ==> r.value < Pow(2, bitSize)
    ensures s == "" ==> r == Err(InvalidSyntax)
  {
    if s == "" then Err(InvalidSyntax)
    else ScanDigits(s, base, Pow(2, bitSize) - 1, 0)
  }

  /**
   * The second half of `ParseInt`: `digits` is what follows the sign, `input` the
   * original text. An unsigned range error becomes a signed range error, since the
   * saturated unsigned value is never in the signed range.
   */
  function ParseSigned(input: string, negative: bool, digits: string, base: nat, bitSize: nat): (r: Result<int, NumError>)
    requires 2 <= base <= 36 && 2 <= bitSize <= 64
    ensures r.Ok? ==> -(Pow(2, bitSize - 1) as int) <= r.value < Pow(2, bitSize - 1)
    ensures r.Err? ==> r.error.fn == "ParseInt" && r.error.num == input
  {
    var cutoff := Pow(2, bitSize - 1);
    match ParseUint(digits, base, bitSize)
    case Err(InvalidSyntax) => Err(NumError("ParseInt", input, InvalidSyntax))
    case Err(OutOfRange) => Err(NumError("ParseInt", input, OutOfRange))
    case Ok(un) =>
      if !negative && un >= cutoff then Err(NumError("ParseInt", input, OutOfRange))
      else if negative && un > cutoff then Err(NumError("ParseInt", input, OutOfRange))
      else Ok(if negative then -(un as int) else un)
  }

  /** `strconv.ParseInt(s, base, bitSize)` for an explicit base: an optional sign, then digits. */
  function ParseInt(s: string, base: nat, bitSize: nat): (r: Result<int, NumError>)
    requires 2 <= base <= 36 && 2 <= bitSize <= 64
    ensures r.Ok? ==> -(Pow(2, bitSize - 1) as int) <= r.value < Pow(2, bitSize - 1)
    ensures r.Err? ==> r.error.num == s
    ensures s == "" || s == "+" || s == "-" ==> r.Err? && r.error.kind == InvalidSyntax
  {
    if s == "" then Err(NumError("ParseInt", s, InvalidSyntax))
    else if s[0] == '+' then ParseSigned(s, false, s[1..], base, bitSize)
    else if s[0] == '-' then ParseSigned(s, true, s[1..], base, bitSize)
    else ParseSigned(s, false, s, base, bitSize)
  }

  /** A 64-bit parse always yields an `int64`. */
  lemma ParseInt64InRange(s: string, base: nat)
    requires 2 <= base <= 36
    ensures ParseInt(s, base, 64).Ok? ==> MinInt64 <= ParseInt(s, base, 64).value <= MaxInt64
  {
    Pow2At63();
  }

  /** The lower-case digit `strconv.FormatInt` writes for `d`. */
  function DigitChar(d: nat): (c: char)
    requires d < 36
    ensures DigitValue(c) == Some(d)
  {
    if d < 10 then ('0' as int + d) as char else ('a' as int + d - 10) as char
  }

  /** `strconv.FormatUint(n, base)`: the digits of `n`, most significant first, without sign. */
  function FormatUnsigned(n: nat, base: nat): (r: string)
    requires 2 <= base <= 36
    ensures r != [] && DigitValue(r[0]).Some?
    ensures r[0] == '0' <==> n == 0
    ensures forall i :: 0 <= i < |r| ==> DigitValue(r[i]).Some? && DigitValue(r[i]).value < base
    decreases n
  {
    if n < base then [DigitChar(n)]
    else
      DivModBase(n, base);
      FormatUnsigned(n / base, base) + [DigitChar(n % base)]
  }

  /** `strconv.FormatInt(n, 10)`, which is also what `fmt`'s `%d` prints. */
  function FormatInt(n: int): (r: string)
    ensures r != [] && r[0] != '+'
    ensures r[0] == '-' <==> n < 0
  {
    if n < 0 then "-" + FormatUnsigned(-n, 10) else FormatUnsigned(n, 10)
  }

  /** Reading the digits of `m` from the start of a text leaves `m` in the accumulator. */
  lemma {:induction false} ScanFormatted(m: nat, rest: string, base: nat, maxVal: nat)
    requires 2 <= base <= 36 && m <= maxVal
    ensures ScanDigits(FormatUnsigned(m, base) + rest, base, maxVal, 0) == ScanDigits(rest, base, maxVal, m)
    decreases m
  {
    if m < base {
      assert (FormatUnsigned(m, base) + rest)[0] == DigitChar(m);
      assert (FormatUnsigned(m, base) + rest)[1..] == rest;
    } else {
      DivModBase(m, base);
      var q, d := m / base, m % base;
      var tail := [DigitChar(d)] + rest;
      assert FormatUnsigned(m, base) + rest == FormatUnsigned(q, base) + tail;
      ScanFormatted(q, tail, base, maxVal);
      assert tail[0] == DigitChar(d) && tail[1..] == rest;
    }
  }

  /** `ParseUint` reads back what `FormatUint` wrote, when it fits in `bitSize` bits. */
  lemma ParseUintFormatUnsigned(m: nat, base: nat, bitSize: nat)
    requires 2 <= base <= 36 && 1 <= bitSize <= 64 && m < Pow(2, bitSize)
    ensures ParseUint(FormatUnsigned(m, base), base, bitSize) == Ok(m)
  {
    ScanFormatted(m, "", base, Pow(2, bitSize) - 1);
    assert FormatUnsigned(m, base) + "" == FormatUnsigned(m, base);
  }

  /** Round trip: `ParseInt(FormatInt(n), 10, bitSize)` gives back every `n` that fits. */
  lemma ParseIntFormatInt(n: int, bitSize: nat)
    requires 2 <= bitSize <= 64
    requires -(Pow(2, bitSize - 1) as int) <= n < Pow(2, bitSize - 1)
    ensures ParseInt(FormatInt(n), 10, bitSize) == Ok(n)
  {
    assert Pow(2, bitSize) == 2 * Pow(2, bitSize - 1);
    var s := FormatInt(n);
    if n < 0 {
      assert s[1..] == FormatUnsigned(-n, 10);
      ParseUintFormatUnsigned(-n, 10, bitSize);
    } else {
      assert DigitValue(s[0]).Some?;
      ParseUintFormatUnsigned(n, 10, bitSize);
    }
  }
}
