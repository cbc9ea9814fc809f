/**
 * `ast/value.go`: the values a script's operands can be, their constructors and
 * their accessors. Every value keeps the text it was written as (`Raw`) next to
 * what it denotes.
 */
module Values {
  import opened Wrappers
  import GoText
  import Strconv
  import Decimal
  import GoTime
  import Host
  import DateTime

  /** A value of the language. `Any` is column text whose type is not yet known. */
  datatype Value =
    | Any(raw: string)
    | Var(name: string)
    | Str(raw: string, text: string)
    | Regexp(raw: string)
    | DateTime(raw: string, time: GoTime.Time)
    | Integer(raw: string, number: Strconv.int64)
    | Double(raw: string, decimal: real)
  {
    /** `Raw()`: the text the value was written as; a variable's is its name. */
    function Raw(): (r: string)
      ensures Var? ==> r == name
      ensures !Var? ==> r == raw
    {
      if Var? then name else raw
    }

    /** `String()`, which is what `%s` prints for a value. */
    function String(p: Host.Platform): (r: string)
      ensures Any? || Regexp? ==> r == Raw()
      ensures Str? ==> r == text
      ensures Integer? ==> Strconv.ParseInt(r, 10, 64) == Ok(number as int)
    {
      match this
      case Any(raw) => raw
      case Var(name) => name
      case Str(_, text) => text
      case Regexp(raw) => raw
      case DateTime(_, time) => p.showTime(time)
      case Integer(_, number) =>
        Strconv.Pow2At63();
        Strconv.ParseIntFormatInt(number, 64);
        Strconv.FormatInt(number)
      case Double(_, decimal) => p.showDecimal(decimal)
    }

    /** `Value()`: the payload the comparison functions work on. */
    function Payload(): (d: Datum)
      ensures Any? ==> d == Text(raw)
      ensures Var? ==> d == Text(name)
      ensures Str? ==> d == Text(text)
      ensures Integer? ==> d == Int(number)
      ensures Double? ==> d == Dec(decimal)
    {
      match this
      case Any(raw) => Text(raw)
      case Var(name) => Text(name)
      case Str(_, text) => Text(text)
      case Regexp(raw) => Pattern(raw)
      case DateTime(_, time) => Instant(time)
      case Integer(_, number) => Int(number)
      case Double(_, decimal) => Dec(decimal)
    }
  }

  /**
   * What evaluating an expression yields, Go's `interface{}`: text, a boolean, an
   * `int64`, a decimal, a time, a compiled pattern, a value resolved from the
   * environment, or `nil`.
   */
  datatype Datum =
    | Text(s: string)
    | Bool(b: bool)
    | Int(i: Strconv.int64)
    | Dec(d: real)
    | Instant(t: GoTime.Time)
    | Pattern(pattern: string)
    | Resolved(v: Value)
    | Nil

  /** Why a constructor refused its text. */
  datatype ParseError =
    | NumberError(numError: Strconv.NumError)
    | DecimalError(input: string)
    | DateError(message: string)
    | RegexpError(pattern: string)

  /** `NewStringValue`: the literal with its quotes; the text is what lies between them. */
  function NewStringValue(s: string): (v: Value)
    requires |s| >= 2
    ensures v.Str? && v.raw == s
    ensures [s[0]] + v.text + [s[|s| - 1]] == s
  {
    Str(s, s[1..|s| - 1])
  }

  /** `NewIntegerValue`: a value from text and number already known. */
  function NewIntegerValue(raw: string, value: Strconv.int64): (v: Value)
    ensures v.Integer? && v.Raw() == raw && v.Payload() == Int(value)
  {
    Integer(raw, value)
  }

  /**
   * `parseIntFromString`: a 64-bit `strconv.ParseInt` of `s` in `base`, the value's
   * text being `s`; the library's error is passed on.
   */
  function ParseIntFromString(s: string, base: nat): (r: Result<Value, ParseError>)
    requires 2 <= base <= 36
    ensures r.Ok? <==> Strconv.ParseInt(s, base, 64).Ok?
    ensures r.Ok? ==> r.value.Integer? && r.value.raw == s
    ensures r.Ok? ==> r.value.number as int == Strconv.ParseInt(s, base, 64).value
    ensures r.Err? ==> r.error == NumberError(Strconv.ParseInt(s, base, 64).error)
  {
    Strconv.ParseInt64InRange(s, base);
    match Strconv.ParseInt(s, base, 64)
    case Ok(n) => Ok(Integer(s, n))
    case Err(e) => Err(NumberError(e))
  }

  /**
   * The shared body of the binary, octal and hex constructors: drop the two
   * prefix characters and every `_`, parse in `base`, and keep the written text.
   */
  function PrefixedInteger(r: string, base: nat): (v: Result<Value, ParseError>)
    requires |r| >= 2 && 2 <= base <= 36
    ensures v.Ok? <==> Strconv.ParseInt(GoText.RemoveUnderscores(r[2..]), base, 64).Ok?
    ensures v.Ok? ==> v.value.Integer? && v.value.raw == r
    ensures v.Ok? ==> v.value.number as int == Strconv.ParseInt(GoText.RemoveUnderscores(r[2..]), base, 64).value
  {
    match ParseIntFromString(GoText.RemoveUnderscores(r[2..]), base)
    case Ok(i) => Ok(Integer(r, i.number))
    case Err(e) => Err(e)
  }

  /** `NewIntegerValueFromBinaryString`. */
  function NewIntegerValueFromBinaryString(r: string): (v: Result<Value, ParseError>)
    requires |r| >= 2
    ensures v.Ok? <==> Strconv.ParseInt(GoText.RemoveUnderscores(r[2..]), 2, 64).Ok?
    ensures v.Ok? ==> v.value.Integer? && v.value.raw == r
    ensures v.Ok? ==> v.value.number as int == Strconv.ParseInt(GoText.RemoveUnderscores(r[2..]), 2, 64).value
  {
    PrefixedInteger(r, 2)
  }

  /** `NewIntegerValueFromOctalString`. */
  function NewIntegerValueFromOctalString(r: string): (v: Result<Value, ParseError>)
    requires |r| >= 2
    ensures v.Ok? <==> Strconv.ParseInt(GoText.RemoveUnderscores(r[2..]), 8, 64).Ok?
    ensures v.Ok? ==> v.value.Integer? && v.value.raw == r
    ensures v.Ok? ==> v.value.number as int == Strconv.ParseInt(GoText.RemoveUnderscores(r[2..]), 8, 64).value
  {
    PrefixedInteger(r, 8)
  }

  /** `NewIntegerValueFromHexString`. */
  function NewIntegerValueFromHexString(r: string): (v: Result<Value, ParseError>)
    requires |r| >= 2
    ensures v.Ok? <==> Strconv.ParseInt(GoText.RemoveUnderscores(r[2..]), 16, 64).Ok?
    ensures v.Ok? ==> v.value.Integer? && v.value.raw == r
    ensures v.Ok? ==> v.value.number as int == Strconv.ParseInt(GoText.RemoveUnderscores(r[2..]), 16, 64).value
  {
    PrefixedInteger(r, 16)
  }

  /** `NewIntegerValueFromDecString`: drop every `_`, parse in base 10, keep the written text. */
  function NewIntegerValueFromDecString(r: string): (v: Result<Value, ParseError>)
    ensures v.Ok? <==> Strconv.ParseInt(GoText.RemoveUnderscores(r), 10, 64).Ok?
    ensures v.Ok? ==> v.value.Integer? && v.value.raw == r
    ensures v.Ok? ==> v.value.number as int == Strconv.ParseInt(GoText.RemoveUnderscores(r), 10, 64).value
  {
    match ParseIntFromString(GoText.RemoveUnderscores(r), 10)
    case Ok(i) => Ok(Integer(r, i.number))
    case Err(e) => Err(e)
  }

  /**
   * `NewDoubleFromString`: drop every `_` and parse a decimal. Unlike the integer
   * constructors, the value's text is the text without the underscores.
   */
  function NewDoubleFromString(s: string): (v: Result<Value, ParseError>)
    ensures v.Ok? <==> Decimal.NewFromString(GoText.RemoveUnderscores(s)).Some?
    ensures v.Ok? ==> v.value == Double(GoText.RemoveUnderscores(s), Decimal.NewFromString(GoText.RemoveUnderscores(s)).value)
    ensures v.Err? ==> v.error == DecimalError(GoText.RemoveUnderscores(s))
  {
    var t := GoText.RemoveUnderscores(s);
    match Decimal.NewFromString(t)
    case Some(d) => Ok(Double(t, d))
    case None => Err(DecimalError(t))
  }

  /** `NewDateTimeValue`: the text read with the literal formats; the value keeps the text. */
  function NewDateTimeValue(p: Host.Platform, s: string): (v: Result<Value, ParseError>)
    ensures v.Ok? <==> DateTime.ParseDateTimeSpec(p, DateTime.LiteralFormats, s).Ok?
    ensures v.Ok? ==> v.value == DateTime(s, DateTime.ParseDateTimeSpec(p, DateTime.LiteralFormats, s).value)
    ensures v.Err? ==> v.error == DateError(DateTime.NoDateMessage(s))
  {
    match DateTime.ParseDateTimeSpec(p, DateTime.LiteralFormats, s)
    case Ok(t) => Ok(DateTime(s, t))
    case Err(m) => Err(DateError(m))
  }

  /** `NewRegexpValue`: a pattern the regular-expression engine accepts. */
  function NewRegexpValue(p: Host.Platform, pattern: string): (v: Result<Value, ParseError>)
    ensures v.Ok? <==> p.compiles(pattern)
    ensures v.Ok? ==> v.value == Regexp(pattern) && v.value.Raw() == pattern
    ensures v.Err? ==> v.error == RegexpError(pattern)
  {
    if p.compiles(pattern) then Ok(Regexp(pattern)) else Err(RegexpError(pattern))
  }

  /** Digits `FormatUint` writes hold no underscore. */
  lemma FormatUnsignedHasNoUnderscore(n: nat, base: nat)
    requires 2 <= base <= 36
    ensures '_' !in Strconv.FormatUnsigned(n, base)
  {
    var s := Strconv.FormatUnsigned(n, base);
    forall i | 0 <= i < |s|
      ensures s[i] != '_'
    {
      assert Strconv.DigitValue(s[i]).Some?;
    }
  }

  /**
   * A prefixed literal reads back every `int64` value written in its base, whatever
   * the two prefix characters, and keeps the literal as its text.
   */
  lemma PrefixedIntegerRoundTrip(prefix: string, n: nat, base: nat)
    requires |prefix| == 2 && 2 <= base <= 36 && n <= Strconv.MaxInt64
    ensures PrefixedInteger(prefix + Strconv.FormatUnsigned(n, base), base)
      == Ok(Integer(prefix + Strconv.FormatUnsigned(n, base), n))
  {
    var digits := Strconv.FormatUnsigned(n, base);
    assert (prefix + digits)[2..] == digits;
    FormatUnsignedHasNoUnderscore(n, base);
    Strconv.Pow2At63();
    Strconv.ParseUintFormatUnsigned(n, base, 64);
    assert Strconv.DigitValue(digits[0]).Some?;
  }

  /** The decimal constructor reads back every `int64` written by `%d`. */
  lemma DecStringRoundTrip(n: Strconv.int64)
    ensures NewIntegerValueFromDecString(Strconv.FormatInt(n)) == Ok(Integer(Strconv.FormatInt(n), n))
  {
    var s := Strconv.FormatInt(n);
    FormatUnsignedHasNoUnderscore(if n < 0 then -(n as int) else n as int, 10);
    assert '_' !in s by {
      if n < 0 {
        assert s == "-" + Strconv.FormatUnsigned(-(n as int), 10);
      }
    }
    Strconv.Pow2At63();
    Strconv.ParseIntFormatInt(n, 64);
  }

  /** Underscores anywhere after the prefix change the value's text, never its number. */
  lemma PrefixedIntegerIgnoresUnderscores(prefix: string, digits: string, base: nat)
    requires |prefix| == 2 && 2 <= base <= 36
    ensures PrefixedInteger(prefix + digits, base).Ok?
      <==> PrefixedInteger(prefix + GoText.RemoveUnderscores(digits), base).Ok?
    ensures PrefixedInteger(prefix + digits, base).Ok? ==>
      PrefixedInteger(prefix + digits, base).value.number
        == PrefixedInteger(prefix + GoText.RemoveUnderscores(digits), base).value.number
  {
    assert (prefix + digits)[2..] == digits;
    assert (prefix + GoText.RemoveUnderscores(digits))[2..] == GoText.RemoveUnderscores(digits);
    GoText.RemoveUnderscoresIdempotent(digits);
  }

  /** The binary literal of the core's own test: "0b1000" is eight. */
  lemma BinaryLiteralExample()
    ensures NewIntegerValueFromBinaryString("0b1000") == Ok(Integer("0b1000", 8))
  {
    assert Strconv.FormatUnsigned(8, 2) == "1000" by {
      assert Strconv.FormatUnsigned(4, 2) == "100" by {
        assert Strconv.FormatUnsigned(2, 2) == "10";
      }
    }
    PrefixedIntegerRoundTrip("0b", 8, 2);
  }

  /** An octal literal: "0o723" is 467. */
  lemma OctalLiteralExample()
    ensures NewIntegerValueFromOctalString("0o723") == Ok(Integer("0o723", 467))
  {
    assert Strconv.FormatUnsigned(467, 8) == "723" by {
      assert Strconv.FormatUnsigned(58, 8) == "72" by {
        assert Strconv.FormatUnsigned(7, 8) == "7";
      }
    }
    PrefixedIntegerRoundTrip("0o", 467, 8);
  }

  /** A hex literal with a leading zero digit: "0x03" is three. */
  lemma HexLiteralExample()
    ensures NewIntegerValueFromHexString("0x03") == Ok(Integer("0x03", 3))
  {
    var maxVal := Strconv.Pow(2, 64) - 1;
    Strconv.Pow2At63();
    assert "0x03"[2..] == "03";
    assert GoText.RemoveUnderscores("03") == "03";
    assert Strconv.ScanDigits("03", 16, maxVal, 0) == Strconv.ScanDigits("3", 16, maxVal, 0) by {
      assert "03"[1..] == "3";
    }
    assert Strconv.ScanDigits("3", 16, maxVal, 0) == Ok(3) by {
      assert "3"[1..] == "";
    }
  }

  lemma ParseBinary0110()
    ensures Strconv.ParseInt("0110", 2, 64) == Ok(6)
  {
    var maxVal := Strconv.Pow(2, 64) - 1;
    Strconv.Pow2At63();
    assert Strconv.FormatUnsigned(6, 2) == "110" by {
      assert Strconv.FormatUnsigned(3, 2) == "11";
    }
    assert Strconv.FormatUnsigned(0, 2) == "0";
    assert "0110" == Strconv.FormatUnsigned(0, 2) + "110";
    Strconv.ScanFormatted(0, "110", 2, maxVal);
    assert "110" == Strconv.FormatUnsigned(6, 2) + "";
    Strconv.ScanFormatted(6, "", 2, maxVal);
  }

  /** `_` separators are dropped before parsing: "0b01_10" is six. */
  lemma BinaryUnderscoreExample()
    ensures NewIntegerValueFromBinaryString("0b01_10") == Ok(Integer("0b01_10", 6))
  {
    assert "0b01_10"[2..] == "01_10";
    assert GoText.RemoveUnderscores("01_10") == "0110" by {
      assert "01_10" == "01" + "_10";
      GoText.RemoveUnderscoresAppend("01", "_10");
      assert "_10"[1..] == "10";
    }
    ParseBinary0110();
  }

  /** An `AnyValue`'s text is what all its accessors give. */
  lemma AnyAccessors(raw: string, p: Host.Platform)
    ensures Any(raw).Raw() == raw && Any(raw).String(p) == raw && Any(raw).Payload() == Text(raw)
  {
  }
}
