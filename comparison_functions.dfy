/**
 * `ast/comparison_functions.go`: the six comparison operators over pairs of values.
 * Variables are resolved first. Untyped column text (`Any`) is coerced to the type
 * of the other operand: to an integer with `parseInt`, to a decimal, or to a
 * date/time with the coercion formats. A coercion that fails, and a pair of
 * variants with no handler, compare as `false`.
 */
module ComparisonFunctions {
  import opened Wrappers
  import GoText
  import Strconv
  import Decimal
  import GoTime
  import Host
  import DateTime
  import opened Values
  import opened Environments

  // ---------------------------------------------------------------- parseInt

  /**
   * `parseInt`: every `_` is removed; text longer than two characters that starts
   * with `0x` is hexadecimal (base 0 of `strconv.ParseInt`, which reads the prefix),
   * with `0b` binary, and anything else is base 10. The result is an `int64`.
   */
  function ParseInt(s: string): (r: Result<int, Strconv.NumError>)
    ensures r.Ok? ==> Strconv.MinInt64 <= r.value <= Strconv.MaxInt64
  {
    Strconv.Pow2At63();
    var t := GoText.RemoveUnderscores(s);
    if |t| > 2 && GoText.HasPrefix(t, "0x") then Strconv.ParseSigned(t, false, t[2..], 16, 64)
    else if |t| > 2 && GoText.HasPrefix(t, "0b") then Strconv.ParseInt(t[2..], 2, 64)
    else Strconv.ParseInt(t, 10, 64)
  }

  /** Underscores never matter to `parseInt`. */
  lemma ParseIntIgnoresUnderscores(s: string)
    ensures ParseInt(s) == ParseInt(GoText.RemoveUnderscores(s))
  {
    GoText.RemoveUnderscoresIdempotent(s);
  }

  /** The three readings of `parseInt`, by prefix of the text without underscores. */
  lemma ParseIntBases(s: string)
    ensures var t := GoText.RemoveUnderscores(s);
      |t| > 2 && GoText.HasPrefix(t, "0x") ==>
        (ParseInt(s).Ok? <==> Strconv.ParseUint(t[2..], 16, 64).Ok? && Strconv.ParseUint(t[2..], 16, 64).value <= Strconv.MaxInt64)
    ensures var t := GoText.RemoveUnderscores(s);
      |t| > 2 && GoText.HasPrefix(t, "0x") && ParseInt(s).Ok? ==> ParseInt(s).value == Strconv.ParseUint(t[2..], 16, 64).value
    ensures var t := GoText.RemoveUnderscores(s);
      |t| > 2 && GoText.HasPrefix(t, "0b") ==> ParseInt(s) == Strconv.ParseInt(t[2..], 2, 64)
    ensures var t := GoText.RemoveUnderscores(s);
      !(|t| > 2 && (GoText.HasPrefix(t, "0x") || GoText.HasPrefix(t, "0b"))) ==> ParseInt(s) == Strconv.ParseInt(t, 10, 64)
  {
    Strconv.Pow2At63();
    var t := GoText.RemoveUnderscores(s);
    if |t| > 2 && GoText.HasPrefix(t, "0x") {
      assert !GoText.HasPrefix(t, "0b") by {
        assert t[1] == 'x';
      }
    }
  }

  /** `parseInt` reads back every `int64` that `%d` writes. */
  lemma ParseIntFormatInt(n: Strconv.int64)
    ensures ParseInt(Strconv.FormatInt(n)) == Ok(n as int)
  {
    var s := Strconv.FormatInt(n);
    var m := if n < 0 then -(n as int) else n as int;
    assert '_' !in s by {
      forall i | 0 <= i < |s|
        ensures s[i] != '_'
      {
        if n >= 0 {
          assert Strconv.DigitValue(s[i]).Some?;
        } else if i > 0 {
          assert s[i] == Strconv.FormatUnsigned(m, 10)[i - 1];
          assert Strconv.DigitValue(s[i]).Some?;
        }
      }
    }
    assert !(|s| > 2 && (GoText.HasPrefix(s, "0x") || GoText.HasPrefix(s, "0b"))) by {
      if |s| > 2 && n >= 0 {
        assert s[0] != '0';
      }
    }
    Strconv.Pow2At63();
    Strconv.ParseIntFormatInt(n, 64);
  }

  // ------------------------------------------------------- coercion helpers

  /** `compareStringEQRegexp`: the pattern matches the text. */
  function CompareStringEQRegexp(p: Host.Platform, s: string, pattern: string): (b: bool)
    ensures b == p.matches(pattern, s)
  {
    p.matches(pattern, s)
  }

  /** `compareStringEQString`: the texts are the same. */
  function CompareStringEQString(a: string, b: string): (r: bool)
    ensures r <==> |a| == |b| && forall i :: 0 <= i < |a| ==> a[i] == b[i]
  {
    a == b
  }

  /** `regexpEQUnknown`: the pattern matches the untyped text. */
  function RegexpEQUnknown(p: Host.Platform, pattern: string, text: string): (b: bool)
    ensures b == CompareStringEQRegexp(p, text, pattern)
  {
    p.matches(pattern, text)
  }

  /** The text read with the coercion formats, if any of them parses it. */
  function CoerceDateTime(p: Host.Platform, text: string): (r: Option<GoTime.Time>)
    ensures r.Some? <==> DateTime.ParseDateTimeSpec(p, DateTime.CoercionFormats, text).Ok?
  {
    match DateTime.ParseDateTimeSpec(p, DateTime.CoercionFormats, text)
    case Ok(t) => Some(t)
    case Err(_) => None
  }

  /** `dateTimeEQUnknown`: the text is a date/time at the same instant as `dt`. */
  function DateTimeEQUnknown(p: Host.Platform, dt: GoTime.Time, text: string): (b: bool)
    ensures b <==> CoerceDateTime(p, text).Some? && GoTime.Equal(dt, CoerceDateTime(p, text).value)
  {
    match CoerceDateTime(p, text)
    case None => false
    case Some(c) => GoTime.Equal(dt, c)
  }

  /** `dateTimeLTUnknown`: `dt` is before the instant the text denotes. */
  function DateTimeLTUnknown(p: Host.Platform, dt: GoTime.Time, text: string): (b: bool)
    ensures b <==> CoerceDateTime(p, text).Some? && GoTime.Before(dt, CoerceDateTime(p, text).value)
  {
    match CoerceDateTime(p, text)
    case None => false
    case Some(c) => GoTime.Before(dt, c)
  }

  /** `dateTimeGTUnknown`: `dt` is after the instant the text denotes. */
  function DateTimeGTUnknown(p: Host.Platform, dt: GoTime.Time, text: string): (b: bool)
    ensures b <==> CoerceDateTime(p, text).Some? && GoTime.After(dt, CoerceDateTime(p, text).value)
  {
    match CoerceDateTime(p, text)
    case None => false
    case Some(c) => GoTime.After(dt, c)
  }

  /** `integerEQUnknown`: the text is an integer equal to `i`. */
  function IntegerEQUnknown(i: int, text: string): (b: bool)
    ensures b <==> ParseInt(text).Ok? && i == ParseInt(text).value
  {
    match ParseInt(text)
    case Err(_) => false
    case Ok(n) => i == n
  }

  /** `integerLTUnknown`: the text is an integer greater than `i`. */
  function IntegerLTUnknown(i: int, text: string): (b: bool)
    ensures b <==> ParseInt(text).Ok? && i < ParseInt(text).value
  {
    match ParseInt(text)
    case Err(_) => false
    case Ok(n) => i < n
  }

  /** `integerGTUnknown`: the text is an integer less than `i`. */
  function IntegerGTUnknown(i: int, text: string): (b: bool)
    ensures b <==> ParseInt(text).Ok? && i > ParseInt(text).value
  {
    match ParseInt(text)
    case Err(_) => false
    case Ok(n) => i > n
  }

  /** `doubleEQUnknown`: the text is a decimal equal to `d`; there is no integer fallback. */
  function DoubleEQUnknown(d: real, text: string): (b: bool)
    ensures b <==> Decimal.NewFromString(text).Some? && d == Decimal.NewFromString(text).value
  {
    match Decimal.NewFromString(text)
    case None => false
    case Some(x) => d == x
  }

  /**
   * The decimal the ordering helpers compare with: the text as a decimal, or else
   * as a `parseInt` integer taken at face value.
   */
  function CoerceDecimal(text: string): (r: Option<real>)
    ensures Decimal.NewFromString(text).Some? ==> r == Decimal.NewFromString(text)
    ensures Decimal.NewFromString(text).None? ==>
      (r.Some? <==> ParseInt(text).Ok?) && (r.Some? ==> r.value == ParseInt(text).value as real)
  {
    match Decimal.NewFromString(text)
    case Some(x) => Some(x)
    case None =>
      match ParseInt(text)
      case Err(_) => None
      case Ok(n) => Some(n as real)
  }

  /** `doubleLTUnknown`: `d` is less than the decimal the text denotes. */
  function DoubleLTUnknown(d: real, text: string): (b: bool)
    ensures b <==> CoerceDecimal(text).Some? && d < CoerceDecimal(text).value
  {
    match CoerceDecimal(text)
    case None => false
    case Some(x) => d < x
  }

  /** The counterpart of `doubleLTUnknown`: `d` is greater than the decimal the text denotes. */
  function DoubleGTUnknown(d: real, text: string): (b: bool)
    ensures b <==> CoerceDecimal(text).Some? && d > CoerceDecimal(text).value
  {
    match CoerceDecimal(text)
    case None => false
    case Some(x) => d > x
  }

  /** Against the decimal form of an `int64`, the integer helpers compare `i` with that number. */
  lemma IntegerHelpersOnFormatted(i: int, n: Strconv.int64)
    ensures IntegerEQUnknown(i, Strconv.FormatInt(n)) <==> i == n as int
    ensures IntegerLTUnknown(i, Strconv.FormatInt(n)) <==> i < n as int
    ensures IntegerGTUnknown(i, Strconv.FormatInt(n)) <==> i > n as int
  {
    ParseIntFormatInt(n);
  }

  /** Against the decimal form of an integer, the decimal helpers compare `d` with that number. */
  lemma DoubleHelpersOnFormatted(d: real, n: int)
    ensures DoubleEQUnknown(d, Strconv.FormatInt(n)) <==> d == n as real
    ensures DoubleLTUnknown(d, Strconv.FormatInt(n)) <==> d < n as real
    ensures DoubleGTUnknown(d, Strconv.FormatInt(n)) <==> d > n as real
  {
    Decimal.NewFromStringFormatInt(n);
  }

  /** Against a signed fraction `whole.frac`, the decimal helpers compare `d` with its value. */
  lemma DoubleHelpersOnFraction(d: real, sign: string, whole: string, frac: string)
    requires sign == "" || sign == "-" || sign == "+"
    requires Decimal.IsDigits(whole) && Decimal.IsDigits(frac) && whole + frac != ""
    requires |frac| <= 0x8000_0000
    ensures Decimal.DigitsValue(whole + frac).Some?
    ensures var x := Decimal.Signed(sign, Decimal.DigitsValue(whole + frac).value) as real / Decimal.Pow10(|frac|);
      (DoubleEQUnknown(d, sign + whole + "." + frac) <==> d == x)
      && (DoubleLTUnknown(d, sign + whole + "." + frac) <==> d < x)
      && (DoubleGTUnknown(d, sign + whole + "." + frac) <==> d > x)
  {
    Decimal.NewFromStringPointed(sign, whole, frac);
  }

  /**
   * `doubleLTUnknown` as written: the integer fallback builds `decimal.New(n, 1)`,
   * which is `n` times ten.
   */
  function DoubleLTUnknownAsWritten(d: real, text: string): (b: bool)
    ensures Decimal.NewFromString(text).Some? ==> b == DoubleLTUnknown(d, text)
    ensures Decimal.NewFromString(text).None? && ParseInt(text).Ok? ==>
      (b <==> d < 10.0 * ParseInt(text).value as real)
    ensures Decimal.NewFromString(text).None? && ParseInt(text).Err? ==> !b
  {
    match Decimal.NewFromString(text)
    case Some(x) => d < x
    case None =>
      match ParseInt(text)
      case Err(_) => false
      case Ok(n) => d < (n as real) * 10.0
  }

  /** Hex text is no decimal, so the fallback decides, and as written it is ten times too large. */
  lemma DoubleFallbackScalesByTen()
    ensures Decimal.NewFromString("0x1") == None
    ensures DoubleLTUnknownAsWritten(5.0, "0x1")
    ensures !DoubleLTUnknown(5.0, "0x1")
  {
    assert Decimal.NewFromString("0x1") == None by {
      assert GoText.FirstIndexOf("0x1", {'e', 'E'}) == None;
      assert GoText.FirstIndexOf("0x1", {'.'}) == None;
      assert Strconv.ParseInt("0", 10, 32) == Ok(0) by {
        Strconv.ParseIntFormatInt(0, 32);
      }
      assert Decimal.DigitsValue("0x1") == None by {
        assert "0x1"[1] == 'x';
      }
    }
    assert ParseInt("0x1") == Ok(1) by {
      assert GoText.RemoveUnderscores("0x1") == "0x1";
      assert GoText.HasPrefix("0x1", "0x");
      assert "0x1"[2..] == "1";
      Strconv.ParseUintFormatUnsigned(1, 16, 64);
      assert Strconv.FormatUnsigned(1, 16) == "1";
      Strconv.Pow2At63();
    }
  }

  // ------------------------------------------------------------ the operators

  /** An operand as the comparison sees it: a variable is replaced by what it resolves to. */
  function Operand(env: Environment, v: Value): (r: Option<Value>)
    ensures !v.Var? ==> r == Some(v)
    ensures v.Var? ==> r == Resolve(env, v.name)
  {
    if v.Var? then Resolve(env, v.name) else Some(v)
  }

  /** `lt` on resolved operands; only pairs with untyped text on one side are ordered. */
  function LtValues(p: Host.Platform, l: Value, r: Value): (b: bool)
    ensures b ==> l.Any? || r.Any?
  {
    match (l, r)
    case (Any(a), Any(b)) => GoText.Less(a, b)
    case (Any(a), Str(_, s)) => GoText.Less(a, s)
    case (Str(_, s), Any(a)) => GoText.Less(s, a)
    case (Any(a), DateTime(_, t)) => DateTimeGTUnknown(p, t, a)
    case (DateTime(_, t), Any(a)) => DateTimeLTUnknown(p, t, a)
    case (Any(a), Integer(_, i)) => IntegerGTUnknown(i as int, a)
    case (Integer(_, i), Any(a)) => IntegerLTUnknown(i as int, a)
    case (Any(a), Double(_, d)) => DoubleGTUnknown(d, a)
    case (Double(_, d), Any(a)) => DoubleLTUnknown(d, a)
    case _ => false
  }

  /** `gt` on resolved operands: the mirror of `lt`, pair by pair. */
  function GtValues(p: Host.Platform, l: Value, r: Value): (b: bool)
    ensures b == LtValues(p, r, l)
    ensures b ==> l.Any? || r.Any?
  {
    match (l, r)
    case (Any(a), Any(b)) => GoText.Less(b, a)
    case (Any(a), Str(_, s)) => GoText.Less(s, a)
    case (Str(_, s), Any(a)) => GoText.Less(a, s)
    case (Any(a), DateTime(_, t)) => DateTimeLTUnknown(p, t, a)
    case (DateTime(_, t), Any(a)) => DateTimeGTUnknown(p, t, a)
    case (Any(a), Integer(_, i)) => IntegerLTUnknown(i as int, a)
    case (Integer(_, i), Any(a)) => IntegerGTUnknown(i as int, a)
    case (Any(a), Double(_, d)) => DoubleLTUnknown(d, a)
    case (Double(_, d), Any(a)) => DoubleGTUnknown(d, a)
    case _ => false
  }

  /** `eq` on resolved operands; only pairs with text or a string on one side can be equal. */
  function EqValues(p: Host.Platform, l: Value, r: Value): (b: bool)
    ensures b ==> l.Any? || r.Any? || l.Str? || r.Str?
  {
    match (l, r)
    case (Regexp(pattern), Str(_, s)) => CompareStringEQRegexp(p, s, pattern)
    case (Regexp(pattern), Any(a)) => RegexpEQUnknown(p, pattern, a)
    case (Str(_, s), Regexp(pattern)) => CompareStringEQRegexp(p, s, pattern)
    case (Str(_, a), Str(_, b)) => CompareStringEQString(a, b)
    case (Any(a), Regexp(pattern)) => RegexpEQUnknown(p, pattern, a)
    case (Any(a), DateTime(_, t)) => DateTimeEQUnknown(p, t, a)
    case (Any(a), Integer(_, i)) => IntegerEQUnknown(i as int, a)
    case (Any(a), Double(_, d)) => DoubleEQUnknown(d, a)
    case (DateTime(_, t), Any(a)) => DateTimeEQUnknown(p, t, a)
    case (Integer(_, i), Any(a)) => IntegerEQUnknown(i as int, a)
    case (Double(_, d), Any(a)) => DoubleEQUnknown(d, a)
    case _ => false
  }

  /**
   * `eq` as written, `None` standing for the panic of a failed type assertion: the
   * cases labelled Regexp-Regexp and Integer-Integer hand a non-string to a helper
   * that expects a variable's text, and the Regexp-Unknown, Integer-Unknown and
   * Double-Unknown pairs have no case.
   */
  function EqValuesAsWritten(p: Host.Platform, l: Value, r: Value): (o: Option<bool>)
    ensures o.None? <==> (l.Regexp? && r.Regexp?) || (l.Integer? && r.Integer?)
    ensures o == Some(true) ==> EqValues(p, l, r)
    ensures o.Some? && !((l.Regexp? || l.Integer? || l.Double?) && r.Any?) ==> o.value == EqValues(p, l, r)
  {
    match (l, r)
    case (Regexp(_), Regexp(_)) => None
    case (Integer(_, _), Integer(_, _)) => None
    case (Regexp(_), Any(_)) => Some(false)
    case (Integer(_, _), Any(_)) => Some(false)
    case (Double(_, _), Any(_)) => Some(false)
    case _ => Some(EqValues(p, l, r))
  }

  /** As written, `eq` is not symmetric and can crash on two integers. */
  lemma EqAsWrittenCounterexamples(p: Host.Platform)
    ensures EqValuesAsWritten(p, Any("8"), Integer("8", 8)) == Some(true)
    ensures EqValuesAsWritten(p, Integer("8", 8), Any("8")) == Some(false)
    ensures EqValuesAsWritten(p, Integer("8", 8), Integer("8", 8)) == None
    ensures EqValuesAsWritten(p, Regexp("a"), Regexp("a")) == None
  {
    ParseIntFormatInt(8);
    assert Strconv.FormatInt(8) == "8";
  }

  /** `lt`: both operands resolved, then compared; an unbound variable compares as `false`. */
  function Lt(p: Host.Platform, env: Environment, left: Value, right: Value): (b: bool)
    ensures b ==>
              Operand(env, left).Some? && Operand(env, right).Some?
              && (Operand(env, left).value.Any? || Operand(env, right).value.Any?)
  {
    match (Operand(env, left), Operand(env, right))
    case (Some(l), Some(r)) => LtValues(p, l, r)
    case _ => false
  }

  /** `gt`: both operands resolved, then compared; an unbound variable compares as `false`. */
  function Gt(p: Host.Platform, env: Environment, left: Value, right: Value): (b: bool)
    ensures b ==>
              Operand(env, left).Some? && Operand(env, right).Some?
              && (Operand(env, left).value.Any? || Operand(env, right).value.Any?)
  {
    match (Operand(env, left), Operand(env, right))
    case (Some(l), Some(r)) => GtValues(p, l, r)
    case _ => false
  }

  /** `eq`: both operands resolved, then compared; an unbound variable compares as `false`. */
  function Eq(p: Host.Platform, env: Environment, left: Value, right: Value): (b: bool)
    ensures b ==>
              Operand(env, left).Some? && Operand(env, right).Some?
              && (Operand(env, left).value.Any? || Operand(env, right).value.Any?
                  || Operand(env, left).value.Str? || Operand(env, right).value.Str?)
  {
    match (Operand(env, left), Operand(env, right))
    case (Some(l), Some(r)) => EqValues(p, l, r)
    case _ => false
  }

  /** `le`: the `lt` helper or the `eq` helper of the pair. */
  function Le(p: Host.Platform, env: Environment, left: Value, right: Value): (b: bool)
    ensures b ==> Operand(env, left).Some? && Operand(env, right).Some?
  {
    Lt(p, env, left, right) || Eq(p, env, left, right)
  }

  /** `ge`: the `gt` helper or the `eq` helper of the pair. */
  function Ge(p: Host.Platform, env: Environment, left: Value, right: Value): (b: bool)
    ensures b ==> Operand(env, left).Some? && Operand(env, right).Some?
  {
    Gt(p, env, left, right) || Eq(p, env, left, right)
  }

  /** `ne`: the negation of `eq`. */
  function Ne(p: Host.Platform, env: Environment, left: Value, right: Value): (b: bool)
    ensures Operand(env, left).None? || Operand(env, right).None? ==> b
  {
    !Eq(p, env, left, right)
  }

  // ----------------------------------------------------------------- lemmas

  /** Operands that are not variables are compared as they are. */
  lemma PlainOperands(p: Host.Platform, env: Environment, l: Value, r: Value)
    requires !l.Var? && !r.Var?
    ensures Lt(p, env, l, r) == LtValues(p, l, r)
    ensures Gt(p, env, l, r) == GtValues(p, l, r)
    ensures Eq(p, env, l, r) == EqValues(p, l, r)
  {
  }

  /** `lt` and `gt` are mirror images on every pair of operands. */
  lemma LtGtMirror(p: Host.Platform, env: Environment, a: Value, b: Value)
    ensures Lt(p, env, a, b) == Gt(p, env, b, a)
  {
  }

  /** `eq` does not depend on the order of its operands. */
  lemma EqSymmetric(p: Host.Platform, env: Environment, a: Value, b: Value)
    ensures Eq(p, env, a, b) == Eq(p, env, b, a)
  {
  }

  /** So `le` and `ge` are mirror images, and so is `ne`. */
  lemma LeGeMirror(p: Host.Platform, env: Environment, a: Value, b: Value)
    ensures Le(p, env, a, b) == Ge(p, env, b, a)
    ensures Ne(p, env, a, b) == Ne(p, env, b, a)
  {
    LtGtMirror(p, env, a, b);
    EqSymmetric(p, env, a, b);
  }

  /** On the pairs the code's `le` handles, it is the `lt` helper or the `eq` helper. */
  lemma LeOnHandledPairs(p: Host.Platform, env: Environment, a: string, raw: string, t: GoTime.Time, i: Strconv.int64)
    ensures Le(p, env, Any(a), DateTime(raw, t)) == (DateTimeGTUnknown(p, t, a) || DateTimeEQUnknown(p, t, a))
    ensures Le(p, env, Any(a), Integer(raw, i)) == (IntegerGTUnknown(i as int, a) || IntegerEQUnknown(i as int, a))
    ensures Le(p, env, DateTime(raw, t), Any(a)) == (DateTimeLTUnknown(p, t, a) || DateTimeEQUnknown(p, t, a))
    ensures Le(p, env, Integer(raw, i), Any(a)) == (IntegerLTUnknown(i as int, a) || IntegerEQUnknown(i as int, a))
  {
    PlainOperands(p, env, Any(a), DateTime(raw, t));
    PlainOperands(p, env, Any(a), Integer(raw, i));
    PlainOperands(p, env, DateTime(raw, t), Any(a));
    PlainOperands(p, env, Integer(raw, i), Any(a));
  }

  /** An operand that resolves to untyped text is compared with a decimal as that text. */
  lemma GeOnTextOperand(p: Host.Platform, env: Environment, v: Value, a: string, raw: string, d: real)
    requires Operand(env, v) == Some(Any(a))
    ensures Ge(p, env, v, Double(raw, d)) == (DoubleLTUnknown(d, a) || DoubleEQUnknown(d, a))
  {
  }

  /** On the pairs the code's `ge` handles, it is the `gt` helper or the `eq` helper. */
  lemma GeOnHandledPairs(p: Host.Platform, env: Environment, a: string, raw: string, t: GoTime.Time,
                         i: Strconv.int64, d: real)
    ensures Ge(p, env, Any(a), DateTime(raw, t)) == (DateTimeLTUnknown(p, t, a) || DateTimeEQUnknown(p, t, a))
    ensures Ge(p, env, Any(a), Integer(raw, i)) == (IntegerLTUnknown(i as int, a) || IntegerEQUnknown(i as int, a))
    ensures Ge(p, env, Any(a), Double(raw, d)) == (DoubleLTUnknown(d, a) || DoubleEQUnknown(d, a))
  {
    PlainOperands(p, env, Any(a), DateTime(raw, t));
    PlainOperands(p, env, Any(a), Integer(raw, i));
    PlainOperands(p, env, Any(a), Double(raw, d));
  }

  /** The `ge` cases with the typed operand on the left. */
  lemma GeOnHandledPairsTypedLeft(p: Host.Platform, env: Environment, a: string, raw: string, t: GoTime.Time,
                                  i: Strconv.int64)
    ensures Ge(p, env, DateTime(raw, t), Any(a)) == (DateTimeGTUnknown(p, t, a) || DateTimeEQUnknown(p, t, a))
    ensures Ge(p, env, Integer(raw, i), Any(a)) == (IntegerGTUnknown(i as int, a) || IntegerEQUnknown(i as int, a))
  {
    PlainOperands(p, env, DateTime(raw, t), Any(a));
    PlainOperands(p, env, Integer(raw, i), Any(a));
  }

  /**
   * Untyped text against an integer is compared through `parseInt`; text that does
   * not parse satisfies none of `<`, `<=`, `==`, `>=`, `>`, and so satisfies `!=`.
   */
  lemma IntegerCoercion(p: Host.Platform, env: Environment, a: string, raw: string, i: Strconv.int64)
    ensures Lt(p, env, Any(a), Integer(raw, i)) <==> ParseInt(a).Ok? && ParseInt(a).value < i as int
    ensures Eq(p, env, Any(a), Integer(raw, i)) <==> ParseInt(a) == Ok(i as int)
    ensures Gt(p, env, Any(a), Integer(raw, i)) <==> ParseInt(a).Ok? && ParseInt(a).value > i as int
    ensures ParseInt(a).Err? ==> !Lt(p, env, Any(a), Integer(raw, i)) && !Le(p, env, Any(a), Integer(raw, i))
    ensures ParseInt(a).Err? ==> !Eq(p, env, Any(a), Integer(raw, i)) && !Ge(p, env, Any(a), Integer(raw, i))
    ensures ParseInt(a).Err? ==> !Gt(p, env, Any(a), Integer(raw, i)) && Ne(p, env, Any(a), Integer(raw, i))
  {
    PlainOperands(p, env, Any(a), Integer(raw, i));
  }

  /** Text that is an integer is exactly one of less than, equal to or greater than `i`. */
  lemma IntegerTrichotomy(p: Host.Platform, env: Environment, a: string, raw: string, i: Strconv.int64)
    requires ParseInt(a).Ok?
    ensures Lt(p, env, Any(a), Integer(raw, i)) || Eq(p, env, Any(a), Integer(raw, i)) || Gt(p, env, Any(a), Integer(raw, i))
    ensures !(Lt(p, env, Any(a), Integer(raw, i)) && Eq(p, env, Any(a), Integer(raw, i)))
    ensures !(Lt(p, env, Any(a), Integer(raw, i)) && Gt(p, env, Any(a), Integer(raw, i)))
    ensures !(Eq(p, env, Any(a), Integer(raw, i)) && Gt(p, env, Any(a), Integer(raw, i)))
  {
    IntegerCoercion(p, env, a, raw, i);
  }

  /**
   * Untyped text against a decimal is compared as an exact decimal number; text
   * that is neither a decimal nor an integer is never less, equal or greater.
   */
  lemma DoubleCoercion(p: Host.Platform, env: Environment, a: string, raw: string, d: real)
    ensures Lt(p, env, Any(a), Double(raw, d)) <==> CoerceDecimal(a).Some? && CoerceDecimal(a).value < d
    ensures Eq(p, env, Any(a), Double(raw, d)) <==> Decimal.NewFromString(a) == Some(d)
    ensures Gt(p, env, Any(a), Double(raw, d)) <==> CoerceDecimal(a).Some? && CoerceDecimal(a).value > d
    ensures CoerceDecimal(a).None? ==> !Lt(p, env, Any(a), Double(raw, d)) && !Gt(p, env, Any(a), Double(raw, d))
    ensures CoerceDecimal(a).None? ==> !Eq(p, env, Any(a), Double(raw, d))
  {
    PlainOperands(p, env, Any(a), Double(raw, d));
    if Decimal.NewFromString(a).Some? {
      assert CoerceDecimal(a) == Decimal.NewFromString(a);
    }
  }

  /**
   * Untyped text against a date/time is read with the coercion formats and compared
   * as instants; text no format reads satisfies none of `<`, `==`, `>`.
   */
  lemma DateTimeCoercion(p: Host.Platform, env: Environment, a: string, raw: string, t: GoTime.Time)
    ensures Lt(p, env, Any(a), DateTime(raw, t)) <==> CoerceDateTime(p, a).Some? && GoTime.Before(CoerceDateTime(p, a).value, t)
    ensures Eq(p, env, Any(a), DateTime(raw, t)) <==> CoerceDateTime(p, a).Some? && GoTime.Equal(CoerceDateTime(p, a).value, t)
    ensures Gt(p, env, Any(a), DateTime(raw, t)) <==> CoerceDateTime(p, a).Some? && GoTime.After(CoerceDateTime(p, a).value, t)
    ensures CoerceDateTime(p, a).None? ==> !Lt(p, env, Any(a), DateTime(raw, t)) && !Gt(p, env, Any(a), DateTime(raw, t))
    ensures CoerceDateTime(p, a).None? ==> !Eq(p, env, Any(a), DateTime(raw, t))
  {
    PlainOperands(p, env, Any(a), DateTime(raw, t));
  }

  /** Untyped text against untyped text, or against a string, is Go's string order. */
  lemma TextOrder(p: Host.Platform, env: Environment, a: string, b: string, raw: string)
    ensures Lt(p, env, Any(a), Any(b)) <==> GoText.Less(a, b)
    ensures Lt(p, env, Any(a), Str(raw, b)) <==> GoText.Less(a, b)
    ensures a != b ==> (Lt(p, env, Any(a), Any(b)) <==> !Lt(p, env, Any(b), Any(a)))
    ensures !Lt(p, env, Any(a), Any(a))
  {
    GoText.LessIrreflexive(a);
    if a != b {
      GoText.LessTotal(a, b);
      GoText.LessAsymmetric(a, b);
    }
  }

  /** Whether a resolved pair has a handler in any of the operators. */
  predicate Handled(l: Value, r: Value) {
    l.Any? || r.Any? || ((l.Str? || l.Regexp?) && (r.Str? || r.Regexp?))
  }

  /**
   * A pair of typed values with no handler, such as two date/times, two integers,
   * an integer and a decimal, or a date/time and a string, satisfies none of the
   * operators but `!=`; so does a pair with an unbound variable.
   */
  lemma UnhandledPairsAreFalse(p: Host.Platform, env: Environment, a: Value, b: Value)
    requires Operand(env, a).None? || Operand(env, b).None?
      || !Handled(Operand(env, a).value, Operand(env, b).value)
    ensures !Lt(p, env, a, b) && !Le(p, env, a, b) && !Eq(p, env, a, b)
    ensures !Ge(p, env, a, b) && !Gt(p, env, a, b) && Ne(p, env, a, b)
  {
  }

  /** Strings are equal by content, whatever text they were written as. */
  lemma StringEquality(p: Host.Platform, env: Environment, raw1: string, s1: string, raw2: string, s2: string)
    ensures Eq(p, env, Str(raw1, s1), Str(raw2, s2)) <==> s1 == s2
    ensures !Lt(p, env, Str(raw1, s1), Str(raw2, s2)) && !Gt(p, env, Str(raw1, s1), Str(raw2, s2))
  {
    PlainOperands(p, env, Str(raw1, s1), Str(raw2, s2));
  }

  /** A pattern equals a string or untyped text exactly when it matches it, in either order. */
  lemma RegexpEquality(p: Host.Platform, env: Environment, pattern: string, raw: string, s: string)
    ensures Eq(p, env, Regexp(pattern), Str(raw, s)) == p.matches(pattern, s)
    ensures Eq(p, env, Str(raw, s), Regexp(pattern)) == p.matches(pattern, s)
    ensures Eq(p, env, Regexp(pattern), Any(s)) == p.matches(pattern, s)
    ensures Eq(p, env, Any(s), Regexp(pattern)) == p.matches(pattern, s)
  {
    PlainOperands(p, env, Regexp(pattern), Str(raw, s));
    PlainOperands(p, env, Str(raw, s), Regexp(pattern));
    PlainOperands(p, env, Regexp(pattern), Any(s));
    PlainOperands(p, env, Any(s), Regexp(pattern));
  }

  /** An integer is compared by its value, not by the text it was written as. */
  lemma IntegerComparesByValue(p: Host.Platform, env: Environment, a: string, raw1: string, raw2: string, i: Strconv.int64)
    ensures Lt(p, env, Any(a), Integer(raw1, i)) == Lt(p, env, Any(a), Integer(raw2, i))
    ensures Eq(p, env, Any(a), Integer(raw1, i)) == Eq(p, env, Any(a), Integer(raw2, i))
    ensures Gt(p, env, Any(a), Integer(raw1, i)) == Gt(p, env, Any(a), Integer(raw2, i))
  {
    PlainOperands(p, env, Any(a), Integer(raw1, i));
    PlainOperands(p, env, Any(a), Integer(raw2, i));
  }
}
