/**
 * The comparisons the core's unit tests spell out, derived from the comparison
 * functions for every platform: integers, decimals, text, and variables resolved
 * from a row or from named bindings.
 */
module ComparisonExamples {
  import opened Wrappers
  import Strconv
  import Decimal
  import Host
  import GoText
  import opened Values
  import opened Environments
  import opened ComparisonFunctions

  const NoEnv: Environment := Environment(None, map[])

  /** `parseInt` of a decimal written by `%d`. */
  lemma ParseIntOf(n: Strconv.int64, s: string)
    requires Strconv.FormatInt(n) == s
    ensures ParseInt(s) == Ok(n as int)
  {
    ParseIntFormatInt(n);
  }

  /** Text starting with a letter and free of `_` is no integer for `parseInt`. */
  lemma ParseIntRejectsWord(s: string)
    requires s != [] && 'a' <= s[0] <= 'z' && '_' !in s
    ensures ParseInt(s).Err?
  {
    assert !GoText.HasPrefix(s, "0x") && !GoText.HasPrefix(s, "0b") by {
      if |s| >= 2 {
        assert s[..2][0] == s[0];
      }
    }
  }

  /** The integer texts compared with 13 parse to their numbers. */
  lemma ParseIntExamples()
    ensures ParseInt("12") == Ok(12) && ParseInt("13") == Ok(13) && ParseInt("14") == Ok(14)
  {
    ParseIntOf(12, "12");
    ParseIntOf(13, "13");
    ParseIntOf(14, "14");
  }

  /** The integer texts compared with 40 parse to their numbers. */
  lemma ParseIntTensExamples()
    ensures ParseInt("30") == Ok(30) && ParseInt("40") == Ok(40) && ParseInt("50") == Ok(50)
  {
    ParseIntOf(30, "30");
    ParseIntOf(40, "40");
    ParseIntOf(50, "50");
  }

  /** The words of the tests are no integers. */
  lemma ParseIntWordExamples()
    ensures ParseInt("aaa").Err? && ParseInt("abc").Err? && ParseInt("zzz").Err?
  {
    ParseIntRejectsWord("aaa");
    ParseIntRejectsWord("abc");
    ParseIntRejectsWord("zzz");
  }

  /** Untyped text against the integer 13: only "12" is below it, and a word is not. */
  lemma IntegerExamples(p: Host.Platform)
    ensures !Lt(p, NoEnv, Any("aaa"), Integer("13", 13)) && Lt(p, NoEnv, Any("12"), Integer("13", 13))
    ensures !Lt(p, NoEnv, Any("13"), Integer("13", 13)) && !Lt(p, NoEnv, Any("14"), Integer("13", 13))
  {
    PlainOperands(p, NoEnv, Any("aaa"), Integer("13", 13));
    PlainOperands(p, NoEnv, Any("12"), Integer("13", 13));
    PlainOperands(p, NoEnv, Any("13"), Integer("13", 13));
    PlainOperands(p, NoEnv, Any("14"), Integer("13", 13));
    ParseIntExamples();
    ParseIntWordExamples();
  }

  /** The integer 40 against untyped text: only "50" is above it, and a word is not. */
  lemma IntegerLeftExamples(p: Host.Platform)
    ensures !Lt(p, NoEnv, Integer("40", 40), Any("abc")) && Lt(p, NoEnv, Integer("40", 40), Any("50"))
    ensures !Lt(p, NoEnv, Integer("40", 40), Any("40")) && !Lt(p, NoEnv, Integer("40", 40), Any("30"))
  {
    PlainOperands(p, NoEnv, Integer("40", 40), Any("abc"));
    PlainOperands(p, NoEnv, Integer("40", 40), Any("50"));
    PlainOperands(p, NoEnv, Integer("40", 40), Any("40"));
    PlainOperands(p, NoEnv, Integer("40", 40), Any("30"));
    ParseIntTensExamples();
    ParseIntWordExamples();
  }

  /** A word is no decimal and no integer, so it is not below the decimal 13.1. */
  lemma DoubleWordExample(p: Host.Platform)
    ensures !Lt(p, NoEnv, Any("zzz"), Double("13.1", 13.1))
  {
    PlainOperands(p, NoEnv, Any("zzz"), Double("13.1", 13.1));
    Decimal.NewFromStringRefusesWord();
    ParseIntRejectsWord("zzz");
  }

  /** Whole numbers against the decimal 13.1: compared as exact decimals. */
  lemma DoubleExamples(p: Host.Platform)
    ensures Lt(p, NoEnv, Any("2"), Double("13.1", 13.1))
    ensures !Lt(p, NoEnv, Any("200"), Double("13.1", 13.1))
  {
    PlainOperands(p, NoEnv, Any("2"), Double("13.1", 13.1));
    PlainOperands(p, NoEnv, Any("200"), Double("13.1", 13.1));
    assert CoerceDecimal("2") == Some(2.0) by {
      Decimal.NewFromStringFormatInt(2);
      assert Strconv.FormatInt(2) == "2";
    }
    assert CoerceDecimal("200") == Some(200.0) by {
      Decimal.NewFromStringFormatInt(200);
      assert Strconv.FormatInt(200) == "200";
    }
  }

  /** Fractions against the decimal 13.1: "13.0" is below it and "13.1" equal to it. */
  lemma DoubleFractionExamples(p: Host.Platform)
    ensures Lt(p, NoEnv, Any("13.0"), Double("13.1", 13.1)) && !Lt(p, NoEnv, Any("13.1"), Double("13.1", 13.1))
  {
    Decimal.NewFromStringFraction();
    Decimal.NewFromStringWholeFraction();
  }

  /** Untyped text against untyped text and against a string, in Go's string order. */
  lemma TextExamples(p: Host.Platform)
    ensures Lt(p, NoEnv, Any("12"), Any("123")) && !Lt(p, NoEnv, Any("123"), Any("123"))
    ensures !Lt(p, NoEnv, Any("124"), Any("123"))
    ensures Lt(p, NoEnv, Any("abc"), NewStringValue("'bbc'")) && !Lt(p, NoEnv, Any("bbc"), NewStringValue("'bbc'"))
    ensures !Lt(p, NoEnv, Any("cbc"), NewStringValue("'bbc'"))
  {
    assert NewStringValue("'bbc'") == Str("'bbc'", "bbc");
    GoText.LessIrreflexive("123");
    GoText.LessIrreflexive("bbc");
  }

  /** A column compared with an integer uses the integer's value, not its text "1000". */
  lemma ColumnEqualsInteger(p: Host.Platform)
    ensures Eq(p, Environment(Some(Row(1, ["whole 8", "whole", "8"])), map[]), Var("%2"), Integer("1000", 8))
    ensures !Eq(p, Environment(Some(Row(1, ["whole 8", "whole", "7"])), map[]), Var("%2"), Integer("1000", 8))
  {
    var e8 := Environment(Some(Row(1, ["whole 8", "whole", "8"])), map[]);
    var e7 := Environment(Some(Row(1, ["whole 8", "whole", "7"])), map[]);
    assert ColumnName(2) == "%2" by {
      assert Strconv.FormatInt(2) == "2";
    }
    ResolveColumn(e8, 2);
    ResolveColumn(e7, 2);
    ParseIntFormatInt(8);
    ParseIntFormatInt(7);
    assert Strconv.FormatInt(8) == "8" && Strconv.FormatInt(7) == "7";
  }

  /**
   * On the line `8`, `%1 == 8` holds as written but `8 == %1` does not: the
   * column resolves to the text "8", and only the text-first pair has a case.
   * Corrected, both orders hold.
   */
  lemma ColumnEqualsIntegerAsWritten(p: Host.Platform)
    ensures var env := Environment(Some(Row(0, ["8", "8"])), map[]);
      && Operand(env, Var("%1")) == Some(Any("8"))
      && EqValuesAsWritten(p, Any("8"), Integer("8", 8)) == Some(true)
      && EqValuesAsWritten(p, Integer("8", 8), Any("8")) == Some(false)
      && Eq(p, env, Var("%1"), Integer("8", 8)) && Eq(p, env, Integer("8", 8), Var("%1"))
  {
    var env := Environment(Some(Row(0, ["8", "8"])), map[]);
    assert ColumnName(1) == "%1" by {
      assert Strconv.FormatInt(1) == "1";
    }
    ResolveColumn(env, 1);
    EqAsWrittenCounterexamples(p);
    ParseIntFormatInt(8);
    assert Strconv.FormatInt(8) == "8";
  }

  /**
   * On the line `0x1`, `%1 >= 5.0` reaches `ge`'s untyped-text-against-decimal
   * case, which as written asks whether 5 is below ten times 1 and so holds.
   * Corrected, 1 is read as itself and the comparison is false.
   */
  lemma ColumnAtLeastDecimalAsWritten(p: Host.Platform)
    ensures var env := Environment(Some(Row(0, ["0x1", "0x1"])), map[]);
      && Operand(env, Var("%1")) == Some(Any("0x1"))
      && (DoubleLTUnknownAsWritten(5.0, "0x1") || DoubleEQUnknown(5.0, "0x1"))
      && !Ge(p, env, Var("%1"), Double("5.0", 5.0))
  {
    var env := Environment(Some(Row(0, ["0x1", "0x1"])), map[]);
    FirstColumnOperand(env, "0x1");
    GeOnTextOperand(p, env, Var("%1"), "0x1", "5.0", 5.0);
    DoubleFallbackScalesByTen();
  }

  /** `%1` is the first column once the line is split. */
  lemma FirstColumnOperand(env: Environment, column: string)
    requires env == Environment(Some(Row(0, [column, column])), map[])
    ensures Operand(env, Var("%1")) == Some(Any(column))
  {
    assert ColumnName(1) == "%1" by {
      assert Strconv.FormatInt(1) == "1";
    }
    ResolveColumn(env, 1);
  }

  /** A named variable bound to untyped text is coerced like a column. */
  lemma NamedVariableExamples(p: Host.Platform)
    ensures var env := Environment(None, map["varname" := Any("12")]);
      !Lt(p, env, Var("varname"), Integer("12", 12)) && Lt(p, env, Var("varname"), Integer("13", 13))
      && Lt(p, env, Var("varname"), Double("13.1", 13.1))
  {
    var env := Environment(None, map["varname" := Any("12")]);
    assert !GoText.HasPrefix("varname", "%") by {
      assert "varname"[0] != '%';
    }
    assert Operand(env, Var("varname")) == Some(Any("12"));
    ParseIntOf(12, "12");
    Lt12(p, env);
    Decimal.NewFromStringFormatInt(12);
    assert Strconv.FormatInt(12) == "12";
    assert CoerceDecimal("12") == Some(12.0);
    assert Lt(p, env, Var("varname"), Double("13.1", 13.1)) == LtValues(p, Any("12"), Double("13.1", 13.1));
  }

  lemma Lt12(p: Host.Platform, env: Environment)
    requires Operand(env, Var("varname")) == Some(Any("12")) && ParseInt("12") == Ok(12)
    ensures !Lt(p, env, Var("varname"), Integer("12", 12)) && Lt(p, env, Var("varname"), Integer("13", 13))
  {
    assert Lt(p, env, Var("varname"), Integer("12", 12)) == LtValues(p, Any("12"), Integer("12", 12));
    assert Lt(p, env, Var("varname"), Integer("13", 13)) == LtValues(p, Any("12"), Integer("13", 13));
  }
}
