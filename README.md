# jt: a line filter language, modelled in Dafny

`jt` reads text line by line, splits each line into columns on runs of blanks and
runs a small program of *rules* over every line. A rule is an optional
*selection* (a boolean expression over the columns, written `%1`, `%-1`, `%#`
and so on) and a *block* of `print` / `println` commands. The selection
compares values with `<`, `<=`, `==`, `!=`, `>=`, `>`. A column's text has no
type of its own: it is coerced to the type of the other operand, which may be a
quoted string, a regular expression, a date/time, an integer (binary, octal,
decimal or hex, with `_` separators) or a decimal number.

This project models the abstract syntax tree and its evaluator: values and
their constructors, the environment that resolves column references, the
comparison functions and the operator table, range, negation, comparison and
conjunction expressions, commands, blocks, rules and programs, and the driver
loop that splits each line and applies the rules. The parsing of date/times
(the format tables and the flags that fill in the year, the day or the zone) is
modelled as well.

Layout, one module per file:

| file | module | models |
|---|---|---|
| wrappers.dfy | Wrappers | `Option` and `Result` |
| gotext.dfy | GoText | the parts of Go's `strings` package the core uses, and Go's `<` on strings |
| strconv.dfy | Strconv | `strconv.ParseInt` / `ParseUint` / `FormatInt` |
| decimal.dfy | Decimal | `decimal.NewFromString` of the decimal library, as exact rationals |
| gotime.dfy | GoTime | `time.Time` with fixed-offset zones: `Before`, `After`, `Equal`, `Date` |
| host.dfy | Host | the functions the core gets from its platform: layout parsing, the clock, regular expressions, printing of times and decimals |
| datetime.dfy | DateTime | `datetime/datetime.go` |
| values.dfy | Values | `ast/value.go` |
| environment.dfy | Environments | `ast/environment.go` |
| comparison_functions.dfy | ComparisonFunctions | `ast/comparison_functions.go` |
| comparison_examples.dfy | ComparisonExamples | the cases of `ast/comparison_functions_test.go` |
| operators.dfy | Operators | `ast/operator.go` |
| comparisons.dfy | Comparisons | the table of `ast/comparison.go` |
| expressions.dfy | Expressions | `ast/expression.go` and the expressions of `ast/comparison.go` |
| commands.dfy | Commands | `ast/command.go` |
| blocks.dfy | Blocks | `ast/block.go` |
| rules.dfy | Rules | `ast/rule.go` |
| programs.dfy | Programs | `ast/program.go` |
| driver.dfy | Driver | `processReader` and `applyRules` of `main.go` |

The source is part-way through a refactor. `Value`, `Environment` and the
comparison functions take an `*Environment`, while commands, blocks and rules
still take a `map[string]string`, and `main.go` expects `Execute` to return an
error. The model follows the newer shape throughout: every `Evaluate` and
`Execute` gets an `Environment`.

Date/time values are half-way through the same change. `DateTimeValue` holds a
`time.Time` (`ast/value.go:113`), `ParseDateTime` returns a `*time.Time`
(`datetime/datetime.go:65`), and the comparison helpers assert that the value is
a `*time.Time` (`ast/comparison_functions.go:233`, `246`, `259`). The model takes
the reading under which these agree: a date/time value holds the time itself,
that time is what `ParseDateTime` found, and the helpers compare it.

Effects are values. A command or a rule yields an `Effect`: the text written to
stdout, the diagnostics written to stderr and whether the run crashed. A Go
panic (a slice out of bounds, a missing table entry, a call through nil) is an
`EvalError` for which `IsPanic()` holds, and it ends the run with nothing after it.
The regular-expression engine, `time.Parse` of a single layout, `time.Now` and the
`String()` of times and decimals are fields of `Host.Platform`, a parameter of every
operation that needs them. The contracts hold for every platform.

## Model

| member | source | states |
|---|---|---|
| GoText.RemoveUnderscores | ast/value.go:161-166 | the `strings.Map` that drops `_`: the result has no `_`, is no longer than the input and is the input when it had none |
| GoText.RemoveUnderscoresAppend | ast/value.go:268-273 | dropping `_` distributes over concatenation |
| GoText.RemoveUnderscoresIdempotent | ast/value.go:217-222 | dropping `_` twice is dropping it once |
| GoText.FirstIndexOf | ast/value.go:274 | the first position holding one of the characters (the split points `decimal.NewFromString` looks for): that character is there, none is earlier, and none means no such character anywhere |
| GoText.FirstIndexOfAt | ast/value.go:274 | the first position holding one of the characters is `k` when `s[k]` is one and no earlier character is |
| GoText.Join | ast/command.go:60 | `strings.Join` of no parts is empty and of one part is that part |
| GoText.JoinSnoc | ast/command.go:60 | joining one more part appends the separator and the part |
| GoText.Quote | datetime/datetime.go:101 | the `%q` text of the error message starts and ends with a double quote |
| GoText.LessIrreflexive | ast/comparison_functions.go:14-43 | Go's `<` on strings is irreflexive |
| GoText.LessAsymmetric | ast/comparison_functions.go:14-43 | Go's `<` on strings is asymmetric |
| GoText.LessTransitive | ast/comparison_functions.go:14-43 | Go's `<` on strings is transitive |
| GoText.LessTotal | ast/comparison_functions.go:14-43 | any two different strings are ordered one way or the other |
| Strconv.Pow | ast/value.go:231-240 | a power of a positive base is positive |
| Strconv.PowAdd | ast/value.go:231-240 | `b^(j+k) = b^j * b^k` |
| Strconv.Pow2At31 | ast/environment.go:23 | `2^31` is one past the largest `int32` |
| Strconv.Pow2At63 | ast/value.go:231-240 | `2^63` is one past the largest `int64`, `2^64` twice that |
| Strconv.DivModBase | ast/value.go:250-252 | dividing by a digit base rebuilds the number and strictly shrinks it |
| Strconv.DigitValue | ast/value.go:231-240 | a digit's value is below 36, and below 10 exactly for `0`..`9` |
| Strconv.ScanDigits | ast/value.go:231-240 | a successful scan stays between the accumulator and the bound; text made only of non-digits is a syntax error |
| Strconv.ParseUint | ast/comparison_functions.go:341-345 | the value fits in `bitSize` bits; empty text is a syntax error |
| Strconv.ParseSigned | ast/comparison_functions.go:341-345 | a value is within the signed range of `bitSize` bits; an error names `ParseInt` and the input |
| Strconv.ParseInt | ast/value.go:231-240 | `strconv.ParseInt`: the value is within the signed range of `bitSize` bits, an error carries the input, and empty text or a lone sign is a syntax error |
| Strconv.ParseInt64InRange | ast/value.go:232 | a 64-bit parse always yields an `int64` |
| Strconv.DigitChar | ast/value.go:250-252 | the digit written for `d` reads back as `d` |
| Strconv.FormatUnsigned | ast/value.go:250-252 | non-empty, made of digits of the base, leading `0` only for zero |
| Strconv.FormatInt | ast/value.go:250-252 | `%d`: non-empty, no `+`, a leading `-` exactly for negative numbers |
| Strconv.ScanFormatted | ast/value.go:250-252 | scanning the written digits of `m` leaves `m` in the accumulator |
| Strconv.ParseUintFormatUnsigned | ast/value.go:250-252 | `ParseUint` reads back what `FormatUint` writes, when it fits |
| Strconv.ParseIntFormatInt | ast/value.go:250-252 | round trip: `ParseInt(FormatInt(n), 10, bitSize) == n` for every `n` that fits |
| Decimal.Pow10 | ast/value.go:274 | ten to any integer power is positive |
| Decimal.DigitsValue | ast/value.go:274 | a value exists exactly for a non-empty run of decimal digits |
| Decimal.ParseCoefficient | ast/value.go:274 | empty text is no coefficient |
| Decimal.Scaled | ast/value.go:274 | a result needs a 32-bit exponent and a valid coefficient |
| Decimal.NewFromString | ast/value.go:274 | empty text is no decimal |
| Decimal.Mantissa | ast/value.go:274 | an empty mantissa is no decimal |
| Decimal.DigitsValueFormatUnsigned | ast/value.go:274 | the base-10 digits of `m` read back as `m` |
| Decimal.FormatUnsignedDecimalDigits | ast/value.go:274 | base-10 digits are all `0`..`9` |
| Decimal.SignedDigitsPlain | ast/value.go:274 | optionally signed digits have no exponent marker and no point |
| Decimal.FormatIntCoefficient | ast/comparison_functions.go:320-335 | the text `%d` writes for `n` reads back as the coefficient `n` |
| Decimal.FormatIntPlain | ast/comparison_functions.go:320-335 | the text `%d` writes has no exponent marker and no point |
| Decimal.NewFromStringFormatInt | ast/comparison_functions.go:320-335 | every integer written by `%d` is read as exactly itself |
| Decimal.ExponentZero | ast/value.go:274 | the implicit exponent `0` parses as 0 |
| Decimal.NoExponent | ast/value.go:274 | text without `e` or `E` is its mantissa with exponent 0 |
| Decimal.NewFromStringFraction | ast/comparison_functions_test.go:36-41 | "13.1" is exactly 13.1 |
| Decimal.NewFromStringWholeFraction | ast/comparison_functions_test.go:38 | "13.0" is exactly 13 |
| Decimal.NewFromStringRefusesWord | ast/comparison_functions_test.go:36 | "zzz" is refused |
| Decimal.NewFromStringRefusesTwoPoints | ast/value.go:274 | "1.2.3", with two points, is refused |
| Decimal.NewFromStringExponent | ast/value.go:274 | "2.5e2" is 250 |
| Decimal.NewFromStringSigned | ast/value.go:274 | every optionally signed run of digits without a point, such as `007` or `+5`, parses as the integer of its digits, signed |
| Decimal.NewFromStringPointed | ast/value.go:274 | every signed text `digits.digits` (at least one digit, no exponent) parses as the integer of its digits, signed, divided by ten to the number of digits after the point |
| Decimal.NewFromStringPointedExponent | ast/value.go:274 | every signed text `digits.digitsE x` with an `int32` exponent `x` parses as the integer of its digits, signed, times ten to `x` minus the number of digits after the point |
| Decimal.MantissaPointed | ast/value.go:274 | the part before the exponent with one point is the signed integer of its digits scaled down by the digits after the point |
| Decimal.SignedCoefficient | ast/value.go:274 | a sign followed by digits is the value of the digits, negated for `-` |
| Decimal.Pow10Negative | ast/value.go:274 | ten to `-n` is the inverse of ten to `n` |
| Decimal.ScaledByNegative | ast/value.go:274 | scaling by ten to `-n` is dividing by ten to `n` |
| Decimal.ScaledAt | ast/value.go:274 | a coefficient that parses, scaled by an `int32` exponent, is its value times ten to the exponent |
| Decimal.PointAt | ast/value.go:274 | with its single point at `d`, the part before the exponent is the coefficient without the point scaled down by the digits after it |
| Decimal.PointedShape | ast/value.go:274 | the only point of `sign whole . frac` follows the whole part, and removing it leaves a coefficient worth the signed digits |
| Decimal.PlainAt | ast/value.go:274 | text without `e` or `E` is parsed as a mantissa with exponent zero |
| Decimal.ExponentAt | ast/value.go:274 | text whose first `e` is followed by the decimal form of an `int32` is the part before it at that exponent |
| Decimal.ExponentJoined | ast/value.go:274 | a mantissa without `e` or `E`, then `e` and an `int32` in decimal, parses as the mantissa at that exponent |
| Decimal.PointedChars | ast/value.go:274 | a character of `sign whole . frac` is no exponent mark, and is a point only at the point |
| Decimal.PointedPlain | ast/value.go:274 | `sign whole . frac` holds no exponent mark |
| Decimal.PointRemoved | ast/value.go:274 | the point of `sign whole . frac` sits after the whole part, and removing it leaves the sign and all the digits |
| Decimal.DigitsJoin | ast/value.go:274 | the whole and fraction digits together are digits |
| GoTime.Date | datetime/datetime.go:68-97 | `time.Date` keeps the zone and the clock fields, and denotes the instant its fields give in that zone |
| GoTime.Trichotomy | ast/comparison_functions.go:229-266 | exactly one of `Before`, `Equal`, `After` holds |
| GoTime.BeforeAfterMirror | ast/comparison_functions.go:242-266 | `Before(t,u)` iff `After(u,t)`; `Equal` is symmetric |
| GoTime.ChangeLocation | datetime/datetime.go:86-97 | taking the local zone while keeping the wall clock moves the instant by the offsets' difference |
| DateTime.NoDateMessage | datetime/datetime.go:101 | the error starts `Unable to convert "` |
| DateTime.FirstParsed | datetime/datetime.go:65-67 | the layout found is the first that parses, every earlier one fails, and none is found exactly when all fail |
| DateTime.ParseDateTime | datetime/datetime.go:65-102 | the loop over the formats returns what `ParseDateTimeSpec` says |
| DateTime.FirstParsedIsFirst | datetime/datetime.go:65-67 | the first layout that parses decides |
| DateTime.ParseDateTimeFirstMatch | datetime/datetime.go:65-98 | the result is the first parsing layout's time, adjusted by that format's flags |
| DateTime.ParseDateTimeSpec | datetime/datetime.go:65-102 | `ParseDateTimeSpec` fails exactly when no layout of the list parses the text, and then the error is `NoDateMessage` of the text, `Unable to convert %q to a date` |
| DateTime.Adjust | datetime/datetime.go:68-97 | the year, month and day come from the current day exactly where the layout lacks them, the location is local time unless the layout has a zone, and hour, minute, second and nanosecond are those parsed |
| DateTime.AdjustWithoutFlags | datetime/datetime.go:68-98 | with no flag the parsed time is returned unchanged |
| DateTime.LiteralFormatsYearless | datetime/datetime.go:21-34 | the literal layouts that take the current year are exactly those without one |
| DateTime.ZuluFormatsKeepTheirZone | datetime/datetime.go:21-63 | layouts ending in `.000Z` never take the local zone |
| DateTime.CoercionFormatsCurrentDay | datetime/datetime.go:40-63 | only the clock-only coercion layout takes today's date |
| Values.Value.Raw | ast/value.go:32-34 | the written text, and a variable's name |
| Values.Value.String | ast/value.go:40-42 | `String()`: untyped text and patterns print as written, a string as its contents, an integer as decimal digits that parse back to its number |
| Values.Value.Payload | ast/value.go:36-38 | `Value()` of text, variables, strings, integers and decimals |
| Values.NewStringValue | ast/value.go:87-92 | the value keeps the literal, and its text is what lies between the quotes |
| Values.NewIntegerValue | ast/value.go:149-154 | a value with the given text and number |
| Values.ParseIntFromString | ast/value.go:231-240 | succeeds exactly when `strconv.ParseInt(s, base, 64)` does, with that number and the text kept; otherwise that error |
| Values.PrefixedInteger | ast/value.go:156-211 | after the two-character prefix, `_` is dropped and the rest parsed in the base; the value keeps the whole written text |
| Values.NewIntegerValueFromBinaryString | ast/value.go:156-173 | succeeds exactly when the text after the two-character prefix, without `_`, parses as a 64-bit integer in base 2; the value is that number and keeps the written text |
| Values.NewIntegerValueFromOctalString | ast/value.go:175-192 | succeeds exactly when the text after the two-character prefix, without `_`, parses as a 64-bit integer in base 8; the value is that number and keeps the written text |
| Values.NewIntegerValueFromHexString | ast/value.go:194-211 | succeeds exactly when the text after the two-character prefix, without `_`, parses as a 64-bit integer in base 16; the value is that number and keeps the written text |
| Values.NewIntegerValueFromDecString | ast/value.go:213-229 | succeeds exactly when the text without `_` parses in base 10, with that number and the written text |
| Values.NewDoubleFromString | ast/value.go:264-282 | succeeds exactly when the text without `_` is a decimal; the value keeps that text and number, an error names it |
| Values.NewDateTimeValue | ast/value.go:116-125 | succeeds exactly when the literal formats parse the text; the value keeps the text and the time |
| Values.NewRegexpValue | ast/value.go:54-63 | succeeds exactly when the pattern compiles, keeping the pattern |
| Values.FormatUnsignedHasNoUnderscore | ast/value.go:250-252 | written digits hold no `_` |
| Values.PrefixedIntegerRoundTrip | ast/value.go:156-211 | a prefix followed by the digits of `n` in the base reads back as `n` |
| Values.DecStringRoundTrip | ast/value.go:213-229 | every `int64` written by `%d` reads back as itself, keeping the text |
| Values.PrefixedIntegerIgnoresUnderscores | ast/value.go:156-211 | `_` anywhere after the prefix never changes success or the number |
| Values.BinaryLiteralExample | ast/value_test.go:12-15 | "0b1000" is eight |
| Values.OctalLiteralExample | parser_test.go:131-137 | "0o723" is 467 |
| Values.HexLiteralExample | parser_test.go:33-39 | "0x03" is three |
| Values.ParseBinary0110 | parser_test.go:61-67 | "0110" in base 2 is six |
| Values.BinaryUnderscoreExample | parser_test.go:75-81 | "0b01_10" is six |
| Values.AnyAccessors | ast/value.go:300-322 | untyped text is its own raw text, string and payload |
| Environments.Resolve | ast/environment.go:14-37 | a `%` name is always untyped text; another name is the variable bound to it, or nil when unbound |
| Environments.Evaluate | ast/value.go:44-46 | a variable evaluates to what it resolves to (nil when unbound), every other value to its payload |
| Environments.ColumnNameId | ast/environment.go:19-27 | the text after `%` of a column name is its 32-bit index in decimal, and never `#` |
| Environments.ResolveIndex | ast/environment.go:19-34 | the name of any 32-bit index resolves to the column that index selects, with no other outcome |
| Environments.ResolveWithoutRow | ast/environment.go:15-18 | without a row every `%` name is empty text |
| Environments.ResolveLineNumber | ast/environment.go:19-22 | `%#` is the line number in decimal |
| Environments.ResolveNotAnIndex | ast/environment.go:23-26 | a `%` name whose rest is not a 32-bit decimal is empty text |
| Environments.ResolveColumn | ast/environment.go:27-34 | an index inside the row gives that column, except that column 0 of a row of one column is empty |
| Environments.ResolveBeyondEnd | ast/environment.go:28-30 | an index at or past the end is empty text |
| Environments.ResolveFromEnd | ast/environment.go:28-33 | `%-k` counts `k` back from the end, and is empty text when that would reach column 0 or 1 |
| Environments.ResolveNamed | ast/environment.go:36 | a name without `%` is the stored variable, or nil |
| Environments.ResolveColumnExamples | ast/environment_test.go:16-55 | `%2` and `%0` of the tests' row |
| Environments.ResolveLastColumnExample | ast/environment_test.go:24-47 | `%-1` is the last column |
| Environments.ResolveOutOfRangeExamples | ast/environment_test.go:24-47 | `%6` and `%-6` are empty |
| Environments.ColumnAt | ast/environment.go:27-33 | a column index within the row names that column, a negative one counts back from the end, and one past the end or reaching columns 0 and 1 from the end is empty text; a non-empty result is one of the columns |
| Environments.ColumnName | ast/environment.go:15-26 | a column variable is `%` followed by the index, and its second character is `-` exactly for a negative index |
| ComparisonFunctions.ParseInt | ast/comparison_functions.go:337-355 | a parse always yields an `int64` |
| ComparisonFunctions.ParseIntIgnoresUnderscores | ast/comparison_functions.go:338-340 | `_` never matters |
| ComparisonFunctions.ParseIntBases | ast/comparison_functions.go:341-354 | after dropping `_`: `0x…` is read in base 16 as unsigned, `0b…` in base 2, anything else in base 10 |
| ComparisonFunctions.ParseIntFormatInt | ast/comparison_functions.go:337-355 | every `int64` written by `%d` reads back as itself |
| ComparisonFunctions.CompareStringEQRegexp | ast/comparison_functions.go:208-212 | true exactly when the pattern matches the text |
| ComparisonFunctions.CompareStringEQString | ast/comparison_functions.go:214-218 | true exactly when the texts agree character by character |
| ComparisonFunctions.RegexpEQUnknown | ast/comparison_functions.go:220-227 | the pattern matches the untyped text |
| ComparisonFunctions.CoerceDateTime | ast/comparison_functions.go:229-266 | text is a date/time exactly when the coercion formats parse it |
| ComparisonFunctions.DateTimeEQUnknown | ast/comparison_functions.go:229-240 | the text is a date/time at the same instant |
| ComparisonFunctions.DateTimeLTUnknown | ast/comparison_functions.go:242-253 | the date/time is before the instant the text denotes |
| ComparisonFunctions.DateTimeGTUnknown | ast/comparison_functions.go:255-266 | the date/time is after the instant the text denotes |
| ComparisonFunctions.IntegerEQUnknown | ast/comparison_functions.go:268-279 | the text is an integer equal to the value |
| ComparisonFunctions.IntegerLTUnknown | ast/comparison_functions.go:281-292 | the text is an integer greater than the value |
| ComparisonFunctions.IntegerGTUnknown | ast/comparison_functions.go:294-305 | the text is an integer less than the value |
| ComparisonFunctions.DoubleEQUnknown | ast/comparison_functions.go:307-318 | the text is a decimal equal to the value, with no integer fallback |
| ComparisonFunctions.CoerceDecimal | ast/comparison_functions.go:320-335 | a decimal when the text is one, else the integer `parseInt` reads, else none |
| ComparisonFunctions.DoubleLTUnknown | ast/comparison_functions.go:320-335 | the value is less than the coerced text (corrected fallback) |
| ComparisonFunctions.DoubleGTUnknown | ast/comparison_functions.go:320-335 | the value is greater than the coerced text |
| ComparisonFunctions.IntegerHelpersOnFormatted | ast/comparison_functions.go:268-305 | against the decimal form of an `int64` `n`, `integerEQUnknown`, `integerLTUnknown` and `integerGTUnknown` are `i == n`, `i < n` and `i > n` |
| ComparisonFunctions.DoubleHelpersOnFormatted | ast/comparison_functions.go:307-335 | against the decimal form of an integer `n`, the decimal helpers are `d == n`, `d < n` and `d > n` |
| ComparisonFunctions.DoubleHelpersOnFraction | ast/comparison_functions.go:307-335 | against a signed fraction written with a point, the decimal helpers compare `d` with the value of the fraction |
| ComparisonFunctions.DoubleFallbackScalesByTen | ast/comparison_functions.go:328-332 | `0x1` is no decimal; as written `doubleLTUnknown(5.0, "0x1")` holds because the fallback reads `0x1` as 10; corrected it does not |
| ComparisonFunctions.GeOnTextOperand | ast/comparison_functions.go:149-151 | an operand that resolves to untyped text is compared with a decimal by `doubleLTUnknown` or `doubleEQUnknown` |
| ComparisonFunctions.DoubleLTUnknownAsWritten | ast/comparison_functions.go:320-335 | `doubleLTUnknown` as written: a decimal text is compared as it is, integer text as ten times its value, and other text is never greater |
| ComparisonFunctions.Operand | ast/comparison_functions.go:14-206 | a variable operand is replaced by what it resolves to, any other operand is itself |
| ComparisonFunctions.LtValues | ast/comparison_functions.go:14-43 | a pair is ordered by `<` only when one side is untyped text |
| ComparisonFunctions.GtValues | ast/comparison_functions.go:177-206 | `l > r` is `r < l` for every pair, and holds only when one side is untyped text |
| ComparisonFunctions.EqValues | ast/comparison_functions.go:80-133 | a pair can be equal only when one side is untyped text or a string |
| ComparisonFunctions.EqValuesAsWritten | ast/comparison_functions.go:80-133 | `eq` as written panics exactly on two patterns and on two integers, is true only where the corrected `eq` is, and agrees with it except for a pattern, integer or decimal against untyped text |
| ComparisonFunctions.Lt | ast/comparison_functions.go:14-43 | `lt` holds only when both operands are bound and one of them is untyped text |
| ComparisonFunctions.Gt | ast/comparison_functions.go:177-206 | `gt` holds only when both operands are bound and one of them is untyped text |
| ComparisonFunctions.Eq | ast/comparison_functions.go:80-133 | `eq` holds only when both operands are bound and one of them is untyped text or a string |
| ComparisonFunctions.Le | ast/comparison_functions.go:45-78 | `le` holds only when both operands are bound |
| ComparisonFunctions.Ge | ast/comparison_functions.go:139-175 | `ge` holds only when both operands are bound |
| ComparisonFunctions.Ne | ast/comparison_functions.go:135-137 | `ne` holds whenever an operand is an unbound variable |
| ComparisonFunctions.EqAsWrittenCounterexamples | ast/comparison_functions.go:80-133 | as written `eq` holds for untyped text `8` against the integer `8` but not for the integer against the text, and two integers or two patterns reach a helper that fails |
| ComparisonFunctions.LtGtMirror | ast/comparison_functions.go:14-43 | `a < b` iff `b > a`, on every pair; this holds on every pair because `GtValues` carries the mirrors of the extra pairs of `LtValues` |
| ComparisonFunctions.EqSymmetric | ast/comparison_functions.go:80-133 | `a == b` iff `b == a` (corrected `eq`) |
| ComparisonFunctions.LeGeMirror | ast/comparison_functions.go:45-78 | `a <= b` iff `b >= a`; `!=` is symmetric |
| ComparisonFunctions.LeOnHandledPairs | ast/comparison_functions.go:45-78 | on the pairs `le` handles, it is its `lt` helper or its `eq` helper |
| ComparisonFunctions.GeOnHandledPairs | ast/comparison_functions.go:139-175 | on the pairs `ge` handles, it is its `gt` helper or its `eq` helper |
| ComparisonFunctions.GeOnHandledPairsTypedLeft | ast/comparison_functions.go:139-175 | the same with the typed operand on the left |
| ComparisonFunctions.IntegerCoercion | ast/comparison_functions.go:268-305 | text against an integer compares the integer `parseInt` reads, and text that is no integer makes every operator false except `!=` |
| ComparisonFunctions.IntegerTrichotomy | ast/comparison_functions.go:268-305 | integer text is exactly one of less, equal, greater |
| ComparisonFunctions.DoubleCoercion | ast/comparison_functions.go:307-335 | text against a decimal compares the coerced decimal, `==` only an exact decimal; text that is neither makes them false |
| ComparisonFunctions.DateTimeCoercion | ast/comparison_functions.go:229-266 | text against a date/time compares instants, and text that is no date/time makes them false |
| ComparisonFunctions.TextOrder | ast/comparison_functions.go:14-43 | untyped text against text or a string is Go's string order: irreflexive and total |
| ComparisonFunctions.UnhandledPairsAreFalse | ast/comparison_functions.go:14-206 | an unbound variable makes every operator false except `!=` |
| ComparisonFunctions.StringEquality | ast/comparison_functions.go:80-133 | strings are equal by contents, whatever their literals; `<` and `>` never hold between two strings |
| ComparisonFunctions.RegexpEquality | ast/comparison_functions.go:80-133 | a pattern equals a string or untyped text, in either order, exactly when it matches it |
| ComparisonFunctions.IntegerComparesByValue | ast/comparison_functions.go:268-305 | an integer is compared by its number, never by its text |
| ComparisonExamples.ParseIntOf | ast/comparison_functions.go:337-355 | `%d` text parses to its number |
| ComparisonExamples.ParseIntRejectsWord | ast/comparison_functions.go:337-355 | text starting with a letter is no integer |
| ComparisonExamples.ParseIntExamples | ast/comparison_functions_test.go:33-35 | the texts compared with 13 parse to their numbers |
| ComparisonExamples.ParseIntTensExamples | ast/comparison_functions_test.go:59-61 | the texts compared with 40 parse to their numbers |
| ComparisonExamples.ParseIntWordExamples | ast/comparison_functions_test.go:32-58 | the tests' words are no integers |
| ComparisonExamples.IntegerExamples | ast/comparison_functions_test.go:32-35 | the tests' `lt` cases of text against the integer 13 |
| ComparisonExamples.IntegerLeftExamples | ast/comparison_functions_test.go:58-61 | the tests' `lt` cases of the integer 40 against text |
| ComparisonExamples.DoubleWordExample | ast/comparison_functions_test.go:36 | `zzz` is not below 13.1 |
| ComparisonExamples.DoubleExamples | ast/comparison_functions_test.go:37-41 | `2` is below 13.1 and `200` is not |
| ComparisonExamples.DoubleFractionExamples | ast/comparison_functions_test.go:38-39 | `13.0` is below 13.1 and `13.1` is not |
| ComparisonExamples.TextExamples | ast/comparison_functions_test.go:25-27 | the tests' `lt` cases of text against text and against a string |
| ComparisonExamples.ColumnEqualsInteger | ast/comparison_functions_test.go:92-107 | `%2 == 8` by value, for the tests' two rows |
| ComparisonExamples.ColumnEqualsIntegerAsWritten | ast/comparison_functions.go:102-127 | on the line `8`, as written `%1 == 8` holds and `8 == %1` does not; corrected both hold |
| ComparisonExamples.ColumnAtLeastDecimalAsWritten | ast/comparison_functions.go:149-151 | on the line `0x1`, `%1` is the text `0x1`, and the helpers `ge` calls there hold as written (`doubleLTUnknown` reads `0x1` as 10), so `%1 >= 5.0` holds; corrected it does not |
| ComparisonExamples.FirstColumnOperand | ast/environment.go:14-36 | `%1` resolves to the first column of the split line |
| ComparisonExamples.NamedVariableExamples | ast/environment.go:36 | a named variable bound to text is coerced like a column |
| ComparisonExamples.Lt12 | ast/comparison_functions_test.go:33 | a variable bound to "12" is below 13 and not below 12 |
| Operators.Operator.String | ast/operator.go:14-30 | the six operators print as one or two characters, any other value as "Unknown operator" |
| Operators.Spellings | ast/operator.go:5-28 | the operators are 0..5 in order and print as `<`, `<=`, `==`, `!=`, `>=`, `>` |
| Operators.StringInjective | ast/operator.go:14-30 | no two operators print alike, and none prints as unknown |
| Comparisons.TableIdentities | ast/comparison.go:13-20 | the table has exactly the six operators, each mapped to its comparison function; `!=` is not `==`, `<=` is `<` or `==`, `>=` is `>` or `==`, `>` mirrors `<` |
| Expressions.Normalise | ast/expression.go:37-46 | a negative bound counts back from the end, another is itself |
| Expressions.Slice | ast/expression.go:47-57 | Go's `raw[start:end]`: a panic exactly when the bounds are ordered but out of range, empty text when they are reversed, otherwise the characters between them |
| Expressions.ApplyRange | ast/expression.go:32-58 | an error of the inner expression passes through; only resolved untyped text can be sliced, anything else is an error |
| Expressions.Negate | ast/expression.go:81-90 | an error passes through; a boolean is negated; anything else is an error |
| Expressions.Compare | ast/comparison.go:22-24 | an operator in the table yields the boolean of its comparison function; one outside it panics |
| Expressions.Conjunction | ast/comparison.go:35-54 | the first error wins; otherwise a boolean, true exactly when both sides are true |
| Expressions.Eval | ast/expression.go:32-90 | a value always evaluates; a range that evaluates gives text; a negation, comparison or two-sided comparison that evaluates gives a boolean; a comparison evaluates exactly when its operator is in the table |
| Expressions.RangeExpression.constructor | ast/expression.go:24-30 | keeps the inner expression and both bounds |
| Expressions.RangeExpression.SetExpression | ast/expression.go:60-62 | replaces the inner expression and keeps both bounds |
| Expressions.RangeExpression.Evaluate | ast/expression.go:32-58 | the step-by-step evaluation gives what `Eval` gives for the range |
| Expressions.WholeRange | ast/expression.go:37-57 | `[:]` is the whole text |
| Expressions.FromTheEnd | ast/expression.go:37-57 | `[-k:]` is the last `k` characters, `[:-k]` all but them |
| Expressions.AdjacentRanges | ast/expression.go:37-57 | `[:m]` followed by `[m:]` is the text |
| Expressions.RangePastEnd | ast/expression.go:47-57 | an end past the text panics rather than clipping |
| Expressions.RangeOnTypedValue | ast/expression.go:38-42 | a range over a typed value is an error, not a panic |
| Expressions.ErrorsPropagate | ast/expression.go:32-90 | an inner error comes out of a range or a negation unchanged |
| Expressions.DoubleNegation | ast/expression.go:81-90 | negating a boolean twice gives it back; negating a non-boolean is an error |
| Expressions.ComparisonsAreBoolean | ast/comparison.go:13-24 | a comparison always yields a boolean, and `!=` is the negation of `==` |
| Expressions.TwoSidedRange | ast/comparison.go:35-54 | `lo < x && x <= hi` holds exactly when both halves hold |
| Expressions.NoShortCircuit | ast/comparison.go:35-54 | a false left side does not hide an error on the right |
| Expressions.NonBooleanSideIsFalse | ast/comparison.go:45-53 | a non-boolean side makes the conjunction false, not an error |
| Expressions.RangeOfVariable | ast/expression.go:32-57 | a range over a variable that resolves to untyped text is the slice of that text |
| Expressions.RangeSliceExample | parser_test.go:229-256 | `%0[3:7]` on the tests' row is `le l` |
| Expressions.RangeFromEndExample | parser_test.go:229-256 | `%2[-3:]` on the tests' row is `ine` |
| Expressions.RangeOutOfRangeExample | ast/expression.go:47-57 | `%2[3:7]` on the four characters of `line` is out of range |
| Commands.Effect.Then | ast/command.go:46-65 | effects in sequence: nothing follows a crash; otherwise outputs concatenate |
| Commands.ThenMonoid | ast/block.go:21-25 | sequencing is associative with doing nothing as identity |
| Commands.Show | ast/command.go:50-64 | `%s` of text is the text, of a resolved value its `String()` |
| Commands.EvaluateAll | ast/command.go:49-59 | a success has one value per parameter |
| Commands.ShowAll | ast/command.go:60-64 | one `%s` rendering per value, in order |
| Commands.Printed | ast/command.go:46-65 | a print crashes exactly when a parameter panics; without error it writes nothing to stderr and, for `println`, ends stdout with a newline; on an error it writes nothing to stdout and at most one diagnostic |
| Commands.PrintCommand.Output | ast/command.go:46-65 | a command writes at most one diagnostic, and without parameters writes only the newline of `println` |
| Commands.PrintCommand.NewPrintCommand | ast/command.go:27-32 | the parameters as given, no newline |
| Commands.PrintCommand.NewPrintlnCommand | ast/command.go:34-39 | the parameters as given, a newline |
| Commands.PrintCommand.AddParameter | ast/command.go:67-69 | appends the parameter, keeps the others and the kind |
| Commands.PrintCommand.Execute | ast/command.go:46-65 | the loop over the parameters yields the command's output: the values joined by spaces (and a newline), or the first failing parameter's diagnostic |
| Commands.EvaluateAllValues | ast/command.go:49-59 | success exactly when every parameter evaluates, holding their values in order |
| Commands.FirstError | ast/command.go:51-57 | the reported error is the first failing parameter's |
| Commands.ErrorStopsOutput | ast/command.go:51-57 | on an error nothing reaches stdout, and later parameters change nothing |
| Commands.NoParameters | ast/command.go:60-64 | `print()` writes nothing, `println()` a newline |
| Commands.OneMoreParameter | ast/command.go:60-64 | one more parameter adds a space and its text |
| Commands.OneParameter | ast/command.go:60-64 | a single parameter is written as its text alone, with no separator |
| Commands.PrintlnAddsNewline | ast/command.go:60-64 | `println` writes what `print` writes and then a newline; after an error the two do the same |
| Commands.PrintlnExample | ast/command.go:46-65 | `println('a', 'b')` writes "a b\n" |
| Blocks.Block.Execute | ast/block.go:21-25 | running the commands in index order is `Run` of them |
| Blocks.Block.LastCommand | ast/block.go:27-29 | the last command of a block that has one |
| Blocks.NewPrintlnBlock | ast/block.go:10-19 | one fresh `println(%0)` command |
| Blocks.RunAppend | ast/block.go:21-25 | running two lists in turn is running their concatenation |
| Blocks.RunFew | ast/block.go:21-25 | no commands do nothing; one command does what it does |
| Blocks.Run | ast/block.go:21-25 | running the commands of a block one after another writes at most one diagnostic per command |
| Blocks.Stdouts | ast/block.go:21-25 | what each command writes, in order |
| Blocks.RunOutputs | ast/block.go:21-25 | every command runs once, in order: without a crash the block writes its commands' outputs one after another |
| Blocks.ConcatSnoc | ast/block.go:21-25 | concatenating one more text appends it |
| Blocks.PrintlnLine | ast/block.go:10-19 | `println(%0)` writes the whole line and a newline |
| Rules.Rule.NewRule | ast/rule.go:17-22 | keeps the selection and the block |
| Rules.Rule.Selection | ast/rule.go:51-53 | the selection |
| Rules.Rule.GetBlock | ast/rule.go:43-45 | the block |
| Rules.Rule.SetBlock | ast/rule.go:39-41 | replaces the block, keeps the selection |
| Rules.Rule.SetSelection | ast/rule.go:47-49 | replaces the selection, keeps the block |
| Rules.Rule.EvaluateAsWritten | ast/rule.go:30-32 | the selection's value; an absent selection panics |
| Rules.Rule.Evaluate | ast/rule.go:30-32 | the selection's value; an absent selection selects every line |
| Rules.Rule.Execute | ast/rule.go:35-37 | exactly the block's `Execute` |
| Rules.EvaluateReadings | ast/rule.go:30-32 | the two readings agree on every rule with a selection |
| Programs.Program.Rules | ast/program.go:22-24 | the rules |
| Programs.Program.String | ast/program.go:26-33 | the loop produces `Rendered` of the rule texts |
| Programs.NewProgram | ast/program.go:16-20 | a program of the given rules |
| Programs.RenderedFrame | ast/program.go:26-33 | starts with `Program [` and a newline, ends with `]`, and is just those for no rules |
| Programs.RenderedSnoc | ast/program.go:28-30 | each rule adds its indented line before the bracket |
| Programs.RenderedLength | ast/program.go:28-30 | each rule line is its text and five more characters |
| Programs.LinesAppend | ast/program.go:28-30 | the lines of two runs of rules are the lines of each, one after the other |
| Programs.RuleLineAt | ast/program.go:26-33 | rule `k` is written as four spaces, its text and a newline, right after the header and the lines of the rules before it |
| Driver.SkipBlanks | main.go:25 | no longer than the text, shorter when it starts with a blank, and not starting with one |
| Driver.SplitFrom | main.go:25 | always at least one piece |
| Driver.SplitBlanks | main.go:149 | `Split(line, -1)` always yields at least one piece |
| Driver.Columns | main.go:148-153 | column 0 is the line |
| Driver.ApplyRules | main.go:147-179 | the column loop builds the line's columns, giving the line's environment, in which the rules then have their effects one after another |
| Driver.RunRules | main.go:164-177 | the loop over the rules yields their effects in order: a diagnostic for an error, the block for `true`, nothing otherwise |
| Driver.ProcessLines | main.go:135-145 | the loop yields every line's effect, numbered from 0 |
| Driver.SplitFromWord | main.go:25 | a word without blanks joins the piece being read |
| Driver.SplitFromBlankFree | main.go:25 | no piece holds a blank |
| Driver.SplitFromFirst | main.go:25 | the first piece begins with what was read so far |
| Driver.PiecesBlankFree | main.go:149 | no piece of a line holds a blank |
| Driver.SplitWithoutBlanks | main.go:149 | text without blanks is one piece |
| Driver.SplitJoin | main.go:149 | non-empty words joined by single spaces split back into the words |
| Driver.ColumnsShape | main.go:148-153 | column 0 is the line, the other columns hold no blank, and there are at least two exactly when the line is not empty |
| Driver.ColumnsOfWords | main.go:148-153 | a line of words is the line followed by its words |
| Driver.ColumnsTrailingBlank | main.go:148-153 | a trailing blank gives an empty last column |
| Driver.ColumnsLeadingBlank | main.go:148-153 | a leading blank gives no column |
| Driver.ColumnsTabs | main.go:148-153 | a run of tabs separates like one blank; an empty line has only column 0 |
| Driver.RulesAppend | main.go:164-177 | applying two lists of rules in turn is applying their concatenation |
| Driver.RuleOutcomes | main.go:164-177 | a true selection runs the block, another value does nothing |
| Driver.RuleErrorContinues | main.go:164-177 | a selection error without a panic is reported and the next rules still run |
| Driver.LineNumbers | main.go:138-143 | the `k`-th line is processed with number `k` after the ones before it |
| Driver.EchoesLine | main.go:164-177 | a rule without a selection whose block is `println(%0)` echoes every line |
| Driver.Kept | main.go:149-153 | dropping the empty first piece removes at most that one piece, keeps only pieces of the split, and keeps all of them when the first is not empty |
| Driver.LineEnvironment | main.go:148-159 | the environment of a line has a row with the line number, column 0 is the whole line, and no named variables |
| Driver.RuleEffect | main.go:164-177 | only a rule whose selection is `true` writes to stdout, and a rule crashes only by a panic of its selection or through its block |
| Driver.RulesEffect | main.go:164-177 | when no rule's selection is `true`, nothing reaches stdout |
| Driver.LinesEffect | main.go:135-145 | a program without rules does nothing to any input |

## Left out

- The parser (the grammar, `parser/`, `listener/`, `pparser/`) and the command-line flags, the debug log, file opening and the line scanner of `main.go`. Input arrives as a sequence of lines.
- `Expression.String()`, `Rule.String()` and `Comparison.String()`. `Programs.Program.String` takes the rule texts as a parameter.
- The generic `command` type of `ast/command.go` has no behaviour of its own, so it is not modelled.
- Text written to stderr is kept as structured `Diagnostic` values, not as formatted text.
- `applyRules` returns a boolean that is always true. It is not modelled. The `os.Exit` of a failing `Execute` cannot be reached, because `Execute` returns nothing.
- The regular-expression engine, `time.Parse` of one layout, `time.Now` and the `String()` of times and decimals are platform functions, so their behaviour is not modelled. The clock is read once per run.
- Lengths and slices count characters, not UTF-8 bytes.
- GoTime.Date: does not normalise out-of-range fields, and time zones are fixed offsets.
- GoText.Quote: escapes `"`, `\`, newline, tab and carriage return, and none of the other non-printable or non-ASCII characters that `%q` escapes.
- Strconv.ParseInt: covers explicit bases 2..36 and bit sizes 2..64, plus the base-16 `0x` case of `parseInt`, and nothing else of base 0.
- Decimal.NewFromString: gives no error text, only whether the text parses.
- ComparisonFunctions.Le and ComparisonFunctions.Ge: every pair is `lt || eq` (`gt || eq`). The code's `le` and `ge` list fewer pairs, so they are false where only `eq` has a case (two strings, a pattern against a string or untyped text). That narrower behaviour is not modelled.
- ComparisonFunctions.LtValues: includes the untyped-text pairs the tests expect (text against text, against a string, against a decimal) and their mirrors, which the code's `lt` does not list yet.
- ComparisonFunctions.GtValues: includes five pairs the code's `gt` does not list (untyped text against untyped text, untyped text against a string and back, untyped text against a decimal and back). They are the mirrors of the extra pairs of `LtValues`, so that `a < b` and `b > a` agree as the language description asks. In the code these pairs fall to `default` and give false: `%1 > 5.0` with column "7", or `%1 > %2` on the line "b a", is false there and true in the model.
- ComparisonFunctions.Operand: a nil value (an unbound variable) has no case in any comparison, so every operator except `!=` is false.
- Expressions.RangeExpression: the inner expression is never nil, so a call through a nil inner expression is not modelled.
- Where the description of the language and the code disagree, the model follows the code. The exceptions are the three findings below, where the corrected behaviour is used, and the extra pairs of `LtValues` and `GtValues` above, which follow the description and the tests.

## Findings

| source | as written | input that shows it | evidently intended | confidence | as-written member | corrected member |
|---|---|---|---|---|---|---|
| ast/comparison_functions.go:86-87, 122-126 | `eq` has the case labels Regexp×Regexp and Integer×Integer, whose helpers expect the untyped text of the other side. The mirror cases Integer/Regexp/Double × untyped text are missing. | on a line whose first column is `8`, `%1 == 8` is true while `8 == %1` is false; `8 == 8` and `/a/ == /a/` reach a helper that fails | Regexp×untyped text and Integer×untyped text, with each pair handled in both orders, so that `==` is symmetric | not executed | ComparisonExamples.ColumnEqualsIntegerAsWritten | ComparisonFunctions.EqSymmetric |
| ast/comparison_functions.go:332 | the integer fallback of `doubleLTUnknown` builds `decimal.New(n, 1)`, which is `n × 10` | on a line whose first column is `0x1`, `%1 >= 5.0` is true as written, because `0x1` is read as 10, and false corrected | `decimal.New(n, 0)`, the integer itself | not executed | ComparisonExamples.ColumnAtLeastDecimalAsWritten | ComparisonFunctions.DoubleCoercion |
| ast/rule.go:30-32 | `Evaluate` calls the selection directly | a rule with no selection (`{ println(%0) }`) makes a call through nil and panics | an absent selection selects every line | not executed | Rules.Rule.EvaluateAsWritten | Rules.Rule.Evaluate |
