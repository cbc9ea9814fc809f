/**
 * `ast/environment.go`: what a variable name means while one input line is being
 * processed. `%N` names the line's columns, `%#` its number, and any other name is
 * a variable bound in the environment.
 */
module Environments {
  import opened Wrappers
  import GoText
  import Strconv
  import opened Values

  /** One input line: its number and its columns, column 0 being the whole line. */
  datatype Row = Row(lineNumber: int, columns: seq<string>)

  /** The line being processed, if any, and the named variables. */
  datatype Environment = Environment(row: Option<Row>, variables: map<string, Value>)

  const MinInt32: int := -0x8000_0000
  const MaxInt32: int := 0x7fff_ffff

  /**
   * `Resolve`: a `%` name is a column of the row (or the line number for `%#`) as
   * untyped text, and the empty text when there is no row, when the rest of the
   * name is not a 32-bit decimal, or when the index is out of range. Negative
   * indices count from the end and never reach columns 0 and 1. Any other name is
   * looked up as it stands; `None` is Go's `nil` for an unbound name.
   */
  function Resolve(env: Environment, name: string): (r: Option<Value>)
    ensures GoText.HasPrefix(name, "%") ==> r.Some? && r.value.Any?
    ensures !GoText.HasPrefix(name, "%") ==> (r.Some? <==> name in env.variables)
    ensures !GoText.HasPrefix(name, "%") && name in env.variables ==> r.value == env.variables[name]
  {
    if GoText.HasPrefix(name, "%") then
      if env.row.None? then Some(Any(""))
      else
        var row := env.row.value;
        var id := name[1..];
        if id == "#" then Some(Any(Strconv.FormatInt(row.lineNumber)))
        else match Strconv.ParseInt(id, 10, 32)
          case Err(_) => Some(Any(""))
          case Ok(i) => Some(Any(ColumnAt(row, i)))
    else if name in env.variables then Some(env.variables[name])
    else None
  }

  /**
   * The column a parsed index names: empty text when the index is out of range;
   * a negative index counts from the end and never reaches columns 0 and 1.
   */
  function ColumnAt(row: Row, i: int): (c: string)
    ensures c != "" ==> c in row.columns
    ensures 0 <= i < |row.columns| && !(i == 0 && |row.columns| == 1) ==> c == row.columns[i]
    ensures i < 0 && |row.columns| + i >= 2 ==> c == row.columns[|row.columns| + i]
    ensures i >= |row.columns| || |row.columns| + i <= 1 ==> c == ""
  {
    var n := |row.columns|;
    if i >= n || n + i <= 1 then ""
    else if i < 0 then row.columns[n + i]
    else row.columns[i]
  }

  /** `Evaluate` of a value: its payload, except that a variable evaluates to what it resolves to. */
  function Evaluate(env: Environment, v: Value): (d: Datum)
    ensures !v.Var? ==> d == v.Payload()
    ensures v.Var? ==> (d == Nil <==> Resolve(env, v.name).None?)
    ensures v.Var? && d != Nil ==> d == Resolved(Resolve(env, v.name).value)
  {
    if v.Var? then
      match Resolve(env, v.name)
      case None => Nil
      case Some(w) => Resolved(w)
    else v.Payload()
  }

  /** The name `%` followed by the decimal form of `i`; a negative index is written with `-`. */
  function ColumnName(i: int): (name: string)
    ensures |name| >= 2 && name[0] == '%'
    ensures name[1] == '-' <==> i < 0
  {
    "%" + Strconv.FormatInt(i)
  }

  /** The text after `%` in a column name reads back as its index. */
  lemma ColumnNameId(i: int)
    requires MinInt32 <= i <= MaxInt32
    ensures GoText.HasPrefix(ColumnName(i), "%")
    ensures ColumnName(i)[1..] == Strconv.FormatInt(i) != "#"
    ensures Strconv.ParseInt(ColumnName(i)[1..], 10, 32) == Ok(i)
  {
    assert ColumnName(i)[1..] == Strconv.FormatInt(i);
    var s := Strconv.FormatInt(i);
    if i >= 0 {
      assert Strconv.DigitValue(s[0]).Some?;
    }
    Strconv.Pow2At31();
    Strconv.ParseIntFormatInt(i, 32);
  }

  /** The index rule of `Resolve`, for the name of any 32-bit index. */
  lemma ResolveIndex(env: Environment, i: int)
    requires env.row.Some? && MinInt32 <= i <= MaxInt32
    ensures Resolve(env, ColumnName(i)) == Some(Any(ColumnAt(env.row.value, i)))
  {
    ColumnNameId(i);
  }

  /** Without a row every `%` name is empty text. */
  lemma ResolveWithoutRow(env: Environment, name: string)
    requires GoText.HasPrefix(name, "%") && env.row.None?
    ensures Resolve(env, name) == Some(Any(""))
  {
  }

  /** `%#` is the line number in decimal. */
  lemma ResolveLineNumber(env: Environment)
    requires env.row.Some?
    ensures Resolve(env, "%#") == Some(Any(Strconv.FormatInt(env.row.value.lineNumber)))
  {
    assert GoText.HasPrefix("%#", "%");
    assert "%#"[1..] == "#";
  }

  /** A `%` name whose rest is not a 32-bit decimal is empty text. */
  lemma ResolveNotAnIndex(env: Environment, id: string)
    requires env.row.Some? && id != "#" && Strconv.ParseInt(id, 10, 32).Err?
    ensures Resolve(env, "%" + id) == Some(Any(""))
  {
    assert GoText.HasPrefix("%" + id, "%");
    assert ("%" + id)[1..] == id;
  }

  /** A non-negative index inside the row gives that column; column 0 needs a second column. */
  lemma ResolveColumn(env: Environment, i: int)
    requires env.row.Some? && 0 <= i < |env.row.value.columns| && i <= MaxInt32
    ensures |env.row.value.columns| + i > 1 ==> Resolve(env, ColumnName(i)) == Some(Any(env.row.value.columns[i]))
    ensures |env.row.value.columns| + i <= 1 ==> Resolve(env, ColumnName(i)) == Some(Any(""))
  {
    ResolveIndex(env, i);
  }

  /** An index at or past the last column gives empty text. */
  lemma ResolveBeyondEnd(env: Environment, i: int)
    requires env.row.Some? && |env.row.value.columns| <= i <= MaxInt32
    ensures Resolve(env, ColumnName(i)) == Some(Any(""))
  {
    ResolveIndex(env, i);
  }

  /**
   * `%-k` counts `k` from the end, and gives empty text when that would reach
   * column 0 or 1.
   */
  lemma ResolveFromEnd(env: Environment, k: int)
    requires env.row.Some? && 0 < k <= -MinInt32
    ensures |env.row.value.columns| - k >= 2 ==>
      Resolve(env, ColumnName(-k)) == Some(Any(env.row.value.columns[|env.row.value.columns| - k]))
    ensures |env.row.value.columns| - k < 2 ==> Resolve(env, ColumnName(-k)) == Some(Any(""))
  {
    var row := env.row.value;
    ResolveIndex(env, -k);
    if |row.columns| - k >= 2 {
      assert ColumnAt(row, -k) == row.columns[|row.columns| - k];
    } else {
      assert ColumnAt(row, -k) == "";
    }
  }

  /** A name without `%` is the bound variable as stored, or `nil`. */
  lemma ResolveNamed(env: Environment, name: string)
    requires !GoText.HasPrefix(name, "%")
    ensures Resolve(env, name) == if name in env.variables then Some(env.variables[name]) else None
  {
  }

  /** The row of the core's tests. */
  function TestEnvironment(): Environment {
    Environment(Some(Row(10, ["whole line 8", "whole", "line", "7"])), map[])
  }

  /** `%2` and `%0` of the tests' row. */
  lemma ResolveColumnExamples()
    ensures Resolve(TestEnvironment(), "%2") == Some(Any("line"))
    ensures Resolve(TestEnvironment(), "%0") == Some(Any("whole line 8"))
  {
    assert Strconv.FormatInt(2) == "2" && Strconv.FormatInt(0) == "0";
    ResolveColumn(TestEnvironment(), 2);
    ResolveColumn(TestEnvironment(), 0);
  }

  /** `%-1` is the last column. */
  lemma ResolveLastColumnExample()
    ensures Resolve(TestEnvironment(), "%-1") == Some(Any("7"))
  {
    assert Strconv.FormatInt(-1) == "-1";
    ResolveFromEnd(TestEnvironment(), 1);
  }

  /** `%6` is past the end and `%-6` before the start. */
  lemma ResolveOutOfRangeExamples()
    ensures Resolve(TestEnvironment(), "%6") == Some(Any(""))
    ensures Resolve(TestEnvironment(), "%-6") == Some(Any(""))
  {
    assert Strconv.FormatInt(6) == "6";
    ResolveBeyondEnd(TestEnvironment(), 6);
    assert Strconv.FormatInt(-6) == "-6";
    ResolveFromEnd(TestEnvironment(), 6);
  }
}
