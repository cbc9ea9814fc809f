/**
 * The expressions of `ast/expression.go` and `ast/comparison.go`: values,
 * substring ranges, negation, comparisons and two-sided range comparisons.
 */
module Expressions {
  import opened Wrappers
  import Host
  import opened Values
  import Environments
  import opened Operators
  import Comparisons
  import CF = ComparisonFunctions

  /**
   * An expression. `Range(inner, start, end)` is the value of `RangeExpression`
   * (an absent bound is Go's nil pointer); `Comparison` compares two operand values.
   */
  datatype Expression =
    | Val(value: Value)
    | Range(inner: Expression, start: Option<int>, end: Option<int>)
    | Negative(operand: Expression)
    | Comparison(left: Value, op: Operator, right: Value)
    | AndComparison(first: Expression, second: Expression)

  /**
   * Why an expression has no value. The first two are the errors the code returns;
   * the others are Go run-time panics (a slice outside the text, a call through
   * the nil entry of the dispatch table, a call through a nil expression), which
   * end the program instead.
   */
  datatype EvalError =
    | RangeNotApplicable(target: Expression)
    | NegateNonBoolean
    | SliceOutOfRange(low: int, high: int, length: nat)
    | UnknownOperator(op: Operator)
    | NilExpression
  {
    predicate IsPanic() {
      SliceOutOfRange? || UnknownOperator? || NilExpression?
    }
  }

  type Outcome = Result<Datum, EvalError>

  /** A range bound after normalisation: a negative bound counts back from the end. */
  function Normalise(bound: int, length: nat): (r: int)
    ensures bound >= 0 ==> r == bound
    ensures bound < 0 ==> r - bound == length
  {
    if bound < 0 then length + bound else bound
  }

  /** The start of a range over text of the given length: absent means 0. */
  function StartOf(start: Option<int>, length: nat): int {
    Normalise(start.GetOr(0), length)
  }

  /** The end of a range over text of the given length: absent means the length. */
  function EndOf(end: Option<int>, length: nat): int {
    Normalise(end.GetOr(length), length)
  }

  /**
   * The range `[start:end]` of `raw`, as `RangeExpression.Evaluate` takes it once
   * the inner value is untyped text: empty when the bounds cross, the characters
   * between them when both lie within the text, and a slice panic otherwise.
   */
  function Slice(raw: string, start: Option<int>, end: Option<int>): (r: Outcome)
    ensures r.Ok? ==> r.value.Text?
    ensures r.Err? <==> StartOf(start, |raw|) <= EndOf(end, |raw|) && (StartOf(start, |raw|) < 0 || EndOf(end, |raw|) > |raw|)
    ensures r.Err? ==> r.error.IsPanic()
    ensures StartOf(start, |raw|) > EndOf(end, |raw|) ==> r == Ok(Text(""))
    ensures r.Ok? && StartOf(start, |raw|) <= EndOf(end, |raw|) ==>
              |r.value.s| == EndOf(end, |raw|) - StartOf(start, |raw|) &&
              forall k :: 0 <= k < |r.value.s| ==> r.value.s[k] == raw[StartOf(start, |raw|) + k]
  {
    var s := StartOf(start, |raw|);
    var e := EndOf(end, |raw|);
    if s > e then Ok(Text(""))
    else if 0 <= s && e <= |raw| then Ok(Text(raw[s..e]))
    else Err(SliceOutOfRange(s, e, |raw|))
  }

  /** `RangeExpression.Evaluate` once the inner expression has been evaluated. */
  function ApplyRange(inner: Expression, v: Outcome, start: Option<int>, end: Option<int>): (r: Outcome)
    ensures v.Err? ==> r == v
    ensures v.Ok? && !(v.value.Resolved? && v.value.v.Any?) ==> r == Err(RangeNotApplicable(inner))
    ensures v.Ok? && v.value.Resolved? && v.value.v.Any? ==> r == Slice(v.value.v.raw, start, end)
  {
    if v.Err? then v
    else if v.value.Resolved? && v.value.v.Any? then Slice(v.value.v.raw, start, end)
    else Err(RangeNotApplicable(inner))
  }

  /** `negativeExpression.Evaluate` once its operand has been evaluated. */
  function Negate(o: Outcome): (r: Outcome)
    ensures o.Err? ==> r == o
    ensures o.Ok? && !o.value.Bool? ==> r == Err(NegateNonBoolean)
    ensures r.Ok? <==> o.Ok? && o.value.Bool?
    ensures r.Ok? ==> r.value.Bool? && r.value.b != o.value.b
  {
    if o.Err? then o
    else if o.value.Bool? then Ok(Bool(!o.value.b))
    else Err(NegateNonBoolean)
  }

  /** `Comparison.Evaluate`: the dispatch table's entry for the operator, applied to the operands. */
  function Compare(p: Host.Platform, env: Environments.Environment, left: Value, op: Operator, right: Value): (r: Outcome)
    ensures op in All ==> r.Ok? && r.value.Bool?
    ensures op in All ==> r.value.b == Comparisons.Comparisons[op](p, env, left, right)
    ensures op !in All ==> r.Err? && r.error.IsPanic()
  {
    Comparisons.TableIdentities(p, env, left, right);
    if op in Comparisons.Comparisons then Ok(Bool(Comparisons.Comparisons[op](p, env, left, right)))
    else Err(UnknownOperator(op))
  }

  /**
   * `AndComparison.Evaluate` once both sides have been evaluated (both always are):
   * the left error first, then the right error, `false` unless both are booleans,
   * and otherwise their conjunction.
   */
  function Conjunction(l: Outcome, r: Outcome): (c: Outcome)
    ensures l.Err? ==> c == l
    ensures l.Ok? && r.Err? ==> c == r
    ensures l.Ok? && r.Ok? ==> c.Ok? && c.value.Bool?
    ensures c == Ok(Bool(true)) <==> l == Ok(Bool(true)) && r == Ok(Bool(true))
  {
    if l.Err? then l
    else if r.Err? then r
    else if !l.value.Bool? || !r.value.Bool? then Ok(Bool(false))
    else Ok(Bool(l.value.b && r.value.b))
  }

  /** `Evaluate` of an expression in an environment. */
  function Eval(p: Host.Platform, env: Environments.Environment, e: Expression): (r: Outcome)
    ensures e.Val? ==> r.Ok?
    ensures e.Range? && r.Ok? ==> r.value.Text?
    ensures (e.Negative? || e.Comparison? || e.AndComparison?) && r.Ok? ==> r.value.Bool?
    ensures e.Comparison? ==> (r.Ok? <==> e.op in All)
    decreases e
  {
    match e
    case Val(v) => Ok(Environments.Evaluate(env, v))
    case Range(inner, start, end) => ApplyRange(inner, Eval(p, env, inner), start, end)
    case Negative(operand) => Negate(Eval(p, env, operand))
    case Comparison(left, op, right) => Compare(p, env, left, op, right)
    case AndComparison(first, second) => Conjunction(Eval(p, env, first), Eval(p, env, second))
  }

  /** `RangeExpression`, whose inner expression the parser fills in after building it. */
  class RangeExpression {
    var expression: Expression
    var start: Option<int>
    var end: Option<int>

    /** `NewRangeExpression`. */
    constructor (expression: Expression, start: Option<int>, end: Option<int>)
      ensures this.expression == expression && this.start == start && this.end == end
    {
      this.expression := expression;
      this.start := start;
      this.end := end;
    }

    /** The expression this object stands for. */
    function AsExpression(): Expression
      reads this
    {
      Range(expression, start, end)
    }

    /** `SetExpression`: replaces the inner expression and keeps both bounds. */
    method SetExpression(e: Expression)
      modifies this
      ensures expression == e
      ensures start == old(start) && end == old(end)
    {
      expression := e;
    }

    /** `Evaluate`, normalising the two bounds step by step as the code does. */
    method Evaluate(p: Host.Platform, env: Environments.Environment) returns (r: Outcome)
      ensures r == Eval(p, env, AsExpression())
    {
      var v := Eval(p, env, expression);
      assert Eval(p, env, AsExpression()) == ApplyRange(expression, v, start, end);
      if v.Err? {
        return v;
      }
      if v.value.Resolved? && v.value.v.Any? {
        var raw := v.value.v.raw;
        assert ApplyRange(expression, v, start, end) == Slice(raw, start, end);
        var s := 0;
        if start.Some? {
          s := start.value;
        }
        if s < 0 {
          s := |raw| + s;
        }
        var e := |raw|;
        if end.Some? {
          e := end.value;
        }
        if e < 0 {
          e := |raw| + e;
        }
        assert s == StartOf(start, |raw|) && e == EndOf(end, |raw|);
        if s > e {
          return Ok(Text(""));
        }
        if s < 0 || e > |raw| {
          return Err(SliceOutOfRange(s, e, |raw|));
        }
        return Ok(Text(raw[s..e]));
      }
      return Err(RangeNotApplicable(expression));
    }
  }

  /** With both bounds absent a range is the whole text. */
  lemma WholeRange(raw: string)
    ensures Slice(raw, None, None) == Ok(Text(raw))
  {
    assert raw[0..|raw|] == raw;
  }

  /** `[-k:]` is the last `k` characters, and `[:-k]` all but them. */
  lemma FromTheEnd(raw: string, k: int)
    requires 0 < k <= |raw|
    ensures Slice(raw, Some(-k), None) == Ok(Text(raw[|raw| - k..]))
    ensures Slice(raw, None, Some(-k)) == Ok(Text(raw[..|raw| - k]))
  {
    assert raw[|raw| - k..|raw|] == raw[|raw| - k..];
    assert raw[0..|raw| - k] == raw[..|raw| - k];
  }

  /** Splitting a text at any position and taking the two ranges gives back the text. */
  lemma AdjacentRanges(raw: string, m: int)
    requires 0 <= m <= |raw|
    ensures Slice(raw, None, Some(m)).Ok? && Slice(raw, Some(m), None).Ok?
    ensures Slice(raw, None, Some(m)).value.s + Slice(raw, Some(m), None).value.s == raw
  {
    assert raw[0..m] + raw[m..|raw|] == raw;
  }

  /** A range past the end of the text panics instead of being clipped. */
  lemma RangePastEnd(raw: string, end: int)
    requires end > |raw|
    ensures Slice(raw, None, Some(end)) == Err(SliceOutOfRange(0, end, |raw|))
  {
  }

  /** A range applies only to untyped text from the environment; on anything else it is an error, not a panic. */
  lemma RangeOnTypedValue(p: Host.Platform, env: Environments.Environment, v: Value, start: Option<int>, end: Option<int>)
    requires !v.Var?
    ensures Eval(p, env, Range(Val(v), start, end)) == Err(RangeNotApplicable(Val(v)))
    ensures !Eval(p, env, Range(Val(v), start, end)).error.IsPanic()
  {
  }

  /** An error of the inner expression comes out of a range or a negation unchanged. */
  lemma ErrorsPropagate(p: Host.Platform, env: Environments.Environment, e: Expression, start: Option<int>, end: Option<int>)
    requires Eval(p, env, e).Err?
    ensures Eval(p, env, Range(e, start, end)) == Eval(p, env, e)
    ensures Eval(p, env, Negative(e)) == Eval(p, env, e)
  {
  }

  /** Negating twice gives back a boolean, and negating a non-boolean is an error. */
  lemma DoubleNegation(p: Host.Platform, env: Environments.Environment, e: Expression)
    ensures Eval(p, env, e).Ok? && Eval(p, env, e).value.Bool? ==>
              Eval(p, env, Negative(Negative(e))) == Eval(p, env, e)
    ensures Eval(p, env, e).Ok? && !Eval(p, env, e).value.Bool? ==>
              Eval(p, env, Negative(e)) == Err(NegateNonBoolean)
  {
  }

  /** A comparison with one of the six operators always yields a boolean, and `!=` is the negation of `==`. */
  lemma ComparisonsAreBoolean(p: Host.Platform, env: Environments.Environment, a: Value, op: Operator, b: Value)
    requires op in All
    ensures Eval(p, env, Comparison(a, op, b)).Ok?
    ensures Eval(p, env, Comparison(a, NE, b)) == Negate(Eval(p, env, Comparison(a, EQ, b)))
  {
    Comparisons.TableIdentities(p, env, a, b);
  }

  /** `lo < x <= hi` holds exactly when both halves hold. */
  lemma TwoSidedRange(p: Host.Platform, env: Environments.Environment, lo: Value, x: Value, hi: Value)
    ensures Eval(p, env, AndComparison(Comparison(lo, LT, x), Comparison(x, LE, hi))) ==
            Ok(Bool(CF.Lt(p, env, lo, x) && CF.Le(p, env, x, hi)))
  {
    Comparisons.TableIdentities(p, env, lo, x);
    Comparisons.TableIdentities(p, env, x, hi);
  }

  /** Both sides are evaluated: a false left side does not hide an error on the right. */
  lemma NoShortCircuit(p: Host.Platform, env: Environments.Environment, a: Expression, b: Expression)
    requires Eval(p, env, a) == Ok(Bool(false))
    requires Eval(p, env, b).Err?
    ensures Eval(p, env, AndComparison(a, b)) == Eval(p, env, b)
  {
  }

  /** A side that is not a boolean makes the conjunction false rather than an error. */
  lemma NonBooleanSideIsFalse(p: Host.Platform, env: Environments.Environment, a: Expression, b: Expression)
    requires Eval(p, env, a).Ok? && Eval(p, env, b).Ok?
    requires !Eval(p, env, a).value.Bool? || !Eval(p, env, b).value.Bool?
    ensures Eval(p, env, AndComparison(a, b)) == Ok(Bool(false))
  {
  }

  /** A range over a variable that resolves to untyped text is the slice of that text. */
  lemma RangeOfVariable(p: Host.Platform, env: Environments.Environment, name: string, raw: string, start: Option<int>, end: Option<int>)
    requires Environments.Resolve(env, name) == Some(Any(raw))
    ensures Eval(p, env, Range(Val(Var(name)), start, end)) == Slice(raw, start, end)
  {
  }

  /** The range `[3:7]` of the parser tests on the whole line of the tests' row. */
  lemma RangeSliceExample(p: Host.Platform)
    ensures Eval(p, Environments.TestEnvironment(), Range(Val(Var("%0")), Some(3), Some(7))) == Ok(Text("le l"))
  {
    Environments.ResolveColumnExamples();
    RangeOfVariable(p, Environments.TestEnvironment(), "%0", "whole line 8", Some(3), Some(7));
    MiddleOfWholeLine();
  }

  /** Characters 3 to 7 of the tests' whole line. */
  lemma MiddleOfWholeLine()
    ensures "whole line 8"[3..7] == "le l"
  {
    var m := "whole line 8"[3..7];
    assert m[0] == 'l' && m[1] == 'e' && m[2] == ' ' && m[3] == 'l';
  }

  /** The range `[-3:]` of the parser tests counts from the end of the column. */
  lemma RangeFromEndExample(p: Host.Platform)
    ensures Eval(p, Environments.TestEnvironment(), Range(Val(Var("%2")), Some(-3), None)) == Ok(Text("ine"))
  {
    Environments.ResolveColumnExamples();
    assert "line"[1..4] == "ine";
  }

  /** The range `[3:7]` on the four characters of `%2` is out of range. */
  lemma RangeOutOfRangeExample(p: Host.Platform)
    ensures Eval(p, Environments.TestEnvironment(), Range(Val(Var("%2")), Some(3), Some(7))) == Err(SliceOutOfRange(3, 7, 4))
  {
    Environments.ResolveColumnExamples();
  }
}
