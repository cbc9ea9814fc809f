/** `ast/command.go`: the `print` and `println` commands. */
module Commands {
  import opened Wrappers
  import Host
  import GoText
  import Strconv
  import opened Values
  import Environments
  import opened Expressions

  /** A message written to stderr. */
  datatype Diagnostic =
    | ParameterNotEvaluated(parameter: Expression, error: EvalError)
    | RuleNotEvaluated(selection: Option<Expression>, error: EvalError)

  /**
   * What running part of a program does: the text written to stdout, the
   * diagnostics written to stderr, and whether it ended in a panic.
   */
  datatype Effect = Effect(stdout: string, stderr: seq<Diagnostic>, crashed: bool) {
    /** This effect followed by `next`; nothing follows a panic. */
    function Then(next: Effect): (r: Effect)
      ensures crashed ==> r == this
      ensures !crashed ==> r.stdout == stdout + next.stdout && r.stderr == stderr + next.stderr
      ensures r.crashed == (crashed || next.crashed)
    {
      if crashed then this else Effect(stdout + next.stdout, stderr + next.stderr, next.crashed)
    }
  }

  /** Doing nothing. */
  const Quiet := Effect("", [], false)

  /** A panic, with nothing written. */
  const Crash := Effect("", [], true)

  /** `Then` is associative and has `Quiet` on both sides as identity. */
  lemma ThenMonoid(a: Effect, b: Effect, c: Effect)
    ensures a.Then(b).Then(c) == a.Then(b.Then(c))
    ensures Quiet.Then(a) == a && a.Then(Quiet) == a
  {
  }

  /**
   * How `fmt`'s `%s` verb writes a value an expression produced: text as is,
   * values with a `String` method through it, and the `%!s(...)` forms for the
   * rest.
   */
  function Show(p: Host.Platform, d: Datum): (r: string)
    ensures d.Text? ==> r == d.s
    ensures d.Resolved? ==> r == d.v.String(p)
  {
    match d
    case Text(s) => s
    case Bool(b) => if b then "%!s(bool=true)" else "%!s(bool=false)"
    case Int(i) => "%!s(int64=" + Strconv.FormatInt(i) + ")"
    case Dec(x) => p.showDecimal(x)
    case Instant(t) => p.showTime(t)
    case Pattern(pattern) => pattern
    case Resolved(v) => v.String(p)
    case Nil => "%!s(<nil>)"
  }

  /** The parameter that could not be evaluated, and why. */
  datatype Failure = Failure(parameter: Expression, error: EvalError)

  /** The parameters evaluated left to right, stopping at the first error. */
  function EvaluateAll(p: Host.Platform, env: Environments.Environment, parameters: seq<Expression>): (r: Result<seq<Datum>, Failure>)
    ensures r.Ok? ==> |r.value| == |parameters|
    decreases |parameters|
  {
    if parameters == [] then Ok([])
    else
      var last := parameters[|parameters| - 1];
      match EvaluateAll(p, env, parameters[..|parameters| - 1])
      case Err(f) => Err(f)
      case Ok(ds) =>
        match Eval(p, env, last)
        case Err(e) => Err(Failure(last, e))
        case Ok(d) => Ok(ds + [d])
  }

  /** Every item written with `%s`. */
  function ShowAll(p: Host.Platform, ds: seq<Datum>): (r: seq<string>)
    ensures |r| == |ds|
    ensures forall k :: 0 <= k < |ds| ==> r[k] == Show(p, ds[k])
  {
    seq(|ds|, k requires 0 <= k < |ds| => Show(p, ds[k]))
  }

  /**
   * What a print command with these parameters does: the values joined by single
   * spaces, then a newline for `println`; after an error, only the diagnostic.
   */
  function Printed(p: Host.Platform, env: Environments.Environment, parameters: seq<Expression>, newline: bool): (e: Effect)
    ensures e.crashed <==> EvaluateAll(p, env, parameters).Err? && EvaluateAll(p, env, parameters).error.error.IsPanic()
    ensures EvaluateAll(p, env, parameters).Ok? ==> e.stderr == []
    ensures EvaluateAll(p, env, parameters).Ok? && newline ==> e.stdout != [] && e.stdout[|e.stdout| - 1] == '\n'
    ensures EvaluateAll(p, env, parameters).Err? ==> e.stdout == "" && |e.stderr| <= 1
  {
    match EvaluateAll(p, env, parameters)
    case Ok(ds) => Effect(GoText.Join(ShowAll(p, ds), " ") + (if newline then "\n" else ""), [], false)
    case Err(f) => if f.error.IsPanic() then Crash else Effect("", [ParameterNotEvaluated(f.parameter, f.error)], false)
  }

  /** `printCommand`. */
  class PrintCommand {
    var parameters: seq<Expression>
    var newline: bool

    /** `NewPrintCommand`: no newline at the end. */
    constructor NewPrintCommand(parameters: seq<Expression>)
      ensures this.parameters == parameters && !newline
    {
      this.parameters := parameters;
      newline := false;
    }

    /** `NewPrintlnCommand`: a newline at the end. */
    constructor NewPrintlnCommand(parameters: seq<Expression>)
      ensures this.parameters == parameters && newline
    {
      this.parameters := parameters;
      newline := true;
    }

    /**
     * What `Execute` does in an environment: at most one diagnostic, and without
     * parameters nothing but the newline of `println`.
     */
    function Output(p: Host.Platform, env: Environments.Environment): (e: Effect)
      reads this
      ensures |e.stderr| <= 1
      ensures parameters == [] ==> e == (if newline then Effect("\n", [], false) else Quiet)
    {
      Printed(p, env, parameters, newline)
    }

    /** `AddParameter`: appends one parameter and keeps the others and the kind of command. */
    method AddParameter(parameter: Expression)
      modifies this
      ensures parameters == old(parameters) + [parameter]
      ensures newline == old(newline)
    {
      parameters := parameters + [parameter];
    }

    /** `Execute`: evaluates the parameters in order and, if all succeed, writes them. */
    method Execute(p: Host.Platform, env: Environments.Environment) returns (effect: Effect)
      ensures effect == Output(p, env)
    {
      var values: seq<Datum> := [];
      for i := 0 to |parameters|
        invariant EvaluateAll(p, env, parameters[..i]) == Ok(values)
        invariant forall j :: 0 <= j < i ==> Eval(p, env, parameters[j]).Ok?
      {
        var v := Eval(p, env, parameters[i]);
        if v.Err? {
          FirstError(p, env, parameters, i);
          if v.error.IsPanic() {
            return Crash;
          }
          return Effect("", [ParameterNotEvaluated(parameters[i], v.error)], false);
        }
        assert parameters[..i + 1][..i] == parameters[..i];
        values := values + [v.value];
      }
      assert parameters[..|parameters|] == parameters;
      var text := GoText.Join(ShowAll(p, values), " ");
      if newline {
        text := text + "\n";
      }
      return Effect(text, [], false);
    }
  }

  /** The parameters all evaluate exactly when `EvaluateAll` succeeds, and then it holds their values in order. */
  lemma {:induction false} EvaluateAllValues(p: Host.Platform, env: Environments.Environment, parameters: seq<Expression>)
    ensures EvaluateAll(p, env, parameters).Ok? <==> forall k :: 0 <= k < |parameters| ==> Eval(p, env, parameters[k]).Ok?
    ensures EvaluateAll(p, env, parameters).Ok? ==>
              forall k :: 0 <= k < |parameters| ==> EvaluateAll(p, env, parameters).value[k] == Eval(p, env, parameters[k]).value
    decreases |parameters|
  {
    if parameters != [] {
      var n := |parameters| - 1;
      var front := parameters[..n];
      EvaluateAllValues(p, env, front);
      assert forall k :: 0 <= k < n ==> front[k] == parameters[k];
    }
  }

  /** The error reported is the first parameter's that fails; the later ones make no difference. */
  lemma {:induction false} FirstError(p: Host.Platform, env: Environments.Environment, parameters: seq<Expression>, i: nat)
    requires i < |parameters|
    requires forall j :: 0 <= j < i ==> Eval(p, env, parameters[j]).Ok?
    requires Eval(p, env, parameters[i]).Err?
    ensures EvaluateAll(p, env, parameters) == Err(Failure(parameters[i], Eval(p, env, parameters[i]).error))
    decreases |parameters|
  {
    var n := |parameters| - 1;
    var front := parameters[..n];
    if i == n {
      EvaluateAllValues(p, env, front);
      assert forall k :: 0 <= k < n ==> front[k] == parameters[k];
    } else {
      assert front[i] == parameters[i];
      assert forall j :: 0 <= j < i ==> front[j] == parameters[j];
      FirstError(p, env, front, i);
    }
  }

  /** On an error nothing reaches stdout, and appending parameters after the failing one changes nothing. */
  lemma ErrorStopsOutput(p: Host.Platform, env: Environments.Environment, parameters: seq<Expression>, i: nat, later: seq<Expression>, newline: bool)
    requires i < |parameters|
    requires forall j :: 0 <= j < i ==> Eval(p, env, parameters[j]).Ok?
    requires Eval(p, env, parameters[i]).Err?
    ensures Printed(p, env, parameters, newline).stdout == ""
    ensures Printed(p, env, parameters + later, newline) == Printed(p, env, parameters, newline)
  {
    FirstError(p, env, parameters, i);
    var all := parameters + later;
    assert forall j :: 0 <= j <= i ==> all[j] == parameters[j];
    FirstError(p, env, all, i);
  }

  /** Without parameters `print` writes nothing and `println` a newline. */
  lemma NoParameters(p: Host.Platform, env: Environments.Environment)
    ensures Printed(p, env, [], false) == Quiet
    ensures Printed(p, env, [], true) == Effect("\n", [], false)
  {
  }

  /** One more parameter that evaluates adds a space and its text. */
  lemma OneMoreParameter(p: Host.Platform, env: Environments.Environment, parameters: seq<Expression>, last: Expression)
    requires parameters != []
    requires EvaluateAll(p, env, parameters).Ok? && Eval(p, env, last).Ok?
    ensures Printed(p, env, parameters + [last], false).stdout ==
            Printed(p, env, parameters, false).stdout + " " + Show(p, Eval(p, env, last).value)
  {
    var all := parameters + [last];
    assert all[..|all| - 1] == parameters;
    var ds := EvaluateAll(p, env, parameters).value;
    var d := Eval(p, env, last).value;
    assert ShowAll(p, ds + [d]) == ShowAll(p, ds) + [Show(p, d)];
    GoText.JoinSnoc(ShowAll(p, ds), Show(p, d), " ");
  }

  /** A single parameter that evaluates is printed as its text alone, with no separator. */
  lemma OneParameter(p: Host.Platform, env: Environments.Environment, x: Expression)
    requires Eval(p, env, x).Ok?
    ensures Printed(p, env, [x], false) == Effect(Show(p, Eval(p, env, x).value), [], false)
  {
    EvaluateAllValues(p, env, [x]);
  }

  /**
   * `println` differs from `print` only by the final newline: with parameters that
   * evaluate it writes the same text and then `"\n"`, and after an error the two agree.
   */
  lemma PrintlnAddsNewline(p: Host.Platform, env: Environments.Environment, parameters: seq<Expression>)
    ensures EvaluateAll(p, env, parameters).Ok? ==>
              Printed(p, env, parameters, true) == Effect(Printed(p, env, parameters, false).stdout + "\n", [], false)
    ensures EvaluateAll(p, env, parameters).Err? ==>
              Printed(p, env, parameters, true) == Printed(p, env, parameters, false)
  {
  }

  /** `println('a', 'b')` writes "a b" and a newline. */
  lemma PrintlnExample(p: Host.Platform, env: Environments.Environment)
    ensures Printed(p, env, [Val(Str("'a'", "a")), Val(Str("'b'", "b"))], true) == Effect("a b\n", [], false)
  {
    var params := [Val(Str("'a'", "a")), Val(Str("'b'", "b"))];
    assert params[..1] == [Val(Str("'a'", "a"))];
    assert [Val(Str("'a'", "a"))][..0] == [];
    assert ShowAll(p, [Text("a"), Text("b")]) == ["a", "b"];
  }
}
