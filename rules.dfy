/** `ast/rule.go`: a selection and the block it guards. */
module Rules {
  import opened Wrappers
  import Host
  import Environments
  import opened Values
  import opened Expressions
  import opened Commands
  import opened Blocks

  /** `rule`. An absent selection is Go's nil `Expression`. */
  class Rule {
    var selection: Option<Expression>
    var block: Block

    /** `NewRule`: stores the selection and the block as given. */
    constructor NewRule(selection: Option<Expression>, block: Block)
      ensures this.selection == selection && this.block == block
    {
      this.selection := selection;
      this.block := block;
    }

    /** `Selection()`. */
    function Selection(): (s: Option<Expression>)
      reads this
      ensures s == selection
    {
      selection
    }

    /** `Block()`. */
    function GetBlock(): (b: Block)
      reads this
      ensures b == block
    {
      block
    }

    /** `SetBlock`: replaces the block and keeps the selection. */
    method SetBlock(b: Block)
      modifies this
      ensures block == b && selection == old(selection)
    {
      block := b;
    }

    /** `SetSelection`: replaces the selection and keeps the block. */
    method SetSelection(s: Option<Expression>)
      modifies this
      ensures selection == s && block == old(block)
    {
      selection := s;
    }

    /**
     * `Evaluate` as written: the selection's result and error unchanged, and a
     * nil-interface panic when there is no selection.
     */
    function EvaluateAsWritten(p: Host.Platform, env: Environments.Environment): (r: Outcome)
      reads this
      ensures selection.Some? ==> r == Eval(p, env, selection.value)
      ensures selection.None? ==> r.Err? && r.error.IsPanic()
    {
      match selection
      case Some(s) => Eval(p, env, s)
      case None => Err(NilExpression)
    }

    /**
     * `Evaluate` with an absent selection matching every line: the selection's
     * result and error unchanged, and `true` when there is none.
     */
    function Evaluate(p: Host.Platform, env: Environments.Environment): (r: Outcome)
      reads this
      ensures selection.Some? ==> r == Eval(p, env, selection.value)
      ensures selection.None? ==> r == Ok(Bool(true))
    {
      match selection
      case Some(s) => Eval(p, env, s)
      case None => Ok(Bool(true))
    }

    /** `Execute`: exactly the block's `Execute`. */
    method Execute(p: Host.Platform, env: Environments.Environment) returns (effect: Effect)
      ensures effect == Run(p, env, block.commands)
    {
      effect := block.Execute(p, env);
    }
  }

  /** The two readings of `Evaluate` agree on every rule that has a selection and differ on the others. */
  lemma EvaluateReadings(r: Rule, p: Host.Platform, env: Environments.Environment)
    ensures r.selection.Some? ==> r.EvaluateAsWritten(p, env) == r.Evaluate(p, env)
    ensures r.selection.None? ==> r.EvaluateAsWritten(p, env) == Err(NilExpression) && r.Evaluate(p, env) == Ok(Bool(true))
  {
  }
}
