/** The dispatch table of `ast/comparison.go`: one comparison function per operator. */
module Comparisons {
  import Host
  import Values
  import Environments
  import opened Operators
  import CF = ComparisonFunctions

  /** The type of the entries: a comparison of two operands in an environment. */
  type ComparisonFunction = (Host.Platform, Environments.Environment, Values.Value, Values.Value) -> bool

  /** `Comparisons`. */
  const Comparisons: map<Operator, ComparisonFunction> := map[
    LT := CF.Lt,
    LE := CF.Le,
    EQ := CF.Eq,
    NE := CF.Ne,
    GE := CF.Ge,
    GT := CF.Gt
  ]

  /**
   * The table has exactly the six operators, and its entries keep the identities
   * between them: `!=` is not `==`, `<=` is `<` or `==`, `>=` is `>` or `==`, and
   * `>` is `<` with the operands swapped.
   */
  lemma TableIdentities(p: Host.Platform, env: Environments.Environment, a: Values.Value, b: Values.Value)
    ensures Comparisons.Keys == All
    ensures Comparisons[LT] == CF.Lt && Comparisons[LE] == CF.Le && Comparisons[EQ] == CF.Eq
    ensures Comparisons[NE] == CF.Ne && Comparisons[GE] == CF.Ge && Comparisons[GT] == CF.Gt
    ensures Comparisons[NE](p, env, a, b) == !Comparisons[EQ](p, env, a, b)
    ensures Comparisons[LE](p, env, a, b) == (Comparisons[LT](p, env, a, b) || Comparisons[EQ](p, env, a, b))
    ensures Comparisons[GE](p, env, a, b) == (Comparisons[GT](p, env, a, b) || Comparisons[EQ](p, env, a, b))
    ensures Comparisons[GT](p, env, a, b) == Comparisons[LT](p, env, b, a)
  {
    assert Comparisons[LT] == CF.Lt && Comparisons[LE] == CF.Le && Comparisons[EQ] == CF.Eq;
    assert Comparisons[NE] == CF.Ne && Comparisons[GE] == CF.Ge && Comparisons[GT] == CF.Gt;
    CF.LtGtMirror(p, env, b, a);
  }
}
