/** `ast/block.go`: a rule's block of commands. */
module Blocks {
  import Host
  import Strconv
  import opened Values
  import Environments
  import opened Expressions
  import opened Commands

  /** What running these commands one after another does: at most one diagnostic per command. */
  function Run(p: Host.Platform, env: Environments.Environment, commands: seq<PrintCommand>): (e: Effect)
    reads commands
    ensures |e.stderr| <= |commands|
    decreases |commands|
  {
    if commands == [] then Quiet
    else Run(p, env, commands[..|commands| - 1]).Then(commands[|commands| - 1].Output(p, env))
  }

  /** The commands up to `i` inclusive do what the commands before `i` do, then command `i`. */
  lemma RunSnoc(p: Host.Platform, env: Environments.Environment, commands: seq<PrintCommand>, i: nat)
    requires i < |commands|
    ensures Run(p, env, commands[..i + 1]) == Run(p, env, commands[..i]).Then(commands[i].Output(p, env))
  {
    assert commands[..i + 1][..i] == commands[..i];
  }

  /** `Block`, held by value; its commands are objects. */
  datatype Block = Block(commands: seq<PrintCommand>) {

    /** `Execute`: runs every command once, in index order. */
    method Execute(p: Host.Platform, env: Environments.Environment) returns (effect: Effect)
      ensures effect == Run(p, env, commands)
    {
      effect := Quiet;
      for i := 0 to |commands|
        invariant effect == Run(p, env, commands[..i])
      {
        var e := commands[i].Execute(p, env);
        RunSnoc(p, env, commands, i);
        effect := effect.Then(e);
      }
      assert commands[..|commands|] == commands;
    }

    /** `LastCommand`: the command added last, for a block that has one. */
    function LastCommand(): (c: PrintCommand)
      requires |commands| > 0
      ensures c in commands && c == commands[|commands| - 1]
    {
      commands[|commands| - 1]
    }
  }

  /** `NewPrintlnBlock`: a block of one new `println(%0)` command, which echoes the line. */
  method NewPrintlnBlock() returns (b: Block)
    ensures |b.commands| == 1 && fresh(b.commands[0])
    ensures b.commands[0].parameters == [Val(Var("%0"))] && b.commands[0].newline
  {
    var c := new PrintCommand.NewPrintlnCommand([Val(Var("%0"))]);
    b := Block([c]);
  }

  /** Running two lists of commands one after the other is running their concatenation. */
  lemma {:induction false} RunAppend(p: Host.Platform, env: Environments.Environment, a: seq<PrintCommand>, b: seq<PrintCommand>)
    ensures Run(p, env, a + b) == Run(p, env, a).Then(Run(p, env, b))
    decreases |b|
  {
    if b == [] {
      assert a + b == a;
    } else {
      var n := |b| - 1;
      assert (a + b)[..|a + b| - 1] == a + b[..n];
      RunAppend(p, env, a, b[..n]);
      ThenMonoid(Run(p, env, a), Run(p, env, b[..n]), b[n].Output(p, env));
    }
  }

  /** An empty block does nothing, and a block of one command does what that command does. */
  lemma RunFew(p: Host.Platform, env: Environments.Environment, c: PrintCommand)
    ensures Run(p, env, []) == Quiet
    ensures Run(p, env, [c]) == c.Output(p, env)
  {
    assert [c][..0] == [];
  }

  /** What each command writes to stdout, in index order. */
  function Stdouts(p: Host.Platform, env: Environments.Environment, commands: seq<PrintCommand>): (r: seq<string>)
    reads commands
    ensures |r| == |commands|
    ensures forall k :: 0 <= k < |commands| ==> r[k] == commands[k].Output(p, env).stdout
    decreases |commands|
  {
    if commands == [] then []
    else
      var prefix := commands[..|commands| - 1];
      assert forall k :: 0 <= k < |prefix| ==> prefix[k] == commands[k];
      Stdouts(p, env, prefix) + [commands[|commands| - 1].Output(p, env).stdout]
  }

  /** Every command runs, each once: a block's output is its commands' outputs in index order. */
  lemma {:induction false} RunOutputs(p: Host.Platform, env: Environments.Environment, commands: seq<PrintCommand>)
    requires forall k :: 0 <= k < |commands| ==> !commands[k].Output(p, env).crashed
    ensures !Run(p, env, commands).crashed
    ensures Run(p, env, commands).stdout == Concat(Stdouts(p, env, commands))
    decreases |commands|
  {
    if commands != [] {
      var n := |commands| - 1;
      var prefix := commands[..n];
      assert forall k :: 0 <= k < |prefix| ==> prefix[k] == commands[k];
      RunOutputs(p, env, prefix);
      var last := commands[n].Output(p, env);
      ConcatSnoc(Stdouts(p, env, prefix), last.stdout);
    }
  }

  /** The concatenation of some texts. */
  function Concat(parts: seq<string>): string {
    if parts == [] then "" else Concat(parts[..|parts| - 1]) + parts[|parts| - 1]
  }

  lemma ConcatSnoc(parts: seq<string>, last: string)
    ensures Concat(parts + [last]) == Concat(parts) + last
  {
    assert (parts + [last])[..|parts|] == parts;
  }

  /** The command of `NewPrintlnBlock` writes column 0 (the whole line) and a newline. */
  lemma PrintlnLine(p: Host.Platform, env: Environments.Environment, c: PrintCommand)
    requires c.parameters == [Val(Var("%0"))] && c.newline
    requires env.row.Some? && |env.row.value.columns| >= 2
    ensures Run(p, env, [c]) == Effect(env.row.value.columns[0] + "\n", [], false)
  {
    RunFew(p, env, c);
    assert Strconv.FormatInt(0) == "0";
    assert Environments.ColumnName(0) == "%0";
    Environments.ResolveColumn(env, 0);
    assert [Val(Var("%0"))][..0] == [];
  }
}
