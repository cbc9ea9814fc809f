/**
 * The per-line driver of `main.go`: splitting a line into columns, running the
 * rules of the program on it, and numbering the lines of the input.
 */
module Driver {
  import opened Wrappers
  import GoText
  import Host
  import opened Values
  import Environments
  import opened Expressions
  import opened Commands
  import opened Blocks
  import opened Rules
  import opened Programs

  /** A character of the class `[[:blank:]]`. */
  predicate IsBlank(c: char) {
    c == ' ' || c == '\t'
  }

  /** `s` without its leading blanks. */
  function SkipBlanks(s: string): (r: string)
    ensures |r| <= |s|
    ensures s != [] && IsBlank(s[0]) ==> |r| < |s|
    ensures r == [] || !IsBlank(r[0])
  {
    if s != [] && IsBlank(s[0]) then SkipBlanks(s[1..]) else s
  }

  /** The pieces of `s` after `piece`, the text read so far since the last run of blanks. */
  function SplitFrom(s: string, piece: string): (r: seq<string>)
    ensures |r| >= 1
    decreases |s|
  {
    if s == [] then [piece]
    else if IsBlank(s[0]) then [piece] + SplitFrom(SkipBlanks(s), "")
    else SplitFrom(s[1..], piece + [s[0]])
  }

  /**
   * `Split(line, -1)` of the pattern `[[:blank:]]+`: the pieces between the runs
   * of blanks, including an empty first piece when the line starts with a blank and
   * an empty last piece when it ends with one.
   */
  function SplitBlanks(s: string): (r: seq<string>)
    ensures |r| >= 1
  {
    SplitFrom(s, "")
  }

  /** The pieces without the first one when it is empty. */
  function Kept(pieces: seq<string>): (kept: seq<string>)
    ensures |pieces| - 1 <= |kept| <= |pieces|
    ensures forall q :: q in kept ==> q in pieces
    ensures pieces != [] && pieces[0] != "" ==> kept == pieces
  {
    if pieces != [] && pieces[0] == "" then pieces[1..] else pieces
  }

  /** The columns of `line`: the whole line, then the pieces, without an empty first one. */
  function Columns(line: string): (cols: seq<string>)
    ensures |cols| >= 1 && cols[0] == line
  {
    [line] + Kept(SplitBlanks(line))
  }

  /** The environment of one line: its number and its columns, with no named variables. */
  function LineEnvironment(line: string, lineNumber: int): (env: Environments.Environment)
    ensures env.row.Some? && env.row.value.lineNumber == lineNumber
    ensures env.row.value.columns != [] && env.row.value.columns[0] == line
    ensures env.variables == map[]
  {
    Environments.Environment(Some(Environments.Row(lineNumber, Columns(line))), map[])
  }

  /**
   * What one rule does in an environment: only a rule whose selection is `true`
   * writes to stdout, and a crash comes from a panic or from its block.
   */
  function RuleEffect(p: Host.Platform, env: Environments.Environment, r: Rule): (e: Effect)
    reads r, r.block.commands
    ensures r.Evaluate(p, env) != Ok(Bool(true)) ==> e.stdout == ""
    ensures e.crashed ==>
              r.Evaluate(p, env) == Ok(Bool(true)) || (r.Evaluate(p, env).Err? && r.Evaluate(p, env).error.IsPanic())
  {
    match r.Evaluate(p, env)
    case Err(err) => if err.IsPanic() then Crash else Effect("", [RuleNotEvaluated(r.selection, err)], false)
    case Ok(d) => if d == Bool(true) then Run(p, env, r.block.commands) else Quiet
  }

  /** What the rules do, one after another, in an environment: nothing reaches stdout unless a rule holds. */
  function RulesEffect(p: Host.Platform, env: Environments.Environment, rules: seq<Rule>): (e: Effect)
    reads *
    ensures (forall k :: 0 <= k < |rules| ==> rules[k].Evaluate(p, env) != Ok(Bool(true))) ==> e.stdout == ""
    decreases |rules|
  {
    if rules == [] then Quiet
    else
      var n := |rules| - 1;
      assert forall k :: 0 <= k < n ==> rules[..n][k] == rules[k];
      RulesEffect(p, env, rules[..n]).Then(RuleEffect(p, env, rules[n]))
  }

  /** `applyRules`: builds the row of the line, then evaluates each rule and runs the block of each that holds. */
  method ApplyRules(p: Host.Platform, program: Program, line: string, lineNumber: int) returns (effect: Effect)
    ensures effect == RulesEffect(p, LineEnvironment(line, lineNumber), program.rules)
  {
    var pieces := SplitBlanks(line);
    var columns := [line];
    for i := 0 to |pieces|
      invariant columns == [line] + Kept(pieces[..i])
    {
      assert pieces[..i + 1] == pieces[..i] + [pieces[i]];
      if !(i == 0 && pieces[i] == "") {
        columns := columns + [pieces[i]];
      }
    }
    assert pieces[..|pieces|] == pieces;
    var env := Environments.Environment(Some(Environments.Row(lineNumber, columns)), map[]);
    assert env == LineEnvironment(line, lineNumber);
    effect := RunRules(p, env, program.Rules());
  }

  /** The loop of `applyRules` over the rules: each is evaluated, and its block run when it holds. */
  method RunRules(p: Host.Platform, env: Environments.Environment, rules: seq<Rule>) returns (effect: Effect)
    ensures effect == RulesEffect(p, env, rules)
  {
    effect := Quiet;
    for i := 0 to |rules|
      invariant effect == RulesEffect(p, env, rules[..i])
    {
      var rule := rules[i];
      var result := rule.Evaluate(p, env);
      var step: Effect;
      if result.Err? {
        if result.error.IsPanic() {
          step := Crash;
        } else {
          step := Effect("", [RuleNotEvaluated(rule.selection, result.error)], false);
        }
      } else if result.value == Bool(true) {
        step := rule.Execute(p, env);
      } else {
        step := Quiet;
      }
      assert step == RuleEffect(p, env, rule);
      RulesEffectSnoc(p, env, rules, i);
      effect := effect.Then(step);
    }
    assert rules[..|rules|] == rules;
  }

  /** The rules up to `i` inclusive do what the rules before `i` do, then rule `i`. */
  lemma RulesEffectSnoc(p: Host.Platform, env: Environments.Environment, rules: seq<Rule>, i: nat)
    requires i < |rules|
    ensures RulesEffect(p, env, rules[..i + 1]) == RulesEffect(p, env, rules[..i]).Then(RuleEffect(p, env, rules[i]))
  {
    assert rules[..i + 1][..i] == rules[..i];
  }

  /** What the program does to the lines from `first` on, numbering them from `first`; without rules, nothing. */
  function LinesEffect(p: Host.Platform, program: Program, lines: seq<string>, first: int): (e: Effect)
    reads *
    ensures program.rules == [] ==> e == Quiet
    decreases |lines|
  {
    if lines == [] then Quiet
    else
      var n := |lines| - 1;
      LinesEffect(p, program, lines[..n], first).Then(RulesEffect(p, LineEnvironment(lines[n], first + n), program.rules))
  }

  /** `processReader` on the input's lines: each line in turn, numbered from 0. */
  method ProcessLines(p: Host.Platform, program: Program, lines: seq<string>) returns (effect: Effect)
    ensures effect == LinesEffect(p, program, lines, 0)
  {
    effect := Quiet;
    var lineNumber := 0;
    for i := 0 to |lines|
      invariant lineNumber == i
      invariant effect == LinesEffect(p, program, lines[..i], 0)
    {
      assert lines[..i + 1][..i] == lines[..i];
      var e := ApplyRules(p, program, lines[i], lineNumber);
      effect := effect.Then(e);
      lineNumber := lineNumber + 1;
    }
    assert lines[..|lines|] == lines;
  }

  /** No character of `t` is a blank. */
  predicate BlankFree(t: string) {
    forall k :: 0 <= k < |t| ==> !IsBlank(t[k])
  }

  /** A word without blanks joins the piece being read. */
  lemma {:induction false} SplitFromWord(w: string, rest: string, piece: string)
    requires BlankFree(w)
    ensures SplitFrom(w + rest, piece) == SplitFrom(rest, piece + w)
    decreases |w|
  {
    if w == [] {
      assert w + rest == rest && piece + w == piece;
    } else {
      assert (w + rest)[1..] == w[1..] + rest;
      SplitFromWord(w[1..], rest, piece + [w[0]]);
      assert piece + [w[0]] + w[1..] == piece + w;
    }
  }

  /** No piece contains a blank. */
  lemma {:induction false} SplitFromBlankFree(s: string, piece: string)
    requires BlankFree(piece)
    ensures forall q :: q in SplitFrom(s, piece) ==> BlankFree(q)
    decreases |s|
  {
    if s != [] {
      if IsBlank(s[0]) {
        SplitFromBlankFree(SkipBlanks(s), "");
      } else {
        SplitFromBlankFree(s[1..], piece + [s[0]]);
      }
    }
  }

  /** The first piece begins with the text read so far. */
  lemma {:induction false} SplitFromFirst(s: string, piece: string)
    ensures |SplitFrom(s, piece)[0]| >= |piece|
    decreases |s|
  {
    if s != [] && !IsBlank(s[0]) {
      SplitFromFirst(s[1..], piece + [s[0]]);
    }
  }

  /** Every piece of a line is free of blanks. */
  lemma PiecesBlankFree(s: string)
    ensures forall q :: q in SplitBlanks(s) ==> BlankFree(q)
  {
    SplitFromBlankFree(s, "");
  }

  /** A text without blanks is a single piece. */
  lemma SplitWithoutBlanks(s: string)
    requires BlankFree(s)
    ensures SplitBlanks(s) == [s]
  {
    SplitFromWord(s, [], "");
    assert s + [] == s;
    assert "" + s == s;
  }

  /** Words without blanks joined by single spaces split back into the same words. */
  lemma {:induction false} SplitJoin(words: seq<string>)
    requires |words| >= 1
    requires forall k :: 0 <= k < |words| ==> words[k] != "" && BlankFree(words[k])
    ensures SplitBlanks(GoText.Join(words, " ")) == words
    decreases |words|
  {
    if |words| == 1 {
      SplitWithoutBlanks(words[0]);
    } else {
      var tail := GoText.Join(words[1..], " ");
      assert GoText.Join(words, " ") == words[0] + (" " + tail);
      SplitFromWord(words[0], " " + tail, "");
      assert tail[0] == words[1][0] by {
        if |words[1..]| == 1 {
        } else {
          assert tail == words[1] + " " + GoText.Join(words[2..], " ");
        }
      }
      assert SkipBlanks(" " + tail) == tail by {
        assert (" " + tail)[1..] == tail;
      }
      SplitJoin(words[1..]);
      assert "" + words[0] == words[0];
      calc {
        SplitBlanks(GoText.Join(words, " "));
        SplitFrom(words[0] + (" " + tail), "");
        SplitFrom(" " + tail, words[0]);
        [words[0]] + SplitFrom(tail, "");
        [words[0]] + words[1..];
        words;
      }
    }
  }

  /** Column 0 is the line; the other columns are free of blanks, and there are two or more unless the line is empty. */
  lemma ColumnsShape(line: string)
    ensures Columns(line)[0] == line
    ensures forall k :: 1 <= k < |Columns(line)| ==> BlankFree(Columns(line)[k])
    ensures |Columns(line)| >= 2 <==> line != ""
  {
    var pieces := SplitBlanks(line);
    PiecesBlankFree(line);
    assert forall k :: 1 <= k < |Columns(line)| ==> Columns(line)[k] in pieces;
    if line != "" {
      if IsBlank(line[0]) {
        assert |pieces| >= 2;
      } else {
        assert "" + [line[0]] == [line[0]];
        assert pieces == SplitFrom(line[1..], [line[0]]);
        SplitFromFirst(line[1..], [line[0]]);
        assert pieces[0] != "";
      }
    } else {
      assert pieces == [""];
    }
  }

  /** Columns of words joined by single spaces: the line, then the words. */
  lemma ColumnsOfWords(words: seq<string>)
    requires |words| >= 1
    requires forall k :: 0 <= k < |words| ==> words[k] != "" && BlankFree(words[k])
    ensures Columns(GoText.Join(words, " ")) == [GoText.Join(words, " ")] + words
  {
    SplitJoin(words);
  }

  /** A trailing blank gives an empty last column. */
  lemma ColumnsTrailingBlank()
    ensures Columns("a b ") == ["a b ", "a", "b", ""]
  {
    assert SplitFrom("b ", "") == ["b", ""] by {
      assert SplitFrom("b ", "") == SplitFrom(" ", "b") by {
        SplitFromWord("b", " ", "");
        assert "b" + " " == "b " && "" + "b" == "b";
      }
      assert SkipBlanks(" ") == "";
    }
    assert SplitFrom("a b ", "") == SplitFrom(" b ", "a") by {
      SplitFromWord("a", " b ", "");
      assert "a" + " b " == "a b " && "" + "a" == "a";
    }
    assert SkipBlanks(" b ") == "b " by {
      assert " b "[1..] == "b ";
    }
  }

  /** A leading blank gives no column. */
  lemma ColumnsLeadingBlank()
    ensures Columns(" a") == [" a", "a"]
  {
    SplitWithoutBlanks("a");
    assert SkipBlanks(" a") == "a" by {
      assert " a"[1..] == "a";
    }
    assert SplitBlanks(" a") == ["", "a"];
  }

  /** A run of tabs separates like one blank, and an empty line has only column 0. */
  lemma ColumnsTabs()
    ensures Columns("a\t\tb") == ["a\t\tb", "a", "b"]
    ensures Columns("") == [""]
  {
    assert SplitFrom("a\t\tb", "") == SplitFrom("\t\tb", "a") by {
      SplitFromWord("a", "\t\tb", "");
      assert "a" + "\t\tb" == "a\t\tb" && "" + "a" == "a";
    }
    assert SkipBlanks("\t\tb") == "b" by {
      assert "\t\tb"[1..] == "\tb" && "\tb"[1..] == "b";
    }
    SplitWithoutBlanks("b");
  }

  /** Running the rules of two lists one after the other is running their concatenation. */
  lemma {:induction false} RulesAppend(p: Host.Platform, env: Environments.Environment, a: seq<Rule>, b: seq<Rule>)
    ensures RulesEffect(p, env, a + b) == RulesEffect(p, env, a).Then(RulesEffect(p, env, b))
    decreases |b|
  {
    if b == [] {
      assert a + b == a;
    } else {
      var n := |b| - 1;
      assert (a + b)[..|a + b| - 1] == a + b[..n];
      RulesAppend(p, env, a, b[..n]);
      ThenMonoid(RulesEffect(p, env, a), RulesEffect(p, env, b[..n]), RuleEffect(p, env, b[n]));
    }
  }

  /** A rule runs its block exactly when it evaluates to `true`, and otherwise does nothing. */
  lemma RuleOutcomes(p: Host.Platform, env: Environments.Environment, r: Rule)
    ensures r.Evaluate(p, env) == Ok(Bool(true)) ==> RuleEffect(p, env, r) == Run(p, env, r.block.commands)
    ensures r.Evaluate(p, env).Ok? && r.Evaluate(p, env).value != Bool(true) ==> RuleEffect(p, env, r) == Quiet
  {
  }

  /** A rule whose selection fails without a panic only adds a diagnostic, and the rules after it still run. */
  lemma RuleErrorContinues(p: Host.Platform, env: Environments.Environment, r: Rule, later: seq<Rule>)
    requires r.Evaluate(p, env).Err? && !r.Evaluate(p, env).error.IsPanic()
    ensures RulesEffect(p, env, [r] + later) ==
            Effect("", [RuleNotEvaluated(r.selection, r.Evaluate(p, env).error)], false).Then(RulesEffect(p, env, later))
  {
    assert RulesEffect(p, env, [r]) == RuleEffect(p, env, r) by {
      assert [r][..0] == [];
    }
    RulesAppend(p, env, [r], later);
  }

  /** The `k`-th line of the input is processed with line number `k`, after the lines before it. */
  lemma LineNumbers(p: Host.Platform, program: Program, lines: seq<string>, k: nat)
    requires k < |lines|
    ensures LinesEffect(p, program, lines[..k + 1], 0) ==
            LinesEffect(p, program, lines[..k], 0).Then(RulesEffect(p, LineEnvironment(lines[k], k), program.rules))
  {
    assert lines[..k + 1][..k] == lines[..k];
  }

  /** A rule without a selection whose block is `NewPrintlnBlock`'s echoes every line. */
  lemma EchoesLine(p: Host.Platform, r: Rule, line: string, lineNumber: int)
    requires r.selection.None? && |r.block.commands| == 1
    requires r.block.commands[0].parameters == [Val(Var("%0"))] && r.block.commands[0].newline
    ensures RuleEffect(p, LineEnvironment(line, lineNumber), r) == Effect(line + "\n", [], false)
  {
    var env := LineEnvironment(line, lineNumber);
    var c := r.block.commands[0];
    assert r.block.commands == [c];
    ColumnsShape(line);
    if line != "" {
      PrintlnLine(p, env, c);
    } else {
      assert Columns(line) == [""];
      RunFew(p, env, c);
      assert Environments.ColumnName(0) == "%0" by {
        assert GoText.Join([], "") == "";
      }
      Environments.ResolveColumn(env, 0);
      assert [Val(Var("%0"))][..0] == [];
    }
  }
}
