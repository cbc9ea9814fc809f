/** `ast/program.go`: a program is its rules, in order. */
module Programs {
  import opened Rules

  /** `program`. */
  datatype Program = Program(rules: seq<Rule>) {
    /** `Rules()`. */
    function Rules(): (rs: seq<Rule>)
      ensures rs == rules
    {
      rules
    }

    /**
     * `String`, given the text each rule prints as (`Rule.String` is not part of
     * this model): a header line, one indented line per rule, and a closing bracket.
     */
    method String(ruleTexts: seq<string>) returns (s: string)
      requires |ruleTexts| == |rules|
      ensures s == Rendered(ruleTexts)
    {
      s := "Program [\n";
      for i := 0 to |rules|
        invariant s == "Program [\n" + Lines(ruleTexts[..i])
      {
        assert ruleTexts[..i + 1][..i] == ruleTexts[..i];
        s := s + "    " + ruleTexts[i] + "\n";
      }
      assert ruleTexts[..|rules|] == ruleTexts;
      s := s + "]";
    }
  }

  /** `NewProgram`. */
  function NewProgram(rules: seq<Rule>): (p: Program)
    ensures p.Rules() == rules
  {
    Program(rules)
  }

  /** One line per rule text, each indented by four spaces. */
  function Lines(texts: seq<string>): string {
    if texts == [] then "" else Lines(texts[..|texts| - 1]) + "    " + texts[|texts| - 1] + "\n"
  }

  /** The text of a program whose rules print as `texts`. */
  function Rendered(texts: seq<string>): string {
    "Program [\n" + Lines(texts) + "]"
  }

  /** The rendering starts with the header, ends with the bracket, and is just those two for no rules. */
  lemma RenderedFrame(texts: seq<string>)
    ensures |Rendered(texts)| >= 11
    ensures Rendered(texts)[..10] == "Program [\n"
    ensures Rendered(texts)[|Rendered(texts)| - 1] == ']'
    ensures Rendered([]) == "Program [\n]"
  {
  }

  /** Each further rule adds its own indented line just before the closing bracket. */
  lemma RenderedSnoc(texts: seq<string>, last: string)
    ensures Rendered(texts + [last]) == "Program [\n" + Lines(texts) + "    " + last + "\n" + "]"
  {
    assert (texts + [last])[..|texts|] == texts;
    var lines := Lines(texts) + "    " + last + "\n";
    assert Lines(texts + [last]) == lines;
    assert Rendered(texts + [last]) == "Program [\n" + lines + "]";
  }

  /** The rule lines take, per rule, its text and five more characters. */
  lemma {:induction false} RenderedLength(texts: seq<string>)
    ensures |Lines(texts)| == TotalLength(texts) + 5 * |texts|
    decreases |texts|
  {
    if texts != [] {
      RenderedLength(texts[..|texts| - 1]);
    }
  }

  /** The rule lines of two runs of rules, one after the other, are those of the two runs joined. */
  lemma {:induction false} LinesAppend(a: seq<string>, b: seq<string>)
    ensures Lines(a + b) == Lines(a) + Lines(b)
    decreases |b|
  {
    if b == [] {
      assert a + b == a;
    } else {
      var b', last := b[..|b| - 1], "    " + b[|b| - 1] + "\n";
      assert (a + b)[..|a + b| - 1] == a + b';
      assert (a + b)[|a + b| - 1] == b[|b| - 1];
      LinesAppend(a, b');
      assert Lines(a + b) == Lines(a) + Lines(b') + last;
    }
  }

  /**
   * Rule `k` is printed on a line of its own: four spaces, its text and a newline,
   * after the header and the lines of the rules before it.
   */
  lemma RuleLineAt(texts: seq<string>, k: nat)
    requires k < |texts|
    ensures var at := 10 + TotalLength(texts[..k]) + 5 * k;
      && at + 5 + |texts[k]| <= |Rendered(texts)|
      && Rendered(texts)[at..at + 5 + |texts[k]|] == "    " + texts[k] + "\n"
  {
    var before, rest := texts[..k], texts[k + 1..];
    assert texts == before + [texts[k]] + rest;
    LinesAppend(before + [texts[k]], rest);
    assert (before + [texts[k]])[..k] == before;
    var line := "    " + texts[k] + "\n";
    assert Lines(before + [texts[k]]) == Lines(before) + line;
    RenderedLength(before);
    var head := "Program [\n" + Lines(before);
    assert |head| == 10 + TotalLength(before) + 5 * k;
    assert Rendered(texts) == head + line + (Lines(rest) + "]");
    Middle(head, line, Lines(rest) + "]");
  }

  /** The middle part of three joined strings is where the first one ends. */
  lemma Middle(x: string, y: string, z: string)
    ensures (x + y + z)[|x|..|x| + |y|] == y
  {
  }

  /** The sum of the lengths of some texts. */
  function TotalLength(texts: seq<string>): nat {
    if texts == [] then 0 else TotalLength(texts[..|texts| - 1]) + |texts[|texts| - 1]|
  }
}
