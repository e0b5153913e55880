/** The pipeline and the grammar: grammatical texts are answered as their tree says, but nothing checks the grammar. */
module BeyondGrammar {
  import opened Logic
  import opened Text
  import opened Tokenizer
  import opened TokenLayout
  import opened LogicalExpression
  import opened Grammar
  import Yard = ShuntingYard
  import StackMachine

  /** Every text with grammatical tokens has exactly one tree, and is answered as that tree says. */
  lemma GrammaticalEvaluates(expr: string, eval: OperandEval) returns (s: Syntax)
    requires Tokens(expr).Ok? && Grammatical(Tokens(expr).value)
    ensures WellFormed(s) && Infix(s) == Tokens(expr).value && EvalLogical(expr, eval) == Verdict(Erase(s), eval)
    ensures forall other :: WellFormed(other) && Infix(other) == Tokens(expr).value ==> Erase(other) == Erase(s)
  {
    s := Build(Tokens(expr).value);
    Yard.TranslatesToPostorder(s);
    TranslatedVerdict(expr, Tokens(expr).value, Erase(s), eval);
    forall other | WellFormed(other) && Infix(other) == Tokens(expr).value
      ensures Erase(other) == Erase(s)
    {
      Yard.TranslatesToPostorder(other);
      StackMachine.PostorderDeterminesTree(Postorder(Erase(s)), Erase(s));
      StackMachine.PostorderDeterminesTree(Postorder(Erase(s)), Erase(other));
    }
  }

  // ----- A text outside the grammar -----

  /** An operator after its operands, with empty parentheses behind it. */
  function Odd(a: string, b: string): seq<Token> {
    [LeftParen, Operand(a), RightParen] + [LeftParen, Operand(b), RightParen] + [And, LeftParen, RightParen]
  }

  function OddGaps(): seq<nat> { [0, 0, 1] + [0, 0, 1] + [1, 0, 0] }

  lemma RunGrouped(out: seq<Token>, a: string)
    ensures Yard.Run(Yard.Yard(out, []), [LeftParen, Operand(a), RightParen]) == Ok(Yard.Yard(out + [Operand(a)], []))
  {
    Yard.RunSyntax(Yard.Yard(out, []), Group(Atom(a)));
    assert Infix(Group(Atom(a))) == [LeftParen, Operand(a), RightParen];
    assert [] + Yard.Pending(Group(Atom(a))) == [];
  }

  lemma RunEmptyPair(out: seq<Token>)
    ensures Yard.Run(Yard.Yard(out, []), [And, LeftParen, RightParen]) == Ok(Yard.Yard(out, [And]))
  {
    var z, w := Yard.Yard(out, [And]), Yard.Yard(out, [And, LeftParen]);
    assert [And, LeftParen, RightParen][1..] == [LeftParen, RightParen];
    assert [LeftParen, RightParen][1..] == [RightParen] && [RightParen][1..] == [];
    assert [] + [And] == [And] && [And] + [LeftParen] == [And, LeftParen];
    assert Yard.Pop(w.stack) == [And];
    assert Yard.Step(w, RightParen) == Ok(z);
  }

  lemma OddTranslates(a: string, b: string)
    ensures Yard.ToRPN(Odd(a, b)) == Ok(Postorder(Conj(Leaf(a), Leaf(b))))
  {
    var start, first := Yard.Yard([], []), [LeftParen, Operand(a), RightParen];
    var pair := first + [LeftParen, Operand(b), RightParen];
    var out := [Operand(a)] + [Operand(b)];
    assert Yard.Run(start, pair) == Ok(Yard.Yard(out, [])) by {
      RunGrouped([], a);
      RunGrouped([Operand(a)], b);
      assert [] + [Operand(a)] == [Operand(a)];
      Yard.RunConcat(start, first, [LeftParen, Operand(b), RightParen]);
    }
    RunEmptyPair(out);
    Yard.RunConcat(start, pair, [And, LeftParen, RightParen]);
    Yard.DrainFlushes(out, [And]);
    assert Yard.Reverse([And]) == [And];
  }

  lemma OddPrintable(a: string, b: string)
    requires OperandOk(a) && OperandOk(b)
    ensures Printable(Odd(a, b)) && SpacingOk(Odd(a, b), OddGaps())
  {
    var odd := Odd(a, b);
    assert odd[1] == Operand(a) && odd[2] == RightParen && odd[4] == Operand(b) && odd[5] == RightParen;
    assert odd[6] == And && odd[8] == RightParen;
  }

  /** It is not in the grammar. */
  lemma OddOutside(a: string, b: string)
    ensures !Grammatical(Odd(a, b)) && !InGrammar(Odd(a, b))
  {
    var odd := Odd(a, b);
    assert odd[2] == RightParen && odd[2 + 1] == LeftParen;
    assert !Follows(odd[2], odd[2 + 1]);
    GrammarExact(odd);
  }

  lemma LayoutStep(t: Token, gap: nat, rest: seq<Token>, gaps: seq<nat>)
    requires |rest| == |gaps|
    ensures Layout([t] + rest, [gap] + gaps) == Spelling(t) + (Spaces(gap) + Layout(rest, gaps))
  {
    var tokens, all := [t] + rest, [gap] + gaps;
    assert tokens[1..] == rest && all[1..] == gaps;
  }

  lemma LayoutTight(t: Token, rest: seq<Token>, gaps: seq<nat>)
    requires |rest| == |gaps|
    ensures Layout([t] + rest, [0] + gaps) == Spelling(t) + Layout(rest, gaps)
  {
    LayoutStep(t, 0, rest, gaps);
    assert Spaces(0) + Layout(rest, gaps) == Layout(rest, gaps);
  }

  function Grouped(a: string, rest: seq<Token>): seq<Token> { [LeftParen] + ([Operand(a)] + ([RightParen] + rest)) }

  function GroupedGaps(gaps: seq<nat>): seq<nat> { [0] + ([0] + ([1] + gaps)) }

  lemma LayoutClose(rest: seq<Token>, gaps: seq<nat>)
    requires |rest| == |gaps|
    ensures Layout([RightParen] + rest, [1] + gaps) == ") " + Layout(rest, gaps)
  {
    assert Spaces(1) == " ";
    LayoutStep(RightParen, 1, rest, gaps);
    Assoc(")", " ", Layout(rest, gaps));
  }

  lemma LayoutGroup(a: string, rest: seq<Token>, gaps: seq<nat>)
    requires |rest| == |gaps|
    ensures Layout(Grouped(a, rest), GroupedGaps(gaps)) == "(" + (a + (") " + Layout(rest, gaps)))
  {
    LayoutClose(rest, gaps);
    LayoutTight(Operand(a), [RightParen] + rest, [1] + gaps);
    LayoutTight(LeftParen, [Operand(a)] + ([RightParen] + rest), [0] + ([1] + gaps));
  }

  lemma LayoutPair(tokens: seq<Token>, gaps: seq<nat>)
    requires tokens == [LeftParen] + [RightParen] && gaps == [0] + [0]
    ensures Layout(tokens, gaps) == "()"
  {
    assert Layout([], []) == "" && Layout([RightParen] + [], [0] + []) == ")" by {
      LayoutTight(RightParen, [], []);
    }
    assert [RightParen] + [] == [RightParen] && [0] + [] == [0];
    LayoutTight(LeftParen, [RightParen], [0]);
  }

  lemma LayoutTail()
    ensures Layout([And, LeftParen, RightParen], [1, 0, 0]) == "and ()"
  {
    var pair, gaps := [LeftParen] + [RightParen], [0] + [0];
    assert Spaces(1) == " ";
    LayoutPair(pair, gaps);
    LayoutStep(And, 1, pair, gaps);
    assert [And] + pair == [And, LeftParen, RightParen] && [1] + gaps == [1, 0, 0];
  }

  lemma OddSpelled(a: string, b: string)
    ensures Layout(Odd(a, b), OddGaps()) == "(" + (a + (") " + ("(" + (b + (") " + "and ()")))))
  {
    var tail := [And, LeftParen, RightParen];
    LayoutTail();
    LayoutGroup(b, tail, [1, 0, 0]);
    LayoutGroup(a, Grouped(b, tail), GroupedGaps([1, 0, 0]));
    assert Odd(a, b) == Grouped(a, Grouped(b, tail)) && OddGaps() == GroupedGaps(GroupedGaps([1, 0, 0]));
  }

  /** Translation checks parentheses and evaluation checks operand counts, but nothing checks the grammar: this text
      has none, and is still answered as `a and b` would be. */
  lemma AcceptsBeyondGrammar(eval: OperandEval)
    ensures Tokens("(a) (b) and ()") == Ok(Odd("a", "b")) && !InGrammar(Odd("a", "b"))
    ensures EvalLogical("(a) (b) and ()", eval) == Verdict(Conj(Leaf("a"), Leaf("b")), eval)
  {
    assert OperandOk("a") && OperandOk("b") by {
      assert "a" + " " == "a " && "a"[1..] == "" && "b" + " " == "b " && "b"[1..] == "";
    }
    OddPrintable("a", "b");
    OddSpelled("a", "b");
    assert "(" + ("a" + (") " + ("(" + ("b" + (") " + "and ()"))))) == "(a) (b) and ()";
    PrintedTokens(Odd("a", "b"), OddGaps());
    OddTranslates("a", "b");
    OddOutside("a", "b");
    TranslatedVerdict("(a) (b) and ()", Odd("a", "b"), Conj(Leaf("a"), Leaf("b")), eval);
  }
}
