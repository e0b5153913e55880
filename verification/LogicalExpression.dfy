/** `evaluateLogicalExpression`: text to boolean, through tokens, postfix order and the stack machine. */
module LogicalExpression {
  import opened Logic
  import opened Text
  import opened Tokenizer
  import opened TokenLayout
  import ShuntingYard
  import StackMachine

  datatype LogicalError =
    | TokenizationFailed(tokenizing: TokenizeError)
    | ConversionFailed(parens: ShuntingYard.ParenError)
    | EvaluationFailed(evaluating: StackMachine.EvalError)
    | NotBoolean(value: Value)

  /** Null counts as false in a boolean context; other values are not coerced at this point. */
  function InBooleanContext(v: Value): Result<bool, LogicalError> {
    match v
    case Null => Ok(false)
    case Bool(b) => Ok(b)
    case _ => Err(NotBoolean(v))
  }

  function EvalLogical(expr: string, eval: OperandEval): Result<bool, LogicalError> {
    match Tokens(expr)
    case Err(e) => Err(TokenizationFailed(e))
    case Ok(tokens) =>
      match ShuntingYard.ToRPN(tokens)
      case Err(e) => Err(ConversionFailed(e))
      case Ok(rpn) =>
        match StackMachine.EvalRPN(rpn, eval)
        case Err(e) => Err(EvaluationFailed(e))
        case Ok(v) => InBooleanContext(v)
  }

  method EvaluateLogicalExpression(expr: string, eval: OperandEval) returns (r: Result<bool, LogicalError>)
    ensures r == EvalLogical(expr, eval)
  {
    var tokens := Tokenize(expr);
    if tokens.Err? {
      return Err(TokenizationFailed(tokens.error));
    }
    var rpn := ShuntingYard.InfixToRPN(tokens.value);
    if rpn.Err? {
      return Err(ConversionFailed(rpn.error));
    }
    var result := StackMachine.EvaluateRPN(rpn.value, eval);
    if result.Err? {
      return Err(EvaluationFailed(result.error));
    }
    return InBooleanContext(result.value);
  }

  /** The answer the tree alone determines. */
  function Verdict(t: Tree, eval: OperandEval): Result<bool, LogicalError> {
    if Evaluable(t, eval) then InBooleanContext(Meaning(t, eval))
    else Err(EvaluationFailed(StackMachine.FailureOf(StackMachine.FirstFailing(t, eval), eval)))
  }

  // ----- Printed conditions -----

  predicate AtomsOk(s: Syntax) {
    match s
    case Atom(text) => OperandOk(text)
    case Group(g) => AtomsOk(g)
    case NotOf(a) => AtomsOk(a)
    case AndOf(l, r) => AtomsOk(l) && AtomsOk(r)
    case OrOf(l, r) => AtomsOk(l) && AtomsOk(r)
  }

  /** `tokens` printed with the given spacing, between arbitrary white space. */
  function Printed(lead: string, tokens: seq<Token>, gaps: seq<nat>, trail: string): string
    requires |gaps| == |tokens|
  {
    lead + Layout(tokens, gaps) + trail
  }

  predicate Printable(tokens: seq<Token>) {
    && tokens != [] && OrderOk(tokens) && OperandsOk(tokens)
    && (tokens[|tokens| - 1].Operand? || tokens[|tokens| - 1] == RightParen)
  }

  lemma PrintableJoin(a: seq<Token>, op: Token, b: seq<Token>)
    requires Printable(a) && Printable(b) && (op == And || op == Or)
    ensures Printable(a + [op] + b)
  {
  }

  lemma PrintableAfter(t: Token, a: seq<Token>)
    requires Printable(a) && (t == Not || t == LeftParen)
    ensures Printable([t] + a)
  {
  }

  lemma PrintableBefore(a: seq<Token>)
    requires Printable(a)
    ensures Printable(a + [RightParen])
  {
  }

  lemma {:induction false} InfixPrintable(s: Syntax)
    requires AtomsOk(s)
    ensures Printable(Infix(s))
  {
    match s
    case Atom(text) =>
      assert Next(Infix(s), 0) == None;
    case Group(g) =>
      InfixPrintable(g);
      PrintableAfter(LeftParen, Infix(g));
      PrintableBefore([LeftParen] + Infix(g));
    case NotOf(a) =>
      InfixPrintable(a);
      PrintableAfter(Not, Infix(a));
    case AndOf(l, r) =>
      InfixPrintable(l);
      InfixPrintable(r);
      PrintableJoin(Infix(l), And, Infix(r));
    case OrOf(l, r) =>
      InfixPrintable(l);
      InfixPrintable(r);
      PrintableJoin(Infix(l), Or, Infix(r));
  }

  lemma SpellingTrimmed(t: Token)
    requires t.Operand? ==> OperandOk(t.text)
    ensures Spelling(t) != "" && Trimmed(Spelling(t))
  {
  }

  lemma {:induction false} LayoutTrimmed(tokens: seq<Token>, gaps: seq<nat>)
    requires tokens != [] && |gaps| == |tokens| && OperandsOk(tokens) && gaps[|gaps| - 1] == 0
    ensures Layout(tokens, gaps) != "" && Trimmed(Layout(tokens, gaps))
    decreases |tokens|
  {
    SpellingTrimmed(tokens[0]);
    var word := Spelling(tokens[0]);
    var rest := Layout(tokens[1..], gaps[1..]);
    var s := Layout(tokens, gaps);
    assert s[0] == word[0];
    if |tokens| == 1 {
      assert s == word;
    } else {
      LayoutTrimmed(tokens[1..], gaps[1..]);
      assert s[|s| - 1] == rest[|rest| - 1];
    }
  }

  lemma PrintedTokens(tokens: seq<Token>, gaps: seq<nat>)
    requires Printable(tokens) && SpacingOk(tokens, gaps) && gaps[|gaps| - 1] == 0
    ensures Tokens(Layout(tokens, gaps)) == Ok(tokens)
  {
    LayoutTrimmed(tokens, gaps);
    TrimNothing(Layout(tokens, gaps));
    LexInvertsLayout(tokens, gaps);
  }

  /** Tokenizing a printed condition gives back its infix tokens. */
  lemma TokenizerRoundTrip(lead: string, s: Syntax, gaps: seq<nat>, trail: string)
    requires AtomsOk(s) && SpacingOk(Infix(s), gaps) && gaps[|gaps| - 1] == 0
    requires AllSpace(lead) && AllSpace(trail)
    ensures Tokens(Printed(lead, Infix(s), gaps, trail)) == Ok(Infix(s))
  {
    InfixPrintable(s);
    LayoutTrimmed(Infix(s), gaps);
    TrimPadded(lead, Layout(Infix(s), gaps), trail);
    LexInvertsLayout(Infix(s), gaps);
  }

  /** The whole pipeline computes the meaning of the tree it was printed from: for every tree, every
      sufficient use of parentheses, every spacing and every way of evaluating operands. */
  lemma PipelineComputesMeaning(lead: string, s: Syntax, gaps: seq<nat>, trail: string, eval: OperandEval)
    requires WellFormed(s) && AtomsOk(s) && SpacingOk(Infix(s), gaps) && gaps[|gaps| - 1] == 0
    requires AllSpace(lead) && AllSpace(trail)
    ensures EvalLogical(Printed(lead, Infix(s), gaps, trail), eval) == Verdict(Erase(s), eval)
  {
    TokenizerRoundTrip(lead, s, gaps, trail);
    ShuntingYard.TranslatesToPostorder(s);
    TranslatedVerdict(Printed(lead, Infix(s), gaps, trail), Infix(s), Erase(s), eval);
  }

  /** A text whose tokens are translated to the postorder of a tree is answered as the tree says. */
  lemma TranslatedVerdict(expr: string, tokens: seq<Token>, t: Tree, eval: OperandEval)
    requires Tokens(expr) == Ok(tokens) && ShuntingYard.ToRPN(tokens) == Ok(Postorder(t))
    ensures EvalLogical(expr, eval) == Verdict(t, eval)
  {
    StackMachine.EvaluatesTree(t, eval);
  }

  // ----- Minimal parentheses, single spaces -----

  function SingleSpaces(n: nat): (gaps: seq<nat>)
    ensures |gaps| == n
  {
    seq(n, i requires 0 <= i < n => if i == n - 1 then 0 else 1)
  }

  function PrintTree(t: Tree): string {
    var tokens := Infix(Minimal(t));
    Layout(tokens, SingleSpaces(|tokens|))
  }

  predicate LeavesOk(t: Tree) {
    match t
    case Leaf(text) => OperandOk(text)
    case Neg(a) => LeavesOk(a)
    case Conj(l, r) => LeavesOk(l) && LeavesOk(r)
    case Disj(l, r) => LeavesOk(l) && LeavesOk(r)
  }

  lemma {:induction false} MinimalAtoms(t: Tree)
    requires LeavesOk(t)
    ensures AtomsOk(Minimal(t))
  {
    match t
    case Leaf(_) =>
    case Neg(a) => MinimalAtoms(a);
    case Conj(l, r) => MinimalAtoms(l); MinimalAtoms(r);
    case Disj(l, r) => MinimalAtoms(l); MinimalAtoms(r);
  }

  /** A tree with an operator evaluates to whether its meaning is true; null is false. */
  lemma PrintedTreeEvaluates(t: Tree, eval: OperandEval)
    requires LeavesOk(t) && Evaluable(t, eval) && !t.Leaf?
    ensures EvalLogical(PrintTree(t), eval) == Ok(RankOf(Meaning(t, eval)) == 2)
  {
    var tokens := Infix(Minimal(t));
    var gaps := SingleSpaces(|tokens|);
    MinimalIsWellFormed(t);
    MinimalAtoms(t);
    InfixPrintable(Minimal(t));
    SingleSpacesOk(tokens);
    PrintedTokens(tokens, gaps);
    ShuntingYard.TranslatesToPostorder(Minimal(t));
    TranslatedVerdict(Layout(tokens, gaps), tokens, t, eval);
    MeaningIsTruth(t, eval);
  }

  lemma SingleSpacesOk(tokens: seq<Token>)
    requires Printable(tokens)
    ensures SpacingOk(tokens, SingleSpaces(|tokens|)) && SingleSpaces(|tokens|)[|tokens| - 1] == 0
  {
  }

  lemma MeaningIsTruth(t: Tree, eval: OperandEval)
    requires Evaluable(t, eval) && !t.Leaf?
    ensures InBooleanContext(Meaning(t, eval)) == Ok(RankOf(Meaning(t, eval)) == 2)
  {
  }

  // ----- Single operands -----

  /** A text that is one operand is not coerced: it must evaluate to a boolean, or to null, which counts as false. */
  lemma LoneOperand(lead: string, text: string, trail: string, eval: OperandEval)
    requires OperandOk(text) && AllSpace(lead) && AllSpace(trail)
    ensures EvalLogical(lead + text + trail, eval) ==
      match eval(text)
      case Err(cause) => Err(EvaluationFailed(StackMachine.OperandFailed(text, cause)))
      case Ok(Null) => Ok(false)
      case Ok(Bool(b)) => Ok(b)
      case Ok(v) => Err(NotBoolean(v))
  {
    var gaps := [0];
    OneToken(Operand(text));
    PipelineComputesMeaning(lead, Atom(text), gaps, trail, eval);
  }

  lemma OneToken(t: Token)
    ensures Layout([t], [0]) == Spelling(t)
  {
    assert [t][1..] == [] && Spaces(0) == "" && Spelling(t) + ("" + "") == Spelling(t);
  }

  /** The values that count as false under an operator: false, zero and the empty text. Null is neither. */
  predicate Falsy(v: Value) {
    v == Bool(false) || (v.Number? && v.n == 0.0) || (v.Str? && v.s == "")
  }

  /** `not x` holds for exactly these values of `x`. */
  lemma NegatedOperand(text: string, eval: OperandEval)
    requires OperandOk(text) && eval(text).Ok?
    ensures EvalLogical("not " + text, eval) == Ok(Falsy(eval(text).value))
  {
    var t := Neg(Leaf(text));
    NegatedText(text);
    PrintedTreeEvaluates(t, eval);
  }

  lemma NegatedText(text: string)
    ensures PrintTree(Neg(Leaf(text))) == "not " + text
  {
    var tokens, gaps := [Not, Operand(text)], SingleSpaces(2);
    assert Infix(Minimal(Neg(Leaf(text)))) == tokens;
    assert gaps == [1, 0];
    assert Layout(tokens, gaps) == "not" + (Spaces(1) + Layout([Operand(text)], [0])) by {
      assert tokens[1..] == [Operand(text)] && gaps[1..] == [0];
    }
    OneToken(Operand(text));
    assert Spaces(1) == " " && "not" + (" " + text) == "not " + text;
  }
}
