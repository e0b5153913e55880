/** `infixToRPN`: the shunting-yard translation of a condition into postfix order. */
module ShuntingYard {
  import opened Logic

  datatype ParenError = NoMatchingLeft | UnclosedLeft

  /** The two lists the translation updates; the top of the stack is its last token. */
  datatype Yard = Yard(output: seq<Token>, stack: seq<Token>)

  function Precedence(t: Token): nat {
    match t
    case Not => 3
    case And => 2
    case Or => 1
    case _ => 0
  }

  predicate IsOperator(t: Token) { t.Not? || t.And? || t.Or? }

  predicate ShouldPop(top: Token, current: Token) {
    && top != LeftParen
    && if current == Not then Precedence(top) > Precedence(current) else Precedence(top) >= Precedence(current)
  }

  function Top(stack: seq<Token>): Token
    requires stack != []
  {
    stack[|stack| - 1]
  }

  function Pop(stack: seq<Token>): seq<Token>
    requires stack != []
  {
    stack[..|stack| - 1]
  }

  // ----- The translation as a function -----

  function PopWhile(y: Yard, current: Token): Yard
    decreases |y.stack|
  {
    if y.stack != [] && ShouldPop(Top(y.stack), current) then
      PopWhile(Yard(y.output + [Top(y.stack)], Pop(y.stack)), current)
    else y
  }

  function PopToLeft(y: Yard): Result<Yard, ParenError>
    decreases |y.stack|
  {
    if y.stack == [] then Err(NoMatchingLeft)
    else if Top(y.stack) == LeftParen then Ok(Yard(y.output, Pop(y.stack)))
    else PopToLeft(Yard(y.output + [Top(y.stack)], Pop(y.stack)))
  }

  function Drain(y: Yard): Result<seq<Token>, ParenError>
    decreases |y.stack|
  {
    if y.stack == [] then Ok(y.output)
    else if Top(y.stack) == LeftParen then Err(UnclosedLeft)
    else Drain(Yard(y.output + [Top(y.stack)], Pop(y.stack)))
  }

  function Step(y: Yard, t: Token): Result<Yard, ParenError> {
    match t
    case Operand(_) => Ok(Yard(y.output + [t], y.stack))
    case LeftParen => Ok(Yard(y.output, y.stack + [t]))
    case RightParen => PopToLeft(y)
    case _ => var z := PopWhile(y, t); Ok(Yard(z.output, z.stack + [t]))
  }

  function Run(y: Yard, tokens: seq<Token>): Result<Yard, ParenError>
    decreases |tokens|
  {
    if tokens == [] then Ok(y)
    else
      match Step(y, tokens[0])
      case Err(e) => Err(e)
      case Ok(z) => Run(z, tokens[1..])
  }

  function ToRPN(tokens: seq<Token>): Result<seq<Token>, ParenError> {
    match Run(Yard([], []), tokens)
    case Err(e) => Err(e)
    case Ok(y) => Drain(y)
  }

  // ----- The translation as the source runs it -----

  method InfixToRPN(tokens: seq<Token>) returns (r: Result<seq<Token>, ParenError>)
    ensures r == ToRPN(tokens)
  {
    var output: seq<Token> := [];
    var stack: seq<Token> := [];
    for i := 0 to |tokens|
      invariant Run(Yard([], []), tokens) == Run(Yard(output, stack), tokens[i..])
    {
      var tok := tokens[i];
      assert tokens[i..][0] == tok && tokens[i..][1..] == tokens[i + 1..];
      if tok.Operand? {
        output := output + [tok];
      } else if tok == LeftParen {
        stack := stack + [tok];
      } else if tok == RightParen {
        ghost var before := Yard(output, stack);
        var found := false;
        while |stack| > 0 && !found
          invariant !found ==> PopToLeft(before) == PopToLeft(Yard(output, stack))
          invariant found ==> PopToLeft(before) == Ok(Yard(output, stack))
          decreases |stack|, !found
        {
          var top := stack[|stack| - 1];
          stack := stack[..|stack| - 1];
          if top == LeftParen {
            found := true;
          } else {
            output := output + [top];
          }
        }
        if !found {
          return Err(NoMatchingLeft);
        }
      } else {
        ghost var before := Yard(output, stack);
        while |stack| > 0 && ShouldPop(stack[|stack| - 1], tok)
          invariant PopWhile(before, tok) == PopWhile(Yard(output, stack), tok)
        {
          output := output + [stack[|stack| - 1]];
          stack := stack[..|stack| - 1];
        }
        stack := stack + [tok];
      }
    }
    assert tokens[|tokens|..] == [];
    while |stack| > 0
      invariant ToRPN(tokens) == Drain(Yard(output, stack))
    {
      var top := stack[|stack| - 1];
      stack := stack[..|stack| - 1];
      if top == LeftParen {
        return Err(UnclosedLeft);
      }
      output := output + [top];
    }
    return Ok(output);
  }

  lemma {:induction false} RunConcat(y: Yard, a: seq<Token>, b: seq<Token>)
    ensures Run(y, a + b) == (match Run(y, a) case Err(e) => Err(e) case Ok(z) => Run(z, b))
    decreases |a|
  {
    if a == [] {
      assert a + b == b;
    } else {
      assert (a + b)[1..] == a[1..] + b;
      match Step(y, a[0])
      case Err(_) =>
      case Ok(z) => RunConcat(z, a[1..], b);
    }
  }

  // ----- Well-formed infix becomes the postorder of its tree -----

  /** The part of the postorder that is already written when the last token of `s` has been read. */
  function Emitted(s: Syntax): seq<Token> {
    match s
    case Atom(text) => [Operand(text)]
    case Group(g) => Postorder(Erase(g))
    case NotOf(a) => Emitted(a)
    case AndOf(l, r) => Postorder(Erase(l)) + Emitted(r)
    case OrOf(l, r) => Postorder(Erase(l)) + Emitted(r)
  }

  /** The operators of `s` that are still on the stack at that point. */
  function Pending(s: Syntax): seq<Token> {
    match s
    case Atom(_) => []
    case Group(_) => []
    case NotOf(a) => [Not] + Pending(a)
    case AndOf(_, r) => [And] + Pending(r)
    case OrOf(_, r) => [Or] + Pending(r)
  }

  function Reverse(ts: seq<Token>): seq<Token> {
    if ts == [] then [] else Reverse(ts[1..]) + [ts[0]]
  }

  lemma {:induction false} EmittedThenPending(s: Syntax)
    ensures Emitted(s) + Reverse(Pending(s)) == Postorder(Erase(s))
  {
    match s
    case Atom(_) =>
    case Group(_) =>
    case NotOf(a) => EmittedThenPending(a);
    case AndOf(l, r) => EmittedThenPending(r);
    case OrOf(l, r) => EmittedThenPending(r);
  }

  predicate OperatorsFrom(ts: seq<Token>, level: nat) {
    forall i :: 0 <= i < |ts| ==> IsOperator(ts[i]) && Precedence(ts[i]) >= level
  }

  lemma {:induction false} PendingLevels(s: Syntax)
    requires WellFormed(s)
    ensures OperatorsFrom(Pending(s), Level(s))
  {
    match s
    case Atom(_) =>
    case Group(_) =>
    case NotOf(a) => PendingLevels(a);
    case AndOf(_, r) => PendingLevels(r);
    case OrOf(_, r) => PendingLevels(r);
  }

  lemma ReverseLast(ts: seq<Token>)
    requires ts != []
    ensures Reverse(ts) == [Top(ts)] + Reverse(Pop(ts))
  {
    if |ts| > 1 {
      ReverseLast(ts[1..]);
      assert Pop(ts)[1..] == Pop(ts[1..]);
    }
  }

  lemma FlushLast(out: seq<Token>, ops: seq<Token>)
    requires ops != []
    ensures out + [Top(ops)] + Reverse(Pop(ops)) == out + Reverse(ops)
  {
    ReverseLast(ops);
    Assoc(out, [Top(ops)], Reverse(Pop(ops)));
  }

  lemma FlushNone(out: seq<Token>, ops: seq<Token>)
    requires ops == []
    ensures out + Reverse(ops) == out
  {
  }

  lemma LastAbove(base: seq<Token>, ops: seq<Token>)
    requires ops != []
    ensures base + ops != [] && Top(base + ops) == Top(ops) && Pop(base + ops) == base + Pop(ops)
  {
  }

  /** An operator below `t` that binds tighter is flushed, and nothing below it. */
  lemma {:induction false} PopWhileFlushes(out: seq<Token>, base: seq<Token>, ops: seq<Token>, t: Token)
    requires t == And || t == Or
    requires OperatorsFrom(ops, Precedence(t))
    requires base == [] || !ShouldPop(Top(base), t)
    ensures PopWhile(Yard(out, base + ops), t) == Yard(out + Reverse(ops), base)
    decreases |ops|
  {
    if ops == [] {
      FlushNone(out, ops);
      assert base + ops == base;
    } else {
      PopWhileOnce(out, base, ops, t);
      PopWhileFlushes(out + [Top(ops)], base, Pop(ops), t);
      FlushLast(out, ops);
    }
  }

  lemma PopWhileOnce(out: seq<Token>, base: seq<Token>, ops: seq<Token>, t: Token)
    requires ops != [] && ShouldPop(Top(ops), t)
    ensures PopWhile(Yard(out, base + ops), t) == PopWhile(Yard(out + [Top(ops)], base + Pop(ops)), t)
  {
    LastAbove(base, ops);
  }

  lemma {:induction false} PopToLeftFlushes(out: seq<Token>, base: seq<Token>, ops: seq<Token>)
    requires OperatorsFrom(ops, 0)
    ensures PopToLeft(Yard(out, base + [LeftParen] + ops)) == Ok(Yard(out + Reverse(ops), base))
    decreases |ops|
  {
    var stack := base + [LeftParen] + ops;
    if ops == [] {
      assert stack == base + [LeftParen] && Pop(stack) == base;
      FlushNone(out, ops);
    } else {
      LastAbove(base + [LeftParen], ops);
      PopToLeftFlushes(out + [Top(ops)], base, Pop(ops));
      FlushLast(out, ops);
    }
  }

  lemma {:induction false} DrainFlushes(out: seq<Token>, ops: seq<Token>)
    requires OperatorsFrom(ops, 0)
    ensures Drain(Yard(out, ops)) == Ok(out + Reverse(ops))
    decreases |ops|
  {
    if ops == [] {
      FlushNone(out, ops);
    } else {
      DrainFlushes(out + [Top(ops)], Pop(ops));
      FlushLast(out, ops);
    }
  }

  /** The stack below does not disturb an expression of this level. */
  predicate Blocks(stack: seq<Token>, level: nat) {
    level <= 2 ==> stack == [] || Top(stack) == LeftParen || Precedence(Top(stack)) < level
  }

  /** Reading the tokens of `s` appends `Emitted(s)` to the output and `Pending(s)` to the stack. */
  lemma {:induction false} RunSyntax(y: Yard, s: Syntax)
    requires WellFormed(s) && Blocks(y.stack, Level(s))
    ensures Run(y, Infix(s)) == Ok(Yard(y.output + Emitted(s), y.stack + Pending(s)))
    decreases s, 1
  {
    match s
    case Atom(text) =>
      assert y.stack + Pending(s) == y.stack;
      assert Infix(s)[1..] == [];
    case Group(g) =>
      RunGroup(y, s);
    case NotOf(a) =>
      assert PopWhile(y, Not) == y;
      var z := Yard(y.output, y.stack + [Not]);
      RunSyntax(z, a);
      assert Infix(s)[1..] == Infix(a);
      assert z.stack + Pending(a) == y.stack + Pending(s);
    case AndOf(l, r) =>
      RunBinary(y, s, l, And, r);
    case OrOf(l, r) =>
      RunBinary(y, s, l, Or, r);
  }

  lemma {:induction false} RunGroup(y: Yard, s: Syntax)
    requires s.Group? && WellFormed(s)
    ensures Run(y, Infix(s)) == Ok(Yard(y.output + Emitted(s), y.stack + Pending(s)))
    decreases s, 0
  {
    var g := s.inner;
    var z := Yard(y.output, y.stack + [LeftParen]);
    assert ([LeftParen] + Infix(g) + [RightParen])[1..] == Infix(g) + [RightParen];
    RunSyntax(z, g);
    RunConcat(z, Infix(g), [RightParen]);
    PendingLevels(g);
    PopToLeftFlushes(y.output + Emitted(g), y.stack, Pending(g));
    EmittedThenPending(g);
    assert y.output + Emitted(g) + Reverse(Pending(g)) == y.output + Postorder(Erase(g));
    assert y.stack + [] == y.stack;
    var after := Yard(y.output + Postorder(Erase(g)), y.stack);
    assert [RightParen][1..] == [];
    assert Run(after, []) == Ok(after);
  }

  lemma {:induction false} RunBinary(y: Yard, s: Syntax, l: Syntax, op: Token, r: Syntax)
    requires (s == AndOf(l, r) && op == And) || (s == OrOf(l, r) && op == Or)
    requires WellFormed(s) && Blocks(y.stack, Level(s))
    ensures Run(y, Infix(s)) == Ok(Yard(y.output + Emitted(s), y.stack + Pending(s)))
    decreases s, 0
  {
    var z := Yard(y.output + Postorder(Erase(l)), y.stack + [op]);
    assert Run(y, Infix(s)) == Run(z, Infix(r)) by {
      RunSyntax(y, l);
      RunConcat(y, Infix(l), [op] + Infix(r));
      Assoc(Infix(l), [op], Infix(r));
      RunOperator(y, l, op, Infix(r));
    }
    RunSyntax(z, r);
    Assoc(y.output, Postorder(Erase(l)), Emitted(r));
    Assoc(y.stack, [op], Pending(r));
  }

  lemma RunOperator(y: Yard, l: Syntax, op: Token, rest: seq<Token>)
    requires op == And || op == Or
    requires WellFormed(l) && Level(l) >= Precedence(op) && Blocks(y.stack, Precedence(op))
    ensures Run(Yard(y.output + Emitted(l), y.stack + Pending(l)), [op] + rest)
         == Run(Yard(y.output + Postorder(Erase(l)), y.stack + [op]), rest)
  {
    var z := Yard(y.output + Emitted(l), y.stack + Pending(l));
    assert PopWhile(z, op) == Yard(y.output + Postorder(Erase(l)), y.stack) by {
      PendingLevels(l);
      PopWhileFlushes(y.output + Emitted(l), y.stack, Pending(l), op);
      EmittedThenPending(l);
      Assoc(y.output, Emitted(l), Reverse(Pending(l)));
    }
    assert ([op] + rest)[1..] == rest;
  }

  /** The translation of a well-formed condition is the postorder of its tree. */
  lemma {:induction false} TranslatesToPostorder(s: Syntax)
    requires WellFormed(s)
    ensures ToRPN(Infix(s)) == Ok(Postorder(Erase(s)))
  {
    RunSyntax(Yard([], []), s);
    assert [] + Emitted(s) == Emitted(s) && [] + Pending(s) == Pending(s);
    PendingLevels(s);
    DrainFlushes(Emitted(s), Pending(s));
    EmittedThenPending(s);
  }

  // ----- Parentheses: when the translation fails, and what it keeps otherwise -----

  function Nesting(t: Token): int {
    if t == LeftParen then 1 else if t == RightParen then -1 else 0
  }

  function Depth(tokens: seq<Token>): int {
    if tokens == [] then 0 else Nesting(tokens[0]) + Depth(tokens[1..])
  }

  /** Starting `depth` levels deep, no prefix closes more than was opened. */
  ghost predicate NeverBelow(tokens: seq<Token>, depth: int) {
    forall k :: 0 <= k <= |tokens| ==> depth + Depth(tokens[..k]) >= 0
  }

  lemma {:induction false} NeverBelowStep(tokens: seq<Token>, depth: int)
    requires tokens != []
    ensures NeverBelow(tokens, depth) <==> depth >= 0 && NeverBelow(tokens[1..], depth + Nesting(tokens[0]))
  {
    assert depth + Depth(tokens[..0]) == depth;
    var rest := tokens[1..];
    assert forall k {:trigger tokens[..k + 1]} :: 0 <= k <= |rest| ==> tokens[..k + 1][1..] == rest[..k];
    if NeverBelow(tokens, depth) {
      forall k | 0 <= k <= |rest|
        ensures depth + Nesting(tokens[0]) + Depth(rest[..k]) >= 0
      {
        assert depth + Depth(tokens[..k + 1]) >= 0;
      }
    }
    if depth >= 0 && NeverBelow(rest, depth + Nesting(tokens[0])) {
      forall k | 0 <= k <= |tokens|
        ensures depth + Depth(tokens[..k]) >= 0
      {
        if k > 0 {
          assert depth + Nesting(tokens[0]) + Depth(rest[..k - 1]) >= 0;
          assert tokens[..(k - 1) + 1][1..] == rest[..k - 1];
        }
      }
    }
  }

  function Opens(stack: seq<Token>): nat {
    if stack == [] then 0 else Opens(Pop(stack)) + if Top(stack) == LeftParen then 1 else 0
  }

  /** The operands of a token list, in order. */
  function Operands(tokens: seq<Token>): seq<string> {
    if tokens == [] then []
    else Operands(Pop(tokens)) + OperandText(Top(tokens))
  }

  function OperandText(t: Token): seq<string> {
    if t.Operand? then [t.text] else []
  }

  lemma {:induction false} OperandsConcat(a: seq<Token>, b: seq<Token>)
    ensures Operands(a + b) == Operands(a) + Operands(b)
    decreases |b|
  {
    if b == [] {
      assert a + b == a;
    } else {
      assert Pop(a + b) == a + Pop(b);
      OperandsConcat(a, Pop(b));
      Assoc(Operands(a), Operands(Pop(b)), OperandText(Top(b)));
    }
  }

  /** Only operators and left parentheses ever wait on the stack, and no parenthesis reaches the output. */
  predicate YardOk(y: Yard) {
    && (forall i :: 0 <= i < |y.stack| ==> IsOperator(y.stack[i]) || y.stack[i] == LeftParen)
    && (forall i :: 0 <= i < |y.output| ==> y.output[i] != LeftParen && y.output[i] != RightParen)
  }

  function Held(y: Yard, t: Token): nat {
    multiset(y.output)[t] + multiset(y.stack)[t]
  }

  /** `z` follows `y` with the tokens `read` taken in, up to parentheses. */
  ghost predicate Conserves(y: Yard, read: seq<Token>, z: Yard) {
    && Operands(z.output) == Operands(y.output) + Operands(read)
    && forall t :: t != LeftParen && t != RightParen ==> Held(z, t) == Held(y, t) + multiset(read)[t]
  }

  lemma PopOne(y: Yard)
    requires YardOk(y) && y.stack != [] && Top(y.stack) != LeftParen
    ensures var z := Yard(y.output + [Top(y.stack)], Pop(y.stack));
            YardOk(z) && Opens(z.stack) == Opens(y.stack) && Conserves(y, [], z)
  {
    assert y.stack == Pop(y.stack) + [Top(y.stack)];
    OperandsConcat(y.output, [Top(y.stack)]);
  }

  lemma {:induction false} PopWhileConserves(y: Yard, t: Token)
    requires YardOk(y)
    ensures var z := PopWhile(y, t); YardOk(z) && Opens(z.stack) == Opens(y.stack) && Conserves(y, [], z)
    decreases |y.stack|
  {
    if y.stack != [] && ShouldPop(Top(y.stack), t) {
      PopOne(y);
      PopWhileConserves(Yard(y.output + [Top(y.stack)], Pop(y.stack)), t);
    }
  }

  lemma {:induction false} PopToLeftConserves(y: Yard)
    requires YardOk(y)
    ensures Opens(y.stack) == 0 ==> PopToLeft(y) == Err(NoMatchingLeft)
    ensures Opens(y.stack) > 0 ==>
      && PopToLeft(y).Ok?
      && YardOk(PopToLeft(y).value)
      && Opens(PopToLeft(y).value.stack) == Opens(y.stack) - 1
      && Conserves(y, [], PopToLeft(y).value)
    decreases |y.stack|
  {
    if y.stack == [] {
    } else if Top(y.stack) == LeftParen {
      assert y.stack == Pop(y.stack) + [LeftParen];
    } else {
      PopOne(y);
      PopToLeftConserves(Yard(y.output + [Top(y.stack)], Pop(y.stack)));
    }
  }

  lemma {:induction false} DrainConserves(y: Yard)
    requires YardOk(y)
    ensures Opens(y.stack) > 0 ==> Drain(y) == Err(UnclosedLeft)
    ensures Opens(y.stack) == 0 ==>
      Drain(y).Ok? && YardOk(Yard(Drain(y).value, [])) && Conserves(y, [], Yard(Drain(y).value, []))
    decreases |y.stack|
  {
    if y.stack != [] && Top(y.stack) != LeftParen {
      PopOne(y);
      DrainConserves(Yard(y.output + [Top(y.stack)], Pop(y.stack)));
    }
  }

  lemma OperandConserves(y: Yard, t: Token)
    requires YardOk(y) && t.Operand?
    ensures var z := Yard(y.output + [t], y.stack); YardOk(z) && Conserves(y, [t], z)
  {
  }

  lemma PushConserves(y: Yard, t: Token)
    requires YardOk(y) && (IsOperator(t) || t == LeftParen)
    ensures var z := Yard(y.output, y.stack + [t]);
            YardOk(z) && Opens(z.stack) == Opens(y.stack) + Nesting(t) && Conserves(y, [t], z)
  {
  }

  lemma ConservesTransitive(x: Yard, a: seq<Token>, y: Yard, b: seq<Token>, z: Yard)
    requires Conserves(x, a, y) && Conserves(y, b, z)
    ensures Conserves(x, a + b, z)
  {
    OperandsConcat(a, b);
    Assoc(Operands(x.output), Operands(a), Operands(b));
  }

  lemma StepConserves(y: Yard, t: Token)
    requires YardOk(y)
    ensures Opens(y.stack) + Nesting(t) < 0 ==> Step(y, t) == Err(NoMatchingLeft)
    ensures Opens(y.stack) + Nesting(t) >= 0 ==> StepKeeps(y, t)
  {
    match t
    case Operand(_) => OperandConserves(y, t);
    case LeftParen => PushConserves(y, t);
    case RightParen =>
      PopToLeftConserves(y);
      assert Operands([t]) == Operands([]);
    case _ =>
      PopWhileConserves(y, t);
      var z := PopWhile(y, t);
      PushConserves(z, t);
      ConservesTransitive(y, [], z, [t], Yard(z.output, z.stack + [t]));
      assert [] + [t] == [t];
  }

  ghost predicate StepKeeps(y: Yard, t: Token) {
    && Step(y, t).Ok?
    && YardOk(Step(y, t).value)
    && Opens(Step(y, t).value.stack) == Opens(y.stack) + Nesting(t)
    && Conserves(y, [t], Step(y, t).value)
  }

  ghost predicate RunKeeps(y: Yard, tokens: seq<Token>) {
    && Run(y, tokens).Ok?
    && YardOk(Run(y, tokens).value)
    && Opens(Run(y, tokens).value.stack) == Opens(y.stack) + Depth(tokens)
    && Conserves(y, tokens, Run(y, tokens).value)
  }

  lemma RunKeepsOneMore(y: Yard, tokens: seq<Token>)
    requires tokens != [] && StepKeeps(y, tokens[0]) && RunKeeps(Step(y, tokens[0]).value, tokens[1..])
    ensures RunKeeps(y, tokens)
  {
    var z, rest := Step(y, tokens[0]).value, tokens[1..];
    assert tokens == [tokens[0]] + rest;
    ConservesTransitive(y, [tokens[0]], z, rest, Run(z, rest).value);
  }

  lemma {:induction false} RunConserves(y: Yard, tokens: seq<Token>)
    requires YardOk(y)
    ensures !NeverBelow(tokens, Opens(y.stack)) ==> Run(y, tokens) == Err(NoMatchingLeft)
    ensures NeverBelow(tokens, Opens(y.stack)) ==> RunKeeps(y, tokens)
    decreases |tokens|
  {
    if tokens == [] {
      assert NeverBelow([], Opens(y.stack));
    } else {
      NeverBelowStep(tokens, Opens(y.stack));
      StepConserves(y, tokens[0]);
      var rest := tokens[1..];
      if Opens(y.stack) + Nesting(tokens[0]) < 0 {
        assert Depth(rest[..0]) == 0;
      } else {
        var z := Step(y, tokens[0]).value;
        RunConserves(z, rest);
        if NeverBelow(rest, Opens(z.stack)) {
          RunKeepsOneMore(y, tokens);
        }
      }
    }
  }

  /** The translation fails exactly on unbalanced parentheses, with the error naming the side that is missing. */
  lemma ParenthesisExactness(tokens: seq<Token>)
    ensures ToRPN(tokens) == Err(NoMatchingLeft) <==> exists k :: 0 <= k <= |tokens| && Depth(tokens[..k]) < 0
    ensures ToRPN(tokens) == Err(UnclosedLeft) <==>
      (forall k :: 0 <= k <= |tokens| ==> Depth(tokens[..k]) >= 0) && Depth(tokens) > 0
  {
    var y := Yard([], []);
    RunConserves(y, tokens);
    assert NeverBelow(tokens, 0) <==> forall k :: 0 <= k <= |tokens| ==> Depth(tokens[..k]) >= 0;
    if NeverBelow(tokens, 0) {
      DrainConserves(Run(y, tokens).value);
    }
  }

  /** What it returns has no parentheses, is a permutation of the other tokens and keeps the operands in order. */
  lemma TokenConservation(tokens: seq<Token>)
    requires ToRPN(tokens).Ok?
    ensures var rpn := ToRPN(tokens).value;
      && LeftParen !in rpn && RightParen !in rpn
      && (forall t :: t != LeftParen && t != RightParen ==> multiset(rpn)[t] == multiset(tokens)[t])
      && Operands(rpn) == Operands(tokens)
  {
    var y := Yard([], []);
    RunConserves(y, tokens);
    var z := Run(y, tokens).value;
    DrainConserves(z);
    ConservesTransitive(y, tokens, z, [], Yard(Drain(z).value, []));
    assert tokens + [] == tokens;
    forall t | t != LeftParen && t != RightParen
      ensures multiset(Drain(z).value)[t] == multiset(tokens)[t]
    {
      assert Held(Yard(Drain(z).value, []), t) == Held(y, t) + multiset(tokens)[t];
    }
  }
}
