/** `evaluateRPN` and `applyLogicalOperator`: the stack machine that runs a postfix condition. */
module StackMachine {
  import opened Logic

  datatype EvalError =
    | OperandFailed(text: string, cause: string)
    | NotNeedsOne(have: nat)
    | BinaryNeedsTwo(have: nat)
    | UnexpectedToken(token: Token)
    | ResultCount(count: nat)

  function ToBooleanOrNull(v: Value): Value {
    match v
    case Null => Null
    case Bool(b) => Bool(b)
    case Number(n) => Bool(n != 0.0)
    case Str(s) => Bool(s != "")
    case _ => Bool(true)
  }

  /** The case tables of the source; `right` is ignored by `not`. */
  function ApplyLogicalOperator(op: Token, left: Value, right: Value): Value {
    var l, r := ToBooleanOrNull(left), ToBooleanOrNull(right);
    match op
    case Not =>
      if l == Null then Null else Bool(l == Bool(false))
    case And =>
      if l == Null && r == Null then Null
      else if l == Null then (if r == Bool(false) then Bool(false) else Null)
      else if r == Null then (if l == Bool(false) then Bool(false) else Null)
      else Bool(l == Bool(true) && r == Bool(true))
    case Or =>
      if l == Null && r == Null then Null
      else if l == Null then (if r == Bool(true) then Bool(true) else Null)
      else if r == Null then (if l == Bool(true) then Bool(true) else Null)
      else Bool(l == Bool(true) || r == Bool(true))
    case _ => Null
  }

  /** The tables are negation, minimum and maximum in the order false < null < true. */
  lemma TablesFollowTruthOrder(left: Value, right: Value)
    ensures ApplyLogicalOperator(Not, left, right) == FromRank(2 - RankOf(left))
    ensures ApplyLogicalOperator(And, left, right) == FromRank(Min(RankOf(left), RankOf(right)))
    ensures ApplyLogicalOperator(Or, left, right) == FromRank(Max(RankOf(left), RankOf(right)))
  {
  }

  function Step(stack: seq<Value>, t: Token, eval: OperandEval): Result<seq<Value>, EvalError> {
    var n := |stack|;
    match t
    case Operand(text) =>
      (match eval(text)
       case Ok(v) => Ok(stack + [v])
       case Err(cause) => Err(OperandFailed(text, cause)))
    case Not =>
      if n < 1 then Err(NotNeedsOne(n))
      else Ok(stack[..n - 1] + [ApplyLogicalOperator(Not, stack[n - 1], Null)])
    case And =>
      if n < 2 then Err(BinaryNeedsTwo(n))
      else Ok(stack[..n - 2] + [ApplyLogicalOperator(And, stack[n - 2], stack[n - 1])])
    case Or =>
      if n < 2 then Err(BinaryNeedsTwo(n))
      else Ok(stack[..n - 2] + [ApplyLogicalOperator(Or, stack[n - 2], stack[n - 1])])
    case _ => Err(UnexpectedToken(t))
  }

  function Exec(rpn: seq<Token>, stack: seq<Value>, eval: OperandEval): Result<seq<Value>, EvalError>
    decreases |rpn|
  {
    if rpn == [] then Ok(stack)
    else
      match Step(stack, rpn[0], eval)
      case Err(e) => Err(e)
      case Ok(next) => Exec(rpn[1..], next, eval)
  }

  function EvalRPN(rpn: seq<Token>, eval: OperandEval): Result<Value, EvalError> {
    match Exec(rpn, [], eval)
    case Err(e) => Err(e)
    case Ok(stack) => if |stack| == 1 then Ok(stack[0]) else Err(ResultCount(|stack|))
  }

  method EvaluateRPN(rpn: seq<Token>, eval: OperandEval) returns (r: Result<Value, EvalError>)
    ensures r == EvalRPN(rpn, eval)
  {
    var stack: seq<Value> := [];
    for i := 0 to |rpn|
      invariant Exec(rpn, [], eval) == Exec(rpn[i..], stack, eval)
    {
      var tok := rpn[i];
      assert rpn[i..][0] == tok && rpn[i..][1..] == rpn[i + 1..];
      match tok {
        case Operand(text) =>
          var result := eval(text);
          if result.Err? {
            return Err(OperandFailed(text, result.error));
          }
          stack := stack + [result.value];
        case Not =>
          if |stack| < 1 {
            return Err(NotNeedsOne(|stack|));
          }
          var operand := stack[|stack| - 1];
          stack := stack[..|stack| - 1];
          stack := stack + [ApplyLogicalOperator(Not, operand, Null)];
        case LeftParen =>
          return Err(UnexpectedToken(tok));
        case RightParen =>
          return Err(UnexpectedToken(tok));
        case _ =>
          if |stack| < 2 {
            return Err(BinaryNeedsTwo(|stack|));
          }
          var right := stack[|stack| - 1];
          var left := stack[|stack| - 2];
          stack := stack[..|stack| - 2];
          stack := stack + [ApplyLogicalOperator(tok, left, right)];
      }
    }
    assert rpn[|rpn|..] == [];
    if |stack| != 1 {
      return Err(ResultCount(|stack|));
    }
    return Ok(stack[0]);
  }

  // ----- Reading a postfix list back as trees -----

  /** One step of the same machine with trees on its stack instead of values. */
  function Grow(trees: seq<Tree>, t: Token): Option<seq<Tree>> {
    var n := |trees|;
    match t
    case Operand(text) => Some(trees + [Leaf(text)])
    case Not => if n < 1 then None else Some(trees[..n - 1] + [Neg(trees[n - 1])])
    case And => if n < 2 then None else Some(trees[..n - 2] + [Conj(trees[n - 2], trees[n - 1])])
    case Or => if n < 2 then None else Some(trees[..n - 2] + [Disj(trees[n - 2], trees[n - 1])])
    case _ => None
  }

  function Forest(rpn: seq<Token>, trees: seq<Tree>): Option<seq<Tree>>
    decreases |rpn|
  {
    if rpn == [] then Some(trees)
    else
      match Grow(trees, rpn[0])
      case None => None
      case Some(next) => Forest(rpn[1..], next)
  }

  function PostorderAll(trees: seq<Tree>): seq<Token> {
    if trees == [] then []
    else PostorderAll(trees[..|trees| - 1]) + Postorder(trees[|trees| - 1])
  }

  lemma GrowSound(trees: seq<Tree>, t: Token)
    requires Grow(trees, t).Some?
    ensures PostorderAll(Grow(trees, t).value) == PostorderAll(trees) + [t]
  {
    var n := |trees|;
    var next := Grow(trees, t).value;
    if t.Operand? {
      assert next[..n] == trees;
    } else if t == Not {
      assert next[..n - 1] == trees[..n - 1];
      Assoc(PostorderAll(trees[..n - 1]), Postorder(trees[n - 1]), [Not]);
    } else {
      assert next[..n - 2] == trees[..n - 2] && trees[..n - 1][..n - 2] == trees[..n - 2];
      var rest, l, r := PostorderAll(trees[..n - 2]), Postorder(trees[n - 2]), Postorder(trees[n - 1]);
      assert PostorderAll(trees) == rest + l + r;
      Assoc(rest, l, r);
      Assoc(rest, l + r, [t]);
    }
  }

  lemma {:induction false} ForestSound(rpn: seq<Token>, trees: seq<Tree>)
    requires Forest(rpn, trees).Some?
    ensures PostorderAll(Forest(rpn, trees).value) == PostorderAll(trees) + rpn
    decreases |rpn|
  {
    if rpn != [] {
      GrowSound(trees, rpn[0]);
      ForestSound(rpn[1..], Grow(trees, rpn[0]).value);
      assert rpn == [rpn[0]] + rpn[1..];
      Assoc(PostorderAll(trees), [rpn[0]], rpn[1..]);
    }
  }

  lemma {:induction false} ForestReads(t: Tree, rest: seq<Token>, trees: seq<Tree>)
    ensures Forest(Postorder(t) + rest, trees) == Forest(rest, trees + [t])
    decreases t
  {
    match t
    case Leaf(_) =>
      assert (Postorder(t) + rest)[1..] == rest;
    case Neg(a) =>
      Assoc(Postorder(a), [Not], rest);
      ForestReads(a, [Not] + rest, trees);
      ForestOperator(Not, rest, trees + [a], trees + [t]);
    case Conj(l, r) =>
      ForestReadsTwo(t, l, r, And, rest, trees);
    case Disj(l, r) =>
      ForestReadsTwo(t, l, r, Or, rest, trees);
  }

  lemma {:induction false} ForestReadsTwo(t: Tree, l: Tree, r: Tree, op: Token, rest: seq<Token>, trees: seq<Tree>)
    requires (t == Conj(l, r) && op == And) || (t == Disj(l, r) && op == Or)
    ensures Forest(Postorder(t) + rest, trees) == Forest(rest, trees + [t])
    decreases t, 0
  {
    Assoc(Postorder(l) + Postorder(r), [op], rest);
    Assoc(Postorder(l), Postorder(r), [op] + rest);
    ForestReads(l, Postorder(r) + ([op] + rest), trees);
    ForestReads(r, [op] + rest, trees + [l]);
    var both := trees + [l] + [r];
    assert both[..|both| - 2] == trees;
    ForestOperator(op, rest, both, trees + [t]);
  }

  lemma ForestOperator(op: Token, rest: seq<Token>, before: seq<Tree>, after: seq<Tree>)
    requires Grow(before, op) == Some(after)
    ensures Forest([op] + rest, before) == Forest(rest, after)
  {
  }

  /** A tree is determined by its postorder, and reading the postorder back gives the tree. */
  lemma {:induction false} PostorderDeterminesTree(rpn: seq<Token>, t: Tree)
    ensures Postorder(t) == rpn <==> Forest(rpn, []) == Some([t])
  {
    if Postorder(t) == rpn {
      ForestReads(t, [], []);
      assert rpn + [] == rpn && [] + [t] == [t];
    }
    if Forest(rpn, []) == Some([t]) {
      ForestSound(rpn, []);
      assert PostorderAll([t]) == PostorderAll([]) + Postorder(t) == Postorder(t);
      assert PostorderAll([]) + rpn == rpn;
    }
  }

  // ----- Running the machine is evaluating the tree -----

  /** The first operand, in reading order, that does not evaluate. */
  function FirstFailing(t: Tree, eval: OperandEval): (text: string)
    requires !Evaluable(t, eval)
    ensures eval(text).Err?
  {
    match t
    case Leaf(text) => text
    case Neg(a) => FirstFailing(a, eval)
    case Conj(l, r) => if Evaluable(l, eval) then FirstFailing(r, eval) else FirstFailing(l, eval)
    case Disj(l, r) => if Evaluable(l, eval) then FirstFailing(r, eval) else FirstFailing(l, eval)
  }

  function FailureOf(text: string, eval: OperandEval): EvalError
    requires eval(text).Err?
  {
    OperandFailed(text, eval(text).error)
  }

  lemma {:induction false} ExecReads(t: Tree, rest: seq<Token>, stack: seq<Value>, eval: OperandEval)
    ensures Exec(Postorder(t) + rest, stack, eval)
         == if Evaluable(t, eval) then Exec(rest, stack + [Meaning(t, eval)], eval)
            else Err(FailureOf(FirstFailing(t, eval), eval))
    decreases t, 1
  {
    match t
    case Leaf(text) =>
      assert (Postorder(t) + rest)[1..] == rest;
    case Neg(a) =>
      Assoc(Postorder(a), [Not], rest);
      ExecReads(a, [Not] + rest, stack, eval);
      if Evaluable(a, eval) {
        var one := stack + [Meaning(a, eval)];
        assert one[..|one| - 1] == stack;
        TablesFollowTruthOrder(Meaning(a, eval), Null);
        ExecOperator(Not, rest, one, stack + [Meaning(t, eval)], eval);
      }
    case Conj(l, r) =>
      ExecReadsTwo(t, l, r, And, rest, stack, eval);
    case Disj(l, r) =>
      ExecReadsTwo(t, l, r, Or, rest, stack, eval);
  }

  lemma {:induction false} ExecReadsTwo(t: Tree, l: Tree, r: Tree, op: Token, rest: seq<Token>, stack: seq<Value>,
      eval: OperandEval)
    requires (t == Conj(l, r) && op == And) || (t == Disj(l, r) && op == Or)
    ensures Exec(Postorder(t) + rest, stack, eval)
         == if Evaluable(t, eval) then Exec(rest, stack + [Meaning(t, eval)], eval)
            else Err(FailureOf(FirstFailing(t, eval), eval))
    decreases t, 0
  {
    Assoc(Postorder(l) + Postorder(r), [op], rest);
    Assoc(Postorder(l), Postorder(r), [op] + rest);
    ExecReads(l, Postorder(r) + ([op] + rest), stack, eval);
    if Evaluable(l, eval) {
      ExecReads(r, [op] + rest, stack + [Meaning(l, eval)], eval);
      if Evaluable(r, eval) {
        var two := stack + [Meaning(l, eval)] + [Meaning(r, eval)];
        assert two[..|two| - 2] == stack;
        TablesFollowTruthOrder(Meaning(l, eval), Meaning(r, eval));
        ExecOperator(op, rest, two, stack + [Meaning(t, eval)], eval);
      }
    }
  }

  lemma ExecOperator(op: Token, rest: seq<Token>, before: seq<Value>, after: seq<Value>, eval: OperandEval)
    requires Step(before, op, eval) == Ok(after)
    ensures Exec([op] + rest, before, eval) == Exec(rest, after, eval)
  {
  }

  /** The machine only gets through a list that also builds trees, and ends with as many. */
  lemma {:induction false} ExecNeedsForest(rpn: seq<Token>, stack: seq<Value>, trees: seq<Tree>, eval: OperandEval)
    requires |stack| == |trees| && Exec(rpn, stack, eval).Ok?
    ensures Forest(rpn, trees).Some? && |Forest(rpn, trees).value| == |Exec(rpn, stack, eval).value|
    decreases |rpn|
  {
    if rpn != [] {
      ExecNeedsForest(rpn[1..], Step(stack, rpn[0], eval).value, Grow(trees, rpn[0]).value, eval);
    }
  }

  /** On the postorder of a tree the machine returns the meaning of the tree; an operand that
      fails is never skipped, whatever the other side is, and the first one is reported. */
  lemma {:induction false} EvaluatesTree(t: Tree, eval: OperandEval)
    ensures EvalRPN(Postorder(t), eval)
         == if Evaluable(t, eval) then Ok(Meaning(t, eval)) else Err(FailureOf(FirstFailing(t, eval), eval))
  {
    ExecReads(t, [], [], eval);
    assert Postorder(t) + [] == Postorder(t);
  }

  /** The machine succeeds on exactly the postorders of trees whose operands all evaluate. */
  lemma StackMachineExactness(rpn: seq<Token>, eval: OperandEval)
    ensures EvalRPN(rpn, eval).Ok? <==> exists t :: Postorder(t) == rpn && Evaluable(t, eval)
  {
    if EvalRPN(rpn, eval).Ok? {
      ExecNeedsForest(rpn, [], [], eval);
      var f := Forest(rpn, []).value;
      var t := f[0];
      assert f == [t];
      PostorderDeterminesTree(rpn, t);
      EvaluatesTree(t, eval);
      assert Postorder(t) == rpn && Evaluable(t, eval);
    }
    forall t | Postorder(t) == rpn && Evaluable(t, eval)
      ensures EvalRPN(rpn, eval).Ok?
    {
      EvaluatesTree(t, eval);
    }
  }

  // ----- How the machine fails -----

  /** Values on the stack after the first `n` tokens: an operand adds one, `and` and `or` take one away. */
  function Height(rpn: seq<Token>, n: nat): int
    requires n <= |rpn|
  {
    if n == 0 then 0
    else Height(rpn, n - 1) + if rpn[n - 1].Operand? then 1 else if rpn[n - 1] == Not then 0 else -1
  }

  /** What is wrong at token `i`, given how many values there are. */
  function Fault(rpn: seq<Token>, i: nat, eval: OperandEval): Option<EvalError>
    requires i < |rpn| && Height(rpn, i) >= 0
  {
    match rpn[i]
    case Operand(text) => if eval(text).Err? then Some(OperandFailed(text, eval(text).error)) else None
    case Not => if Height(rpn, i) < 1 then Some(NotNeedsOne(Height(rpn, i))) else None
    case LeftParen => Some(UnexpectedToken(LeftParen))
    case RightParen => Some(UnexpectedToken(RightParen))
    case _ => if Height(rpn, i) < 2 then Some(BinaryNeedsTwo(Height(rpn, i))) else None
  }

  predicate NoFault(rpn: seq<Token>, n: nat, eval: OperandEval)
    requires n <= |rpn|
  {
    forall i :: 0 <= i < n ==> Height(rpn, i) >= 0 && Fault(rpn, i, eval) == None
  }

  lemma HeightKept(rpn: seq<Token>, n: nat, eval: OperandEval)
    requires n <= |rpn| && NoFault(rpn, n, eval)
    ensures Height(rpn, n) >= 0
  {
    if n > 0 {
      assert Fault(rpn, n - 1, eval) == None;
    }
  }

  lemma StepFault(rpn: seq<Token>, i: nat, stack: seq<Value>, eval: OperandEval)
    requires i < |rpn| && |stack| == Height(rpn, i)
    ensures var r := Step(stack, rpn[i], eval);
      match Fault(rpn, i, eval)
      case Some(e) => r == Err(e)
      case None => r.Ok? && |r.value| == Height(rpn, i + 1)
  {
  }

  lemma {:induction false} ExecFault(rpn: seq<Token>, i: nat, stack: seq<Value>, eval: OperandEval)
    requires i <= |rpn| && |stack| == Height(rpn, i) && NoFault(rpn, i, eval)
    ensures var r := Exec(rpn[i..], stack, eval);
      && (r.Ok? ==> NoFault(rpn, |rpn|, eval) && |r.value| == Height(rpn, |rpn|))
      && (r.Err? ==> exists k :: FaultAt(rpn, k, eval, r.error))
    decreases |rpn| - i
  {
    if i < |rpn| {
      assert rpn[i..][0] == rpn[i] && rpn[i..][1..] == rpn[i + 1..];
      StepFault(rpn, i, stack, eval);
      if Fault(rpn, i, eval) == None {
        ExecFault(rpn, i + 1, Step(stack, rpn[i], eval).value, eval);
      } else {
        assert FaultAt(rpn, i, eval, Fault(rpn, i, eval).value);
      }
    } else {
      assert rpn[i..] == [];
    }
  }

  /** Token `k` is the first that is at fault. */
  predicate FaultAt(rpn: seq<Token>, k: nat, eval: OperandEval, e: EvalError) {
    k < |rpn| && NoFault(rpn, k, eval) && Height(rpn, k) >= 0 && Fault(rpn, k, eval) == Some(e)
  }

  /** Any token list: the first token at fault decides the error; without one, the number of values left does. */
  lemma FailuresExact(rpn: seq<Token>, eval: OperandEval)
    ensures forall k, e :: FaultAt(rpn, k, eval, e) ==> EvalRPN(rpn, eval) == Err(e)
    ensures NoFault(rpn, |rpn|, eval) ==> Height(rpn, |rpn|) >= 0
    ensures NoFault(rpn, |rpn|, eval) ==>
      if Height(rpn, |rpn|) == 1 then EvalRPN(rpn, eval).Ok?
      else EvalRPN(rpn, eval) == Err(ResultCount(Height(rpn, |rpn|)))
  {
    ExecFault(rpn, 0, [], eval);
    assert rpn[0..] == rpn;
    if NoFault(rpn, |rpn|, eval) {
      HeightKept(rpn, |rpn|, eval);
    }
    var r := Exec(rpn, [], eval);
    if r.Err? {
      var i :| FaultAt(rpn, i, eval, r.error);
      forall k, e | FaultAt(rpn, k, eval, e)
        ensures k == i && e == r.error
      {
      }
    }
  }
}
