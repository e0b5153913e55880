/** Laws of the three-valued conditions: null only ever withholds an answer, chains may be
    regrouped and reordered, and negation may be pushed to the operands. */
module NullLogic {
  import opened Logic

  // ----- Null is absence of information -----

  /** `known` says no less than `v`: it may fill in a null and changes nothing else. */
  predicate InformedBy(v: Value, known: Value) {
    v == Null || v == known
  }

  predicate Informs(eval: OperandEval, better: OperandEval, t: Tree) {
    match t
    case Leaf(text) => eval(text).Ok? && better(text).Ok? && InformedBy(eval(text).value, better(text).value)
    case Neg(a) => Informs(eval, better, a)
    case Conj(l, r) => Informs(eval, better, l) && Informs(eval, better, r)
    case Disj(l, r) => Informs(eval, better, l) && Informs(eval, better, r)
  }

  /** Replacing null operands by values never changes a result that was not null. */
  lemma {:induction false} NullMonotonicity(t: Tree, eval: OperandEval, better: OperandEval)
    requires Informs(eval, better, t)
    ensures Evaluable(t, eval) && Evaluable(t, better)
    ensures InformedBy(Meaning(t, eval), Meaning(t, better))
  {
    match t
    case Leaf(_) =>
    case Neg(a) => NullMonotonicity(a, eval, better);
    case Conj(l, r) => NullMonotonicity(l, eval, better); NullMonotonicity(r, eval, better);
    case Disj(l, r) => NullMonotonicity(l, eval, better); NullMonotonicity(r, eval, better);
  }

  // ----- Chains of one operator -----

  function Conjuncts(t: Tree): (cs: set<Tree>)
    ensures cs != {}
  {
    if t.Conj? then Conjuncts(t.left) + Conjuncts(t.right) else {t}
  }

  function Disjuncts(t: Tree): (ds: set<Tree>)
    ensures ds != {}
  {
    if t.Disj? then Disjuncts(t.left) + Disjuncts(t.right) else {t}
  }

  /** An `and` chain is worth its least conjunct. */
  lemma {:induction false} ConjunctionIsLeast(t: Tree, eval: OperandEval)
    requires Evaluable(t, eval)
    ensures forall c :: c in Conjuncts(t) ==> Evaluable(c, eval) && RankOf(Meaning(t, eval)) <= RankOf(Meaning(c, eval))
    ensures exists c :: c in Conjuncts(t) && Evaluable(c, eval) && RankOf(Meaning(t, eval)) == RankOf(Meaning(c, eval))
  {
    if t.Conj? {
      ConjunctionIsLeast(t.left, eval);
      ConjunctionIsLeast(t.right, eval);
    } else {
      assert t in Conjuncts(t);
    }
  }

  lemma {:induction false} DisjunctionIsGreatest(t: Tree, eval: OperandEval)
    requires Evaluable(t, eval)
    ensures forall d :: d in Disjuncts(t) ==> Evaluable(d, eval) && RankOf(Meaning(t, eval)) >= RankOf(Meaning(d, eval))
    ensures exists d :: d in Disjuncts(t) && Evaluable(d, eval) && RankOf(Meaning(t, eval)) == RankOf(Meaning(d, eval))
  {
    if t.Disj? {
      DisjunctionIsGreatest(t.left, eval);
      DisjunctionIsGreatest(t.right, eval);
    } else {
      assert t in Disjuncts(t);
    }
  }

  predicate SameChain(a: Tree, b: Tree) {
    if a.Conj? then b.Conj? && Conjuncts(a) == Conjuncts(b) else a.Disj? && b.Disj? && Disjuncts(a) == Disjuncts(b)
  }

  /** Regrouping, reordering or repeating the conjuncts (or disjuncts) of a chain does not change its value. */
  lemma ChainsRegroup(a: Tree, b: Tree, eval: OperandEval)
    requires Evaluable(a, eval) && Evaluable(b, eval)
    requires SameChain(a, b)
    ensures Meaning(a, eval) == Meaning(b, eval)
  {
    if a.Conj? {
      ConjunctionsAgree(a, b, eval);
      ConjunctionsAgree(b, a, eval);
    } else {
      DisjunctionsAgree(a, b, eval);
      DisjunctionsAgree(b, a, eval);
    }
  }

  lemma ConjunctionsAgree(a: Tree, b: Tree, eval: OperandEval)
    requires Evaluable(a, eval) && Evaluable(b, eval) && Conjuncts(a) == Conjuncts(b)
    ensures RankOf(Meaning(a, eval)) <= RankOf(Meaning(b, eval))
  {
    ConjunctionIsLeast(a, eval);
    ConjunctionIsLeast(b, eval);
  }

  lemma DisjunctionsAgree(a: Tree, b: Tree, eval: OperandEval)
    requires Evaluable(a, eval) && Evaluable(b, eval) && Disjuncts(a) == Disjuncts(b)
    ensures RankOf(Meaning(a, eval)) >= RankOf(Meaning(b, eval))
  {
    DisjunctionIsGreatest(a, eval);
    DisjunctionIsGreatest(b, eval);
  }

  // ----- De Morgan -----

  /** `t`, or its negation when `negated`, with every `not` pushed down to an operand. */
  function Pushed(t: Tree, negated: bool): Tree {
    match t
    case Leaf(_) => if negated then Neg(t) else t
    case Neg(a) => Pushed(a, !negated)
    case Conj(l, r) =>
      if negated then Disj(Pushed(l, true), Pushed(r, true)) else Conj(Pushed(l, false), Pushed(r, false))
    case Disj(l, r) =>
      if negated then Conj(Pushed(l, true), Pushed(r, true)) else Disj(Pushed(l, false), Pushed(r, false))
  }

  predicate NegatesOnlyOperands(t: Tree) {
    match t
    case Leaf(_) => true
    case Neg(a) => a.Leaf?
    case Conj(l, r) => NegatesOnlyOperands(l) && NegatesOnlyOperands(r)
    case Disj(l, r) => NegatesOnlyOperands(l) && NegatesOnlyOperands(r)
  }

  /** De Morgan's laws and double negation hold with null, through the whole tree. */
  lemma {:induction false} NegationsPushDown(t: Tree, negated: bool, eval: OperandEval)
    ensures NegatesOnlyOperands(Pushed(t, negated))
    ensures Evaluable(Pushed(t, negated), eval) == Evaluable(t, eval)
    ensures Evaluable(t, eval) ==>
      var rank := RankOf(Meaning(t, eval));
      RankOf(Meaning(Pushed(t, negated), eval)) == if negated then 2 - rank else rank
  {
    match t
    case Leaf(_) =>
    case Neg(a) => NegationsPushDown(a, !negated, eval);
    case Conj(l, r) => NegationsPushDown(l, negated, eval); NegationsPushDown(r, negated, eval);
    case Disj(l, r) => NegationsPushDown(l, negated, eval); NegationsPushDown(r, negated, eval);
  }
}
