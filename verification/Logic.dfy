/** Values, tokens and syntax trees of logical conditions, and what a tree means.
    The meaning is stated over a three-point truth order, independently of the
    case tables of `applyLogicalOperator`. */
module Logic {

  datatype Option<+T> = None | Some(value: T)

  lemma Assoc<T>(a: seq<T>, b: seq<T>, c: seq<T>)
    ensures a + b + c == a + (b + c)
  {
  }

  lemma TakeOneMore<T>(s: seq<T>, n: nat)
    requires 0 < n <= |s|
    ensures s[..n] == s[..n - 1] + [s[n - 1]]
  {
  }

  datatype Result<+T, +E> = Ok(value: T) | Err(error: E)

  /** Values a variable or an operand can take. */
  datatype Value =
    | Null
    | Bool(b: bool)
    | Number(n: real)
    | Str(s: string)
    | List(items: seq<Value>)
    | Object(fields: map<string, Value>)

  datatype Token = Operand(text: string) | And | Or | Not | LeftParen | RightParen

  /** A condition after parsing. */
  datatype Tree = Leaf(text: string) | Neg(arg: Tree) | Conj(left: Tree, right: Tree) | Disj(left: Tree, right: Tree)

  /** How operands are evaluated: kept abstract, may fail. */
  type OperandEval = string -> Result<Value, string>

  // ----- Truth order: false < null < true -----

  type Rank = r: int | 0 <= r <= 2 witness 0

  function RankOf(v: Value): Rank {
    match v
    case Null => 1
    case Bool(b) => if b then 2 else 0
    case Number(n) => if n != 0.0 then 2 else 0
    case Str(s) => if s != "" then 2 else 0
    case List(_) => 2
    case Object(_) => 2
  }

  function FromRank(r: Rank): Value {
    if r == 0 then Bool(false) else if r == 1 then Null else Bool(true)
  }

  function Min(a: Rank, b: Rank): Rank { if a <= b then a else b }

  function Max(a: Rank, b: Rank): Rank { if a <= b then b else a }

  /** Every operand of the tree evaluates. */
  predicate Evaluable(t: Tree, eval: OperandEval) {
    match t
    case Leaf(text) => eval(text).Ok?
    case Neg(a) => Evaluable(a, eval)
    case Conj(l, r) => Evaluable(l, eval) && Evaluable(r, eval)
    case Disj(l, r) => Evaluable(l, eval) && Evaluable(r, eval)
  }

  /** The value of a condition: negation reverses the truth order,
      conjunction is the minimum and disjunction the maximum. */
  function Meaning(t: Tree, eval: OperandEval): Value
    requires Evaluable(t, eval)
  {
    match t
    case Leaf(text) => eval(text).value
    case Neg(a) => FromRank(2 - RankOf(Meaning(a, eval)))
    case Conj(l, r) => FromRank(Min(RankOf(Meaning(l, eval)), RankOf(Meaning(r, eval))))
    case Disj(l, r) => FromRank(Max(RankOf(Meaning(l, eval)), RankOf(Meaning(r, eval))))
  }

  /** The tree in postfix order. */
  function Postorder(t: Tree): (p: seq<Token>)
    ensures p != []
  {
    match t
    case Leaf(text) => [Operand(text)]
    case Neg(a) => Postorder(a) + [Not]
    case Conj(l, r) => Postorder(l) + Postorder(r) + [And]
    case Disj(l, r) => Postorder(l) + Postorder(r) + [Or]
  }

  // ----- Concrete syntax: a tree together with its parentheses -----

  datatype Syntax =
    | Atom(text: string)
    | Group(inner: Syntax)
    | NotOf(arg: Syntax)
    | AndOf(left: Syntax, right: Syntax)
    | OrOf(left: Syntax, right: Syntax)

  function Level(s: Syntax): nat {
    match s
    case Atom(_) => 4
    case Group(_) => 4
    case NotOf(_) => 3
    case AndOf(_, _) => 2
    case OrOf(_, _) => 1
  }

  /** The parentheses present are enough: `not` binds tighter than `and`, `and` tighter
      than `or`; `and` and `or` associate to the left and `not` to the right. */
  predicate WellFormed(s: Syntax) {
    match s
    case Atom(_) => true
    case Group(g) => WellFormed(g)
    case NotOf(a) => WellFormed(a) && Level(a) >= 3
    case AndOf(l, r) => WellFormed(l) && WellFormed(r) && Level(l) >= 2 && Level(r) >= 3
    case OrOf(l, r) => WellFormed(l) && WellFormed(r) && Level(l) >= 1 && Level(r) >= 2
  }

  function Infix(s: Syntax): (ts: seq<Token>)
    ensures ts != []
  {
    match s
    case Atom(text) => [Operand(text)]
    case Group(g) => [LeftParen] + Infix(g) + [RightParen]
    case NotOf(a) => [Not] + Infix(a)
    case AndOf(l, r) => Infix(l) + [And] + Infix(r)
    case OrOf(l, r) => Infix(l) + [Or] + Infix(r)
  }

  /** The tree under the parentheses. */
  function Erase(s: Syntax): Tree {
    match s
    case Atom(text) => Leaf(text)
    case Group(g) => Erase(g)
    case NotOf(a) => Neg(Erase(a))
    case AndOf(l, r) => Conj(Erase(l), Erase(r))
    case OrOf(l, r) => Disj(Erase(l), Erase(r))
  }

  /** Parentheses only where the binding strength asks for them. */
  function Protect(s: Syntax, level: nat): Syntax {
    if Level(s) >= level then s else Group(s)
  }

  /** The tree printed with as few parentheses as possible. */
  function Minimal(t: Tree): Syntax {
    match t
    case Leaf(text) => Atom(text)
    case Neg(a) => NotOf(Protect(Minimal(a), 3))
    case Conj(l, r) => AndOf(Protect(Minimal(l), 2), Protect(Minimal(r), 3))
    case Disj(l, r) => OrOf(Protect(Minimal(l), 1), Protect(Minimal(r), 2))
  }

  /** Every tree has a well-formed concrete syntax, so results about well-formed syntax cover all trees. */
  lemma {:induction false} MinimalIsWellFormed(t: Tree)
    ensures WellFormed(Minimal(t)) && Erase(Minimal(t)) == t
  {
    match t
    case Leaf(_) =>
    case Neg(a) => MinimalIsWellFormed(a);
    case Conj(l, r) => MinimalIsWellFormed(l); MinimalIsWellFormed(r);
    case Disj(l, r) => MinimalIsWellFormed(l); MinimalIsWellFormed(r);
  }

  /** Pairs of parentheses. */
  function Groups(s: Syntax): nat {
    match s
    case Atom(_) => 0
    case Group(g) => Groups(g) + 1
    case NotOf(a) => Groups(a)
    case AndOf(l, r) => Groups(l) + Groups(r)
    case OrOf(l, r) => Groups(l) + Groups(r)
  }

  /** Below its root, a part that binds strongly enough has no more parentheses when it is printed minimally. */
  lemma ProtectIsFewest(s: Syntax, level: nat)
    requires Level(s) >= level && level <= 3 && Groups(Minimal(Erase(s))) <= Groups(s)
    requires s.Group? ==> Groups(Minimal(Erase(s))) < Groups(s)
    ensures Groups(Protect(Minimal(Erase(s)), level)) <= Groups(s)
  {
  }

  /** No well-formed way of writing a tree has fewer parentheses than the minimal one. */
  lemma {:induction false} MinimalIsFewest(s: Syntax)
    requires WellFormed(s)
    ensures Groups(Minimal(Erase(s))) <= Groups(s)
    ensures s.Group? ==> Groups(Minimal(Erase(s))) < Groups(s)
  {
    match s
    case Atom(_) =>
    case Group(g) => MinimalIsFewest(g);
    case NotOf(a) =>
      MinimalIsFewest(a);
      ProtectIsFewest(a, 3);
    case AndOf(l, r) =>
      MinimalIsFewest(l);
      MinimalIsFewest(r);
      ProtectIsFewest(l, 2);
      ProtectIsFewest(r, 3);
    case OrOf(l, r) =>
      MinimalIsFewest(l);
      MinimalIsFewest(r);
      ProtectIsFewest(l, 1);
      ProtectIsFewest(r, 2);
  }
}
