/** Which token lists are written forms of conditions: conditions on neighbours and on the nesting, which can be checked
    in one pass over the list. */
module Grammar {
  import opened Logic
  import opened ShuntingYard

  /** Tokens that may begin a condition. */
  predicate Begins(t: Token) { t.Operand? || t == LeftParen || t == Not }

  /** Tokens that may end one. */
  predicate Ends(t: Token) { t.Operand? || t == RightParen }

  predicate Follows(t: Token, next: Token) {
    if Ends(t) then next == And || next == Or || next == RightParen else Begins(next)
  }

  /** How deep the list is nested after its first `k` tokens. */
  function Height(ts: seq<Token>, k: nat): int
    requires k <= |ts|
  {
    if k == 0 then 0 else Height(ts, k - 1) + Nesting(ts[k - 1])
  }

  predicate Balanced(ts: seq<Token>) {
    (forall k :: 0 <= k <= |ts| ==> Height(ts, k) >= 0) && Height(ts, |ts|) == 0
  }

  predicate Chained(ts: seq<Token>) {
    forall i :: 0 <= i < |ts| - 1 ==> Follows(ts[i], ts[i + 1])
  }

  predicate Grammatical(ts: seq<Token>) {
    ts != [] && Begins(ts[0]) && Ends(ts[|ts| - 1]) && Chained(ts) && Balanced(ts)
  }

  lemma {:induction false} HeightConcat(a: seq<Token>, b: seq<Token>, k: nat)
    requires k <= |a| + |b|
    ensures Height(a + b, k) == if k <= |a| then Height(a, k) else Height(a, |a|) + Height(b, k - |a|)
  {
    if k > 0 {
      HeightConcat(a, b, k - 1);
    }
  }

  lemma {:induction false} HeightPrefix(ts: seq<Token>, n: nat, k: nat)
    requires k <= n <= |ts|
    ensures Height(ts[..n], k) == Height(ts, k)
  {
    if k > 0 {
      HeightPrefix(ts, n, k - 1);
    }
  }

  /** Heights within a suffix count from its start. */
  lemma {:induction false} HeightSuffix(ts: seq<Token>, i: nat, k: nat)
    requires i + k <= |ts|
    ensures Height(ts[i..], k) == Height(ts, i + k) - Height(ts, i)
  {
    if k > 0 {
      HeightSuffix(ts, i, k - 1);
    }
  }

  // ----- Written forms are grammatical -----

  lemma BalancedConcat(a: seq<Token>, b: seq<Token>)
    requires Balanced(a) && Balanced(b)
    ensures Balanced(a + b)
  {
    forall k | 0 <= k <= |a + b|
      ensures Height(a + b, k) >= 0
    {
      HeightConcat(a, b, k);
    }
    HeightConcat(a, b, |a + b|);
  }

  lemma BalancedOne(t: Token)
    requires Nesting(t) == 0
    ensures Balanced([t])
  {
    assert forall k :: 0 <= k <= 1 ==> Height([t], k) == 0;
  }

  lemma BalancedGroup(a: seq<Token>)
    requires Balanced(a)
    ensures Balanced([LeftParen] + a + [RightParen])
  {
    var ts := [LeftParen] + a + [RightParen];
    forall k | 0 <= k <= |ts|
      ensures Height(ts, k) == if k == 0 || k == |ts| then 0 else Height(a, k - 1) + 1
    {
      HeightConcat([LeftParen] + a, [RightParen], k);
      if k <= |a| + 1 {
        HeightConcat([LeftParen], a, k);
      } else {
        HeightConcat([LeftParen], a, |a| + 1);
      }
    }
  }

  lemma ChainedConcat(a: seq<Token>, b: seq<Token>)
    requires Chained(a) && Chained(b) && a != [] && b != [] && Follows(a[|a| - 1], b[0])
    ensures Chained(a + b)
  {
  }

  lemma {:induction false} InfixGrammatical(s: Syntax)
    ensures Grammatical(Infix(s))
  {
    match s
    case Atom(text) => BalancedOne(Operand(text));
    case Group(g) =>
      InfixGrammatical(g);
      BalancedGroup(Infix(g));
      ChainedConcat([LeftParen], Infix(g));
      ChainedConcat([LeftParen] + Infix(g), [RightParen]);
    case NotOf(a) =>
      InfixGrammatical(a);
      BalancedOne(Not);
      BalancedConcat([Not], Infix(a));
      ChainedConcat([Not], Infix(a));
    case AndOf(l, r) =>
      InfixGrammatical(l);
      InfixGrammatical(r);
      JoinedGrammatical(Infix(l), And, Infix(r));
    case OrOf(l, r) =>
      InfixGrammatical(l);
      InfixGrammatical(r);
      JoinedGrammatical(Infix(l), Or, Infix(r));
  }

  lemma JoinedGrammatical(a: seq<Token>, op: Token, b: seq<Token>)
    requires Grammatical(a) && Grammatical(b) && (op == And || op == Or)
    ensures Grammatical(a + [op] + b)
  {
    BalancedOne(op);
    BalancedConcat(a, [op]);
    BalancedConcat(a + [op], b);
    ChainedConcat(a, [op]);
    ChainedConcat(a + [op], b);
  }

  // ----- Grammatical lists are written forms -----

  /** An operator outside all parentheses. */
  predicate Outer(ts: seq<Token>, op: Token, k: int) {
    0 <= k < |ts| && ts[k] == op && Height(ts, k) == 0
  }

  predicate NoOuter(ts: seq<Token>, op: Token) {
    forall k :: 0 <= k < |ts| ==> !Outer(ts, op, k)
  }

  /** The last outer occurrence of an operator among the first `n` tokens. */
  lemma {:induction false} LastOuter(ts: seq<Token>, op: Token, n: nat) returns (k: nat)
    requires n <= |ts| && exists j :: 0 <= j < n && Outer(ts, op, j)
    ensures k < n && Outer(ts, op, k) && forall j :: k < j < n ==> !Outer(ts, op, j)
  {
    if Outer(ts, op, n - 1) {
      k := n - 1;
    } else {
      k := LastOuter(ts, op, n - 1);
    }
  }

  lemma PrefixBalanced(ts: seq<Token>, k: nat)
    requires Balanced(ts) && k <= |ts| && Height(ts, k) == 0
    ensures Balanced(ts[..k])
  {
    var left := ts[..k];
    forall j | 0 <= j <= k
      ensures Height(left, j) == Height(ts, j)
    {
      HeightPrefix(ts, k, j);
    }
  }

  lemma SuffixBalanced(ts: seq<Token>, k: nat)
    requires Balanced(ts) && k <= |ts| && Height(ts, k) == 0
    ensures Balanced(ts[k..])
  {
    var right := ts[k..];
    forall j | 0 <= j <= |right|
      ensures Height(right, j) == Height(ts, k + j)
    {
      HeightSuffix(ts, k, j);
    }
  }

  /** Both sides of an outer operator are grammatical. */
  lemma SplitGrammatical(ts: seq<Token>, op: Token, k: nat)
    requires Grammatical(ts) && (op == And || op == Or) && Outer(ts, op, k)
    ensures 0 < k < |ts| - 1 && Grammatical(ts[..k]) && Grammatical(ts[k + 1..])
    ensures ts == ts[..k] + [op] + ts[k + 1..]
  {
    assert Follows(ts[k - 1], ts[k]) && Follows(ts[k], ts[k + 1]);
    PrefixBalanced(ts, k);
    assert Height(ts, k + 1) == 0;
    SuffixBalanced(ts, k + 1);
  }

  lemma LeftNoOuter(ts: seq<Token>, k: nat, op: Token)
    requires k <= |ts| && NoOuter(ts, op)
    ensures NoOuter(ts[..k], op)
  {
    var left := ts[..k];
    forall j | 0 <= j < k
      ensures !Outer(left, op, j)
    {
      HeightPrefix(ts, k, j);
      assert !Outer(ts, op, j);
    }
  }

  lemma RightNoOuter(ts: seq<Token>, k: nat, op: Token)
    requires k <= |ts| && Height(ts, k) == 0 && forall j :: k <= j < |ts| ==> !Outer(ts, op, j)
    ensures NoOuter(ts[k..], op)
  {
    var right := ts[k..];
    forall j | 0 <= j < |right|
      ensures !Outer(right, op, j)
    {
      HeightSuffix(ts, k, j);
      assert !Outer(ts, op, k + j);
    }
  }

  lemma RestGrammatical(ts: seq<Token>)
    requires Grammatical(ts) && ts[0] == Not
    ensures |ts| > 1 && Grammatical(ts[1..]) && ts == [Not] + ts[1..] && Height(ts, 1) == 0
  {
    assert Follows(ts[0], ts[1]);
    assert Height(ts, 1) == 0;
    SuffixBalanced(ts, 1);
  }

  /** Without outer operators, what ends a part at the outer level ends the list. */
  lemma NothingAfter(ts: seq<Token>, k: nat)
    requires Grammatical(ts) && NoOuter(ts, And) && NoOuter(ts, Or) && 0 < k < |ts| && Ends(ts[k - 1])
    ensures Height(ts, k) != 0
  {
    assert Follows(ts[k - 1], ts[k]);
    assert !Outer(ts, And, k) && !Outer(ts, Or, k);
    assert Height(ts, k + 1) >= 0;
  }

  lemma OperandAlone(ts: seq<Token>)
    requires Grammatical(ts) && ts[0].Operand? && NoOuter(ts, And) && NoOuter(ts, Or)
    ensures |ts| == 1
  {
    if |ts| > 1 {
      NothingAfter(ts, 1);
    }
  }

  /** The parenthesis that opens at the start closes at the end. */
  lemma {:induction false} OpenUntilEnd(ts: seq<Token>, k: nat)
    requires Grammatical(ts) && ts[0] == LeftParen && NoOuter(ts, And) && NoOuter(ts, Or) && 1 <= k < |ts|
    ensures Height(ts, k) >= 1
  {
    if k == 1 {
      assert Height(ts, 0) == 0;
    } else {
      OpenUntilEnd(ts, k - 1);
      if Ends(ts[k - 1]) {
        NothingAfter(ts, k);
      }
    }
  }

  lemma InnerGrammatical(ts: seq<Token>)
    requires Grammatical(ts) && ts[0] == LeftParen && NoOuter(ts, And) && NoOuter(ts, Or)
    ensures |ts| >= 3 && Grammatical(ts[1..|ts| - 1]) && ts == [LeftParen] + ts[1..|ts| - 1] + [RightParen]
  {
    var n := |ts|;
    assert Follows(ts[0], ts[1]) && Height(ts, 0) == 0 && Height(ts, 1) == 1;
    OpenUntilEnd(ts, n - 1);
    assert ts[n - 1] == RightParen && Height(ts, n - 1) == 1;
    assert Follows(ts[n - 2], ts[n - 1]);
    var inner := ts[1..n - 1];
    forall j | 0 <= j <= n - 2
      ensures Height(inner, j) == Height(ts, j + 1) - 1 && Height(inner, j) >= 0
    {
      HeightInside(ts, j);
      OpenUntilEnd(ts, j + 1);
    }
  }

  lemma HeightInside(ts: seq<Token>, j: nat)
    requires |ts| >= 2 && j <= |ts| - 2 && ts[0] == LeftParen
    ensures Height(ts[1..|ts| - 1], j) == Height(ts, j + 1) - 1
  {
    assert ts[1..|ts| - 1] == ts[1..][..|ts| - 2];
    HeightPrefix(ts[1..], |ts| - 2, j);
    HeightSuffix(ts, 1, j);
    assert Height(ts, 0) == 0 && Height(ts, 1) == 1;
  }

  /** What is built binds as strongly as the outer operators of the list allow. */
  predicate Binds(s: Syntax, ts: seq<Token>) {
    && (NoOuter(ts, Or) ==> Level(s) >= 2)
    && (NoOuter(ts, Or) && NoOuter(ts, And) ==> Level(s) >= 3)
  }

  /** A grammatical list is the written form of some well-formed condition. */
  lemma {:induction false} Build(ts: seq<Token>) returns (s: Syntax)
    requires Grammatical(ts)
    ensures WellFormed(s) && Infix(s) == ts && Binds(s, ts)
    decreases |ts|
  {
    if !NoOuter(ts, Or) {
      s := BuildOr(ts);
    } else if !NoOuter(ts, And) {
      s := BuildAnd(ts);
    } else if ts[0] == Not {
      RestGrammatical(ts);
      RightNoOuter(ts, 1, Or);
      RightNoOuter(ts, 1, And);
      var a := Build(ts[1..]);
      s := NotOf(a);
    } else if ts[0].Operand? {
      OperandAlone(ts);
      s := Atom(ts[0].text);
    } else {
      InnerGrammatical(ts);
      var g := Build(ts[1..|ts| - 1]);
      s := Group(g);
    }
  }

  lemma {:induction false} BuildOr(ts: seq<Token>) returns (s: Syntax)
    requires Grammatical(ts) && !NoOuter(ts, Or)
    ensures WellFormed(s) && Infix(s) == ts
    decreases |ts|, 0
  {
    var k := LastOuter(ts, Or, |ts|);
    SplitGrammatical(ts, Or, k);
    assert NoOuter(ts[k + 1..], Or) by {
      assert Height(ts, k + 1) == 0;
      RightNoOuter(ts, k + 1, Or);
    }
    var l := Build(ts[..k]);
    var r := Build(ts[k + 1..]);
    s := OrOf(l, r);
  }

  lemma {:induction false} BuildAnd(ts: seq<Token>) returns (s: Syntax)
    requires Grammatical(ts) && NoOuter(ts, Or) && !NoOuter(ts, And)
    ensures WellFormed(s) && Infix(s) == ts && Level(s) >= 2
    decreases |ts|, 0
  {
    var k := LastOuter(ts, And, |ts|);
    SplitGrammatical(ts, And, k);
    LeftNoOuter(ts, k, Or);
    assert NoOuter(ts[k + 1..], And) && NoOuter(ts[k + 1..], Or) by {
      assert Height(ts, k + 1) == 0;
      RightNoOuter(ts, k + 1, And);
      RightNoOuter(ts, k + 1, Or);
    }
    var l := Build(ts[..k]);
    var r := Build(ts[k + 1..]);
    s := AndOf(l, r);
  }

  ghost predicate InGrammar(ts: seq<Token>) {
    exists s :: WellFormed(s) && Infix(s) == ts
  }

  /** A token list is the written form of a condition exactly when it is grammatical. */
  lemma GrammarExact(ts: seq<Token>)
    ensures InGrammar(ts) <==> Grammatical(ts)
  {
    if InGrammar(ts) {
      var s :| WellFormed(s) && Infix(s) == ts;
      InfixGrammatical(s);
    }
    if Grammatical(ts) {
      var s := Build(ts);
    }
  }
}
