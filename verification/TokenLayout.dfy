/** Printing tokens as text, and reading them back with the tokenizer. */
module TokenLayout {
  import opened Logic
  import opened Text
  import opened Tokenizer

  function Spelling(t: Token): string {
    match t
    case Operand(text) => text
    case And => "and"
    case Or => "or"
    case Not => "not"
    case LeftParen => "("
    case RightParen => ")"
  }

  /** Every token followed by as many spaces as `gaps` says. */
  function Layout(tokens: seq<Token>, gaps: seq<nat>): string
    requires |gaps| == |tokens|
  {
    if tokens == [] then ""
    else Spelling(tokens[0]) + (Spaces(gaps[0]) + Layout(tokens[1..], gaps[1..]))
  }

  /** From `depth` parentheses deep, `w` closes all of them and shows no `and` or `or` outside them. */
  predicate Closed(w: string, depth: nat) {
    if w == "" then depth == 0
    else if w[0] == '(' then Closed(w[1..], depth + 1)
    else if w[0] == ')' then depth > 0 && Closed(w[1..], depth - 1)
    else (depth == 0 ==> !AtOperator(w + " ")) && Closed(w[1..], depth)
  }

  /** The texts that can stand as one operand of a larger condition. */
  predicate OperandOk(w: string) {
    && w != "" && Trimmed(w)
    && w[0] != '('
    && !StartsNot(w + " ") && !HasPrefix(w + " ", "and ") && !HasPrefix(w + " ", "or ")
    && Closed(w, 0)
  }

  /** Spaces needed between a token and the one after it (`None` at the end of the text). */
  predicate GapOk(t: Token, gap: nat, next: Option<Token>) {
    match t
    case And => gap >= 1
    case Or => gap >= 1
    case Not => gap >= 1 || next == Some(LeftParen)
    case Operand(_) => next == Some(And) || next == Some(Or) ==> gap >= 1
    case _ => true
  }

  /** Operands are never followed directly by something an operand would absorb. */
  predicate NextOk(t: Token, next: Option<Token>) {
    t.Operand? ==> next in {None, Some(And), Some(Or), Some(RightParen)}
  }

  function Next(tokens: seq<Token>, i: nat): Option<Token>
    requires i < |tokens|
  {
    if i + 1 < |tokens| then Some(tokens[i + 1]) else None
  }

  predicate OperandsOk(tokens: seq<Token>) {
    forall i :: 0 <= i < |tokens| && tokens[i].Operand? ==> OperandOk(tokens[i].text)
  }

  predicate SpacingOk(tokens: seq<Token>, gaps: seq<nat>) {
    && |gaps| == |tokens|
    && forall i :: 0 <= i < |tokens| ==> GapOk(tokens[i], gaps[i], Next(tokens, i))
  }

  predicate OrderOk(tokens: seq<Token>) {
    forall i :: 0 <= i < |tokens| ==> NextOk(tokens[i], Next(tokens, i))
  }

  // ----- The tokenizer inverts the layout -----

  /** What may stand right after the text of an operand. */
  predicate Boundary(tail: string) {
    tail != "" ==> tail[0] == ' ' || tail[0] == ')'
  }

  /** `p` has at most one blank or closing parenthesis, a blank at its end. */
  predicate Keyword(p: string) {
    forall i :: 1 <= i < |p| && (p[i] == ' ' || p[i] == ')') ==> i == |p| - 1 && p[i] == ' '
  }

  /** A keyword cannot lie across the end of an operand, except for its final blank. */
  lemma KeywordInside(w: string, tail: string, p: string)
    requires w != "" && Boundary(tail) && Keyword(p) && HasPrefix(w + tail, p)
    ensures HasPrefix(w + " ", p)
  {
    var s := w + tail;
    assert forall i :: 0 <= i < |p| ==> p[i] == s[i];
    if |w| < |p| {
      assert p[|w|] == tail[0];
    }
    assert forall i :: 0 <= i < |p| ==> (w + " ")[i] == p[i];
  }

  lemma OnlyOwnOperators(w: string, tail: string)
    requires w != "" && Boundary(tail) && !AtOperator(w + " ")
    ensures !AtOperator(w + tail)
  {
    if HasPrefix(w + tail, " and ") {
      KeywordInside(w, tail, " and ");
    } else if HasPrefix(w + tail, " or ") {
      KeywordInside(w, tail, " or ");
    }
  }

  lemma {:induction false} ScansOperand(w: string, tail: string, depth: nat)
    requires Closed(w, depth) && Boundary(tail)
    ensures OperandLength(w + tail, depth) == |w| + OperandLength(tail, 0)
    decreases |w|
  {
    if w == "" {
      assert w + tail == tail;
    } else {
      assert (w + tail)[1..] == w[1..] + tail;
      if w[0] == '(' {
        ScansOperand(w[1..], tail, depth + 1);
      } else if w[0] == ')' {
        ScansOperand(w[1..], tail, depth - 1);
      } else {
        ScansOperand(w[1..], tail, depth);
        if depth == 0 {
          OnlyOwnOperators(w, tail);
        }
      }
    }
  }

  /** An operand swallows the spaces after it, except the one that belongs to ` and ` or ` or `. */
  lemma OperatorAfterSpace(rest: string)
    requires HasPrefix(rest, "and ") || HasPrefix(rest, "or ")
    ensures AtOperator(" " + rest)
  {
  }

  lemma {:induction false} ScansGap(g: nat, rest: string)
    requires EndsOperand(g, rest)
    ensures OperandLength(Spaces(g) + rest, 0) == if rest == "" || rest[0] == ')' then g else g - 1
    decreases g
  {
    var s := Spaces(g) + rest;
    if g == 0 {
      assert s == rest;
    } else {
      assert s[1..] == Spaces(g - 1) + rest;
      if g == 1 && !(rest == "" || rest[0] == ')') {
        OperatorAfterSpace(rest);
        assert s == " " + rest;
      } else {
        assert s[0] == ' ' && (|s| > 1 ==> s[1] == ' ' || s[1] == ')');
        assert !AtOperator(s);
        ScansGap(g - 1, rest);
      }
    }
  }

  lemma {:induction false} LexSkipsSpaces(g: nat, rest: string)
    ensures Lex(Spaces(g) + rest) == Lex(rest)
    decreases g
  {
    if g == 0 {
      assert Spaces(g) + rest == rest;
    } else {
      assert (Spaces(g) + rest)[1..] == Spaces(g - 1) + rest;
      LexSkipsSpaces(g - 1, rest);
    }
  }

  predicate StartsKeyword(s: string) {
    StartsNot(s) || HasPrefix(s, "and ") || HasPrefix(s, "or ")
  }

  lemma OnlyOwnKeywords(w: string, tail: string)
    requires w != "" && Boundary(tail) && !StartsKeyword(w + " ")
    ensures !StartsKeyword(w + tail)
  {
    if HasPrefix(w + tail, "not ") {
      KeywordInside(w, tail, "not ");
    } else if HasPrefix(w + tail, "not(") {
      KeywordInside(w, tail, "not(");
    } else if HasPrefix(w + tail, "and ") {
      KeywordInside(w, tail, "and ");
    } else if HasPrefix(w + tail, "or ") {
      KeywordInside(w, tail, "or ");
    }
  }

  lemma LexAtOperand(s: string, n: nat, w: string)
    requires s != "" && s[0] != ' ' && s[0] != '(' && s[0] != ')' && !StartsKeyword(s)
    requires n == OperandLength(s, 0) && TrimSpace(s[..n]) == w && w != ""
    ensures Lex(s) == [Operand(w)] + Lex(s[n..])
  {
  }

  predicate EndsOperand(g: nat, rest: string) {
    rest == "" || rest[0] == ')' || (g >= 1 && (HasPrefix(rest, "and ") || HasPrefix(rest, "or ")))
  }

  lemma OperandTrimmed(w: string, g: nat, rest: string, taken: nat)
    requires Trimmed(w) && taken <= g
    ensures TrimSpace((w + (Spaces(g) + rest))[..|w| + taken]) == w
  {
    assert (w + (Spaces(g) + rest))[..|w| + taken] == "" + w + Spaces(taken);
    TrimPadded("", w, Spaces(taken));
  }

  lemma LexFirstOperand(w: string, tail: string, n: nat)
    requires OperandOk(w) && Boundary(tail)
    requires n == |w| + OperandLength(tail, 0) && TrimSpace((w + tail)[..n]) == w
    ensures Lex(w + tail) == [Operand(w)] + Lex((w + tail)[n..])
  {
    ScansOperand(w, tail, 0);
    OnlyOwnKeywords(w, tail);
    LexAtOperand(w + tail, n, w);
  }

  lemma AfterOperand(w: string, g: nat, rest: string, taken: nat)
    requires taken <= g
    ensures Lex((w + (Spaces(g) + rest))[|w| + taken..]) == Lex(rest)
  {
    assert (w + (Spaces(g) + rest))[|w| + taken..] == Spaces(g - taken) + rest;
    LexSkipsSpaces(g - taken, rest);
  }

  lemma GapIsBoundary(g: nat, rest: string)
    requires EndsOperand(g, rest)
    ensures Boundary(Spaces(g) + rest)
  {
  }

  lemma LexOperand(w: string, g: nat, rest: string)
    requires OperandOk(w) && EndsOperand(g, rest)
    ensures Lex(w + (Spaces(g) + rest)) == [Operand(w)] + Lex(rest)
  {
    var taken := OperandLength(Spaces(g) + rest, 0);
    assert taken <= g by {
      ScansGap(g, rest);
    }
    GapIsBoundary(g, rest);
    OperandTrimmed(w, g, rest, taken);
    LexFirstOperand(w, Spaces(g) + rest, |w| + taken);
    AfterOperand(w, g, rest, taken);
  }

  lemma LexAtNot(s: string)
    requires StartsNot(s)
    ensures Lex(s) == [Not] + Lex(s[3..])
  {
  }

  lemma LexAtAnd(s: string)
    requires HasPrefix(s, "and ")
    ensures Lex(s) == [And] + Lex(s[3..])
  {
  }

  lemma LexAtOr(s: string)
    requires HasPrefix(s, "or ")
    ensures Lex(s) == [Or] + Lex(s[2..])
  {
  }

  lemma LexKeyword(t: Token, g: nat, rest: string)
    requires !t.Operand?
    requires t.And? || t.Or? ==> g >= 1
    requires t.Not? ==> g >= 1 || (rest != "" && rest[0] == '(')
    ensures Lex(Spelling(t) + (Spaces(g) + rest)) == [t] + Lex(rest)
  {
    var word := Spelling(t);
    var tail := Spaces(g) + rest;
    var s := word + tail;
    assert s[|word|..] == tail && s[..|word|] == word;
    assert Lex(s) == [t] + Lex(tail) by {
      if t.And? || t.Or? || t.Not? {
        assert s[..|word| + 1] == word + [tail[0]];
      }
      match t
      case And => LexAtAnd(s);
      case Or => LexAtOr(s);
      case Not => LexAtNot(s);
      case _ =>
    }
    LexSkipsSpaces(g, rest);
  }

  lemma NextAfterFirst(tokens: seq<Token>, gaps: seq<nat>)
    requires tokens != [] && SpacingOk(tokens, gaps) && OrderOk(tokens) && OperandsOk(tokens)
    ensures SpacingOk(tokens[1..], gaps[1..]) && OrderOk(tokens[1..]) && OperandsOk(tokens[1..])
  {
  }

  /** How the text after a token begins. */
  lemma RestBegins(tokens: seq<Token>, gaps: seq<nat>)
    requires tokens != [] && SpacingOk(tokens, gaps)
    requires tokens[0] in {And, Or, LeftParen, RightParen}
    ensures var s := Layout(tokens, gaps);
      match tokens[0]
      case And => HasPrefix(s, "and ")
      case Or => HasPrefix(s, "or ")
      case LeftParen => HasPrefix(s, "(")
      case _ => HasPrefix(s, ")")
  {
  }

  /** Whatever the amount of white space, the tokenizer gives the printed tokens back. */
  lemma {:induction false} LexInvertsLayout(tokens: seq<Token>, gaps: seq<nat>)
    requires SpacingOk(tokens, gaps) && OrderOk(tokens) && OperandsOk(tokens)
    ensures Lex(Layout(tokens, gaps)) == tokens
    decreases |tokens|
  {
    if tokens != [] {
      var t, g := tokens[0], gaps[0];
      var rest := Layout(tokens[1..], gaps[1..]);
      assert GapOk(t, g, Next(tokens, 0)) && NextOk(t, Next(tokens, 0));
      NextAfterFirst(tokens, gaps);
      LexInvertsLayout(tokens[1..], gaps[1..]);
      assert tokens == [t] + tokens[1..];
      if |tokens| > 1 && tokens[1] in {And, Or, LeftParen, RightParen} {
        RestBegins(tokens[1..], gaps[1..]);
      }
      if t.Operand? {
        LexOperand(t.text, g, rest);
      } else {
        LexKeyword(t, g, rest);
      }
    }
  }

  // ----- The operand conditions are exactly what the tokenizer needs -----

  lemma {:induction false} ScannedMeansClosed(w: string, depth: nat)
    requires |w| <= OperandLength(w + " and x", depth) <= |w| + 1
    ensures Closed(w, depth)
    decreases |w|
  {
    var s := w + " and x";
    if w == "" {
      assert s == " and x" && s[..5] == " and ";
      assert s[1..] == "and x";
    } else {
      assert s[1..] == w[1..] + " and x";
      if w[0] == '(' {
        ScannedMeansClosed(w[1..], depth + 1);
      } else if w[0] == ')' {
        ScannedMeansClosed(w[1..], depth - 1);
      } else {
        ScannedMeansClosed(w[1..], depth);
        assert w + " " <= s;
      }
    }
  }

  /** A text is read back as the left operand of an `and` exactly when it meets the operand conditions. */
  lemma OperandExactness(w: string)
    ensures Tokens(w + " and x") == Ok([Operand(w), And, Operand("x")]) <==> OperandOk(w)
  {
    if OperandOk(w) {
      var tokens, gaps := [Operand(w), And, Operand("x")], [1, 1, 0];
      OperandSpelled(w);
      assert OperandOk("x") by {
        assert "x" + " " == "x " && "x"[1..] == "";
      }
      assert Next(tokens, 0) == Some(And) && Next(tokens, 2) == None;
      LexInvertsLayout(tokens, gaps);
      TrimNothing(w + " and x");
    }
    if Tokens(w + " and x") == Ok([Operand(w), And, Operand("x")]) {
      OperandNecessary(w);
    }
  }

  lemma OperandSpelled(w: string)
    ensures Layout([Operand(w), And, Operand("x")], [1, 1, 0]) == w + " and x"
  {
    var tokens, gaps := [Operand(w), And, Operand("x")], [1, 1, 0];
    assert Spaces(1) == " " && Spaces(0) == "";
    assert Layout(tokens[2..], gaps[2..]) == "x";
    assert Layout(tokens[1..], gaps[1..]) == "and x";
  }

  lemma OperandNecessary(w: string)
    requires Lex(TrimSpace(w + " and x")) == [Operand(w), And, Operand("x")]
    ensures OperandOk(w)
  {
    var e := TrimSpace(w + " and x");
    var n := FirstOperand(e, w);
    assert Trimmed(w) && w != "";
    assert e == w + " and x";
    ScannedWidth(w, n);
    ScannedMeansClosed(w, 0);
    NoKeywordFirst(w);
  }

  lemma ScannedWidth(w: string, n: nat)
    requires n <= |w + " and x"| && TrimSpace((w + " and x")[..n]) == w && w != "" && Trimmed(w)
    ensures |w| <= n <= |w| + 1
  {
  }

  lemma NoKeywordFirst(w: string)
    requires !StartsKeyword(w + " and x")
    ensures !StartsNot(w + " ") && !HasPrefix(w + " ", "and ") && !HasPrefix(w + " ", "or ")
  {
  }

  /** When the first token is an operand, it is what the operand scan of the text without leading blanks found. */
  lemma FirstOperand(e: string, w: string) returns (n: nat)
    requires Trimmed(e) && Lex(e) != [] && Lex(e)[0] == Operand(w)
    ensures e != "" && e[0] != ' ' && e[0] != '(' && e[0] != ')' && !StartsKeyword(e)
    ensures n == OperandLength(e, 0) && TrimSpace(e[..n]) == w && w != ""
  {
    n := OperandLength(e, 0);
    var left, right := TrimSplits(e[..n]);
  }
}
