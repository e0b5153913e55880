/** `tokenizeLogicalExpression`: splitting the text of a condition into tokens. */
module Tokenizer {
  import opened Logic
  import opened Text

  datatype TokenizeError = EmptyExpression

  predicate StartsNot(s: string) { HasPrefix(s, "not ") || HasPrefix(s, "not(") }

  /** An `and` or `or` in front of which an operand ends. */
  predicate AtOperator(s: string) { HasPrefix(s, " and ") || HasPrefix(s, " or ") }

  /** Length of the operand at the start of `s`, `depth` parentheses deep. */
  function OperandLength(s: string, depth: nat): (n: nat)
    ensures n <= |s|
  {
    if s == "" then 0
    else if s[0] == '(' then 1 + OperandLength(s[1..], depth + 1)
    else if s[0] == ')' then if depth > 0 then 1 + OperandLength(s[1..], depth - 1) else 0
    else if depth == 0 && AtOperator(s) then 0
    else 1 + OperandLength(s[1..], depth)
  }

  function OperandToken(raw: string): seq<Token> {
    var operand := TrimSpace(raw);
    if operand != "" then [Operand(operand)] else []
  }

  function Lex(s: string): seq<Token>
    decreases |s|
  {
    if s == "" then []
    else if s[0] == ' ' then Lex(s[1..])
    else if s[0] == '(' then [LeftParen] + Lex(s[1..])
    else if s[0] == ')' then [RightParen] + Lex(s[1..])
    else if StartsNot(s) then [Not] + Lex(s[3..])
    else if HasPrefix(s, "and ") then [And] + Lex(s[3..])
    else if HasPrefix(s, "or ") then [Or] + Lex(s[2..])
    else
      var n := OperandLength(s, 0);
      OperandToken(s[..n]) + Lex(s[n..])
  }

  function Tokens(expr: string): Result<seq<Token>, TokenizeError> {
    var ts := Lex(TrimSpace(expr));
    if ts == [] then Err(EmptyExpression) else Ok(ts)
  }

  /** The source's scanner over an index into the trimmed text. */
  method Tokenize(expr: string) returns (r: Result<seq<Token>, TokenizeError>)
    ensures r == Tokens(expr)
  {
    var tokens: seq<Token> := [];
    var i := 0;
    var e := TrimSpace(expr);
    assert e[0..] == e;
    while i < |e|
      invariant 0 <= i <= |e|
      invariant tokens + Lex(e[i..]) == Lex(e)
    {
      ghost var start := i;
      while i < |e| && e[i] == ' '
        invariant start <= i <= |e|
        invariant Lex(e[i..]) == Lex(e[start..])
      {
        assert e[i..][1..] == e[i + 1..];
        i := i + 1;
      }
      if i < |e| {
        var found, next := ScanToken(e, i);
        Assoc(tokens, found, Lex(e[next..]));
        tokens := tokens + found;
        i := next;
      }
    }
    assert e[|e|..] == "" && tokens + [] == tokens;
    if |tokens| == 0 {
      return Err(EmptyExpression);
    }
    return Ok(tokens);
  }

  /** The body of the scanner's loop at a character that is not a space: the token there, if any. */
  method ScanToken(e: string, i: nat) returns (found: seq<Token>, next: nat)
    requires i < |e| && e[i] != ' '
    ensures i < next <= |e|
    ensures Lex(e[i..]) == found + Lex(e[next..])
  {
    ghost var s := e[i..];
    assert s[1..] == e[i + 1..];
    if e[i] == '(' {
      return [LeftParen], i + 1;
    }
    if e[i] == ')' {
      return [RightParen], i + 1;
    }
    var remaining := e[i..];
    if HasPrefix(remaining, "not ") || HasPrefix(remaining, "not(") {
      assert s[3..] == e[i + 3..];
      return [Not], i + 3;
    }
    if HasPrefix(remaining, "and ") {
      assert s[3..] == e[i + 3..];
      return [And], i + 3;
    }
    if HasPrefix(remaining, "or ") {
      assert s[2..] == e[i + 2..];
      return [Or], i + 2;
    }
    next := ScanOperand(e, i);
    var operand := TrimSpace(e[i..next]);
    found := if operand != "" then [Operand(operand)] else [];
    var n := OperandLength(s, 0);
    assert e[i..next] == s[..n] && e[next..] == s[n..];
    assert found == OperandToken(s[..n]);
  }

  /** The inner loop of the scanner: where the operand starting at `start` ends. */
  method ScanOperand(e: string, start: nat) returns (i: nat)
    requires start <= |e|
    ensures i == start + OperandLength(e[start..], 0)
  {
    i := start;
    var parenDepth: nat := 0;
    while i < |e|
      invariant start <= i <= |e|
      invariant i + OperandLength(e[i..], parenDepth) == start + OperandLength(e[start..], 0)
    {
      assert e[i..][1..] == e[i + 1..];
      if e[i] == '(' {
        parenDepth := parenDepth + 1;
        i := i + 1;
        continue;
      }
      if e[i] == ')' {
        if parenDepth > 0 {
          parenDepth := parenDepth - 1;
          i := i + 1;
          continue;
        }
        break;
      }
      if parenDepth == 0 && (HasPrefix(e[i..], " and ") || HasPrefix(e[i..], " or ")) {
        break;
      }
      i := i + 1;
    }
  }
}
