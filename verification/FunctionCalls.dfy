/** `FunctionEvaluator`: recognising and evaluating nested calls such as `add(now, duration("P1D"))`. */
module FunctionCalls {
  import opened Logic
  import opened Text
  import opened ArgumentSplitter

  datatype CallError =
    | InvalidSyntax
    | UnknownFunction(name: string)
    | ArgumentFailed(position: nat, cause: CallError)
    | ExecutionFailed(reason: string)

  /** A call can also crash: slicing a lone quote character is out of range. */
  datatype Outcome = Value(value: Value) | Failed(error: CallError) | Crashed

  /** An outcome together with the number of `EvaluateFunction` calls made to reach it. */
  datatype Trace = Trace(outcome: Outcome, calls: nat)

  type Variables = map<string, Value>

  /** The date functions themselves, kept abstract. */
  type Library = (string, seq<Value>) -> Result<Value, string>

  predicate IsLower(c: char) { 'a' <= c <= 'z' }

  /** Length of the run of lower-case letters at the start of `s`. */
  function NameLength(s: string): (n: nat)
    ensures n <= |s|
  {
    if s != "" && IsLower(s[0]) then 1 + NameLength(s[1..]) else 0
  }

  /** The regular expression of the source: lower-case name, parentheses around text without line breaks. */
  predicate MatchesCall(s: string) {
    var n := NameLength(s);
    1 <= n && n + 2 <= |s| && s[n] == '(' && s[|s| - 1] == ')' && '\n' !in s[n + 1..|s| - 1]
  }

  function CallName(s: string): string
    requires MatchesCall(s)
  {
    s[..NameLength(s)]
  }

  /** The text between the parentheses. */
  function CallText(s: string): (inner: string)
    requires MatchesCall(s)
    ensures |inner| < |s|
  {
    TrimSpace(s[NameLength(s) + 1..|s| - 1])
  }

  function CallArguments(s: string): (args: seq<string>)
    requires MatchesCall(s)
    ensures forall i :: 0 <= i < |args| ==> |args[i]| < |s|
  {
    SplitShorter(CallText(s));
    Split(CallText(s))
  }

  /** Without surrounding white space and without a leading `=`. */
  function Strip(expr: string): (s: string)
    ensures |s| <= |expr|
  {
    var trimmed := TrimSpace(expr);
    if HasPrefix(trimmed, "=") then TrimSpace(trimmed[1..]) else trimmed
  }

  predicate IsFunctionCall(expr: string) { MatchesCall(Strip(expr)) }

  predicate QuotedWith(arg: string, q: char) {
    arg != "" && arg[0] == q && arg[|arg| - 1] == q
  }

  function Execute(name: string, values: seq<Value>, lib: Library): Outcome {
    if name != "duration" && name != "subtract" && name != "add" then Failed(UnknownFunction(name))
    else
      match lib(name, values)
      case Ok(v) => Value(v)
      case Err(e) => Failed(ExecutionFailed(e))
  }

  function EvaluateFunction(expr: string, vars: Variables, lib: Library): Trace
    decreases |expr|, 2, 0
  {
    var s := Strip(expr);
    if !MatchesCall(s) then Trace(Failed(InvalidSyntax), 1)
    else
      var args := CallArguments(s);
      var (result, calls) := EvaluateArguments(args, 0, [], |s|, vars, lib);
      match result
      case Ok(values) => Trace(Execute(CallName(s), values, lib), 1 + calls)
      case Err(outcome) => Trace(outcome, 1 + calls)
  }

  /** Arguments from position `i` on, left to right; the first that does not evaluate ends the call. */
  function EvaluateArguments(args: seq<string>, i: nat, values: seq<Value>, bound: nat, vars: Variables, lib: Library)
    : (Result<seq<Value>, Outcome>, nat)
    requires i <= |args| && forall k :: 0 <= k < |args| ==> |args[k]| < bound
    decreases bound, 1, |args| - i
  {
    if i == |args| then (Ok(values), 0)
    else
      var t := EvaluateArgument(args[i], vars, lib);
      match t.outcome
      case Value(v) =>
        var (result, calls) := EvaluateArguments(args, i + 1, values + [v], bound, vars, lib);
        (result, t.calls + calls)
      case Failed(e) => (Err(Failed(ArgumentFailed(i, e))), t.calls)
      case Crashed => (Err(Crashed), t.calls)
  }

  function EvaluateArgument(arg: string, vars: Variables, lib: Library): Trace
    decreases |arg|, 3, 0
  {
    if IsFunctionCall(arg) then EvaluateFunction(arg, vars, lib)
    else if QuotedWith(arg, '"') || QuotedWith(arg, '\'') then
      if |arg| < 2 then Trace(Crashed, 0) else Trace(Value(Str(arg[1..|arg| - 1])), 0)
    else if arg in vars then Trace(Value(vars[arg]), 0)
    else Trace(Value(Str(arg)), 0)
  }

  /** The source's evaluation: parse, evaluate the arguments, execute. */
  method Evaluate(expr: string, vars: Variables, lib: Library) returns (t: Trace)
    ensures t == EvaluateFunction(expr, vars, lib)
    decreases |expr|, 1
  {
    var s := Strip(expr);
    if !MatchesCall(s) {
      return Trace(Failed(InvalidSyntax), 1);
    }
    var args := SplitArguments(CallText(s));
    assert args == CallArguments(s);
    var result, calls := EvaluateAll(args, |s|, vars, lib);
    match result {
      case Ok(values) => return Trace(Execute(CallName(s), values, lib), 1 + calls);
      case Err(outcome) => return Trace(outcome, 1 + calls);
    }
  }

  /** Its loop over the arguments. */
  method EvaluateAll(args: seq<string>, ghost bound: nat, vars: Variables, lib: Library)
    returns (result: Result<seq<Value>, Outcome>, calls: nat)
    requires forall k :: 0 <= k < |args| ==> |args[k]| < bound
    ensures var (r, n) := EvaluateArguments(args, 0, [], bound, vars, lib); result == r && calls == n
    decreases bound, 0
  {
    var values: seq<Value> := [];
    calls := 0;
    for i := 0 to |args|
      invariant var all := EvaluateArguments(args, 0, [], bound, vars, lib);
        var rest := EvaluateArguments(args, i, values, bound, vars, lib);
        all.0 == rest.0 && all.1 == calls + rest.1
    {
      var arg := EvaluateOne(args[i], vars, lib);
      calls := calls + arg.calls;
      match arg.outcome {
        case Value(v) => values := values + [v];
        case Failed(e) => return Err(Failed(ArgumentFailed(i, e))), calls;
        case Crashed => return Err(Crashed), calls;
      }
    }
    return Ok(values), calls;
  }

  method EvaluateOne(arg: string, vars: Variables, lib: Library) returns (t: Trace)
    ensures t == EvaluateArgument(arg, vars, lib)
    decreases |arg|, 2
  {
    if IsFunctionCall(arg) {
      t := Evaluate(arg, vars, lib);
      return;
    }
    if QuotedWith(arg, '"') || QuotedWith(arg, '\'') {
      return if |arg| < 2 then Trace(Crashed, 0) else Trace(Value(Str(arg[1..|arg| - 1])), 0);
    }
    return if arg in vars then Trace(Value(vars[arg]), 0) else Trace(Value(Str(arg)), 0);
  }

  // ----- What is taken for a call -----

  /** The text is a lower-case name and a parenthesised rest on one line. */
  predicate CallForm(s: string, name: string, inner: string) {
    && name != "" && (forall i :: 0 <= i < |name| ==> 'a' <= name[i] <= 'z')
    && '\n' !in inner && s == name + "(" + inner + ")"
  }

  lemma {:induction false} NameEnds(name: string, rest: string)
    requires (forall i :: 0 <= i < |name| ==> IsLower(name[i])) && rest != "" && !IsLower(rest[0])
    ensures NameLength(name + rest) == |name|
    decreases |name|
  {
    if name == "" {
      assert name + rest == rest;
    } else {
      assert (name + rest)[1..] == name[1..] + rest;
      NameEnds(name[1..], rest);
    }
  }

  lemma {:induction false} NameIsLower(s: string, i: nat)
    requires i < NameLength(s)
    ensures IsLower(s[i])
    decreases |s|
  {
    if i > 0 {
      NameIsLower(s[1..], i - 1);
    }
  }

  /** A text is taken for a call exactly when it has that form, which gives its name and its argument text. */
  lemma CallFormExact(s: string)
    ensures MatchesCall(s) <==> exists name, inner :: CallForm(s, name, inner)
    ensures forall name, inner :: CallForm(s, name, inner) ==>
      MatchesCall(s) && CallName(s) == name && CallText(s) == TrimSpace(inner)
  {
    if MatchesCall(s) {
      var n := NameLength(s);
      var name, inner := s[..n], s[n + 1..|s| - 1];
      forall i | 0 <= i < n
        ensures IsLower(name[i])
      {
        NameIsLower(s, i);
      }
      SplitAround(s, n);
      assert CallForm(s, name, inner);
    }
    forall name, inner | CallForm(s, name, inner)
      ensures MatchesCall(s) && CallName(s) == name && CallText(s) == TrimSpace(inner)
    {
      assert s == name + ("(" + inner + ")");
      NameEnds(name, "(" + inner + ")");
      assert s[|name| + 1..|s| - 1] == inner;
    }
  }

  /** An argument that is no call: between two equal quotes a text stands for itself, a lone quote crashes, and
      anything else is a variable's value or, without such a variable, its own text. */
  lemma ArgumentExact(arg: string, vars: Variables, lib: Library)
    requires !IsFunctionCall(arg)
    ensures var o := EvaluateArgument(arg, vars, lib).outcome;
      if arg == "\"" || arg == "'" then o == Crashed
      else if arg != "" && arg[0] in {'"', '\''} && arg[0] == arg[|arg| - 1] then
        o == Outcome.Value(Str(arg[1..|arg| - 1]))
      else o == Outcome.Value(if arg in vars then vars[arg] else Str(arg))
  {
  }

  /** White space around an expression and one leading `=`, with white space after it, do not matter. */
  lemma StripExact(left: string, mid: string, word: string, right: string)
    requires AllSpace(left) && AllSpace(mid) && AllSpace(right) && Trimmed(word)
    ensures Strip(left + ("=" + mid + word) + right) == word
    ensures !HasPrefix(word, "=") ==> Strip(left + word + right) == word
  {
    TrimPadded(left, word, right);
    if word == "" {
      assert "=" + mid + word == "=" + mid;
      StripEmpty(left, mid, right);
    } else {
      StripLead(left, mid, word, right);
    }
  }

  lemma StripEmpty(left: string, mid: string, right: string)
    requires AllSpace(left) && AllSpace(mid) && AllSpace(right)
    ensures Strip(left + ("=" + mid) + right) == ""
  {
    assert left + ("=" + mid) + right == left + "=" + (mid + right);
    TrimPadded(left, "=", mid + right);
    assert "="[1..] == "";
  }

  lemma StripLead(left: string, mid: string, word: string, right: string)
    requires AllSpace(left) && AllSpace(mid) && AllSpace(right) && Trimmed(word) && word != ""
    ensures Strip(left + ("=" + mid + word) + right) == word
  {
    var expr := "=" + mid + word;
    assert TrimSpace(left + expr + right) == expr by {
      assert expr[0] == '=' && expr[|expr| - 1] == word[|word| - 1];
      TrimPadded(left, expr, right);
    }
    assert expr[1..] == mid + word + "" && HasPrefix(expr, "=");
    TrimPadded(mid, word, "");
  }

  // ----- The number of calls is bounded by the parentheses -----

  lemma StripParens(expr: string)
    ensures Parens(Strip(expr)) == Parens(expr)
  {
    TrimParens(expr);
    var trimmed := TrimSpace(expr);
    if HasPrefix(trimmed, "=") {
      assert trimmed == "=" + trimmed[1..];
      TrimParens(trimmed[1..]);
    }
  }

  lemma CallTextParens(s: string)
    requires MatchesCall(s)
    ensures Parens(CallText(s)) + 1 <= Parens(s)
  {
    ParensAround(s, NameLength(s));
    TrimParens(s[NameLength(s) + 1..|s| - 1]);
  }

  lemma ParensAround(s: string, n: nat)
    requires n + 2 <= |s| && s[n] == '(' && s[|s| - 1] == ')'
    ensures Parens(s[n + 1..|s| - 1]) + 1 <= Parens(s)
  {
    var name, inner := s[..n], s[n + 1..|s| - 1];
    SplitAround(s, n);
    ParensConcat(name + "(", inner + ")");
    ParensConcat(inner, ")");
    ParensConcat(name, "(");
  }

  lemma SplitAround(s: string, n: nat)
    requires n + 2 <= |s| && s[n] == '(' && s[|s| - 1] == ')'
    ensures s == (s[..n] + "(") + (s[n + 1..|s| - 1] + ")")
  {
  }

  lemma ParensConcat(a: string, b: string)
    ensures Parens(a + b) == Parens(a) + Parens(b)
  {
  }

  lemma CallParens(s: string)
    requires MatchesCall(s)
    ensures ParensIn(CallArguments(s)) + 1 <= Parens(s)
  {
    CallTextParens(s);
    SplitKeepsParens(CallText(s));
  }

  /** A call evaluates at most one function per opening parenthesis; anything else is rejected at once. */
  lemma {:induction false} CallsBoundedByParens(expr: string, vars: Variables, lib: Library)
    ensures EvaluateFunction(expr, vars, lib).calls >= 1
    ensures IsFunctionCall(expr) ==> EvaluateFunction(expr, vars, lib).calls <= Parens(expr)
    ensures !IsFunctionCall(expr) ==> EvaluateFunction(expr, vars, lib) == Trace(Failed(InvalidSyntax), 1)
    decreases |expr|, 2, 0
  {
    var s := Strip(expr);
    if MatchesCall(s) {
      var args := CallArguments(s);
      CallsCounted(expr, vars, lib);
      assert ParensIn(args) + 1 <= Parens(expr) by {
        StripParens(expr);
        CallParens(s);
      }
      ArgumentCallsBounded(args, 0, [], |s|, vars, lib);
      assert args[0..] == args;
    }
  }

  lemma CallsCounted(expr: string, vars: Variables, lib: Library)
    requires IsFunctionCall(expr)
    ensures var s := Strip(expr);
      EvaluateFunction(expr, vars, lib).calls == 1 + EvaluateArguments(CallArguments(s), 0, [], |s|, vars, lib).1
  {
  }

  lemma {:induction false} ArgumentCallsBounded(args: seq<string>, i: nat, values: seq<Value>, bound: nat,
      vars: Variables, lib: Library)
    requires i <= |args| && forall k :: 0 <= k < |args| ==> |args[k]| < bound
    ensures EvaluateArguments(args, i, values, bound, vars, lib).1 <= ParensIn(args[i..])
    decreases bound, 1, |args| - i
  {
    if i < |args| {
      var t := EvaluateArgument(args[i], vars, lib);
      assert t.calls <= Parens(args[i]) by {
        if IsFunctionCall(args[i]) {
          CallsBoundedByParens(args[i], vars, lib);
        }
      }
      assert ParensIn(args[i..]) == Parens(args[i]) + ParensIn(args[i + 1..]) by {
        ParensInFront(args[i..]);
        assert args[i..][1..] == args[i + 1..];
      }
      if t.outcome.Value? {
        ArgumentCallsBounded(args, i + 1, values + [t.outcome.value], bound, vars, lib);
      }
    }
  }

  lemma {:induction false} ParensInFront(parts: seq<string>)
    requires parts != []
    ensures ParensIn(parts) == Parens(parts[0]) + ParensIn(parts[1..])
    decreases |parts|
  {
    if |parts| > 1 {
      ParensInFront(parts[..|parts| - 1]);
      assert parts[1..][..|parts| - 2] == parts[..|parts| - 1][1..];
    }
  }
}
