/** An argument that is a lone quote character crashes the evaluation. Exactly which texts can crash, and that closed
    quotes rule it out. */
module CallCrashes {
  import opened Logic
  import opened Text
  import opened ArgumentSplitter
  import opened FunctionCalls

  /** The quote still open after `s`. */
  function OpenQuote(s: string, quote: Option<char>): Option<char>
    decreases |s|
  {
    if s == "" then quote
    else
      var c := s[0];
      if c != '"' && c != '\'' then OpenQuote(s[1..], quote)
      else OpenQuote(s[1..], if quote == None then Some(c) else if quote == Some(c) then None else quote)
  }

  predicate QuotesClosed(s: string) { OpenQuote(s, None) == None }

  lemma {:induction false} OpenQuoteConcat(a: string, b: string, quote: Option<char>)
    ensures OpenQuote(a + b, quote) == OpenQuote(b, OpenQuote(a, quote))
    decreases |a|
  {
    if a == "" {
      assert a + b == b;
    } else {
      assert (a + b)[1..] == a[1..] + b;
      var c := a[0];
      var toggled := if quote == None then Some(c) else if quote == Some(c) then None else quote;
      OpenQuoteConcat(a[1..], b, if c != '"' && c != '\'' then quote else toggled);
    }
  }

  predicate NoQuotes(s: string) { '"' !in s && '\'' !in s }

  lemma {:induction false} NoQuotesKeep(s: string, quote: Option<char>)
    requires NoQuotes(s)
    ensures OpenQuote(s, quote) == quote
    decreases |s|
  {
    if s != "" {
      NoQuotesKeep(s[1..], quote);
    }
  }

  /** Text around a quote-free head and tail. */
  lemma ClosedInside(head: string, s: string, tail: string)
    requires NoQuotes(head) && NoQuotes(tail)
    ensures QuotesClosed(head + s + tail) <==> QuotesClosed(s)
  {
    OpenQuoteConcat(head + s, tail, None);
    OpenQuoteConcat(head, s, None);
    NoQuotesKeep(head, None);
    NoQuotesKeep(tail, OpenQuote(s, None));
  }

  lemma TrimClosed(s: string)
    ensures QuotesClosed(TrimSpace(s)) <==> QuotesClosed(s)
  {
    var left, right := TrimSplits(s);
    ClosedInside(left, TrimSpace(s), right);
  }

  lemma StripClosed(expr: string)
    ensures QuotesClosed(Strip(expr)) <==> QuotesClosed(expr)
  {
    TrimClosed(expr);
    var trimmed := TrimSpace(expr);
    if HasPrefix(trimmed, "=") {
      var rest := trimmed[1..];
      assert trimmed == "=" + rest + "";
      ClosedInside("=", rest, "");
      TrimClosed(rest);
    }
  }

  lemma {:induction false} NameHasNoQuotes(s: string)
    ensures NoQuotes(s[..NameLength(s)])
    decreases |s|
  {
    if s != "" && IsLower(s[0]) {
      NameHasNoQuotes(s[1..]);
      assert s[..NameLength(s)] == [s[0]] + s[1..][..NameLength(s[1..])];
    }
  }

  lemma CallTextClosed(s: string)
    requires MatchesCall(s)
    ensures QuotesClosed(CallText(s)) <==> QuotesClosed(s)
  {
    var n := NameLength(s);
    var head, inner := s[..n + 1], s[n + 1..|s| - 1];
    NameHasNoQuotes(s);
    assert head == s[..n] + "(";
    assert s == head + inner + ")";
    ClosedInside(head, inner, ")");
    TrimClosed(inner);
  }

  /** While splitting: finished pieces are closed, and the open quote is that of the current one. */
  predicate Tracked(st: Splitter) {
    OpenQuote(st.current, None) == st.quote && forall i :: 0 <= i < |st.pieces| ==> QuotesClosed(st.pieces[i])
  }

  lemma StepTracked(st: Splitter, c: char)
    requires Tracked(st)
    ensures Tracked(Step(st, c)) && Step(st, c).quote == OpenQuote([c], st.quote)
  {
    OpenQuoteConcat(st.current, [c], None);
    assert [c][1..] == "";
  }

  lemma {:induction false} RunTracked(st: Splitter, s: string)
    requires Tracked(st)
    ensures Tracked(Run(st, s)) && Run(st, s).quote == OpenQuote(s, st.quote)
    decreases |s|
  {
    if s != "" {
      StepTracked(st, s[0]);
      RunTracked(Step(st, s[0]), s[1..]);
      assert s == [s[0]] + s[1..];
      OpenQuoteConcat([s[0]], s[1..], st.quote);
    }
  }

  /** The arguments of a closed list are closed. */
  lemma SplitClosed(s: string, i: nat)
    requires QuotesClosed(s) && i < |Split(s)|
    ensures QuotesClosed(Split(s)[i])
  {
    RunTracked(START, s);
    TrimClosed(Pieces(s)[i]);
  }

  // ----- The fate of a text, read off the text alone -----

  /** What evaluation comes to when no function fails: a value, an error, or a crash. */
  datatype Fate = Fine | Stuck | Crash

  predicate IsKnown(name: string) { name == "duration" || name == "subtract" || name == "add" }

  predicate IsLoneQuote(arg: string) { arg == "\"" || arg == "'" }

  function FateOf(expr: string): Fate
    decreases |expr|, 2, 0
  {
    var s := Strip(expr);
    if !MatchesCall(s) then Stuck
    else
      var fate := FateFrom(CallArguments(s), 0, |s|);
      if fate == Fine && !IsKnown(CallName(s)) then Stuck else fate
  }

  /** The first argument from `i` on that is not fine decides. */
  function FateFrom(args: seq<string>, i: nat, bound: nat): Fate
    requires i <= |args| && forall k :: 0 <= k < |args| ==> |args[k]| < bound
    decreases bound, 1, |args| - i
  {
    if i == |args| then Fine
    else
      var fate := ArgumentFate(args[i]);
      if fate == Fine then FateFrom(args, i + 1, bound) else fate
  }

  function ArgumentFate(arg: string): Fate
    decreases |arg|, 3, 0
  {
    if IsFunctionCall(arg) then FateOf(arg) else if IsLoneQuote(arg) then Crash else Fine
  }

  /** An argument that is no call crashes by itself exactly when it is one quote character. */
  lemma SimpleArgument(arg: string, vars: Variables, lib: Library)
    requires !IsFunctionCall(arg)
    ensures EvaluateArgument(arg, vars, lib).outcome.Crashed? <==> IsLoneQuote(arg)
    ensures !IsLoneQuote(arg) ==> EvaluateArgument(arg, vars, lib).outcome.Value?
  {
  }

  /** An outcome that the fate allows: only a text with fate `Crash` crashes, and only one with fate `Fine` has a
      value. */
  predicate Allows(fate: Fate, outcome: Outcome) {
    (outcome.Crashed? ==> fate == Crash) && (outcome.Value? ==> fate == Fine)
  }

  predicate AllowsList(fate: Fate, result: Result<seq<Value>, Outcome>) {
    match result
    case Ok(_) => fate == Fine
    case Err(outcome) => !outcome.Value? && Allows(fate, outcome)
  }

  lemma {:induction false} FateAllows(expr: string, vars: Variables, lib: Library)
    ensures Allows(FateOf(expr), EvaluateFunction(expr, vars, lib).outcome)
    decreases |expr|, 2, 0
  {
    var s := Strip(expr);
    if MatchesCall(s) {
      FateAllowsFrom(CallArguments(s), 0, [], |s|, vars, lib);
    }
  }

  lemma {:induction false} FateAllowsFrom(args: seq<string>, i: nat, values: seq<Value>, bound: nat, vars: Variables,
      lib: Library)
    requires i <= |args| && forall k :: 0 <= k < |args| ==> |args[k]| < bound
    ensures AllowsList(FateFrom(args, i, bound), EvaluateArguments(args, i, values, bound, vars, lib).0)
    decreases bound, 1, |args| - i
  {
    if i < |args| {
      var t := EvaluateArgument(args[i], vars, lib);
      assert Allows(ArgumentFate(args[i]), t.outcome) by {
        if IsFunctionCall(args[i]) {
          FateAllows(args[i], vars, lib);
        } else {
          SimpleArgument(args[i], vars, lib);
        }
      }
      match t.outcome
      case Value(v) => FateAllowsFrom(args, i + 1, values + [v], bound, vars, lib);
      case Failed(_) =>
      case Crashed =>
    }
  }

  /** The outcome that the fate foretells when no function fails. */
  predicate Meets(fate: Fate, outcome: Outcome) {
    match fate
    case Fine => outcome.Value?
    case Stuck => outcome.Failed?
    case Crash => outcome.Crashed?
  }

  predicate MeetsList(fate: Fate, result: Result<seq<Value>, Outcome>) {
    if fate == Fine then result.Ok? else result.Err? && Meets(fate, result.error)
  }

  ghost predicate NeverFails(lib: Library) {
    forall name, values :: lib(name, values).Ok?
  }

  lemma {:induction false} FateMet(expr: string, vars: Variables, lib: Library)
    requires NeverFails(lib)
    ensures Meets(FateOf(expr), EvaluateFunction(expr, vars, lib).outcome)
    decreases |expr|, 2, 0
  {
    var s := Strip(expr);
    if MatchesCall(s) {
      FateMetFrom(CallArguments(s), 0, [], |s|, vars, lib);
    }
  }

  lemma {:induction false} FateMetFrom(args: seq<string>, i: nat, values: seq<Value>, bound: nat, vars: Variables,
      lib: Library)
    requires i <= |args| && NeverFails(lib) && forall k :: 0 <= k < |args| ==> |args[k]| < bound
    ensures MeetsList(FateFrom(args, i, bound), EvaluateArguments(args, i, values, bound, vars, lib).0)
    decreases bound, 1, |args| - i
  {
    if i < |args| {
      var t := EvaluateArgument(args[i], vars, lib);
      assert Meets(ArgumentFate(args[i]), t.outcome) by {
        if IsFunctionCall(args[i]) {
          FateMet(args[i], vars, lib);
        } else {
          SimpleArgument(args[i], vars, lib);
        }
      }
      match t.outcome
      case Value(v) => FateMetFrom(args, i + 1, values + [v], bound, vars, lib);
      case Failed(_) =>
      case Crashed =>
    }
  }

  function EmptyResult(name: string, values: seq<Value>): Result<Value, string> { Ok(Null) }

  ghost predicate CanCrash(expr: string) {
    exists vars: Variables, lib: Library :: EvaluateFunction(expr, vars, lib).outcome.Crashed?
  }

  /** A text can crash the evaluator, for some variables and functions, exactly when its fate is to crash. */
  lemma CrashExact(expr: string)
    ensures CanCrash(expr) <==> FateOf(expr) == Crash
  {
    if CanCrash(expr) {
      var vars: Variables, lib: Library :| EvaluateFunction(expr, vars, lib).outcome.Crashed?;
      FateAllows(expr, vars, lib);
    }
    if FateOf(expr) == Crash {
      var vars: Variables, lib: Library := map[], EmptyResult;
      FateMet(expr, vars, lib);
      assert EvaluateFunction(expr, vars, lib).outcome.Crashed?;
    }
  }

  lemma LoneQuoteSplits(q: string)
    requires |q| == 1 && q[0] == '"'
    ensures Split(q) == [q]
  {
    var st := Splitter([], q, 0, Some('"'));
    assert "" + ['"'] == q;
    assert Step(START, q[0]) == st;
    assert q[1..] == "" && Run(st, "") == st;
    assert Run(START, q) == st;
    assert [] + [q] == [q];
    TrimNothing(q);
  }

  lemma LoneQuoteCall(s: string)
    requires s == "add(\")"
    ensures Strip(s) == s && MatchesCall(s) && CallText(s) == "\""
  {
    TrimNothing(s);
    assert NameLength("(\")") == 0;
    assert "d(\")"[1..] == "(\")" && NameLength("d(\")") == 1;
    assert "dd(\")"[1..] == "d(\")" && NameLength("dd(\")") == 2;
    assert s[1..] == "dd(\")" && NameLength(s) == 3;
    var q := s[4..5];
    assert q == "\"" && q[0] == '"';
    TrimNothing(q);
  }

  /** The text `add(")` does crash it, whatever the variables and functions. */
  lemma LoneQuoteCrashes(vars: Variables, lib: Library)
    ensures EvaluateFunction("add(\")", vars, lib).outcome.Crashed?
  {
    LoneQuoteCall("add(\")");
    LoneQuoteSplits("\"");
    assert !IsFunctionCall("\"");
    SimpleArgument("\"", vars, lib);
    FirstCrash(["\""], |"add(\")"|, vars, lib);
  }

  lemma FirstCrash(args: seq<string>, bound: nat, vars: Variables, lib: Library)
    requires args != [] && forall k :: 0 <= k < |args| ==> |args[k]| < bound
    ensures EvaluateArgument(args[0], vars, lib).outcome.Crashed? ==>
      EvaluateArguments(args, 0, [], bound, vars, lib).0 == Err(Crashed)
  {
  }

  // ----- Closed quotes -----

  lemma {:induction false} ClosedFate(expr: string)
    requires QuotesClosed(expr)
    ensures FateOf(expr) != Crash
    decreases |expr|, 2, 0
  {
    var s := Strip(expr);
    if MatchesCall(s) {
      var args := CallArguments(s);
      StripClosed(expr);
      CallTextClosed(s);
      forall i | 0 <= i < |args|
        ensures QuotesClosed(args[i])
      {
        SplitClosed(CallText(s), i);
      }
      ClosedFateFrom(args, 0, |s|);
    }
  }

  lemma {:induction false} ClosedFateFrom(args: seq<string>, i: nat, bound: nat)
    requires i <= |args| && forall k :: 0 <= k < |args| ==> |args[k]| < bound && QuotesClosed(args[k])
    ensures FateFrom(args, i, bound) != Crash
    decreases bound, 1, |args| - i
  {
    if i < |args| {
      if IsFunctionCall(args[i]) {
        ClosedFate(args[i]);
      } else {
        assert !QuotesClosed("\"") && !QuotesClosed("'");
      }
      ClosedFateFrom(args, i + 1, bound);
    }
  }

  /** Whatever the variables and functions, a text whose quotes are closed is evaluated without a crash. */
  lemma ClosedNeverCrashes(expr: string, vars: Variables, lib: Library)
    requires QuotesClosed(expr)
    ensures !EvaluateFunction(expr, vars, lib).outcome.Crashed?
  {
    ClosedFate(expr);
    FateAllows(expr, vars, lib);
  }
}
