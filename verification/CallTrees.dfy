/** Nested calls as trees: evaluating the printed tree gives the meaning of the tree. */
module CallTrees {
  import opened Logic
  import opened Text
  import opened ArgumentSplitter
  import opened FunctionCalls

  /** A quoted text, a bare word (variable or literal), or a call. */
  datatype Arg = Quoted(text: string, quote: char) | Word(text: string) | Call(name: string, args: seq<Arg>)

  predicate PlainChar(c: char) { c !in {'"', '\'', '(', ')', ',', '\n'} }

  predicate PlainText(s: string) { forall i :: 0 <= i < |s| ==> PlainChar(s[i]) }

  predicate WellFormed(a: Arg)
    decreases a, 1
  {
    match a
    case Quoted(text, q) => (q == '"' || q == '\'') && q !in text && '\n' !in text
    case Word(text) => text != "" && Trimmed(text) && PlainText(text)
    case Call(name, args) =>
      name != "" && (forall i :: 0 <= i < |name| ==> IsLower(name[i])) && AllWellFormed(args)
  }

  predicate AllWellFormed(args: seq<Arg>)
    decreases args, 0
  {
    forall i :: 0 <= i < |args| ==> WellFormed(args[i])
  }

  function Print(a: Arg): string
    decreases a, 1
  {
    match a
    case Quoted(text, q) => [q] + text + [q]
    case Word(text) => text
    case Call(name, args) => name + "(" + Join(PrintPieces(args)) + ")"
  }

  /** The printed arguments, each after the first preceded by a blank. */
  function PrintPieces(args: seq<Arg>): (pieces: seq<string>)
    ensures |pieces| == |args|
    decreases args, 0
  {
    if args == [] then []
    else PrintPieces(args[..|args| - 1]) + [(if |args| == 1 then "" else " ") + Print(args[|args| - 1])]
  }

  /** One of the three functions applied to the values of its arguments. */
  function Applied(name: string, values: seq<Value>, lib: Library): Outcome {
    if name !in {"duration", "subtract", "add"} then Failed(UnknownFunction(name))
    else if lib(name, values).Ok? then Value(lib(name, values).value)
    else Failed(ExecutionFailed(lib(name, values).error))
  }

  function Meaning(a: Arg, vars: Variables, lib: Library): Outcome
    decreases a, 1, 0
  {
    match a
    case Quoted(text, _) => Value(Str(text))
    case Word(text) => Value(if text in vars then vars[text] else Str(text))
    case Call(name, args) =>
      match MeaningFrom(args, 0, [], vars, lib)
      case Err(outcome) => outcome
      case Ok(values) => Applied(name, values, lib)
  }

  function MeaningFrom(args: seq<Arg>, i: nat, values: seq<Value>, vars: Variables, lib: Library): Result<seq<Value>,
      Outcome>
    requires i <= |args|
    decreases args, 0, |args| - i
  {
    if i == |args| then Ok(values)
    else
      match Meaning(args[i], vars, lib)
      case Value(v) => MeaningFrom(args, i + 1, values + [v], vars, lib)
      case Failed(e) => Err(Failed(ArgumentFailed(i, e)))
      case Crashed => Err(Crashed)
  }

  // ----- Printed arguments are pieces the splitter keeps whole -----

  /** Scanning `s` returns to the nesting it started from, outside quotes. */
  predicate Neutral(s: string, depth: int) { Scan(s, depth, None) == Some((depth, None)) }

  lemma NeutralConcat(a: string, b: string, depth: int)
    requires Neutral(a, depth) && Neutral(b, depth)
    ensures Neutral(a + b, depth)
  {
    ScanConcat(a, b, depth, None);
  }

  lemma {:induction false} NeutralPlain(s: string, depth: int)
    requires PlainText(s)
    ensures Neutral(s, depth)
    decreases |s|
  {
    if s != "" {
      NeutralPlain(s[1..], depth);
    }
  }

  lemma {:induction false} ScanInQuotes(s: string, depth: int, q: char)
    requires q !in s
    ensures Scan(s, depth, Some(q)) == Some((depth, Some(q)))
    decreases |s|
  {
    if s != "" {
      ScanInQuotes(s[1..], depth, q);
    }
  }

  lemma NeutralQuoted(text: string, q: char, depth: int)
    requires (q == '"' || q == '\'') && q !in text
    ensures Neutral([q] + text + [q], depth)
  {
    ScanInQuotes(text, depth, q);
    ScanConcat([q], text, depth, None);
    ScanConcat([q] + text, [q], depth, None);
    assert [q][1..] == "";
  }

  lemma NeutralParens(list: string, depth: int)
    requires Neutral(list, depth + 1)
    ensures Neutral("(" + list + ")", depth)
  {
    assert "("[1..] == "" && ")"[1..] == "";
    ScanConcat("(", list, depth, None);
    ScanConcat("(" + list, ")", depth, None);
  }

  lemma {:induction false} NeutralPrinted(a: Arg, depth: nat)
    requires WellFormed(a)
    ensures Neutral(Print(a), depth)
    decreases a, 1
  {
    match a
    case Quoted(text, q) => NeutralQuoted(text, q, depth);
    case Word(text) => NeutralPlain(text, depth);
    case Call(name, args) =>
      var list := Join(PrintPieces(args));
      NeutralPieces(args, depth + 1);
      NeutralJoin(PrintPieces(args), depth + 1);
      NeutralParens(list, depth);
      NeutralPlain(name, depth);
      NeutralConcat(name, "(" + list + ")", depth);
      assert name + "(" + list + ")" == name + ("(" + list + ")");
  }

  lemma {:induction false} NeutralPieces(args: seq<Arg>, depth: nat)
    requires AllWellFormed(args)
    ensures forall i :: 0 <= i < |args| ==> Neutral(PrintPieces(args)[i], depth)
    decreases args, 0
  {
    if args != [] {
      var last := Print(args[|args| - 1]);
      NeutralPieces(args[..|args| - 1], depth);
      NeutralPrinted(args[|args| - 1], depth);
      NeutralPlain(" ", depth);
      NeutralConcat(" ", last, depth);
      assert "" + last == last;
    }
  }

  lemma {:induction false} NeutralJoin(pieces: seq<string>, depth: nat)
    requires depth >= 1 && forall i :: 0 <= i < |pieces| ==> Neutral(pieces[i], depth)
    ensures Neutral(Join(pieces), depth)
    decreases |pieces|
  {
    if |pieces| > 1 {
      var init := pieces[..|pieces| - 1];
      NeutralJoin(init, depth);
      assert ","[1..] == "";
      NeutralConcat(Join(init), ",", depth);
      NeutralConcat(Join(init) + ",", pieces[|pieces| - 1], depth);
    }
  }

  // ----- Printed calls are recognised -----

  predicate OneLine(s: string) { '\n' !in s }

  lemma {:induction false} PrintedText(a: Arg)
    requires WellFormed(a)
    ensures Print(a) != "" && Trimmed(Print(a)) && OneLine(Print(a))
    decreases a, 1
  {
    if a.Call? {
      PrintedPieces(a.args);
      OneLineJoin(PrintPieces(a.args));
      var text := Print(a);
      assert text[0] == a.name[0] && text[|text| - 1] == ')';
      assert forall i :: 0 <= i < |a.name| ==> a.name[i] != '\n';
    }
  }

  /** `piece` is one argument of a printed list: `text` with blanks around it, on one line. */
  predicate PieceOf(piece: string, text: string) {
    OneLine(piece) && piece != "" && TrimSpace(piece) == text
  }

  lemma PrintedPiece(text: string, first: bool)
    requires text != "" && Trimmed(text) && OneLine(text)
    ensures PieceOf((if first then "" else " ") + text, text)
  {
  }

  lemma {:induction false} PrintedPieces(args: seq<Arg>)
    requires AllWellFormed(args)
    ensures forall i :: 0 <= i < |args| ==> PieceOf(PrintPieces(args)[i], Print(args[i]))
    decreases args, 2
  {
    forall i | 0 <= i < |args|
      ensures PieceOf(PrintPieces(args)[i], Print(args[i]))
    {
      PrintedText(args[i]);
      PieceAt(args, i);
      PrintedPiece(Print(args[i]), i == 0);
    }
  }

  lemma {:induction false} PieceAt(args: seq<Arg>, i: nat)
    requires i < |args|
    ensures PrintPieces(args)[i] == (if i == 0 then "" else " ") + Print(args[i])
    decreases |args|
  {
    if i < |args| - 1 {
      PieceAt(args[..|args| - 1], i);
    }
  }

  lemma {:induction false} FirstPiece(args: seq<Arg>)
    requires args != []
    ensures PrintPieces(args)[0] == Print(args[0])
    decreases |args|
  {
    if |args| > 1 {
      FirstPiece(args[..|args| - 1]);
    } else {
      assert "" + Print(args[0]) == Print(args[0]);
    }
  }

  lemma {:induction false} OneLineJoin(pieces: seq<string>)
    requires forall i :: 0 <= i < |pieces| ==> OneLine(pieces[i])
    ensures OneLine(Join(pieces))
    decreases |pieces|
  {
    if |pieces| > 1 {
      OneLineJoin(pieces[..|pieces| - 1]);
    }
  }

  /** The list between the parentheses has no blanks at its ends. */
  lemma ListTrimmed(args: seq<Arg>)
    requires AllWellFormed(args)
    ensures Trimmed(Join(PrintPieces(args)))
  {
    if args != [] {
      var pieces := PrintPieces(args);
      PrintedPieces(args);
      FirstPiece(args);
      PrintedText(args[0]);
      PrintedText(args[|args| - 1]);
      JoinEnds(pieces);
      var last := pieces[|pieces| - 1];
      assert last[|last| - 1] == Print(args[|args| - 1])[|Print(args[|args| - 1])| - 1];
    }
  }

  lemma {:induction false} JoinEnds(pieces: seq<string>)
    requires pieces != [] && forall i :: 0 <= i < |pieces| ==> pieces[i] != ""
    ensures var s, last := Join(pieces), pieces[|pieces| - 1];
      s != "" && s[0] == pieces[0][0] && s[|s| - 1] == last[|last| - 1]
    decreases |pieces|
  {
    if |pieces| > 1 {
      JoinEnds(pieces[..|pieces| - 1]);
    }
  }

  lemma {:induction false} NameEnds(name: string, rest: string)
    requires (forall i :: 0 <= i < |name| ==> IsLower(name[i])) && rest != "" && !IsLower(rest[0])
    ensures NameLength(name + rest) == |name|
    decreases |name|
  {
    if name == "" {
      assert name + rest == rest;
    } else {
      assert (name + rest)[1..] == name[1..] + rest;
      NameEnds(name[1..], rest);
    }
  }

  lemma PrintedCallName(a: Arg)
    requires a.Call? && WellFormed(a)
    ensures Print(a) == a.name + ("(" + Join(PrintPieces(a.args)) + ")")
    ensures NameLength(Print(a)) == |a.name|
  {
    NameEnds(a.name, "(" + Join(PrintPieces(a.args)) + ")");
  }

  lemma PrintedCallMatches(a: Arg)
    requires a.Call? && WellFormed(a)
    ensures Strip(Print(a)) == Print(a) && MatchesCall(Print(a))
    ensures CallName(Print(a)) == a.name && CallText(Print(a)) == Join(PrintPieces(a.args))
  {
    var s, list := Print(a), Join(PrintPieces(a.args));
    PrintedCallName(a);
    assert Strip(s) == s by {
      PrintedText(a);
      TrimNothing(s);
      assert s[0] == a.name[0];
    }
    assert s[|a.name| + 1..|s| - 1] == list;
    assert TrimSpace(list) == list by {
      ListTrimmed(a.args);
      TrimNothing(list);
    }
    assert OneLine(list) by {
      PrintedPieces(a.args);
      OneLineJoin(PrintPieces(a.args));
    }
  }

  lemma PrintedCallArguments(a: Arg)
    requires a.Call? && WellFormed(a)
    ensures MatchesCall(Print(a)) && |CallArguments(Print(a))| == |a.args|
    ensures forall i :: 0 <= i < |a.args| ==> CallArguments(Print(a))[i] == Print(a.args[i])
  {
    var pieces := PrintPieces(a.args);
    PrintedCallMatches(a);
    NeutralPieces(a.args, 0);
    PrintedPieces(a.args);
    SplitRoundTrip(pieces);
  }

  // ----- Evaluation is the meaning of the tree -----

  /** Words and quoted texts are never taken for calls. */
  lemma NotACall(a: Arg)
    requires !a.Call? && WellFormed(a)
    ensures !IsFunctionCall(Print(a))
  {
    var text := Print(a);
    if a.Word? {
      StripParens(text);
      assert Parens(text) == 0;
    } else {
      assert text[0] == a.quote && text[|text| - 1] == a.quote;
      TrimNothing(text);
    }
  }

  /** Evaluating a printed argument gives its meaning: quoting, lookup, nesting and argument order included. */
  lemma {:induction false} EvaluatesToMeaning(a: Arg, vars: Variables, lib: Library)
    requires WellFormed(a)
    ensures EvaluateArgument(Print(a), vars, lib).outcome == Meaning(a, vars, lib)
    decreases a, 1, 0
  {
    if a.Call? {
      PrintedCallMatches(a);
      PrintedCallArguments(a);
      CallUnfolds(Print(a), vars, lib);
      EvaluatesList(a.args, CallArguments(Print(a)), 0, [], |Print(a)|, vars, lib);
    } else {
      EvaluatesSimple(a, vars, lib);
    }
  }

  lemma CallUnfolds(s: string, vars: Variables, lib: Library)
    requires Strip(s) == s && MatchesCall(s)
    ensures EvaluateArgument(s, vars, lib).outcome
         == match EvaluateArguments(CallArguments(s), 0, [], |s|, vars, lib).0
            case Err(outcome) => outcome
            case Ok(values) => Applied(CallName(s), values, lib)
  {
  }

  lemma EvaluatesSimple(a: Arg, vars: Variables, lib: Library)
    requires WellFormed(a) && !a.Call?
    ensures EvaluateArgument(Print(a), vars, lib).outcome == Meaning(a, vars, lib)
  {
    NotACall(a);
    if a.Quoted? {
      var s := Print(a);
      assert s[0] == s[|s| - 1] == a.quote && s[1..|s| - 1] == a.text;
    }
  }

  lemma {:induction false} EvaluatesList(args: seq<Arg>, texts: seq<string>, i: nat, values: seq<Value>, bound: nat,
      vars: Variables, lib: Library)
    requires AllWellFormed(args) && i <= |args| == |texts|
    requires forall k :: 0 <= k < |texts| ==> |texts[k]| < bound && texts[k] == Print(args[k])
    ensures EvaluateArguments(texts, i, values, bound, vars, lib).0 == MeaningFrom(args, i, values, vars, lib)
    decreases args, 0, |args| - i
  {
    if i < |args| {
      var m := Meaning(args[i], vars, lib);
      assert EvaluateArgument(texts[i], vars, lib).outcome == m by {
        EvaluatesToMeaning(args[i], vars, lib);
      }
      if m.Value? {
        EvaluatesList(args, texts, i + 1, values + [m.value], bound, vars, lib);
      }
    }
  }

  // ----- What a call comes to -----

  lemma CallEvaluates(a: Arg, vars: Variables, lib: Library)
    requires a.Call? && WellFormed(a)
    ensures EvaluateFunction(Print(a), vars, lib).outcome == Meaning(a, vars, lib)
  {
    EvaluatesToMeaning(a, vars, lib);
    PrintedCallMatches(a);
  }

  lemma {:induction false} MeaningOfValues(args: seq<Arg>, i: nat, values: seq<Value>, vars: Variables, lib: Library)
    requires i <= |args| == |values|
    requires forall k :: 0 <= k < |args| ==> Meaning(args[k], vars, lib) == Outcome.Value(values[k])
    ensures MeaningFrom(args, i, values[..i], vars, lib) == Ok(values)
    decreases |args| - i
  {
    if i == |args| {
      assert values[..i] == values;
    } else {
      TakeOneMore(values, i + 1);
      MeaningOfValues(args, i + 1, values, vars, lib);
    }
  }

  /** The printed call, when its arguments mean the given values: one of the three functions is run on exactly these
      values in this order and its result or error is the outcome; any other name is refused. */
  lemma CallOutcome(a: Arg, values: seq<Value>, vars: Variables, lib: Library)
    requires a.Call? && WellFormed(a) && |values| == |a.args|
    requires forall k :: 0 <= k < |values| ==> Meaning(a.args[k], vars, lib) == Outcome.Value(values[k])
    ensures var o, known := EvaluateFunction(Print(a), vars, lib).outcome, a.name in {"duration", "subtract", "add"};
      && (known ==> forall v :: o == Outcome.Value(v) <==> lib(a.name, values) == Ok(v))
      && (known ==> forall e :: o == Failed(ExecutionFailed(e)) <==> lib(a.name, values) == Err(e))
      && (!known ==> o == Failed(UnknownFunction(a.name)))
  {
    CallEvaluates(a, vars, lib);
    assert Meaning(a, vars, lib) == Applied(a.name, values, lib) by {
      MeaningOfValues(a.args, 0, values, vars, lib);
      assert values[..0] == [];
    }
  }

  lemma {:induction false} MeaningFailsAt(args: seq<Arg>, i: nat, k: nat, values: seq<Value>, vars: Variables,
      lib: Library)
    requires i <= k < |args| && Meaning(args[k], vars, lib).Failed?
    requires forall j :: i <= j < k ==> Meaning(args[j], vars, lib).Value?
    ensures MeaningFrom(args, i, values, vars, lib)
         == Err(Failed(ArgumentFailed(k, Meaning(args[k], vars, lib).error)))
    decreases k - i
  {
    if i < k {
      MeaningFailsAt(args, i + 1, k, values + [Meaning(args[i], vars, lib).value], vars, lib);
    }
  }

  /** The first argument that fails decides: nothing after it matters, and its position is reported. */
  lemma FirstFailureReported(a: Arg, k: nat, vars: Variables, lib: Library)
    requires a.Call? && WellFormed(a) && k < |a.args| && Meaning(a.args[k], vars, lib).Failed?
    requires forall j :: 0 <= j < k ==> Meaning(a.args[j], vars, lib).Value?
    ensures EvaluateFunction(Print(a), vars, lib).outcome
         == Failed(ArgumentFailed(k, Meaning(a.args[k], vars, lib).error))
  {
    CallEvaluates(a, vars, lib);
    MeaningFailsAt(a.args, 0, k, [], vars, lib);
  }
}
