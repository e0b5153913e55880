/** `splitArguments`: cutting an argument list at its top-level commas. */
module ArgumentSplitter {
  import opened Logic
  import opened Text

  /** The splitter's variables, with the finished arguments still untrimmed. */
  datatype Splitter = Splitter(pieces: seq<string>, current: string, depth: int, quote: Option<char>)

  const START := Splitter([], "", 0, None)

  predicate TopLevel(st: Splitter) { st.depth == 0 && st.quote == None }

  function Step(st: Splitter, c: char): Splitter {
    if c == '"' || c == '\'' then
      var quote := if st.quote == None then Some(c) else if st.quote == Some(c) then None else st.quote;
      st.(quote := quote, current := st.current + [c])
    else if c == '(' && st.quote == None then st.(depth := st.depth + 1, current := st.current + [c])
    else if c == ')' && st.quote == None then st.(depth := st.depth - 1, current := st.current + [c])
    else if c == ',' && TopLevel(st) then st.(pieces := st.pieces + [st.current], current := "")
    else st.(current := st.current + [c])
  }

  function Run(st: Splitter, s: string): Splitter
    decreases |s|
  {
    if s == "" then st else Run(Step(st, s[0]), s[1..])
  }

  /** The text between the top-level commas; an empty rest after the last comma is no argument. */
  function Pieces(s: string): seq<string> {
    var st := Run(START, s);
    if |st.current| > 0 then st.pieces + [st.current] else st.pieces
  }

  function TrimAll(pieces: seq<string>): (r: seq<string>)
    ensures |r| == |pieces| && forall i :: 0 <= i < |pieces| ==> r[i] == TrimSpace(pieces[i])
  {
    if pieces == [] then [] else TrimAll(pieces[..|pieces| - 1]) + [TrimSpace(pieces[|pieces| - 1])]
  }

  function Split(s: string): seq<string> { TrimAll(Pieces(s)) }

  method SplitArguments(argsString: string) returns (args: seq<string>)
    ensures args == Split(argsString)
  {
    if argsString == "" {
      return [];
    }
    args := [];
    var currentArg := "";
    var depth := 0;
    var inQuotes := false;
    var quoteChar := '\0';
    ghost var pieces: seq<string> := [];
    for i := 0 to |argsString|
      invariant args == TrimAll(pieces)
      invariant Run(START, argsString)
             == Run(Splitter(pieces, currentArg, depth, if inQuotes then Some(quoteChar) else None), argsString[i..])
    {
      var c := argsString[i];
      assert argsString[i..][0] == c && argsString[i..][1..] == argsString[i + 1..];
      if c == '"' || c == '\'' {
        if !inQuotes {
          inQuotes := true;
          quoteChar := c;
        } else if c == quoteChar {
          inQuotes := false;
        }
        currentArg := currentArg + [c];
      } else if c == '(' && !inQuotes {
        depth := depth + 1;
        currentArg := currentArg + [c];
      } else if c == ')' && !inQuotes {
        depth := depth - 1;
        currentArg := currentArg + [c];
      } else if c == ',' && depth == 0 && !inQuotes {
        assert (pieces + [currentArg])[..|pieces|] == pieces;
        args := args + [TrimSpace(currentArg)];
        pieces := pieces + [currentArg];
        currentArg := "";
      } else {
        currentArg := currentArg + [c];
      }
    }
    assert argsString[|argsString|..] == "";
    if |currentArg| > 0 {
      assert (pieces + [currentArg])[..|pieces|] == pieces;
      args := args + [TrimSpace(currentArg)];
    }
  }

  lemma {:induction false} RunConcat(st: Splitter, a: string, b: string)
    ensures Run(st, a + b) == Run(Run(st, a), b)
    decreases |a|
  {
    if a == "" {
      assert a + b == b;
    } else {
      assert (a + b)[1..] == a[1..] + b;
      RunConcat(Step(st, a[0]), a[1..], b);
    }
  }

  // ----- Nothing is lost: the pieces joined by commas are the text -----

  function Terminated(pieces: seq<string>): string {
    if pieces == [] then "" else Terminated(pieces[..|pieces| - 1]) + pieces[|pieces| - 1] + ","
  }

  function Consumed(st: Splitter): string { Terminated(st.pieces) + st.current }

  lemma StepConsumes(st: Splitter, c: char)
    ensures Consumed(Step(st, c)) == Consumed(st) + [c]
  {
  }

  lemma {:induction false} RunConsumes(st: Splitter, s: string)
    ensures Consumed(Run(st, s)) == Consumed(st) + s
    decreases |s|
  {
    if s == "" {
      assert Consumed(st) + s == Consumed(st);
    } else {
      StepConsumes(st, s[0]);
      RunConsumes(Step(st, s[0]), s[1..]);
      assert s == [s[0]] + s[1..];
      Assoc(Consumed(st), [s[0]], s[1..]);
    }
  }

  function Join(pieces: seq<string>): string {
    if pieces == [] then ""
    else if |pieces| == 1 then pieces[0]
    else Join(pieces[..|pieces| - 1]) + "," + pieces[|pieces| - 1]
  }

  lemma {:induction false} JoinTerminated(pieces: seq<string>)
    requires pieces != []
    ensures Join(pieces) == Terminated(pieces[..|pieces| - 1]) + pieces[|pieces| - 1]
    ensures Terminated(pieces) == Join(pieces) + ","
    decreases |pieces|
  {
    if |pieces| == 1 {
      assert Terminated(pieces[..0]) + pieces[0] == pieces[0];
    } else {
      JoinTerminated(pieces[..|pieces| - 1]);
    }
  }

  /** Joining the pieces with commas gives the text back, up to one trailing comma. */
  lemma PiecesConserveText(s: string)
    ensures s == Join(Pieces(s)) || s == Join(Pieces(s)) + ","
  {
    var st := Run(START, s);
    RunConsumes(START, s);
    assert Consumed(st) == s;
    if |st.current| > 0 {
      var all := st.pieces + [st.current];
      assert all[..|all| - 1] == st.pieces;
      JoinTerminated(all);
    } else if st.pieces != [] {
      JoinTerminated(st.pieces);
      assert Terminated(st.pieces) + "" == Terminated(st.pieces);
    }
  }

  // ----- Round trip -----

  /** How scanning `p` moves the nesting and the open quote; `None` if a comma would cut `p`. */
  function Scan(p: string, depth: int, quote: Option<char>): Option<(int, Option<char>)> {
    if p == "" then Some((depth, quote))
    else
      var c := p[0];
      if c == '"' || c == '\'' then
        Scan(p[1..], depth, if quote == None then Some(c) else if quote == Some(c) then None else quote)
      else if quote != None then Scan(p[1..], depth, quote)
      else if c == '(' then Scan(p[1..], depth + 1, quote)
      else if c == ')' then Scan(p[1..], depth - 1, quote)
      else if c == ',' && depth == 0 then None
      else Scan(p[1..], depth, quote)
  }

  /** A piece that leaves the splitter where it started and is not cut. */
  predicate Closed(p: string) { Scan(p, 0, None) == Some((0, None)) }

  lemma {:induction false} ScanConcat(a: string, b: string, depth: int, quote: Option<char>)
    requires Scan(a, depth, quote).Some?
    ensures Scan(a + b, depth, quote) == Scan(b, Scan(a, depth, quote).value.0, Scan(a, depth, quote).value.1)
    decreases |a|
  {
    if a == "" {
      assert a + b == b;
    } else {
      var c := a[0];
      assert (a + b)[1..] == a[1..] + b;
      if c == '"' || c == '\'' {
        ScanConcat(a[1..], b, depth, if quote == None then Some(c) else if quote == Some(c) then None else quote);
      } else {
        var down := if quote != None then 0 else if c == '(' then 1 else if c == ')' then -1 else 0;
        ScanConcat(a[1..], b, depth + down, quote);
      }
    }
  }

  lemma {:induction false} RunPiece(st: Splitter, p: string)
    requires Scan(p, st.depth, st.quote).Some?
    ensures var scan := Scan(p, st.depth, st.quote).value;
      Run(st, p) == Splitter(st.pieces, st.current + p, scan.0, scan.1)
    decreases |p|
  {
    if p == "" {
      assert st.current + p == st.current;
    } else {
      RunPiece(Step(st, p[0]), p[1..]);
      assert p == [p[0]] + p[1..];
      Assoc(st.current, [p[0]], p[1..]);
    }
  }

  predicate AllClosed(pieces: seq<string>) {
    forall i :: 0 <= i < |pieces| ==> Closed(pieces[i])
  }

  lemma {:induction false} RunJoined(pieces: seq<string>)
    requires pieces != [] && AllClosed(pieces)
    ensures Run(START, Join(pieces)) == Splitter(pieces[..|pieces| - 1], pieces[|pieces| - 1], 0, None)
    decreases |pieces|
  {
    var last := pieces[|pieces| - 1];
    if |pieces| == 1 {
      RunPiece(START, last);
      assert "" + last == last;
    } else {
      var init := pieces[..|pieces| - 1];
      RunJoined(init);
      var before := Run(START, Join(init));
      RunConcat(START, Join(init), ",");
      RunConcat(START, Join(init) + ",", last);
      var next := Splitter(init, "", 0, None);
      assert Run(before, ",") == next by {
        assert ","[1..] == "" && init[..|init| - 1] + [init[|init| - 1]] == init;
      }
      RunPiece(next, last);
      assert "" + last == last;
    }
  }

  function WithoutEmptyLast(pieces: seq<string>): seq<string> {
    if pieces != [] && pieces[|pieces| - 1] == "" then pieces[..|pieces| - 1] else pieces
  }

  lemma PiecesOfJoined(pieces: seq<string>)
    requires AllClosed(pieces)
    ensures Pieces(Join(pieces)) == WithoutEmptyLast(pieces)
  {
    if pieces != [] {
      RunJoined(pieces);
      var init, last := pieces[..|pieces| - 1], pieces[|pieces| - 1];
      assert pieces == init + [last];
      PiecesAfter(Join(pieces), init, last);
    }
  }

  lemma PiecesAfter(s: string, done: seq<string>, last: string)
    requires Run(START, s) == Splitter(done, last, 0, None)
    ensures Pieces(s) == if last == "" then done else done + [last]
  {
  }

  /** Splitting a comma-joined list gives the trimmed pieces back; an empty last piece is dropped. */
  lemma SplitRoundTrip(pieces: seq<string>)
    requires AllClosed(pieces)
    ensures Split(Join(pieces)) == TrimAll(WithoutEmptyLast(pieces))
  {
    PiecesOfJoined(pieces);
  }

  // ----- Parentheses counted over the arguments -----

  function Parens(s: string): nat { multiset(s)['('] }

  function ParensIn(parts: seq<string>): nat {
    if parts == [] then 0 else ParensIn(parts[..|parts| - 1]) + Parens(parts[|parts| - 1])
  }

  lemma {:induction false} TerminatedParens(pieces: seq<string>)
    ensures Parens(Terminated(pieces)) == ParensIn(pieces)
    decreases |pieces|
  {
    if pieces != [] {
      TerminatedParens(pieces[..|pieces| - 1]);
    }
  }

  lemma TrimParens(s: string)
    ensures Parens(TrimSpace(s)) == Parens(s)
  {
    var left, right := TrimSplits(s);
    SpaceHasNoParens(left);
    SpaceHasNoParens(right);
    assert multiset(s) == multiset(left + TrimSpace(s) + right);
  }

  lemma SpaceHasNoParens(s: string)
    requires AllSpace(s)
    ensures Parens(s) == 0
  {
  }

  lemma {:induction false} TrimAllParens(pieces: seq<string>)
    ensures ParensIn(TrimAll(pieces)) == ParensIn(pieces)
    decreases |pieces|
  {
    if pieces != [] {
      var init, last := pieces[..|pieces| - 1], pieces[|pieces| - 1];
      TrimAllParens(init);
      TrimParens(last);
      assert TrimAll(pieces)[..|pieces| - 1] == TrimAll(init);
    }
  }

  /** Every opening parenthesis of the list ends up in exactly one argument. */
  lemma SplitKeepsParens(s: string)
    ensures ParensIn(Split(s)) == Parens(s)
  {
    var st := Run(START, s);
    RunConsumes(START, s);
    assert Consumed(st) == s;
    TerminatedParens(st.pieces);
    TrimAllParens(Pieces(s));
    if |st.current| > 0 {
      assert Pieces(s)[..|st.pieces|] == st.pieces;
    }
  }

  /** No argument is longer than the list. */
  lemma {:induction false} PiecesShorter(st: Splitter, s: string)
    ensures var z := Run(st, s);
      |z.current| <= |st.current| + |s| && |st.pieces| <= |z.pieces|
      && forall i :: |st.pieces| <= i < |z.pieces| ==> |z.pieces[i]| <= |st.current| + |s|
    ensures Run(st, s).pieces[..|st.pieces|] == st.pieces
    decreases |s|
  {
    if s != "" {
      PiecesShorter(Step(st, s[0]), s[1..]);
    }
  }

  lemma SplitShorter(s: string)
    ensures forall i :: 0 <= i < |Split(s)| ==> |Split(s)[i]| <= |s|
  {
    PiecesShorter(START, s);
  }
}
