/** Where an argument list is cut, stated over positions of the text, for every text. */
module ArgumentCuts {
  import opened Logic
  import opened Text
  import opened ArgumentSplitter

  /** The quote that is open before position `n`: a quote character opens one if none is open, and closes its own. */
  function QuoteAt(s: string, n: nat): (quote: Option<char>)
    requires n <= |s|
    ensures quote.Some? ==> quote.value == '"' || quote.value == '\''
  {
    if n == 0 then None
    else
      match QuoteAt(s, n - 1)
      case None => if s[n - 1] == '"' || s[n - 1] == '\'' then Some(s[n - 1]) else None
      case Some(q) => if s[n - 1] == q then None else Some(q)
  }

  /** Opening minus closing parentheses outside quotes before position `n`. */
  function DepthAt(s: string, n: nat): int
    requires n <= |s|
  {
    if n == 0 then 0
    else if QuoteAt(s, n - 1).Some? then DepthAt(s, n - 1)
    else DepthAt(s, n - 1) + if s[n - 1] == '(' then 1 else if s[n - 1] == ')' then -1 else 0
  }

  predicate IsCut(s: string, i: nat)
    requires i < |s|
  {
    s[i] == ',' && DepthAt(s, i) == 0 && QuoteAt(s, i) == None
  }

  /** Where the piece that goes on at position `n` begins. */
  function PieceStart(s: string, n: nat): (start: nat)
    requires n <= |s|
    ensures start <= n
  {
    if n == 0 then 0 else if IsCut(s, n - 1) then n else PieceStart(s, n - 1)
  }

  /** The texts between the cuts before position `n`. */
  function Between(s: string, n: nat): seq<string>
    requires n <= |s|
  {
    if n == 0 then []
    else if IsCut(s, n - 1) then Between(s, n - 1) + [s[PieceStart(s, n - 1)..n - 1]]
    else Between(s, n - 1)
  }

  lemma {:induction false} RunCuts(s: string, n: nat)
    requires n <= |s|
    ensures Run(START, s[..n]) == Splitter(Between(s, n), s[PieceStart(s, n)..n], DepthAt(s, n), QuoteAt(s, n))
  {
    if n == 0 {
      assert s[..0] == "";
    } else {
      RunCuts(s, n - 1);
      TakeOneMore(s, n);
      RunConcat(START, s[..n - 1], [s[n - 1]]);
      RunOne(Run(START, s[..n - 1]), s[n - 1]);
      StepCuts(s, n, Run(START, s[..n - 1]));
    }
  }

  lemma StepCuts(s: string, n: nat, st: Splitter)
    requires 0 < n <= |s|
    requires st == Splitter(Between(s, n - 1), s[PieceStart(s, n - 1)..n - 1], DepthAt(s, n - 1), QuoteAt(s, n - 1))
    ensures Step(st, s[n - 1]) == Splitter(Between(s, n), s[PieceStart(s, n)..n], DepthAt(s, n), QuoteAt(s, n))
  {
    var start, c, z := PieceStart(s, n - 1), s[n - 1], Step(st, s[n - 1]);
    assert s[start..n - 1] + [c] == s[start..n] && s[n..n] == "";
    assert z.quote == QuoteAt(s, n);
    assert z.depth == DepthAt(s, n);
    assert z.pieces == Between(s, n);
    assert z.current == s[PieceStart(s, n)..n];
  }

  lemma RunOne(st: Splitter, c: char)
    ensures Run(st, [c]) == Step(st, c)
  {
    assert [c][1..] == "";
  }

  /** Every text is cut at exactly the commas outside parentheses and quotes. Parentheses need not be balanced nor
      quotes closed, and an empty rest after the last cut is no argument. */
  lemma SplitExact(s: string)
    ensures var last := s[PieceStart(s, |s|)..];
      Pieces(s) == Between(s, |s|) + (if last == "" then [] else [last])
  {
    RunCuts(s, |s|);
    assert s[..|s|] == s && s[PieceStart(s, |s|)..|s|] == s[PieceStart(s, |s|)..];
  }
}
