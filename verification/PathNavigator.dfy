/** `PathNavigator`: parsing paths such as `items[0].name` and following them through values. */
module PathNavigator {
  import opened Logic
  import opened Integers

  datatype Segment = Field(name: string) | Index(index: int) | IndexExpr(expr: string)

  datatype PathError = NestedBracket(at: nat) | UnexpectedClose(at: nat) | EmptyBracket(at: nat) | UnclosedBracket

  /** Go appends `string(b)` for every byte `b` of the path; a byte from 0x80 on becomes a two-byte sequence.
      Characters stand for bytes here, so codes above 255 do not occur. */
  function Reencode(c: char): string {
    var b := c as int;
    if b < 128 then [c] else [(0xC0 + (b / 64) % 4) as char, (0x80 + b % 64) as char]
  }

  function ReencodeAll(s: string): string {
    if s == "" then "" else ReencodeAll(s[..|s| - 1]) + Reencode(s[|s| - 1])
  }

  predicate Ascii(s: string) {
    forall i :: 0 <= i < |s| ==> s[i] as int < 128
  }

  // ----- Parsing -----

  /** The scanner's variables. */
  datatype Scan = Scan(segments: seq<Segment>, current: string, inBracket: bool, bracket: string)

  function Flush(st: Scan): seq<Segment> {
    if st.current != "" then st.segments + [Field(st.current)] else st.segments
  }

  function BracketSegment(content: string): Segment {
    match Atoi(content)
    case Some(n) => Index(n)
    case None => IndexExpr(content)
  }

  function Step(st: Scan, c: char, at: nat): Result<Scan, PathError> {
    if c == '.' then
      if st.inBracket then Ok(st.(bracket := st.bracket + "."))
      else Ok(st.(segments := Flush(st), current := ""))
    else if c == '[' then
      if st.inBracket then Err(NestedBracket(at))
      else Ok(Scan(Flush(st), "", true, ""))
    else if c == ']' then
      if !st.inBracket then Err(UnexpectedClose(at))
      else if st.bracket == "" then Err(EmptyBracket(at))
      else Ok(Scan(st.segments + [BracketSegment(st.bracket)], st.current, false, ""))
    else if st.inBracket then Ok(st.(bracket := st.bracket + Reencode(c)))
    else Ok(st.(current := st.current + Reencode(c)))
  }

  function Run(st: Scan, s: string, at: nat): Result<Scan, PathError>
    decreases |s|
  {
    if s == "" then Ok(st)
    else
      match Step(st, s[0], at)
      case Err(e) => Err(e)
      case Ok(next) => Run(next, s[1..], at + 1)
  }

  function Finish(st: Scan): Result<seq<Segment>, PathError> {
    if st.inBracket then Err(UnclosedBracket) else Ok(Flush(st))
  }

  const START := Scan([], "", false, "")

  function Parse(path: string): Result<seq<Segment>, PathError> {
    match Run(START, path, 0)
    case Err(e) => Err(e)
    case Ok(st) => Finish(st)
  }

  method ParsePathSegments(path: string) returns (r: Result<seq<Segment>, PathError>)
    ensures r == Parse(path)
  {
    var segments: seq<Segment> := [];
    var current := "";
    var inBracket := false;
    var bracketContent := "";
    for i := 0 to |path|
      invariant Run(START, path, 0) == Run(Scan(segments, current, inBracket, bracketContent), path[i..], i)
    {
      var c := path[i];
      assert path[i..][0] == c && path[i..][1..] == path[i + 1..];
      if c == '.' {
        if inBracket {
          bracketContent := bracketContent + [c];
        } else if current != "" {
          segments := segments + [Field(current)];
          current := "";
        }
      } else if c == '[' {
        if inBracket {
          return Err(NestedBracket(i));
        }
        if current != "" {
          segments := segments + [Field(current)];
          current := "";
        }
        inBracket := true;
        bracketContent := "";
      } else if c == ']' {
        if !inBracket {
          return Err(UnexpectedClose(i));
        }
        if bracketContent == "" {
          return Err(EmptyBracket(i));
        }
        var index := Atoi(bracketContent);
        if index.Some? {
          segments := segments + [Index(index.value)];
        } else {
          segments := segments + [IndexExpr(bracketContent)];
        }
        inBracket := false;
        bracketContent := "";
      } else if inBracket {
        bracketContent := bracketContent + Reencode(c);
      } else {
        current := current + Reencode(c);
      }
    }
    assert path[|path|..] == "";
    if inBracket {
      return Err(UnclosedBracket);
    }
    if current != "" {
      segments := segments + [Field(current)];
    }
    return Ok(segments);
  }

  lemma {:induction false} RunConcat(st: Scan, a: string, b: string, at: nat)
    ensures Run(st, a + b, at) == (match Run(st, a, at) case Err(e) => Err(e) case Ok(z) => Run(z, b, at + |a|))
    decreases |a|
  {
    if a == "" {
      assert a + b == b;
    } else {
      assert (a + b)[1..] == a[1..] + b;
      match Step(st, a[0], at)
      case Err(_) =>
      case Ok(z) => RunConcat(z, a[1..], b, at + 1);
    }
  }

  // ----- Printing -----

  predicate NoBrackets(s: string) { '[' !in s && ']' !in s }

  predicate PlainName(s: string) {
    s != "" && '.' !in s && '[' !in s && ']' !in s
  }

  /** Segments that have a written form of their own. */
  predicate SegmentOk(seg: Segment) {
    match seg
    case Field(name) => PlainName(name)
    case Index(n) => MIN_INT <= n <= MAX_INT
    case IndexExpr(e) => e != "" && '[' !in e && ']' !in e && Atoi(e) == None
  }

  predicate SegmentsOk(segs: seq<Segment>) {
    forall i :: 0 <= i < |segs| ==> SegmentOk(segs[i])
  }

  function PrintSegment(seg: Segment, first: bool): string {
    match seg
    case Field(name) => (if first then "" else ".") + name
    case Index(n) => "[" + IntText(n) + "]"
    case IndexExpr(e) => "[" + e + "]"
  }

  function Print(segs: seq<Segment>): string {
    if segs == [] then "" else Print(segs[..|segs| - 1]) + PrintSegment(segs[|segs| - 1], |segs| == 1)
  }

  function Recoded(seg: Segment): Segment {
    match seg
    case Field(name) => Field(ReencodeAll(name))
    case Index(n) => Index(n)
    case IndexExpr(e) => IndexExpr(ReencodeAll(e))
  }

  function RecodedAll(segs: seq<Segment>): (r: seq<Segment>)
    ensures |r| == |segs| && forall i :: 0 <= i < |segs| ==> r[i] == Recoded(segs[i])
  {
    if segs == [] then [] else RecodedAll(segs[..|segs| - 1]) + [Recoded(segs[|segs| - 1])]
  }

  lemma {:induction false} RunName(st: Scan, name: string, at: nat)
    requires !st.inBracket && '.' !in name && '[' !in name && ']' !in name
    ensures Run(st, name, at) == Ok(st.(current := st.current + ReencodeAll(name)))
    decreases |name|
  {
    if name == "" {
      assert st.current + "" == st.current;
    } else {
      var init, last := name[..|name| - 1], name[|name| - 1];
      assert name == init + [last];
      RunName(st, init, at);
      RunConcat(st, init, [last], at);
      Assoc(st.current, ReencodeAll(init), Reencode(last));
    }
  }

  lemma {:induction false} RunBracket(st: Scan, e: string, at: nat)
    requires st.inBracket && '[' !in e && ']' !in e
    ensures Run(st, e, at) == Ok(st.(bracket := st.bracket + ReencodeAll(e)))
    decreases |e|
  {
    if e == "" {
      assert st.bracket + "" == st.bracket;
    } else {
      var init, last := e[..|e| - 1], e[|e| - 1];
      assert e == init + [last];
      RunBracket(st, init, at);
      RunConcat(st, init, [last], at);
      Assoc(st.bracket, ReencodeAll(init), Reencode(last));
    }
  }

  lemma {:induction false} ReencodeAscii(s: string)
    requires Ascii(s)
    ensures ReencodeAll(s) == s
    decreases |s|
  {
    if s != "" {
      var init, last := s[..|s| - 1], s[|s| - 1];
      assert s == init + [last];
      assert Ascii(init) && Reencode(last) == [last];
      ReencodeAscii(init);
    }
  }

  /** Other texts grow, and stay outside ASCII. */
  lemma {:induction false} ReencodeGrows(s: string)
    ensures |ReencodeAll(s)| >= |s|
    ensures !Ascii(s) ==> !Ascii(ReencodeAll(s)) && |ReencodeAll(s)| > |s|
    decreases |s|
  {
    if s != "" {
      var init, last := s[..|s| - 1], s[|s| - 1];
      assert s == init + [last];
      ReencodeGrows(init);
      var done := ReencodeAll(init);
      if last as int >= 128 {
        assert (done + Reencode(last))[|done|] as int >= 128;
      } else if !Ascii(init) {
        var k :| 0 <= k < |done| && done[k] as int >= 128;
        assert (done + Reencode(last))[k] as int >= 128;
      }
    }
  }

  lemma AtoiIsAscii(s: string)
    requires Atoi(s).Some?
    ensures Ascii(s)
  {
  }

  lemma BracketReadsBack(seg: Segment, content: string)
    requires SegmentOk(seg)
    requires (seg.Index? && content == IntText(seg.index)) || (seg.IndexExpr? && content == seg.expr)
    ensures NoBrackets(content) && ReencodeAll(content) != ""
    ensures BracketSegment(ReencodeAll(content)) == Recoded(seg)
  {
    assert content != "" && NoBrackets(content) by {
      if seg.Index? {
        IntTextPlain(seg.index);
      }
    }
    ReencodeGrows(content);
    ReencodedNumber(content);
  }

  lemma IntTextPlain(n: int)
    ensures NoBrackets(IntText(n)) && IntText(n) != ""
  {
  }

  /** Re-encoding neither changes a number nor makes one. */
  lemma ReencodedNumber(s: string)
    ensures Atoi(ReencodeAll(s)) == Atoi(s)
  {
    if Ascii(s) {
      ReencodeAscii(s);
    } else {
      ReencodeGrows(s);
      assert Atoi(s) == None by {
        if Atoi(s).Some? {
          AtoiIsAscii(s);
        }
      }
      if Atoi(ReencodeAll(s)).Some? {
        AtoiIsAscii(ReencodeAll(s));
      }
    }
  }

  /** Between segments: `segs` have been read and no bracket is open. */
  predicate Idle(st: Scan, segs: seq<Segment>) {
    !st.inBracket && st.bracket == "" && Flush(st) == segs
  }

  /** A name read right after a separator, or at the start, becomes a field. */
  lemma RunField(st: Scan, name: string, at: nat)
    requires Idle(st, st.segments) && PlainName(name)
    ensures Run(st, name, at).Ok? && Idle(Run(st, name, at).value, st.segments + [Field(ReencodeAll(name))])
  {
    RunName(st, name, at);
    ReencodeGrows(name);
    assert st.current + ReencodeAll(name) == ReencodeAll(name);
  }

  lemma RunDottedField(st: Scan, name: string, at: nat)
    requires Idle(st, Flush(st)) && PlainName(name)
    ensures Run(st, "." + name, at).Ok?
    ensures Idle(Run(st, "." + name, at).value, Flush(st) + [Field(ReencodeAll(name))])
  {
    RunField(Scan(Flush(st), "", false, ""), name, at + 1);
    assert ("." + name)[1..] == name;
  }

  /** Scanning one printed segment adds that segment. */
  lemma RunSegment(st: Scan, segs: seq<Segment>, seg: Segment, at: nat)
    requires Idle(st, segs) && SegmentOk(seg) && (segs == [] ==> st == START)
    ensures var r := Run(st, PrintSegment(seg, segs == []), at); r.Ok? && Idle(r.value, segs + [Recoded(seg)])
  {
    match seg
    case Field(name) =>
      if segs == [] {
        RunField(st, name, at);
        assert "" + name == name;
      } else {
        RunDottedField(st, name, at);
      }
    case Index(n) => RunBracketSegment(st, seg, IntText(n), at);
    case IndexExpr(e) => RunBracketSegment(st, seg, e, at);
  }

  lemma RunBracketSegment(st: Scan, seg: Segment, content: string, at: nat)
    requires Idle(st, Flush(st)) && SegmentOk(seg)
    requires (seg.Index? && content == IntText(seg.index)) || (seg.IndexExpr? && content == seg.expr)
    ensures Run(st, "[" + content + "]", at) == Ok(Scan(Flush(st) + [Recoded(seg)], "", false, ""))
  {
    BracketReadsBack(seg, content);
    RunOpenBracket(st, content, at);
    RunConcat(st, "[" + content, "]", at);
    assert "]"[1..] == "";
  }

  lemma RunOpenBracket(st: Scan, content: string, at: nat)
    requires Idle(st, Flush(st)) && NoBrackets(content)
    ensures Run(st, "[" + content, at) == Ok(Scan(Flush(st), "", true, ReencodeAll(content)))
  {
    var open := Scan(Flush(st), "", true, "");
    assert Run(st, "[", at) == Ok(open) by {
      assert "["[1..] == "";
    }
    RunConcat(st, "[", content, at);
    RunBracket(open, content, at + 1);
    assert "" + ReencodeAll(content) == ReencodeAll(content);
  }

  predicate Reads(text: string, segs: seq<Segment>) {
    var r := Run(START, text, 0);
    r.Ok? && Idle(r.value, segs)
  }

  lemma ReadsNext(text: string, segs: seq<Segment>, seg: Segment)
    requires Reads(text, segs) && SegmentOk(seg) && (segs == [] ==> text == "")
    ensures Reads(text + PrintSegment(seg, segs == []), segs + [Recoded(seg)])
  {
    var st := Run(START, text, 0).value;
    RunSegment(st, segs, seg, |text|);
    RunConcat(START, text, PrintSegment(seg, segs == []), 0);
  }

  lemma {:induction false} ReadsPrinted(segs: seq<Segment>)
    requires SegmentsOk(segs)
    ensures Reads(Print(segs), RecodedAll(segs))
    decreases |segs|
  {
    if segs != [] {
      var init, last := segs[..|segs| - 1], segs[|segs| - 1];
      ReadsPrinted(init);
      ReadsNext(Print(init), RecodedAll(init), last);
      assert Print(segs) == Print(init) + PrintSegment(last, RecodedAll(init) == []);
    }
  }

  /** Parsing a printed segment list gives it back, with every byte from 0x80 on re-encoded. */
  lemma PathRoundTrip(segs: seq<Segment>)
    requires SegmentsOk(segs)
    ensures Parse(Print(segs)) == Ok(RecodedAll(segs))
  {
    ReadsPrinted(segs);
  }

  predicate AsciiSegment(seg: Segment) {
    match seg
    case Field(name) => Ascii(name)
    case Index(_) => true
    case IndexExpr(e) => Ascii(e)
  }

  lemma RecodedExact(seg: Segment)
    ensures Recoded(seg) == seg <==> AsciiSegment(seg)
  {
    match seg
    case Field(name) =>
      ReencodeGrows(name);
      if Ascii(name) { ReencodeAscii(name); }
    case Index(_) =>
    case IndexExpr(e) =>
      ReencodeGrows(e);
      if Ascii(e) { ReencodeAscii(e); }
  }

  lemma RecodedAllExact(segs: seq<Segment>)
    ensures RecodedAll(segs) == segs <==> forall i :: 0 <= i < |segs| ==> AsciiSegment(segs[i])
  {
    forall i | 0 <= i < |segs|
      ensures RecodedAll(segs)[i] == segs[i] <==> AsciiSegment(segs[i])
    {
      RecodedExact(segs[i]);
    }
  }

  /** The round trip is exact on exactly the segment lists that are written in ASCII. */
  lemma PathRoundTripExact(segs: seq<Segment>)
    requires SegmentsOk(segs)
    ensures Parse(Print(segs)) == Ok(segs) <==> forall i :: 0 <= i < |segs| ==> AsciiSegment(segs[i])
  {
    PathRoundTrip(segs);
    RecodedAllExact(segs);
  }

  // ----- Everything the parser returns is printable -----

  predicate ScanOk(st: Scan) {
    && SegmentsOk(st.segments)
    && NoBrackets(st.current) && '.' !in st.current
    && NoBrackets(st.bracket)
  }

  lemma StepOk(st: Scan, c: char, at: nat)
    requires ScanOk(st) && Step(st, c, at).Ok?
    ensures ScanOk(Step(st, c, at).value)
  {
  }

  lemma {:induction false} RunOk(st: Scan, s: string, at: nat)
    requires ScanOk(st) && Run(st, s, at).Ok?
    ensures ScanOk(Run(st, s, at).value)
    decreases |s|
  {
    if s != "" {
      StepOk(st, s[0], at);
      RunOk(Step(st, s[0], at).value, s[1..], at + 1);
    }
  }

  predicate ScanAscii(st: Scan) {
    && Ascii(st.current) && Ascii(st.bracket)
    && forall i :: 0 <= i < |st.segments| ==> AsciiSegment(st.segments[i])
  }

  lemma {:induction false} RunAscii(st: Scan, s: string, at: nat)
    requires ScanAscii(st) && Ascii(s) && Run(st, s, at).Ok?
    ensures ScanAscii(Run(st, s, at).value)
    decreases |s|
  {
    if s != "" {
      assert Reencode(s[0]) == [s[0]];
      RunAscii(Step(st, s[0], at).value, s[1..], at + 1);
    }
  }

  /** The byte 0x80 as a field name does not come back. */
  lemma HighByteChanges()
    ensures Parse(Print([Field([128 as char])])) != Ok([Field([128 as char])])
  {
    var segs := [Field([128 as char])];
    assert SegmentOk(segs[0]);
    assert !AsciiSegment(segs[0]) by {
      assert [128 as char][0] as int >= 128;
    }
    PathRoundTripExact(segs);
  }

  /** Printing what was parsed is a normal form: it parses to the same segments, for every ASCII path that parses. */
  lemma ParsedPathsNormalize(path: string)
    requires Parse(path).Ok?
    ensures SegmentsOk(Parse(path).value)
    ensures Ascii(path) ==> Parse(Print(Parse(path).value)) == Parse(path)
  {
    RunOk(START, path, 0);
    if Ascii(path) {
      RunAscii(START, path, 0);
      PathRoundTripExact(Parse(path).value);
    }
  }

  // ----- Joining paths -----

  function Shift(e: PathError, shift: nat): PathError {
    match e
    case NestedBracket(at) => NestedBracket(at + shift)
    case UnexpectedClose(at) => UnexpectedClose(at + shift)
    case EmptyBracket(at) => EmptyBracket(at + shift)
    case UnclosedBracket => UnclosedBracket
  }

  /** Segments already collected do not influence the rest of the scan. */
  lemma {:induction false} RunAfter(pre: seq<Segment>, st: Scan, s: string, at: nat, shift: nat)
    ensures Run(st.(segments := pre + st.segments), s, at + shift)
         == match Run(st, s, at)
            case Err(e) => Err(Shift(e, shift))
            case Ok(z) => Ok(z.(segments := pre + z.segments))
    decreases |s|
  {
    if s != "" {
      var c := s[0];
      Assoc(pre, st.segments, [Field(st.current)]);
      Assoc(pre, st.segments, [BracketSegment(st.bracket)]);
      assert Step(st.(segments := pre + st.segments), c, at + shift)
          == match Step(st, c, at)
             case Err(e) => Err(Shift(e, shift))
             case Ok(z) => Ok(z.(segments := pre + z.segments));
      match Step(st, c, at)
      case Err(_) =>
      case Ok(z) => RunAfter(pre, z, s[1..], at + 1, shift);
    }
  }

  /** `p.q` parses to the segments of `p` followed by those of `q`. */
  lemma PathsConcatenate(p: string, q: string)
    requires Parse(p).Ok?
    ensures Parse(p + "." + q)
         == match Parse(q)
            case Err(e) => Err(Shift(e, |p| + 1))
            case Ok(segs) => Ok(Parse(p).value + segs)
  {
    var st := Run(START, p, 0).value;
    var pre := Flush(st);
    assert p + "." + q == p + ("." + q);
    RunConcat(START, p, "." + q, 0);
    RunBracketEmpty(START, p, 0);
    assert ("." + q)[1..] == q;
    var mid := Scan(pre, "", false, "");
    assert Run(st, "." + q, |p|) == Run(mid, q, |p| + 1);
    assert mid == START.(segments := pre + START.segments);
    RunAfter(pre, START, q, 0, |p| + 1);
    if Run(START, q, 0).Ok? {
      var z := Run(START, q, 0).value;
      Assoc(pre, z.segments, [Field(z.current)]);
    }
  }

  /** Outside brackets no bracket content is left over. */
  lemma {:induction false} RunBracketEmpty(st: Scan, s: string, at: nat)
    requires Run(st, s, at).Ok? && (!st.inBracket ==> st.bracket == "")
    ensures var z := Run(st, s, at).value; !z.inBracket ==> z.bracket == ""
    decreases |s|
  {
    if s != "" {
      RunBracketEmpty(Step(st, s[0], at).value, s[1..], at + 1);
    }
  }
}
