/** What substitution does to a text: it works piece by piece between separators, resolves a dotted path exactly
    as navigation does, and leaves a text alone only under exact conditions. */
module SubstitutionLaws {
  import opened Logic
  import opened PathNavigator
  import opened Navigation
  import opened Substitution

  // ----- Substitution splits at separators -----

  /** No word or path goes on into the text: it begins neither with a word character nor with a dot that an
      identifier follows. */
  predicate Cuts(tail: string) {
    tail != "" && !IsWord(tail[0]) && !DottedAt(tail, 0)
  }

  lemma {:induction false} WordEndBefore(a: string, tail: string, i: nat)
    requires i <= |a| && Cuts(tail)
    ensures WordEnd(a + tail, i) == WordEnd(a, i)
    decreases |a| - i
  {
    if WordAt(a, i) {
      WordEndBefore(a, tail, i + 1);
    }
  }

  lemma {:induction false} DottedEndBefore(a: string, tail: string, i: nat)
    requires i <= |a| && !WordAt(a, i) && Cuts(tail)
    ensures !WordAt(a + tail, i) && DottedEnd(a + tail, i) == DottedEnd(a, i)
    decreases |a| - i
  {
    if DottedAt(a, i) {
      WordEndBefore(a, tail, i + 1);
      DottedEndBefore(a, tail, WordEnd(a, i + 1));
    }
  }

  lemma {:induction false} WordEndAfter(pre: string, b: string, j: nat)
    requires j <= |b|
    ensures WordEnd(pre + b, |pre| + j) == |pre| + WordEnd(b, j)
    decreases |b| - j
  {
    if WordAt(b, j) {
      WordEndAfter(pre, b, j + 1);
    }
  }

  lemma {:induction false} DottedEndAfter(pre: string, b: string, j: nat)
    requires j <= |b| && !WordAt(b, j)
    ensures !WordAt(pre + b, |pre| + j) && DottedEnd(pre + b, |pre| + j) == |pre| + DottedEnd(b, j)
    decreases |b| - j
  {
    if DottedAt(b, j) {
      WordEndAfter(pre, b, j + 1);
      DottedEndAfter(pre, b, WordEnd(b, j + 1));
    }
  }

  /** Where the substitution goes on after the word, path or character at `i`. */
  function Jump(str: string, i: nat, resolve: Resolver): (end: nat)
    requires i < |str|
    ensures i < end <= |str|
  {
    if ResolvesAt(str, i, resolve) then PathEnd(str, i) else if WordAt(str, i) then WordEnd(str, i) else i + 1
  }

  /** What is written for it. */
  function Piece(str: string, i: nat, resolve: Resolver, show: ValueText): string
    requires i < |str|
  {
    if ResolvesAt(str, i, resolve) then show(resolve(str[i..PathEnd(str, i)]).value)
    else if WordAt(str, i) then str[i..WordEnd(str, i)]
    else Reencode(str[i])
  }

  lemma SubstStep(str: string, i: nat, resolve: Resolver, show: ValueText, end: nat, piece: string)
    requires i < |str| && end == Jump(str, i, resolve) && piece == Piece(str, i, resolve, show)
    ensures Subst(str, i, resolve, show) == piece + Subst(str, end, resolve, show)
  {
  }

  lemma SliceBefore(a: string, tail: string, i: nat, j: nat)
    requires i <= j <= |a|
    ensures (a + tail)[i..j] == a[i..j]
  {
  }

  lemma SliceAfter(pre: string, b: string, i: nat, j: nat)
    requires i <= j <= |b|
    ensures (pre + b)[|pre| + i..|pre| + j] == b[i..j]
  {
  }

  lemma StepBefore(a: string, tail: string, i: nat, resolve: Resolver, show: ValueText)
    requires i < |a| && Cuts(tail)
    ensures Jump(a + tail, i, resolve) == Jump(a, i, resolve)
    ensures Piece(a + tail, i, resolve, show) == Piece(a, i, resolve, show)
  {
    WordEndBefore(a, tail, i);
    DottedEndBefore(a, tail, WordEnd(a, i));
    SliceBefore(a, tail, i, PathEnd(a, i));
    SliceBefore(a, tail, i, WordEnd(a, i));
  }

  lemma EndsAfter(pre: string, b: string, j: nat)
    requires j < |b|
    ensures WordEnd(pre + b, |pre| + j) == |pre| + WordEnd(b, j) && PathEnd(pre + b, |pre| + j) == |pre| + PathEnd(b, j)
  {
    WordEndAfter(pre, b, j);
    DottedEndAfter(pre, b, WordEnd(b, j));
  }

  lemma StepAfter(pre: string, b: string, j: nat, resolve: Resolver, show: ValueText)
    requires j < |b|
    ensures Jump(pre + b, |pre| + j, resolve) == |pre| + Jump(b, j, resolve)
    ensures Piece(pre + b, |pre| + j, resolve, show) == Piece(b, j, resolve, show)
  {
    EndsAfter(pre, b, j);
    SliceAfter(pre, b, j, PathEnd(b, j));
    SliceAfter(pre, b, j, WordEnd(b, j));
  }

  lemma FirstAfter(pre: string, b: string, j: nat, resolve: Resolver, show: ValueText)
    requires j < |b|
    ensures Subst(pre + b, |pre| + j, resolve, show)
         == Piece(b, j, resolve, show) + Subst(pre + b, |pre| + Jump(b, j, resolve), resolve, show)
  {
    StepAfter(pre, b, j, resolve, show);
    SubstStep(pre + b, |pre| + j, resolve, show, |pre| + Jump(b, j, resolve), Piece(b, j, resolve, show));
  }

  lemma {:induction false} SubstAfter(pre: string, b: string, j: nat, resolve: Resolver, show: ValueText)
    requires j <= |b|
    ensures Subst(pre + b, |pre| + j, resolve, show) == Subst(b, j, resolve, show)
    decreases |b| - j
  {
    if j < |b| {
      FirstAfter(pre, b, j, resolve, show);
      SubstStep(b, j, resolve, show, Jump(b, j, resolve), Piece(b, j, resolve, show));
      SubstAfter(pre, b, Jump(b, j, resolve), resolve, show);
    }
  }

  lemma {:induction false} SubstBefore(a: string, tail: string, i: nat, resolve: Resolver, show: ValueText)
    requires i <= |a| && Cuts(tail)
    ensures Subst(a + tail, i, resolve, show) == Subst(a, i, resolve, show) + Subst(a + tail, |a|, resolve, show)
    decreases |a| - i
  {
    var rest := Subst(a + tail, |a|, resolve, show);
    if i == |a| {
      assert "" + rest == rest;
    } else {
      StepBefore(a, tail, i, resolve, show);
      SubstStep(a + tail, i, resolve, show, Jump(a, i, resolve), Piece(a, i, resolve, show));
      SubstStep(a, i, resolve, show, Jump(a, i, resolve), Piece(a, i, resolve, show));
      SubstBefore(a, tail, Jump(a, i, resolve), resolve, show);
      Assoc(Piece(a, i, resolve, show), Subst(a, Jump(a, i, resolve), resolve, show), rest);
    }
  }

  /** A character that is not part of a word or path separates: both sides are substituted independently. That is
      every character other than letters, digits, underscores, and dots in front of an identifier. */
  lemma SubstitutionSplits(a: string, c: char, b: string, resolve: Resolver, show: ValueText)
    requires !IsWord(c) && (c == '.' ==> b == "" || !IsVarStart(b[0]))
    ensures SubstituteAll(a + [c] + b, resolve, show)
         == SubstituteAll(a, resolve, show) + Reencode(c) + SubstituteAll(b, resolve, show)
  {
    var tail := [c] + b;
    Assoc(a, [c], b);
    SubstBefore(a, tail, 0, resolve, show);
    SubstAfter(a, tail, 0, resolve, show);
    SubstAfter([c], b, 0, resolve, show);
    assert WordEnd(tail, 0) == 0;
    assert Subst(tail, 0, resolve, show) == Reencode(c) + Subst(tail, 1, resolve, show);
    Assoc(SubstituteAll(a, resolve, show), Reencode(c), SubstituteAll(b, resolve, show));
  }

  // ----- Dotted paths resolve as navigation does -----

  lemma {:induction false} WordIsPlain(str: string, i: nat, k: nat)
    requires i <= |str| && i <= k < WordEnd(str, i)
    ensures IsWord(str[k])
    decreases k - i
  {
    if k > i {
      WordIsPlain(str, i + 1, k);
    }
  }

  lemma ParseWord(str: string, i: nat)
    requires WordAt(str, i)
    ensures Parse(str[i..WordEnd(str, i)]) == Ok([Field(str[i..WordEnd(str, i)])])
  {
    var word := str[i..WordEnd(str, i)];
    forall k | 0 <= k < |word|
      ensures IsWord(word[k])
    {
      WordIsPlain(str, i, i + k);
    }
    var segs := [Field(word)];
    PathRoundTripExact(segs);
    assert segs[..0] == [];
    assert Print(segs) == word;
  }

  /** The identifiers of the longest path at `i`. */
  function Components(str: string, i: nat): (names: seq<string>)
    requires WordAt(str, i)
    ensures names != [] && names[0] == str[i..WordEnd(str, i)]
    decreases |str| - i
  {
    var w := WordEnd(str, i);
    [str[i..w]] + if DottedAt(str, w) then Components(str, w + 1) else []
  }

  function Fields(names: seq<string>): (segs: seq<Segment>)
    ensures |segs| == |names| && forall i :: 0 <= i < |names| ==> segs[i] == Field(names[i])
  {
    seq(|names|, i requires 0 <= i < |names| => Field(names[i]))
  }

  lemma DottedPathSplits(str: string, i: nat)
    requires WordAt(str, i) && DottedAt(str, WordEnd(str, i))
    ensures var w, end := WordEnd(str, i), PathEnd(str, i);
      end == PathEnd(str, w + 1) && str[i..end] == str[i..w] + "." + str[w + 1..end]
  {
  }

  lemma {:induction false} ScannedPathParses(str: string, i: nat)
    requires WordAt(str, i)
    ensures Parse(str[i..PathEnd(str, i)]) == Ok(Fields(Components(str, i)))
    decreases |str| - i
  {
    var w := WordEnd(str, i);
    ParseWord(str, i);
    if DottedAt(str, w) {
      ScannedPathParses(str, w + 1);
      var name, rest := str[i..w], str[w + 1..PathEnd(str, w + 1)];
      assert str[i..PathEnd(str, i)] == name + "." + rest by {
        DottedPathSplits(str, i);
      }
      FieldsJoined(name, rest, Components(str, w + 1));
    } else {
      OneField(str[i..w]);
    }
  }

  lemma FieldsJoined(name: string, rest: string, names: seq<string>)
    requires Parse(name) == Ok([Field(name)]) && Parse(rest) == Ok(Fields(names))
    ensures Parse(name + "." + rest) == Ok(Fields([name] + names))
  {
    PathsConcatenate(name, rest);
    FieldsInFront(name, names);
  }

  lemma OneField(name: string)
    ensures Fields([name] + []) == [Field(name)]
  {
  }

  lemma FieldsInFront(name: string, names: seq<string>)
    ensures Fields([name] + names) == [Field(name)] + Fields(names)
  {
  }

  lemma DotInPath(str: string, i: nat)
    requires WordAt(str, i)
    ensures '.' in str[i..PathEnd(str, i)] <==> DottedAt(str, WordEnd(str, i))
  {
    var w := WordEnd(str, i);
    if DottedAt(str, w) {
      DottedPathSplits(str, i);
    } else {
      forall k | i <= k < w
        ensures str[k] != '.'
      {
        WordIsPlain(str, i, k);
      }
    }
  }

  /** When the longest path at a word start is found: a single word must be a variable; a dotted path is found when
      navigation succeeds, and that includes every dotted path whose first word is not a variable. */
  lemma ResolvesExactly(str: string, i: nat, vars: Variables, key: KeyText)
    requires WordAt(str, i)
    ensures var r := ResolveVariablePath(str[i..PathEnd(str, i)], vars, key);
      var names := Components(str, i);
      if !DottedAt(str, WordEnd(str, i)) then r == if names[0] in vars then Some(vars[names[0]]) else None
      else if names[0] !in vars then r == Some(Null)
      else
        var walk := Walk(vars[names[0]], Fields(names)[1..], 1, vars, key);
        r == if walk.Ok? then Some(walk.value) else None
  {
    ScannedPathParses(str, i);
    DotInPath(str, i);
  }

  // ----- When a text is left alone -----

  function ReencodeFrom(str: string, i: nat): string
    requires i <= |str|
    decreases |str| - i
  {
    if i == |str| then "" else Reencode(str[i]) + ReencodeFrom(str, i + 1)
  }

  lemma {:induction false} ReencodeWord(str: string, i: nat)
    requires i <= |str|
    ensures ReencodeFrom(str, i) == str[i..WordEnd(str, i)] + ReencodeFrom(str, WordEnd(str, i))
    decreases |str| - i
  {
    var end := WordEnd(str, i);
    if WordAt(str, i) {
      ReencodeWord(str, i + 1);
      assert str[i..end] == [str[i]] + str[i + 1..end];
      Assoc([str[i]], str[i + 1..end], ReencodeFrom(str, end));
    } else {
      assert str[i..end] + ReencodeFrom(str, end) == ReencodeFrom(str, end);
    }
  }

  lemma {:induction false} ReencodeFromExact(str: string, i: nat)
    requires i <= |str|
    ensures |ReencodeFrom(str, i)| >= |str| - i
    ensures ReencodeFrom(str, i) == str[i..] <==> Ascii(str[i..])
    ensures |ReencodeFrom(str, i)| == |str| - i ==> Ascii(str[i..])
    decreases |str| - i
  {
    if i < |str| {
      ReencodeFromExact(str, i + 1);
      assert str[i..] == [str[i]] + str[i + 1..];
      if str[i] as int >= 128 {
        assert !Ascii(str[i..]) by { assert str[i..][0] == str[i]; }
      }
    }
  }

  predicate WordStart(str: string, k: nat) {
    k < |str| && IsVarStart(str[k]) && !WordAt(str, k - 1)
  }

  /** No path that is tried resolves. */
  predicate NothingResolves(str: string, resolve: Resolver) {
    forall k :: 0 <= k < |str| && WordStart(str, k) ==> !ResolvesAt(str, k, resolve)
  }

  lemma {:induction false} KeepsEverything(str: string, i: nat, resolve: Resolver, show: ValueText)
    requires i <= |str| && NothingResolves(str, resolve) && !(WordAt(str, i - 1) && WordAt(str, i))
    ensures Subst(str, i, resolve, show) == ReencodeFrom(str, i)
    decreases |str| - i
  {
    if i < |str| {
      assert WordStart(str, i) ==> !ResolvesAt(str, i, resolve);
      if WordAt(str, i) {
        ReencodeWord(str, i);
        KeepsEverything(str, WordEnd(str, i), resolve, show);
      } else {
        KeepsEverything(str, i + 1, resolve, show);
      }
    }
  }

  /** Where nothing resolves, substitution is the identity exactly on ASCII texts. */
  lemma UnresolvedTextExact(str: string, resolve: Resolver, show: ValueText)
    requires NothingResolves(str, resolve)
    ensures SubstituteAll(str, resolve, show) == str <==> Ascii(str)
  {
    KeepsEverything(str, 0, resolve, show);
    ReencodeFromExact(str, 0);
    assert str[0..] == str;
  }

  /** No word of the text is the name of a variable. */
  predicate NamesNoVariable(str: string, vars: Variables) {
    forall k :: 0 <= k < |str| && WordStart(str, k) ==> str[k..WordEnd(str, k)] !in vars
  }

  predicate DottedPathAt(str: string, k: nat) {
    k < |str| && WordStart(str, k) && DottedAt(str, WordEnd(str, k))
  }

  predicate HasDottedPath(str: string, i: nat) {
    exists k :: i <= k < |str| && DottedPathAt(str, k)
  }

  function Dots(s: string): nat { multiset(s)['.'] }

  lemma DotsSplit(str: string, i: nat, end: nat)
    requires i <= end <= |str|
    ensures Dots(str[i..]) == Dots(str[i..end]) + Dots(str[end..])
  {
    assert str[i..] == str[i..end] + str[end..];
  }

  /** With no variable named, a dotted path is the only thing that resolves, and it resolves to null. */
  lemma UnnamedResolves(str: string, k: nat, vars: Variables, key: KeyText)
    requires k < |str| && WordStart(str, k) && NamesNoVariable(str, vars)
    ensures var r := ResolverFor(vars, key)(str[k..PathEnd(str, k)]);
      r == if DottedPathAt(str, k) then Some(Null) else None
  {
    ResolvesExactly(str, k, vars, key);
  }

  /** The dots inside the dotted paths from `i` on. */
  function PathDots(str: string, i: nat): nat
    requires i <= |str|
    decreases |str| - i
  {
    if i == |str| then 0
    else if DottedPathAt(str, i) then Dots(str[i..PathEnd(str, i)]) + PathDots(str, PathEnd(str, i))
    else PathDots(str, if WordAt(str, i) then WordEnd(str, i) else i + 1)
  }

  lemma {:induction false} DottedPathHasDots(str: string, i: nat)
    requires i <= |str| && HasDottedPath(str, i)
    ensures PathDots(str, i) > 0
    decreases |str| - i
  {
    if DottedPathAt(str, i) {
      DotInPath(str, i);
    } else {
      var end := if WordAt(str, i) then WordEnd(str, i) else i + 1;
      DottedPathLater(str, i, end);
      DottedPathHasDots(str, end);
    }
  }

  /** The piece written for a dotted path has no dot, and every other piece has those of the text. */
  lemma PieceDots(str: string, i: nat, vars: Variables, key: KeyText, show: ValueText)
    requires i < |str| && NamesNoVariable(str, vars) && !(WordAt(str, i - 1) && WordAt(str, i)) && '.' !in show(Null)
    ensures var resolve := ResolverFor(vars, key);
      var piece, end := Piece(str, i, resolve, show), Jump(str, i, resolve);
      if DottedPathAt(str, i) then Dots(piece) == 0 && end == PathEnd(str, i)
      else Dots(piece) == Dots(str[i..end]) && end == if WordAt(str, i) then WordEnd(str, i) else i + 1
  {
    if WordStart(str, i) {
      UnnamedResolves(str, i, vars, key);
    } else {
      assert str[i..i + 1] == [str[i]];
    }
  }

  /** In a text that names no variable, substitution removes exactly the dots of the dotted paths. */
  lemma {:induction false} DotsRemoved(str: string, i: nat, vars: Variables, key: KeyText, show: ValueText)
    requires i <= |str| && NamesNoVariable(str, vars) && !(WordAt(str, i - 1) && WordAt(str, i)) && '.' !in show(Null)
    ensures Dots(Subst(str, i, ResolverFor(vars, key), show)) + PathDots(str, i) == Dots(str[i..])
    decreases |str| - i
  {
    if i < |str| {
      var resolve := ResolverFor(vars, key);
      var end := Jump(str, i, resolve);
      SubstStep(str, i, resolve, show, end, Piece(str, i, resolve, show));
      DotsSplit(str, i, end);
      PieceDots(str, i, vars, key, show);
      JumpEndsWord(str, i, resolve);
      DotsRemoved(str, end, vars, key, show);
    }
  }

  lemma JumpEndsWord(str: string, i: nat, resolve: Resolver)
    requires i < |str| && !(WordAt(str, i - 1) && WordAt(str, i))
    ensures var end := Jump(str, i, resolve); !(WordAt(str, end - 1) && WordAt(str, end))
  {
  }

  lemma DottedPathLater(str: string, i: nat, end: nat)
    requires i < |str| && !DottedPathAt(str, i)
    requires end == if WordAt(str, i) then WordEnd(str, i) else i + 1
    ensures HasDottedPath(str, i) ==> HasDottedPath(str, end)
  {
    if HasDottedPath(str, i) {
      var k :| i <= k < |str| && DottedPathAt(str, k);
      if i < k < end {
        WordIsPlain(str, i, k - 1);
      }
      assert end <= k;
    }
  }

  /** A text that names no variable is still rewritten where it contains a dotted path: the path is navigated from a
      missing root, found to be null, and replaced. Such a text is left alone exactly when it is ASCII and has none. */
  lemma UnnamedTextExact(str: string, vars: Variables, key: KeyText, show: ValueText)
    requires NamesNoVariable(str, vars) && '.' !in show(Null)
    ensures SubstituteAll(str, ResolverFor(vars, key), show) == str <==> Ascii(str) && !HasDottedPath(str, 0)
  {
    var resolve := ResolverFor(vars, key);
    assert str[0..] == str;
    if HasDottedPath(str, 0) {
      DotsRemoved(str, 0, vars, key, show);
      DottedPathHasDots(str, 0);
    } else {
      forall k | 0 <= k < |str| && WordStart(str, k)
        ensures !ResolvesAt(str, k, resolve)
      {
        UnnamedResolves(str, k, vars, key);
        assert !DottedPathAt(str, k);
      }
      UnresolvedTextExact(str, resolve, show);
    }
  }

  /** Such a text is `a.b`: with no variables at all, it is not left alone. */
  lemma DottedTextRewritten(key: KeyText, show: ValueText)
    requires '.' !in show(Null)
    ensures SubstituteAll("a.b", ResolverFor(map[], key), show) != "a.b"
  {
    var str := "a.b";
    assert WordEnd(str, 1) == 1 && WordEnd(str, 0) == 1;
    assert DottedAt(str, 1);
    assert DottedPathAt(str, 0);
    UnnamedTextExact(str, map[], key, show);
  }
}
