/** What a text that is one path becomes, and which stretch of a text is taken for a path. */
module PathSubstitution {
  import opened Logic
  import opened PathNavigator
  import opened Navigation
  import opened Substitution
  import opened SubstitutionLaws

  /** Identifiers begin with an ASCII letter or an underscore; words have digits as well. */
  lemma WordCharacters(c: char)
    ensures IsVarStart(c) <==> 65 <= c as int <= 90 || 97 <= c as int <= 122 || c as int == 95
    ensures IsWord(c) <==> IsVarStart(c) || 48 <= c as int <= 57
  {
  }

  /** Words joined by single dots, where every word after a dot begins like an identifier. */
  predicate DottedName(p: string) {
    p != "" && IsWord(p[0]) && forall k :: 0 <= k < |p| ==> FitsAt(p, k)
  }

  predicate FitsAt(p: string, k: nat)
    requires k < |p|
  {
    IsWord(p[k]) || (p[k] == '.' && k + 1 < |p| && IsVarStart(p[k + 1]))
  }

  lemma {:induction false} DottedEndPlain(str: string, i: nat, k: nat)
    requires i <= |str| && !WordAt(str, i) && i <= k < DottedEnd(str, i)
    ensures IsWord(str[k]) || (DottedAt(str, k) && k + 1 < DottedEnd(str, i))
    decreases |str| - i
  {
    var w := WordEnd(str, i + 1);
    if i < k < w {
      WordIsPlain(str, i + 1, k);
    } else if k >= w {
      DottedEndPlain(str, w, k);
    }
  }

  lemma {:induction false} DottedEndStops(str: string, i: nat)
    requires i <= |str| && !WordAt(str, i)
    ensures !DottedAt(str, DottedEnd(str, i))
    decreases |str| - i
  {
    if DottedAt(str, i) {
      DottedEndStops(str, WordEnd(str, i + 1));
    }
  }

  /** What is scanned at the start of a word is a dotted name, and no longer stretch of the text is one. */
  lemma LongestPath(str: string, i: nat, e: nat)
    requires WordAt(str, i) && i < e <= |str|
    ensures DottedName(str[i..PathEnd(str, i)])
    ensures e > PathEnd(str, i) ==> !DottedName(str[i..e])
  {
    var w, end := WordEnd(str, i), PathEnd(str, i);
    forall k | i <= k < end
      ensures IsWord(str[k]) || (DottedAt(str, k) && k + 1 < end)
    {
      if k < w {
        WordIsPlain(str, i, k);
      } else {
        DottedEndPlain(str, w, k);
      }
    }
    forall k | 0 <= k < end - i
      ensures FitsAt(str[i..end], k)
    {
      assert str[i..end][k] == str[i + k];
    }
    DottedEndStops(str, w);
    if e > end {
      var p, k := str[i..e], end - i;
      assert p[k] == str[end];
      assert !FitsAt(p, k);
    }
  }

  /** A text that is one path: it becomes the text of its value if it resolves. If not, a single word is kept, and of a
      dotted path the first word and its dot are kept and the rest is tried as a path of its own. */
  lemma PathSubstituted(str: string, resolve: Resolver, show: ValueText, word: string, rest: string)
    requires str != "" && IsVarStart(str[0]) && PathEnd(str, 0) == |str|
    requires '.' !in word && (str == word || str == word + "." + rest)
    ensures resolve(str).Some? ==> SubstituteAll(str, resolve, show) == show(resolve(str).value)
    ensures resolve(str).None? && str == word ==> SubstituteAll(str, resolve, show) == word
    ensures resolve(str).None? && str == word + "." + rest ==>
      SubstituteAll(str, resolve, show) == word + "." + SubstituteAll(rest, resolve, show)
  {
    assert str[0..PathEnd(str, 0)] == str;
    if resolve(str).Some? {
      SubstStep(str, 0, resolve, show, |str|, show(resolve(str).value));
      assert show(resolve(str).value) + "" == show(resolve(str).value);
    } else {
      FirstWordEnds(str, word, rest);
      FirstWordKept(str, word, resolve, show);
      if str == word {
        assert word + "" == word;
      } else {
        RestTried(str, word, rest, resolve, show);
      }
    }
  }

  lemma FirstWordKept(str: string, word: string, resolve: Resolver, show: ValueText)
    requires str != "" && WordAt(str, 0) && !ResolvesAt(str, 0, resolve)
    requires WordEnd(str, 0) == |word| && word <= str
    ensures SubstituteAll(str, resolve, show) == word + Subst(str, |word|, resolve, show)
  {
    assert str[0..|word|] == word;
    SubstStep(str, 0, resolve, show, |word|, word);
  }

  lemma RestTried(str: string, word: string, rest: string, resolve: Resolver, show: ValueText)
    requires str == word + "." + rest
    ensures word + Subst(str, |word|, resolve, show) == word + "." + SubstituteAll(rest, resolve, show)
  {
    assert str[|word|] == '.' && !WordAt(str, |word|) && Reencode('.') == ".";
    SubstStep(str, |word|, resolve, show, |word| + 1, ".");
    SubstAfter(word + ".", rest, 0, resolve, show);
    Assoc(word, ".", SubstituteAll(rest, resolve, show));
  }

  /** A word that begins with a digit is no variable. */
  lemma DigitWordKept(str: string, resolve: Resolver, show: ValueText)
    requires str != "" && '0' <= str[0] <= '9' && forall k :: 0 <= k < |str| ==> IsWord(str[k])
    ensures SubstituteAll(str, resolve, show) == str
  {
    assert WordEnd(str, 0) == |str|;
    SubstStep(str, 0, resolve, show, |str|, str[0..|str|]);
    assert str[0..|str|] + "" == str;
  }

  lemma FirstWordEnds(str: string, word: string, rest: string)
    requires str != "" && IsVarStart(str[0]) && PathEnd(str, 0) == |str|
    requires '.' !in word && (str == word || str == word + "." + rest)
    ensures WordEnd(str, 0) == |word|
  {
    var w := WordEnd(str, 0);
    if w < |str| {
      assert DottedAt(str, w);
      assert str[w] == '.';
    }
    forall k | 0 <= k < w
      ensures str[k] != '.'
    {
      WordIsPlain(str, 0, k);
    }
    if str != word {
      assert str[|word|] == '.';
    }
  }
}
