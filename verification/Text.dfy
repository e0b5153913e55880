/** String primitives the expression package takes from Go's `strings` package. */
module Text {

  /** The white space that `strings.TrimSpace` removes (Go's `unicode.IsSpace`). */
  predicate IsSpace(c: char) {
    || c in {'\t', '\n', '\U{000B}', '\U{000C}', '\r', ' ', '\U{0085}', '\U{00A0}'}
    || c in {'\U{1680}', '\U{2028}', '\U{2029}', '\U{202F}', '\U{205F}', '\U{3000}'}
    || '\U{2000}' <= c <= '\U{200A}'
  }

  /** The same by code point. */
  lemma SpaceCodes(c: char)
    ensures IsSpace(c) <==>
      || 9 <= c as int <= 13 || c as int in {32, 0x85, 0xA0, 0x1680, 0x2028, 0x2029, 0x202F, 0x205F, 0x3000}
      || 0x2000 <= c as int <= 0x200A
  {
  }

  predicate AllSpace(s: string) {
    forall i :: 0 <= i < |s| ==> IsSpace(s[i])
  }

  predicate Trimmed(s: string) {
    s != "" ==> !IsSpace(s[0]) && !IsSpace(s[|s| - 1])
  }

  function TrimSpace(s: string): (r: string)
    ensures Trimmed(r)
    ensures |r| <= |s|
    decreases |s|
  {
    if s == "" then ""
    else if IsSpace(s[0]) then TrimSpace(s[1..])
    else if IsSpace(s[|s| - 1]) then TrimSpace(s[..|s| - 1])
    else s
  }

  /** Trimming undoes any padding of a trimmed word. */
  lemma {:induction false} TrimPadded(left: string, word: string, right: string)
    requires AllSpace(left) && Trimmed(word) && AllSpace(right)
    ensures TrimSpace(left + word + right) == word
    decreases |left| + |right|
  {
    var s := left + word + right;
    if left != "" {
      assert s[1..] == left[1..] + word + right;
      TrimPadded(left[1..], word, right);
    } else if right != "" {
      if word == "" {
        assert s[1..] == left + word + right[1..];
        TrimPadded(left, word, right[1..]);
      } else {
        assert s[0] == word[0] && s[|s| - 1] == right[|right| - 1];
        assert s[..|s| - 1] == left + word + right[..|right| - 1];
        TrimPadded(left, word, right[..|right| - 1]);
      }
    } else {
      assert s == word;
    }
  }

  lemma TrimNothing(s: string)
    requires Trimmed(s)
    ensures TrimSpace(s) == s
  {
  }

  /** Trimming only removes padding, so it keeps the word in the middle of the text. */
  lemma {:induction false} TrimSplits(s: string) returns (left: string, right: string)
    ensures s == left + TrimSpace(s) + right
    ensures AllSpace(left) && AllSpace(right)
    decreases |s|
  {
    left, right := "", "";
    if s == "" {
    } else if IsSpace(s[0]) {
      var l, r := TrimSplits(s[1..]);
      left, right := [s[0]] + l, r;
      assert s == [s[0]] + s[1..];
    } else if IsSpace(s[|s| - 1]) {
      var l, r := TrimSplits(s[..|s| - 1]);
      left, right := l, r + [s[|s| - 1]];
      assert s == s[..|s| - 1] + [s[|s| - 1]];
    }
  }

  predicate HasPrefix(s: string, prefix: string) {
    prefix <= s
  }

  function Spaces(n: nat): (s: string)
    ensures |s| == n && forall i :: 0 <= i < n ==> s[i] == ' '
  {
    seq(n, _ => ' ')
  }
}
