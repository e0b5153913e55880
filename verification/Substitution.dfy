/** `replaceVariablesInString`: replacing variable paths inside a text by their values. */
module Substitution {
  import opened Logic
  import opened PathNavigator
  import opened Navigation

  predicate IsVarStart(c: char) { 'a' <= c <= 'z' || 'A' <= c <= 'Z' || c == '_' }

  predicate IsWord(c: char) { IsVarStart(c) || '0' <= c <= '9' }

  predicate WordAt(str: string, i: int) { 0 <= i < |str| && IsWord(str[i]) }

  predicate DottedAt(str: string, i: nat) { i + 1 < |str| && str[i] == '.' && IsVarStart(str[i + 1]) }

  /** Where the run of word characters from `i` on ends. */
  function WordEnd(str: string, i: nat): (end: nat)
    requires i <= |str|
    ensures i <= end <= |str| && !WordAt(str, end)
    ensures WordAt(str, i) <==> i < end
    decreases |str| - i
  {
    if WordAt(str, i) then WordEnd(str, i + 1) else i
  }

  /** Where the run of `.identifier` parts from `i` on ends. */
  function DottedEnd(str: string, i: nat): (end: nat)
    requires i <= |str| && !WordAt(str, i)
    ensures i <= end <= |str| && !WordAt(str, end)
    decreases |str| - i
  {
    if DottedAt(str, i) then DottedEnd(str, WordEnd(str, i + 1)) else i
  }

  /** Where the longest path `identifier.identifier...` from `i` on ends. */
  function PathEnd(str: string, i: nat): (end: nat)
    requires i <= |str|
    ensures i <= end <= |str| && !WordAt(str, end)
    ensures WordAt(str, i) ==> i < end
  {
    DottedEnd(str, WordEnd(str, i))
  }

  lemma Extend(str: string, start: nat, i: nat)
    requires start <= i < |str|
    ensures str[start..i] + [str[i]] == str[start..i + 1]
  {
  }

  method ScanVariablePath(str: string, start: nat) returns (path: string)
    requires start <= |str|
    ensures path == str[start..PathEnd(str, start)]
  {
    var i := start;
    path := "";
    while i < |str| && IsWord(str[i])
      invariant start <= i <= |str| && path == str[start..i]
      invariant WordEnd(str, start) == WordEnd(str, i)
    {
      Extend(str, start, i);
      path := path + Reencode(str[i]);
      i := i + 1;
    }
    while i < |str|
      invariant start <= i <= |str| && path == str[start..i]
      invariant !WordAt(str, i) && PathEnd(str, start) == DottedEnd(str, i)
    {
      if str[i] == '.' {
        if i + 1 < |str| && IsVarStart(str[i + 1]) {
          ghost var dot := i;
          Extend(str, start, i);
          path := path + ".";
          i := i + 1;
          while i < |str| && IsWord(str[i])
            invariant dot < i <= |str| && path == str[start..i]
            invariant WordEnd(str, dot + 1) == WordEnd(str, i)
          {
            Extend(str, start, i);
            path := path + Reencode(str[i]);
            i := i + 1;
          }
        } else {
          break;
        }
      } else {
        break;
      }
    }
  }

  /** Looking a path up: `ResolveVariablePath` for given variables. */
  type Resolver = string -> Option<Value>

  /** How a value is written into the text (`formatValueForString`), kept abstract. */
  type ValueText = Value -> string

  function ResolveVariablePath(path: string, vars: Variables, key: KeyText): Option<Value> {
    if '.' !in path then
      if path in vars then Some(vars[path]) else None
    else
      match Navigate(path, vars, key)
      case Err(_) => None
      case Ok(v) => Some(v)
  }

  function ResolverFor(vars: Variables, key: KeyText): Resolver {
    (path: string) => ResolveVariablePath(path, vars, key)
  }

  predicate ResolvesAt(str: string, i: nat, resolve: Resolver)
    requires i < |str|
  {
    IsVarStart(str[i]) && resolve(str[i..PathEnd(str, i)]).Some?
  }

  /** The text from the word boundary `i` on after substitution. Where a word begins, the longest path is tried;
      if it does not resolve, its first word is kept and the text after that word is treated the same way. */
  function Subst(str: string, i: nat, resolve: Resolver, show: ValueText): string
    requires i <= |str|
    decreases |str| - i
  {
    if i == |str| then ""
    else if ResolvesAt(str, i, resolve) then
      var end := PathEnd(str, i);
      show(resolve(str[i..end]).value) + Subst(str, end, resolve, show)
    else
      var end := WordEnd(str, i);
      if i < end then str[i..end] + Subst(str, end, resolve, show)
      else Reencode(str[i]) + Subst(str, i + 1, resolve, show)
  }

  function SubstituteAll(str: string, resolve: Resolver, show: ValueText): string {
    Subst(str, 0, resolve, show)
  }

  /** What is still to come at any index: inside a word, the rest of the word is kept. */
  function Rest(str: string, i: nat, resolve: Resolver, show: ValueText): string
    requires i <= |str|
  {
    if WordAt(str, i - 1) then str[i..WordEnd(str, i)] + Subst(str, WordEnd(str, i), resolve, show)
    else Subst(str, i, resolve, show)
  }

  lemma RestReplaced(str: string, i: nat, resolve: Resolver, show: ValueText)
    requires i < |str| && !WordAt(str, i - 1) && ResolvesAt(str, i, resolve)
    ensures var end := PathEnd(str, i);
      Rest(str, i, resolve, show) == show(resolve(str[i..end]).value) + Rest(str, end, resolve, show)
  {
  }

  lemma RestKept(str: string, i: nat, resolve: Resolver, show: ValueText)
    requires i < |str| && !(!WordAt(str, i - 1) && ResolvesAt(str, i, resolve))
    ensures Rest(str, i, resolve, show) == Reencode(str[i]) + Rest(str, i + 1, resolve, show)
  {
    var end := WordEnd(str, i);
    var rest := Subst(str, end, resolve, show);
    if WordAt(str, i) {
      assert str[i..end] == Reencode(str[i]) + str[i + 1..end];
      Assoc(Reencode(str[i]), str[i + 1..end], rest);
      assert Rest(str, i + 1, resolve, show) == str[i + 1..end] + rest;
    } else {
      assert str[i..end] + rest == rest;
      assert Rest(str, i + 1, resolve, show) == Subst(str, i + 1, resolve, show);
    }
  }

  /** The source's loop from index `i` on, with `done` already produced. */
  ghost function Loop(str: string, i: nat, done: string, resolve: Resolver, show: ValueText): string
    requires i <= |str|
    decreases |str| - i
  {
    if i == |str| then done
    else if !WordAt(str, i - 1) && ResolvesAt(str, i, resolve) then
      var end := PathEnd(str, i);
      Loop(str, end, done + show(resolve(str[i..end]).value), resolve, show)
    else Loop(str, i + 1, done + Reencode(str[i]), resolve, show)
  }

  lemma {:induction false} LoopProducesRest(str: string, i: nat, done: string, resolve: Resolver, show: ValueText)
    requires i <= |str|
    ensures Loop(str, i, done, resolve, show) == done + Rest(str, i, resolve, show)
    decreases |str| - i
  {
    if i == |str| {
      assert Rest(str, i, resolve, show) == "" && done + "" == done;
    } else if !WordAt(str, i - 1) && ResolvesAt(str, i, resolve) {
      var end := PathEnd(str, i);
      var text := show(resolve(str[i..end]).value);
      RestReplaced(str, i, resolve, show);
      LoopProducesRest(str, end, done + text, resolve, show);
      Assoc(done, text, Rest(str, end, resolve, show));
    } else {
      RestKept(str, i, resolve, show);
      LoopProducesRest(str, i + 1, done + Reencode(str[i]), resolve, show);
      Assoc(done, Reencode(str[i]), Rest(str, i + 1, resolve, show));
    }
  }

  /** The check for a word boundary after the path can never fail, since the path is as long as possible. */
  method ReplaceVariablesInString(str: string, resolve: Resolver, show: ValueText) returns (result: string)
    ensures result == SubstituteAll(str, resolve, show)
  {
    result := "";
    var i := 0;
    while i < |str|
      invariant 0 <= i <= |str|
      invariant Loop(str, 0, "", resolve, show) == Loop(str, i, result, resolve, show)
    {
      if IsVarStart(str[i]) {
        var path := ScanVariablePath(str, i);
        var pathEnd := i + |path|;
        var beforeOK := i == 0 || !IsWord(str[i - 1]);
        var afterOK := pathEnd >= |str| || !IsWord(str[pathEnd]);
        assert afterOK;
        if beforeOK && afterOK && path != "" {
          var value := resolve(path);
          if value.Some? {
            result := result + show(value.value);
            i := pathEnd;
            continue;
          }
        }
      }
      result := result + Reencode(str[i]);
      i := i + 1;
    }
    LoopProducesRest(str, 0, "", resolve, show);
  }
}
