/** Which paths the parser refuses, where and why, and how it writes single bytes. */
module PathErrors {
  import opened Logic
  import opened PathNavigator

  /** The last bracket before position `i` is an opening one. */
  predicate OpenBefore(path: string, i: nat)
    requires i <= |path|
  {
    exists k :: 0 <= k < i && path[k] == '[' && forall j :: k < j < i ==> path[j] != '[' && path[j] != ']'
  }

  /** What is wrong with the character at `i`, seen from the brackets before it. */
  function Fault(path: string, i: nat): Option<PathError>
    requires i < |path|
  {
    if path[i] == '[' && OpenBefore(path, i) then Some(NestedBracket(i))
    else if path[i] == ']' && !OpenBefore(path, i) then Some(UnexpectedClose(i))
    else if path[i] == ']' && path[i - 1] == '[' then Some(EmptyBracket(i))
    else None
  }

  predicate NoFault(path: string, n: nat)
    requires n <= |path|
  {
    forall i :: 0 <= i < n ==> Fault(path, i) == None
  }

  lemma OpenStep(path: string, i: nat)
    requires i < |path|
    ensures OpenBefore(path, i + 1) <==> path[i] == '[' || (path[i] != ']' && OpenBefore(path, i))
  {
    if path[i] != '[' && path[i] != ']' && OpenBefore(path, i) {
      var k :| 0 <= k < i && path[k] == '[' && forall j :: k < j < i ==> path[j] != '[' && path[j] != ']';
      assert forall j :: k < j < i + 1 ==> path[j] != '[' && path[j] != ']';
    }
  }

  /** The scanner after a part of the path without a fault. */
  predicate Tracks(path: string, i: nat, st: Scan)
    requires i <= |path|
  {
    && st.inBracket == OpenBefore(path, i)
    && (st.inBracket ==> i > 0 && (st.bracket == "" <==> path[i - 1] == '['))
  }

  lemma StepFault(path: string, i: nat, st: Scan)
    requires i < |path| && Tracks(path, i, st)
    ensures var r := Step(st, path[i], i);
      match Fault(path, i)
      case Some(e) => r == Err(e)
      case None => r.Ok? && Tracks(path, i + 1, r.value)
  {
    OpenStep(path, i);
  }

  lemma {:induction false} RunFault(path: string, i: nat, st: Scan)
    requires i <= |path| && Tracks(path, i, st) && NoFault(path, i)
    ensures var r := Run(st, path[i..], i);
      && (r.Ok? ==> NoFault(path, |path|) && Tracks(path, |path|, r.value))
      && (r.Err? ==> exists k :: 0 <= k < |path| && NoFault(path, k) && Fault(path, k) == Some(r.error))
    decreases |path| - i
  {
    if i < |path| {
      StepFault(path, i, st);
      assert path[i..][0] == path[i] && path[i..][1..] == path[i + 1..];
      if Fault(path, i) == None {
        RunFault(path, i + 1, Step(st, path[i], i).value);
      } else {
        assert NoFault(path, i);
      }
    } else {
      assert path[i..] == "";
    }
  }

  /** A path is refused at the first character that is at fault, with its fault; without any, it is refused if and only
      if its last bracket is an opening one. */
  lemma RefusedExact(path: string)
    ensures Parse(path).Ok? <==> NoFault(path, |path|) && !OpenBefore(path, |path|)
    ensures Parse(path) == Err(UnclosedBracket) <==> NoFault(path, |path|) && OpenBefore(path, |path|)
    ensures forall k :: 0 <= k < |path| && NoFault(path, k) && Fault(path, k) != None ==>
      Parse(path) == Err(Fault(path, k).value)
  {
    RunFault(path, 0, START);
    assert path[0..] == path;
    if Run(START, path, 0).Err? {
      var e := Run(START, path, 0).error;
      var i :| 0 <= i < |path| && NoFault(path, i) && Fault(path, i) == Some(e);
      forall k | 0 <= k < |path| && NoFault(path, k) && Fault(path, k) != None
        ensures k == i
      {
      }
    }
  }

  /** A byte is taken for a code point and written in UTF-8. */
  lemma ReencodeIsUtf8(b: int)
    requires 0 <= b < 256
    ensures b < 128 ==> Reencode(b as char) == [b as char]
    ensures b >= 128 ==> var r := Reencode(b as char);
      |r| == 2 && 0xC0 <= r[0] as int < 0xE0 && 0x80 <= r[1] as int < 0xC0
      && (r[0] as int - 0xC0) * 64 + (r[1] as int - 0x80) == b
  {
  }
}
