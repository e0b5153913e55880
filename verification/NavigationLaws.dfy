/** What a path leads to, stated over the values it passes, and where and why it cannot be followed. */
module NavigationLaws {
  import opened Logic
  import opened Integers
  import opened PathNavigator
  import opened Navigation

  /** The field of an object, or null if it has no such field. */
  predicate FieldIs(v: Value, field: string, w: Value) {
    v.Object? && (if field in v.fields then w == v.fields[field] else w == Null)
  }

  predicate ItemIs(v: Value, index: int, w: Value) {
    v.List? && 0 <= index < |v.items| && w == v.items[index]
  }

  /** The number without its fraction. */
  predicate WholePart(r: real, n: int) {
    if r >= 0.0 then n as real <= r < n as real + 1.0 else n as real - 1.0 < r <= n as real
  }

  /** A variable's value used as an index into a list: a number without its fraction, or the text of an integer. */
  predicate Indexes(v: Value, n: int) {
    (v.Number? && WholePart(v.n, n)) || (v.Str? && Atoi(v.s) == Some(n))
  }

  /** Following one segment from `v` gives `w`. */
  ghost predicate Leads(v: Value, seg: Segment, vars: Variables, key: KeyText, w: Value) {
    match seg
    case Field(name) => FieldIs(v, name, w)
    case Index(n) => ItemIs(v, n, w)
    case IndexExpr(e) =>
      e in vars && (FieldIs(v, key(vars[e]), w) || exists n :: Indexes(vars[e], n) && ItemIs(v, n, w))
  }

  /** An item outside the list. */
  predicate Outside(v: Value, n: int, cause: AccessError) {
    v.List? && !(0 <= n < |v.items|) && cause == OutOfBounds(n, |v.items|)
  }

  /** The segment cannot be followed from `v`, for this reason. */
  ghost predicate Stops(v: Value, seg: Segment, vars: Variables, cause: AccessError) {
    if v == Null then cause == OnNull
    else
      match seg
      case Field(_) => !v.Object? && cause == NotAnObject
      case Index(n) => Outside(v, n, cause) || (!v.List? && cause == NotAList)
      case IndexExpr(e) =>
        if e !in vars then cause == UnknownVariable(e)
        else if v.List? then
          || (exists n :: Indexes(vars[e], n) && Outside(v, n, cause))
          || ((forall n :: !Indexes(vars[e], n)) && cause == NotAnIndex)
        else !v.Object? && cause == NotIndexable
  }

  lemma TruncateIsWholePart(r: real, n: int)
    ensures WholePart(r, n) <==> n == Truncate(r)
  {
  }

  lemma NumberIndexes(v: Value, n: int)
    requires v.Number?
    ensures Indexes(v, n) <==> n == Truncate(v.n)
  {
    TruncateIsWholePart(v.n, n);
  }

  lemma DynamicExact(v: Value, e: string, vars: Variables, key: KeyText)
    requires e in vars && v.List?
    ensures forall w :: DynamicAccess(v, e, vars, key) == Ok(w) <==> exists n :: Indexes(vars[e], n) && ItemIs(v, n, w)
    ensures forall cause :: DynamicAccess(v, e, vars, key) == Err(cause) <==> Stops(v, IndexExpr(e), vars, cause)
  {
    var index := vars[e];
    if index.Number? {
      forall n
        ensures Indexes(index, n) <==> n == Truncate(index.n)
      {
        NumberIndexes(index, n);
      }
      assert Indexes(index, Truncate(index.n));
    } else if index.Str? && Atoi(index.s).Some? {
      assert Indexes(index, Atoi(index.s).value);
    }
  }

  /** One segment: the value it leads to, or the reason why it leads nowhere. */
  lemma FollowExact(v: Value, seg: Segment, vars: Variables, key: KeyText)
    ensures forall w :: Follow(v, seg, vars, key) == Ok(w) <==> Leads(v, seg, vars, key, w)
    ensures forall cause :: Follow(v, seg, vars, key) == Err(cause) <==> Stops(v, seg, vars, cause)
  {
    if seg.IndexExpr? && seg.expr in vars && v.List? {
      DynamicExact(v, seg.expr, vars, key);
    }
  }

  /** The values passed on the way, from `v` to `w`. */
  ghost predicate Trail(values: seq<Value>, v: Value, segs: seq<Segment>, vars: Variables, key: KeyText, w: Value) {
    && |values| == |segs| + 1 && values[0] == v && values[|segs|] == w
    && forall i :: 0 <= i < |segs| ==> Leads(values[i], segs[i], vars, key, values[i + 1])
  }

  ghost predicate Reaches(v: Value, segs: seq<Segment>, vars: Variables, key: KeyText, w: Value) {
    exists values :: Trail(values, v, segs, vars, key, w)
  }

  lemma ReachesNothing(v: Value, vars: Variables, key: KeyText, w: Value)
    ensures Reaches(v, [], vars, key, w) <==> v == w
  {
    if v == w {
      assert Trail([v], v, [], vars, key, w);
    }
  }

  lemma ReachesFirst(v: Value, segs: seq<Segment>, vars: Variables, key: KeyText, w: Value)
    requires segs != []
    ensures Reaches(v, segs, vars, key, w) <==>
      exists u :: Leads(v, segs[0], vars, key, u) && Reaches(u, segs[1..], vars, key, w)
  {
    if Reaches(v, segs, vars, key, w) {
      var values :| Trail(values, v, segs, vars, key, w);
      assert Trail(values[1..], values[1], segs[1..], vars, key, w);
    }
    if exists u :: Leads(v, segs[0], vars, key, u) && Reaches(u, segs[1..], vars, key, w) {
      var u :| Leads(v, segs[0], vars, key, u) && Reaches(u, segs[1..], vars, key, w);
      var rest :| Trail(rest, u, segs[1..], vars, key, w);
      TrailExtends(v, u, rest, segs, vars, key, w);
    }
  }

  lemma TrailExtends(v: Value, u: Value, rest: seq<Value>, segs: seq<Segment>, vars: Variables, key: KeyText, w: Value)
    requires segs != [] && Leads(v, segs[0], vars, key, u) && Trail(rest, u, segs[1..], vars, key, w)
    ensures Trail([v] + rest, v, segs, vars, key, w)
  {
    forall i | 0 <= i < |segs|
      ensures Leads(([v] + rest)[i], segs[i], vars, key, ([v] + rest)[i + 1])
    {
      if i > 0 {
        assert segs[1..][i - 1] == segs[i];
      }
    }
  }

  /** Walking succeeds with `w` exactly when `w` is reached. */
  lemma {:induction false} WalkReaches(v: Value, segs: seq<Segment>, position: nat, vars: Variables, key: KeyText,
      w: Value)
    ensures Walk(v, segs, position, vars, key) == Ok(w) <==> Reaches(v, segs, vars, key, w)
    decreases |segs|
  {
    if segs == [] {
      ReachesNothing(v, vars, key, w);
    } else {
      FollowExact(v, segs[0], vars, key);
      ReachesFirst(v, segs, vars, key, w);
      match Follow(v, segs[0], vars, key)
      case Err(_) =>
      case Ok(u) => WalkReaches(u, segs[1..], position + 1, vars, key, w);
    }
  }

  /** The walk gets as far as segment `i` and stops there. */
  ghost predicate StopsAt(v: Value, segs: seq<Segment>, i: nat, vars: Variables, key: KeyText, cause: AccessError) {
    i < |segs| && exists u :: Reaches(v, segs[..i], vars, key, u) && Stops(u, segs[i], vars, cause)
  }

  lemma StopsFirst(v: Value, segs: seq<Segment>, vars: Variables, key: KeyText, cause: AccessError)
    requires segs != []
    ensures StopsAt(v, segs, 0, vars, key, cause) <==> Stops(v, segs[0], vars, cause)
  {
    assert segs[..0] == [];
    forall u
      ensures Reaches(v, segs[..0], vars, key, u) <==> u == v
    {
      ReachesNothing(v, vars, key, u);
    }
  }

  lemma StopsLater(v: Value, segs: seq<Segment>, i: nat, vars: Variables, key: KeyText, cause: AccessError)
    requires segs != [] && i > 0
    ensures StopsAt(v, segs, i, vars, key, cause) <==>
      exists u :: Leads(v, segs[0], vars, key, u) && StopsAt(u, segs[1..], i - 1, vars, key, cause)
  {
    if i < |segs| {
      assert segs[..i][1..] == segs[1..][..i - 1] && segs[1..][i - 1] == segs[i];
      forall w
        ensures Reaches(v, segs[..i], vars, key, w) <==>
          exists u :: Leads(v, segs[0], vars, key, u) && Reaches(u, segs[1..][..i - 1], vars, key, w)
      {
        ReachesFirst(v, segs[..i], vars, key, w);
      }
    }
  }

  /** Walking fails at a segment exactly when that one is reached and cannot be followed. */
  lemma {:induction false} WalkStops(v: Value, segs: seq<Segment>, position: nat, vars: Variables, key: KeyText, i: nat,
      cause: AccessError)
    ensures Walk(v, segs, position, vars, key) == Err(SegmentFailed(position + i, cause)) <==>
      StopsAt(v, segs, i, vars, key, cause)
    decreases |segs|
  {
    if segs != [] {
      FollowExact(v, segs[0], vars, key);
      StopsFirst(v, segs, vars, key, cause);
      if i > 0 {
        StopsLater(v, segs, i, vars, key, cause);
      }
      match Follow(v, segs[0], vars, key)
      case Err(_) =>
      case Ok(u) =>
        if i > 0 {
          WalkStops(u, segs[1..], position + 1, vars, key, i - 1, cause);
        } else {
          WalkFailsLater(u, segs[1..], position + 1, vars, key);
        }
    }
  }

  lemma {:induction false} WalkFailsLater(v: Value, segs: seq<Segment>, position: nat, vars: Variables, key: KeyText)
    ensures var r := Walk(v, segs, position, vars, key);
      r.Err? ==> r.error.SegmentFailed? && position <= r.error.position
    decreases |segs|
  {
    if segs != [] {
      match Follow(v, segs[0], vars, key)
      case Err(_) =>
      case Ok(u) => WalkFailsLater(u, segs[1..], position + 1, vars, key);
    }
  }

  /** Navigation by a path whose first segment names a variable: it gives `w` if and only if the other segments lead
      from that variable's value to `w`, and fails at a segment if and only if the ones before it lead to a value from
      which it cannot be followed, with that reason. */
  lemma NavigateExact(path: string, vars: Variables, key: KeyText)
    requires Parse(path).Ok? && Parse(path).value != []
    requires Parse(path).value[0].Field? && Parse(path).value[0].name in vars
    ensures var segs := Parse(path).value;
      var root := vars[segs[0].name];
      && (forall w :: Navigate(path, vars, key) == Ok(w) <==> Reaches(root, segs[1..], vars, key, w))
      && (forall i: nat, cause :: Navigate(path, vars, key) == Err(SegmentFailed(i + 1, cause)) <==>
            StopsAt(root, segs[1..], i, vars, key, cause))
  {
    var segs := Parse(path).value;
    var root := vars[segs[0].name];
    forall w
      ensures Navigate(path, vars, key) == Ok(w) <==> Reaches(root, segs[1..], vars, key, w)
    {
      WalkReaches(root, segs[1..], 1, vars, key, w);
    }
    forall i: nat, cause
      ensures Navigate(path, vars, key) == Err(SegmentFailed(i + 1, cause)) <==>
        StopsAt(root, segs[1..], i, vars, key, cause)
    {
      WalkStops(root, segs[1..], 1, vars, key, i, cause);
    }
  }

  /** The other paths: one that does not parse, has no segment or begins with an index is refused, and one whose first
      segment names no variable gives null whatever follows. */
  lemma NavigateRoots(path: string, vars: Variables, key: KeyText)
    ensures Navigate(path, vars, key) == Err(EmptyPath) <==> Parse(path) == Ok([])
    ensures forall e :: Navigate(path, vars, key) == Err(ParseFailed(e)) <==> Parse(path) == Err(e)
    ensures Navigate(path, vars, key) == Err(StartsWithIndex) <==>
      Parse(path).Ok? && Parse(path).value != [] && !Parse(path).value[0].Field?
    ensures var p := Parse(path);
      (p.Ok? && p.value != [] && p.value[0].Field? && p.value[0].name !in vars) ==>
      Navigate(path, vars, key) == Ok(Null)
  {
    if Parse(path).Ok? && Parse(path).value != [] && Parse(path).value[0].Field? && Parse(path).value[0].name in vars {
      WalkFailsLater(vars[Parse(path).value[0].name], Parse(path).value[1..], 1, vars, key);
    }
  }
}
