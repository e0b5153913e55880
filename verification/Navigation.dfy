/** `NavigatePath` and the navigate functions: following parsed segments through nested values. */
module Navigation {
  import opened Logic
  import opened Integers
  import opened PathNavigator

  datatype AccessError =
    | OnNull
    | NotAnObject
    | NotAList
    | OutOfBounds(index: int, length: nat)
    | UnknownVariable(name: string)
    | NotAnIndex
    | NotIndexable

  datatype NavError =
    | ParseFailed(parsing: PathError)
    | EmptyPath
    | StartsWithIndex
    | SegmentFailed(position: nat, cause: AccessError)

  type Variables = map<string, Value>

  /** How a value is written as a map key (`%v`), kept abstract. */
  type KeyText = Value -> string

  /** Go's conversion of a float to an integer drops the fraction. */
  function Truncate(r: real): int {
    if r >= 0.0 then r.Floor else -(-r).Floor
  }

  function MapField(v: Value, field: string): Result<Value, AccessError> {
    match v
    case Null => Err(OnNull)
    case Object(fields) => Ok(if field in fields then fields[field] else Null)
    case _ => Err(NotAnObject)
  }

  function ArrayIndex(v: Value, index: int): Result<Value, AccessError> {
    match v
    case Null => Err(OnNull)
    case List(items) => if 0 <= index < |items| then Ok(items[index]) else Err(OutOfBounds(index, |items|))
    case _ => Err(NotAList)
  }

  function DynamicAccess(v: Value, expr: string, vars: Variables, key: KeyText): Result<Value, AccessError> {
    if v == Null then Err(OnNull)
    else if expr !in vars then Err(UnknownVariable(expr))
    else
      match v
      case Object(fields) => MapField(v, key(vars[expr]))
      case List(_) =>
        (match vars[expr]
         case Number(n) => ArrayIndex(v, Truncate(n))
         case Str(s) => if Atoi(s).Some? then ArrayIndex(v, Atoi(s).value) else Err(NotAnIndex)
         case _ => Err(NotAnIndex))
      case _ => Err(NotIndexable)
  }

  function Follow(v: Value, seg: Segment, vars: Variables, key: KeyText): Result<Value, AccessError> {
    match seg
    case Index(n) => ArrayIndex(v, n)
    case IndexExpr(e) => DynamicAccess(v, e, vars, key)
    case Field(name) => MapField(v, name)
  }

  /** Following `segs` from `v`; `position` counts segments from the start of the path. */
  function Walk(v: Value, segs: seq<Segment>, position: nat, vars: Variables, key: KeyText): Result<Value, NavError>
    decreases |segs|
  {
    if segs == [] then Ok(v)
    else
      match Follow(v, segs[0], vars, key)
      case Err(cause) => Err(SegmentFailed(position, cause))
      case Ok(next) => Walk(next, segs[1..], position + 1, vars, key)
  }

  /** Going on along `segs` from the outcome of the segments before. */
  function Continue(r: Result<Value, NavError>, segs: seq<Segment>, position: nat, vars: Variables,
      key: KeyText): Result<Value, NavError> {
    if r.Err? then r else Walk(r.value, segs, position, vars, key)
  }

  function NavigateSegments(segs: seq<Segment>, vars: Variables, key: KeyText): Result<Value, NavError> {
    if segs == [] then Err(EmptyPath)
    else if !segs[0].Field? then Err(StartsWithIndex)
    else if segs[0].name !in vars then Ok(Null)
    else Walk(vars[segs[0].name], segs[1..], 1, vars, key)
  }

  function Navigate(path: string, vars: Variables, key: KeyText): Result<Value, NavError> {
    match Parse(path)
    case Err(e) => Err(ParseFailed(e))
    case Ok(segs) => NavigateSegments(segs, vars, key)
  }

  method NavigatePath(path: string, vars: Variables, key: KeyText) returns (r: Result<Value, NavError>)
    ensures r == Navigate(path, vars, key)
  {
    var parsed := ParsePathSegments(path);
    if parsed.Err? {
      return Err(ParseFailed(parsed.error));
    }
    var segments := parsed.value;
    if |segments| == 0 {
      return Err(EmptyPath);
    }
    var root := segments[0];
    if root.Index? || root.IndexExpr? {
      return Err(StartsWithIndex);
    }
    if root.name !in vars {
      return Ok(Null);
    }
    var current := vars[root.name];
    for i := 1 to |segments|
      invariant NavigateSegments(segments, vars, key) == Walk(current, segments[i..], i, vars, key)
    {
      assert segments[i..][0] == segments[i] && segments[i..][1..] == segments[i + 1..];
      var step := Follow(current, segments[i], vars, key);
      if step.Err? {
        return Err(SegmentFailed(i, step.error));
      }
      current := step.value;
    }
    return Ok(current);
  }

  lemma {:induction false} WalkConcat(v: Value, a: seq<Segment>, b: seq<Segment>, position: nat, vars: Variables,
      key: KeyText)
    ensures Walk(v, a + b, position, vars, key)
         == Continue(Walk(v, a, position, vars, key), b, position + |a|, vars, key)
    decreases |a|
  {
    if a == [] {
      assert a + b == b;
    } else {
      assert (a + b)[1..] == a[1..] + b;
      match Follow(v, a[0], vars, key)
      case Err(_) =>
      case Ok(next) => WalkConcat(next, a[1..], b, position + 1, vars, key);
    }
  }

  /** Navigating `p.q` is navigating `p` and continuing along `q`; the first segment that fails decides the
      error, and a missing root variable makes every continuation null. */
  lemma NavigationComposes(p: string, q: string, vars: Variables, key: KeyText)
    requires Parse(p).Ok? && Parse(p).value != [] && Parse(q).Ok?
    ensures var segs := Parse(p).value;
      Navigate(p + "." + q, vars, key)
        == if segs[0].Field? && segs[0].name !in vars then Ok(Null)
           else Continue(Navigate(p, vars, key), Parse(q).value, |segs|, vars, key)
  {
    var segs, more := Parse(p).value, Parse(q).value;
    PathsConcatenate(p, q);
    assert (segs + more)[1..] == segs[1..] + more;
    if segs[0].Field? && segs[0].name in vars {
      WalkConcat(vars[segs[0].name], segs[1..], more, 1, vars, key);
    }
  }
}
