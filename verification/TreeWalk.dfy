/** The parser's walk over an XML document: which elements it visits and in which scope. */
module TreeWalk {
  import opened Logic

  datatype Xml = Xml(name: string, attributes: seq<(string, string)>, children: seq<Xml>)

  predicate IsDiagram(name: string) {
    name in {"BPMNDiagram", "BPMNPlane", "BPMNShape", "BPMNEdge", "BPMNLabel", "Bounds", "waypoint", "label"}
  }

  predicate Skipped(node: Xml) { node.name == "" || IsDiagram(node.name) }

  /** The first attribute named `id` among the first `n`, or the empty string. */
  function FirstId(attributes: seq<(string, string)>, n: nat): Option<string>
    requires n <= |attributes|
  {
    if n == 0 then None
    else if FirstId(attributes, n - 1).None? && attributes[n - 1].0 == "id" then Some(attributes[n - 1].1)
    else FirstId(attributes, n - 1)
  }

  function IdOf(node: Xml): string {
    var id := FirstId(node.attributes, |node.attributes|);
    if id.Some? then id.value else ""
  }

  /** The element parsers by element type, each of which may fail, and the generic one to fall back to. */
  datatype Parsers = Parsers(known: map<string, Xml -> Option<Value>>, generic: Xml -> Value) {
    function Parse(node: Xml): Value {
      if node.name in known && known[node.name](node).Some? then known[node.name](node).value else generic(node)
    }
  }

  /** Parsed data and its `parent_scope`. */
  datatype Entry = Entry(data: Value, parentScope: Option<string>)

  function EntryFor(parsers: Parsers, node: Xml, scope: string): Entry {
    Entry(parsers.Parse(node), if scope == "" then None else Some(scope))
  }

  // ----- The walk in document order -----

  datatype Visit = Visit(node: Xml, scope: string)

  predicate OpensScope(node: Xml) { node.name == "subProcess" && IdOf(node) != "" }

  function ScopeBelow(node: Xml, scope: string): string { if OpensScope(node) then IdOf(node) else scope }

  function Visits(node: Xml, scope: string): seq<Visit>
    decreases node, |node.children| + 1
  {
    if Skipped(node) then []
    else [Visit(node, scope)] + ChildVisits(node, ScopeBelow(node, scope), |node.children|)
  }

  /** The visits of the first `n` children. */
  function ChildVisits(node: Xml, scope: string, n: nat): seq<Visit>
    requires n <= |node.children|
    decreases node, n
  {
    if n == 0 then [] else ChildVisits(node, scope, n - 1) + Visits(node.children[n - 1], scope)
  }

  function Recorded(elements: map<string, Entry>, visits: seq<Visit>, parsers: Parsers): map<string, Entry> {
    if visits == [] then elements
    else
      var before, v := Recorded(elements, visits[..|visits| - 1], parsers), visits[|visits| - 1];
      if IdOf(v.node) != "" then before[IdOf(v.node) := EntryFor(parsers, v.node, v.scope)] else before
  }

  function Get(counts: map<string, nat>, name: string): nat { if name in counts then counts[name] else 0 }

  function Tallied(counts: map<string, nat>, visits: seq<Visit>): map<string, nat> {
    if visits == [] then counts
    else
      var before, name := Tallied(counts, visits[..|visits| - 1]), visits[|visits| - 1].node.name;
      before[name := Get(before, name) + 1]
  }

  lemma {:induction false} RecordedConcat(elements: map<string, Entry>, a: seq<Visit>, b: seq<Visit>, parsers: Parsers)
    ensures Recorded(elements, a + b, parsers) == Recorded(Recorded(elements, a, parsers), b, parsers)
    decreases |b|
  {
    if b == [] {
      assert a + b == a;
    } else {
      assert (a + b)[..|a + b| - 1] == a + b[..|b| - 1];
      RecordedConcat(elements, a, b[..|b| - 1], parsers);
    }
  }

  lemma {:induction false} TalliedConcat(counts: map<string, nat>, a: seq<Visit>, b: seq<Visit>)
    ensures Tallied(counts, a + b) == Tallied(Tallied(counts, a), b)
    decreases |b|
  {
    if b == [] {
      assert a + b == a;
    } else {
      assert (a + b)[..|a + b| - 1] == a + b[..|b| - 1];
      TalliedConcat(counts, a, b[..|b| - 1]);
    }
  }

  method GetElementID(node: Xml) returns (id: string)
    ensures id == IdOf(node)
  {
    for i := 0 to |node.attributes|
      invariant FirstId(node.attributes, i).None?
    {
      if node.attributes[i].0 == "id" {
        FirstIdStays(node.attributes, i + 1, |node.attributes|);
        return node.attributes[i].1;
      }
    }
    return "";
  }

  lemma {:induction false} FirstIdStays(attributes: seq<(string, string)>, k: nat, n: nat)
    requires k <= n <= |attributes| && FirstId(attributes, k).Some?
    ensures FirstId(attributes, n) == FirstId(attributes, k)
  {
    if k < n {
      FirstIdStays(attributes, k, n - 1);
    }
  }

  /** `ParseContext`. The process's element map receives the same writes as `elements`. */
  class Context {
    var parentScope: string
    var counts: map<string, nat>
    var elements: map<string, Entry>

    constructor ()
      ensures parentScope == "" && counts == map[] && elements == map[]
    {
      parentScope, counts, elements := "", map[], map[];
    }

    method Store(node: Xml, parsers: Parsers)
      modifies this`counts, this`elements
      ensures counts == Tallied(old(counts), [Visit(node, parentScope)])
      ensures elements == Recorded(old(elements), [Visit(node, parentScope)], parsers)
    {
      counts := counts[node.name := Get(counts, node.name) + 1];
      var id := GetElementID(node);
      if id != "" {
        elements := elements[id := EntryFor(parsers, node, parentScope)];
      }
      assert [Visit(node, parentScope)][..0] == [];
    }

    method ParseAllElements(node: Xml, parsers: Parsers)
      modifies this
      ensures parentScope == old(parentScope)
      ensures counts == Tallied(old(counts), Visits(node, old(parentScope)))
      ensures elements == Recorded(old(elements), Visits(node, old(parentScope)), parsers)
      decreases node
    {
      if node.name == "" || IsDiagram(node.name) {
        return;
      }
      Store(node, parsers);
      var saved := parentScope;
      if node.name == "subProcess" {
        var id := GetElementID(node);
        if id != "" {
          parentScope := id;
        }
      }
      ghost var scope, head := parentScope, [Visit(node, saved)];
      for i := 0 to |node.children|
        invariant parentScope == scope
        invariant counts == Tallied(old(counts), head + ChildVisits(node, scope, i))
        invariant elements == Recorded(old(elements), head + ChildVisits(node, scope, i), parsers)
      {
        ParseAllElements(node.children[i], parsers);
        ghost var done, next := head + ChildVisits(node, scope, i), Visits(node.children[i], scope);
        TalliedConcat(old(counts), done, next);
        RecordedConcat(old(elements), done, next, parsers);
        Assoc(head, ChildVisits(node, scope, i), next);
      }
      parentScope := saved;
    }
  }
}
