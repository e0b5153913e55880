/** What the walk records, stated over the document: a node is named by the path of child numbers that leads to it. */
module Scopes {
  import opened Logic
  import opened TreeWalk

  type Path = seq<nat>

  predicate IsPath(root: Xml, p: Path)
    decreases |p|
  {
    p == [] || (p[0] < |root.children| && IsPath(root.children[p[0]], p[1..]))
  }

  function At(root: Xml, p: Path): Xml
    requires IsPath(root, p)
    decreases |p|
  {
    if p == [] then root else At(root.children[p[0]], p[1..])
  }

  lemma {:induction false} PathPrefix(root: Xml, p: Path)
    requires IsPath(root, p) && p != []
    ensures IsPath(root, p[..|p| - 1])
    decreases |p|
  {
    if |p| > 1 {
      assert p[..|p| - 1][1..] == p[1..][..|p| - 2];
      PathPrefix(root.children[p[0]], p[1..]);
    }
  }

  /** The node is reached: neither it nor any node above it is skipped. */
  predicate Reached(root: Xml, p: Path)
    requires IsPath(root, p)
    decreases |p|
  {
    !Skipped(root) && (p == [] || Reached(root.children[p[0]], p[1..]))
  }

  /** The id of the nearest proper `subProcess` ancestor that has one; empty if there is none. Climbs from the node. */
  function Nearest(root: Xml, p: Path): string
    requires IsPath(root, p)
    decreases |p|
  {
    if p == [] then ""
    else
      PathPrefix(root, p);
      var up := p[..|p| - 1];
      if OpensScope(At(root, up)) then IdOf(At(root, up)) else Nearest(root, up)
  }

  lemma {:induction false} PathPrefixes(root: Xml, p: Path, k: nat)
    requires IsPath(root, p) && k <= |p|
    ensures IsPath(root, p[..k])
    decreases |p|
  {
    if k == |p| {
      assert p[..k] == p;
    } else {
      PathPrefix(root, p);
      PathPrefixes(root, p[..|p| - 1], k);
      assert p[..|p| - 1][..k] == p[..k];
    }
  }

  /** The node `k` levels down the path is a `subProcess` with an id. */
  predicate ScopeAt(root: Xml, p: Path, k: nat)
    requires IsPath(root, p) && k <= |p|
  {
    PathPrefixes(root, p, k);
    At(root, p[..k]).name == "subProcess" && IdOf(At(root, p[..k])) != ""
  }

  /** What climbing finds: the id of the last `subProcess` with an id among the proper ancestors, or nothing when none
      of them is one. */
  lemma {:induction false} NearestExact(root: Xml, p: Path)
    requires IsPath(root, p)
    ensures Nearest(root, p) == "" <==> forall k :: 0 <= k < |p| ==> !ScopeAt(root, p, k)
    ensures forall k :: 0 <= k < |p| && ScopeAt(root, p, k) && (forall j :: k < j < |p| ==> !ScopeAt(root, p, j)) ==>
      IsPath(root, p[..k]) && Nearest(root, p) == IdOf(At(root, p[..k]))
    decreases |p|
  {
    if p != [] {
      PathPrefix(root, p);
      var up := p[..|p| - 1];
      NearestExact(root, up);
      forall k | 0 <= k < |p|
        ensures up[..k] == p[..k] && ScopeAt(root, up, k) == ScopeAt(root, p, k)
      {
        ScopeAtUp(root, p, up, k);
      }
      assert up[..|up|] == up;
      assert ScopeAt(root, p, |up|) <==> OpensScope(At(root, up));
    }
  }

  lemma ScopeAtUp(root: Xml, p: Path, up: Path, k: nat)
    requires IsPath(root, p) && k < |p| && up == p[..|p| - 1] && IsPath(root, up)
    ensures up[..k] == p[..k] && ScopeAt(root, up, k) == ScopeAt(root, p, k)
  {
    assert up[..k] == p[..k];
  }

  /** A node is reached exactly when every node from the root down to it has a name that is not part of the drawing. */
  lemma {:induction false} ReachedExact(root: Xml, p: Path)
    requires IsPath(root, p)
    ensures Reached(root, p) <==> forall k :: 0 <= k <= |p| ==> Modelled(root, p, k)
    decreases |p|
  {
    if p == [] {
      assert Modelled(root, p, 0) <==> !Skipped(root);
    } else {
      ReachedExact(root.children[p[0]], p[1..]);
      assert Modelled(root, p, 0) <==> !Skipped(root);
      forall k | 0 < k <= |p|
        ensures Modelled(root, p, k) <==> Modelled(root.children[p[0]], p[1..], k - 1)
      {
        assert p[..k][1..] == p[1..][..k - 1];
      }
      var child, rest := root.children[p[0]], p[1..];
      assert forall k :: 0 <= k <= |rest| ==> (Modelled(child, rest, k) <==> Modelled(root, p, k + 1));
    }
  }

  predicate Modelled(root: Xml, p: Path, k: nat)
    requires IsPath(root, p) && k <= |p|
  {
    PathPrefixes(root, p, k);
    At(root, p[..k]).name !in
      {"", "BPMNDiagram", "BPMNPlane", "BPMNShape", "BPMNEdge", "BPMNLabel", "Bounds", "waypoint", "label"}
  }

  predicate IsFirstId(attributes: seq<(string, string)>, i: int) {
    0 <= i < |attributes| && attributes[i].0 == "id" && forall j :: 0 <= j < i ==> attributes[j].0 != "id"
  }

  /** The id of a node is the value of its first attribute of that name, and empty if it has none. */
  lemma IdExact(node: Xml)
    ensures forall i :: IsFirstId(node.attributes, i) ==> IdOf(node) == node.attributes[i].1
    ensures (forall i :: 0 <= i < |node.attributes| ==> node.attributes[i].0 != "id") ==> IdOf(node) == ""
  {
    FirstIdExact(node.attributes, |node.attributes|);
  }

  lemma {:induction false} FirstIdExact(attributes: seq<(string, string)>, n: nat)
    requires n <= |attributes|
    ensures FirstId(attributes, n) == None <==> forall i :: 0 <= i < n ==> attributes[i].0 != "id"
    ensures forall i :: i < n && IsFirstId(attributes, i) ==> FirstId(attributes, n) == Some(attributes[i].1)
  {
    if n > 0 {
      FirstIdExact(attributes, n - 1);
    }
  }

  /** The same, handed down from the root. */
  function Inherited(root: Xml, p: Path, scope: string): string
    requires IsPath(root, p)
    decreases |p|
  {
    if p == [] then scope else Inherited(root.children[p[0]], p[1..], ScopeBelow(root, scope))
  }

  lemma {:induction false} ParentAt(root: Xml, p: Path)
    requires IsPath(root, p) && |p| > 1
    ensures IsPath(root, p[..|p| - 1]) && IsPath(root.children[p[0]], p[1..][..|p| - 2])
    ensures At(root, p[..|p| - 1]) == At(root.children[p[0]], p[1..][..|p| - 2])
  {
    PathPrefix(root, p);
    assert p[..|p| - 1][1..] == p[1..][..|p| - 2];
  }

  /** Handing a scope down gives what climbing finds. */
  lemma {:induction false} InheritedIsNearest(root: Xml, p: Path, scope: string)
    requires IsPath(root, p)
    ensures Inherited(root, p, scope) == if Nearest(root, p) != "" then Nearest(root, p) else scope
    decreases |p|
  {
    if p != [] {
      InheritedIsNearest(root.children[p[0]], p[1..], ScopeBelow(root, scope));
      NearestFromChild(root, p);
    }
  }

  lemma {:induction false} NearestFromChild(root: Xml, p: Path)
    requires IsPath(root, p) && p != []
    ensures var below := Nearest(root.children[p[0]], p[1..]);
      Nearest(root, p) == if below != "" then below else ScopeBelow(root, "")
    decreases |p|
  {
    if |p| == 1 {
      assert p[..0] == [];
    } else {
      ParentAt(root, p);
      assert p[..|p| - 1][1..] == p[1..][..|p| - 2];
      NearestFromChild(root, p[..|p| - 1]);
    }
  }

  // ----- The reached nodes in document order -----

  function Prefixed(k: nat, ps: seq<Path>): (r: seq<Path>)
    ensures |r| == |ps| && forall i :: 0 <= i < |ps| ==> r[i] == [k] + ps[i]
  {
    if ps == [] then [] else Prefixed(k, ps[..|ps| - 1]) + [[k] + ps[|ps| - 1]]
  }

  function Paths(node: Xml): seq<Path>
    decreases node, |node.children| + 1
  {
    if Skipped(node) then [] else [[]] + ChildPaths(node, |node.children|)
  }

  function ChildPaths(node: Xml, n: nat): seq<Path>
    requires n <= |node.children|
    decreases node, n
  {
    if n == 0 then [] else ChildPaths(node, n - 1) + Prefixed(n - 1, Paths(node.children[n - 1]))
  }

  /** `p` is a reached node below one of the first `n` children. */
  predicate ReachedBelow(node: Xml, n: nat, p: Path)
    requires n <= |node.children|
  {
    p != [] && p[0] < n && IsPath(node.children[p[0]], p[1..]) && Reached(node.children[p[0]], p[1..])
  }

  lemma {:induction false} PathsExact(node: Xml, p: Path)
    ensures p in Paths(node) <==> IsPath(node, p) && Reached(node, p)
    decreases node, |node.children| + 1
  {
    if !Skipped(node) {
      ChildPathsExact(node, |node.children|, p);
    }
  }

  lemma {:induction false} ChildPathsExact(node: Xml, n: nat, p: Path)
    requires n <= |node.children|
    ensures p in ChildPaths(node, n) <==> ReachedBelow(node, n, p)
    decreases node, n
  {
    if n > 0 {
      ChildPathsExact(node, n - 1, p);
      PrefixedMember(n - 1, Paths(node.children[n - 1]), p);
      if p != [] {
        PathsExact(node.children[n - 1], p[1..]);
      }
    }
  }

  lemma PrefixedMember(k: nat, ps: seq<Path>, p: Path)
    ensures p in Prefixed(k, ps) <==> p != [] && p[0] == k && p[1..] in ps
  {
    if p != [] && p[0] == k && p[1..] in ps {
      var i :| 0 <= i < |ps| && ps[i] == p[1..];
      assert Prefixed(k, ps)[i] == p;
    }
  }

  predicate Distinct(ps: seq<Path>) {
    forall i, j :: 0 <= i < j < |ps| ==> ps[i] != ps[j]
  }

  lemma {:induction false} PathsDistinct(node: Xml)
    ensures Distinct(Paths(node))
    decreases node, |node.children| + 1
  {
    if !Skipped(node) {
      var below := ChildPaths(node, |node.children|);
      ChildPathsDistinct(node, |node.children|);
      forall i | 0 <= i < |below|
        ensures below[i] != []
      {
        ChildPathsExact(node, |node.children|, below[i]);
      }
    }
  }

  lemma {:induction false} ChildPathsDistinct(node: Xml, n: nat)
    requires n <= |node.children|
    ensures Distinct(ChildPaths(node, n))
    decreases node, n
  {
    if n > 0 {
      var before, last := ChildPaths(node, n - 1), Paths(node.children[n - 1]);
      var shifted := Prefixed(n - 1, last);
      ChildPathsDistinct(node, n - 1);
      PathsDistinct(node.children[n - 1]);
      forall i, j | 0 <= i < |before| && 0 <= j < |shifted|
        ensures before[i] != shifted[j]
      {
        ChildPathsExact(node, n - 1, before[i]);
      }
      forall i, j | 0 <= i < j < |shifted|
        ensures shifted[i] != shifted[j]
      {
        assert shifted[i][1..] == last[i] && shifted[j][1..] == last[j];
      }
    }
  }

  /** `p` comes before `q` in the document: it is above it, or in an earlier child. */
  predicate Precedes(p: Path, q: Path)
    decreases |p|
  {
    q != [] && (p == [] || p[0] < q[0] || (p[0] == q[0] && Precedes(p[1..], q[1..])))
  }

  predicate InDocumentOrder(ps: seq<Path>) {
    forall i, j :: 0 <= i < j < |ps| ==> Precedes(ps[i], ps[j])
  }

  lemma {:induction false} PathsOrdered(node: Xml)
    ensures InDocumentOrder(Paths(node))
    decreases node, |node.children| + 1
  {
    if !Skipped(node) {
      var below := ChildPaths(node, |node.children|);
      ChildPathsOrdered(node, |node.children|);
      forall i | 0 <= i < |below|
        ensures below[i] != []
      {
        ChildPathsExact(node, |node.children|, below[i]);
      }
    }
  }

  lemma {:induction false} ChildPathsOrdered(node: Xml, n: nat)
    requires n <= |node.children|
    ensures InDocumentOrder(ChildPaths(node, n))
    decreases node, n
  {
    if n > 0 {
      var before, last := ChildPaths(node, n - 1), Paths(node.children[n - 1]);
      var shifted := Prefixed(n - 1, last);
      ChildPathsOrdered(node, n - 1);
      PathsOrdered(node.children[n - 1]);
      forall i, j | 0 <= i < |before| && 0 <= j < |shifted|
        ensures Precedes(before[i], shifted[j])
      {
        ChildPathsExact(node, n - 1, before[i]);
      }
      forall i, j | 0 <= i < j < |shifted|
        ensures Precedes(shifted[i], shifted[j])
      {
        assert shifted[i][1..] == last[i] && shifted[j][1..] == last[j];
      }
    }
  }

  // ----- Visits and paths -----

  /** The visits are those of the nodes at the paths, each in the scope handed down to it. */
  predicate Aligned(node: Xml, scope: string, visits: seq<Visit>, ps: seq<Path>) {
    && |visits| == |ps|
    && forall i :: 0 <= i < |ps| ==>
         IsPath(node, ps[i]) && visits[i] == Visit(At(node, ps[i]), Inherited(node, ps[i], scope))
  }

  lemma {:induction false} VisitsAligned(node: Xml, scope: string)
    ensures Aligned(node, scope, Visits(node, scope), Paths(node))
    decreases node, |node.children| + 1
  {
    if !Skipped(node) {
      ChildVisitsAligned(node, scope, |node.children|);
    }
  }

  lemma {:induction false} ChildVisitsAligned(node: Xml, scope: string, n: nat)
    requires n <= |node.children|
    ensures Aligned(node, scope, ChildVisits(node, ScopeBelow(node, scope), n), ChildPaths(node, n))
    decreases node, n
  {
    if n > 0 {
      var child, below := node.children[n - 1], ScopeBelow(node, scope);
      ChildVisitsAligned(node, scope, n - 1);
      VisitsAligned(child, below);
      ShiftAligned(node, scope, n - 1, Visits(child, below), Paths(child));
    }
  }

  lemma ShiftAligned(node: Xml, scope: string, k: nat, visits: seq<Visit>, ps: seq<Path>)
    requires k < |node.children| && Aligned(node.children[k], ScopeBelow(node, scope), visits, ps)
    ensures Aligned(node, scope, visits, Prefixed(k, ps))
  {
  }

  // ----- What is recorded -----

  function Occurrences(root: Xml, ps: seq<Path>, name: string, n: nat): nat
    requires n <= |ps| && forall i :: 0 <= i < |ps| ==> IsPath(root, ps[i])
  {
    if n == 0 then 0 else Occurrences(root, ps, name, n - 1) + if At(root, ps[n - 1]).name == name then 1 else 0
  }

  lemma {:induction false} TalliedCounts(root: Xml, visits: seq<Visit>, ps: seq<Path>, name: string, n: nat)
    requires Aligned(root, "", visits, ps) && n <= |ps|
    ensures Get(Tallied(map[], visits[..n]), name) == Occurrences(root, ps, name, n)
  {
    if n > 0 {
      TakeOneMore(visits, n);
      TalliedCounts(root, visits, ps, name, n - 1);
      assert visits[..n][..n - 1] == visits[..n - 1];
    }
  }

  /** The count of each element type is the number of reached nodes of that type. */
  lemma CountsExact(root: Xml, name: string)
    ensures forall i :: 0 <= i < |Paths(root)| ==> IsPath(root, Paths(root)[i])
    ensures Get(Tallied(map[], Visits(root, "")), name) == Occurrences(root, Paths(root), name, |Paths(root)|)
  {
    var visits := Visits(root, "");
    VisitsAligned(root, "");
    TalliedCounts(root, visits, Paths(root), name, |visits|);
    assert visits[..|visits|] == visits;
  }

  predicate NamedLater(root: Xml, ps: seq<Path>, i: nat, n: nat)
    requires i < n <= |ps| && forall k :: 0 <= k < |ps| ==> IsPath(root, ps[k])
  {
    exists j :: i < j < n && IdOf(At(root, ps[j])) == IdOf(At(root, ps[i]))
  }

  lemma {:induction false} LastRecorded(root: Xml, visits: seq<Visit>, ps: seq<Path>, parsers: Parsers, i: nat, n: nat)
    requires Aligned(root, "", visits, ps) && i < n <= |ps|
    requires IdOf(At(root, ps[i])) != "" && !NamedLater(root, ps, i, n)
    ensures var node, elements := At(root, ps[i]), Recorded(map[], visits[..n], parsers);
      IdOf(node) in elements && elements[IdOf(node)] == EntryFor(parsers, node, Inherited(root, ps[i], ""))
  {
    TakeOneMore(visits, n);
    assert visits[..n][..n - 1] == visits[..n - 1];
    if i < n - 1 {
      LastRecorded(root, visits, ps, parsers, i, n - 1);
    }
  }

  /** The entry has the data of the parser known for the node's type, or of the generic one if there is none or it
      fails, and the scope as its `parent_scope` if there is one. */
  predicate Describes(entry: Entry, parsers: Parsers, node: Xml, scope: string) {
    && (node.name in parsers.known && parsers.known[node.name](node).Some? ==>
          entry.data == parsers.known[node.name](node).value)
    && (node.name !in parsers.known || parsers.known[node.name](node).None? ==> entry.data == parsers.generic(node))
    && entry.parentScope == if scope == "" then None else Some(scope)
  }

  /** Whenever ids repeat, the last reached node in document order is the one recorded; its `parent_scope` is the id
      of the nearest `subProcess` above it that has one. */
  lemma LastNodeWins(root: Xml, parsers: Parsers, i: nat)
    requires i < |Paths(root)| && forall k :: 0 <= k < |Paths(root)| ==> IsPath(root, Paths(root)[k])
    requires IdOf(At(root, Paths(root)[i])) != "" && !NamedLater(root, Paths(root), i, |Paths(root)|)
    ensures var p, elements := Paths(root)[i], Recorded(map[], Visits(root, ""), parsers);
      var node := At(root, p);
      IdOf(node) in elements && Describes(elements[IdOf(node)], parsers, node, Nearest(root, p))
  {
    var visits := Visits(root, "");
    VisitsAligned(root, "");
    LastRecorded(root, visits, Paths(root), parsers, i, |visits|);
    assert visits[..|visits|] == visits;
    InheritedIsNearest(root, Paths(root)[i], "");
  }

  ghost predicate UniqueIds(root: Xml) {
    forall p: Path, q: Path :: Named(root, p) && Named(root, q) && IdOf(At(root, p)) == IdOf(At(root, q)) ==> p == q
  }

  /** A reached node with an id. */
  predicate Named(root: Xml, p: Path) { IsPath(root, p) && Reached(root, p) && IdOf(At(root, p)) != "" }

  /** With unique ids, every reached node that has an id is recorded under it with its own scope. */
  lemma ScopesExact(root: Xml, parsers: Parsers, p: Path)
    requires UniqueIds(root) && Named(root, p)
    ensures var node, elements := At(root, p), Recorded(map[], Visits(root, ""), parsers);
      IdOf(node) in elements && Describes(elements[IdOf(node)], parsers, node, Nearest(root, p))
  {
    var ps := Paths(root);
    PathsExact(root, p);
    PathsDistinct(root);
    var i :| 0 <= i < |ps| && ps[i] == p;
    forall k | 0 <= k < |ps|
      ensures IsPath(root, ps[k]) && Reached(root, ps[k])
    {
      PathsExact(root, ps[k]);
    }
    assert !NamedLater(root, ps, i, |ps|) by {
      forall j | i < j < |ps|
        ensures IdOf(At(root, ps[j])) != IdOf(At(root, p))
      {
        assert Named(root, p) && ps[j] != p;
        assert Named(root, ps[j]) <==> IdOf(At(root, ps[j])) != "";
      }
    }
    LastNodeWins(root, parsers, i);
  }

  lemma {:induction false} RecordedFrom(visits: seq<Visit>, parsers: Parsers, id: string)
    requires id in Recorded(map[], visits, parsers)
    ensures exists i :: 0 <= i < |visits| && IdOf(visits[i].node) == id && id != ""
  {
    var init, v := visits[..|visits| - 1], visits[|visits| - 1];
    if IdOf(v.node) != id || id == "" {
      RecordedFrom(init, parsers, id);
    }
  }

  /** Nothing else is recorded. */
  lemma RecordedOnlyReached(root: Xml, parsers: Parsers, id: string)
    requires id in Recorded(map[], Visits(root, ""), parsers)
    ensures exists p: Path :: Named(root, p) && IdOf(At(root, p)) == id
  {
    var visits, ps := Visits(root, ""), Paths(root);
    RecordedFrom(visits, parsers, id);
    VisitsAligned(root, "");
    var i :| 0 <= i < |visits| && IdOf(visits[i].node) == id && id != "";
    PathsExact(root, ps[i]);
    assert Named(root, ps[i]) && IdOf(At(root, ps[i])) == id;
  }
}
