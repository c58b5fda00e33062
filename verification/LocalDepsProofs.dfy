/** What affectedLocalDeps promises the loop that recompiles: an order over the whole graph, and no error. */
module LocalDepsProofs {
  import opened Graphs
  import opened Toposort
  import opened LocalDeps

  lemma PathReaches(deps: Edges, p: seq<string>, i: nat, j: nat)
    requires IsPath(deps, p) && i <= j < |p|
    ensures Reaches(deps, p[i], p[j])
  {
    var part := p[i..j + 1];
    forall k | 0 < k < |part|
      ensures part[k] in deps(part[k - 1])
    {
      assert p[i + k] in deps(p[i + k - 1]);
    }
    assert IsPathTo(deps, part, p[i], p[j]);
  }

  /** A path between affected packages has only affected packages, and perhaps the target, on it. */
  lemma BetweenAffected(m: PkgMap, target: string, imports: set<string>, path: seq<string>, i: nat)
    requires IsPath(Deps(m), path) && i < |path|
    requires Affected(m, target, imports, path[0]) && Affected(m, target, imports, path[|path| - 1])
    ensures path[i] == target || Affected(m, target, imports, path[i])
  {
    var deps := Deps(m);
    var r :| r in imports && Reaches(deps, r, path[0]);
    PathReaches(deps, path, 0, i);
    ReachesTransitive(deps, r, path[0], path[i]);
    PathReaches(deps, path, i, |path| - 1);
    ReachesDepends(deps, path[i], path[|path| - 1], target);
    var d :| d in deps(path[i]) && Reaches(deps, d, target);
  }

  lemma PathDepends(deps: Edges, p: seq<string>)
    requires IsPath(deps, p) && |p| > 1
    ensures Depends(deps, p[0], p[|p| - 1])
  {
    PathReaches(deps, p, 1, |p| - 1);
    assert p[1] in deps(p[0]);
  }

  lemma DependsPath(deps: Edges, a: string, b: string) returns (p: seq<string>)
    requires Depends(deps, a, b)
    ensures |p| > 1 && IsPathTo(deps, p, a, b)
  {
    var d :| d in deps(a) && Reaches(deps, d, b);
    var rest :| IsPathTo(deps, rest, d, b);
    p := [a] + rest;
  }

  lemma StaysAffected(m: PkgMap, target: string, imports: set<string>, path: seq<string>)
    requires IsPath(Deps(m), path)
    requires Affected(m, target, imports, path[0]) && Affected(m, target, imports, path[|path| - 1])
    ensures IsPath(AffectedEdges(m, AffectedSet(m, target, imports), target), path)
  {
    forall i | 0 < i < |path|
      ensures path[i] in AffectedEdges(m, AffectedSet(m, target, imports), target)(path[i - 1])
    {
      BetweenAffected(m, target, imports, path, i);
    }
  }

  /** Sorting only the edges kept loses no dependency between affected packages. */
  lemma DependsAmongAffected(m: PkgMap, target: string, imports: set<string>, p: string, q: string)
    requires Affected(m, target, imports, p) && Affected(m, target, imports, q) && Depends(Deps(m), p, q)
    ensures Depends(AffectedEdges(m, AffectedSet(m, target, imports), target), p, q)
  {
    var path := DependsPath(Deps(m), p, q);
    StaysAffected(m, target, imports, path);
    PathDepends(AffectedEdges(m, AffectedSet(m, target, imports), target), path);
  }

  /** The affected packages, each once, and none before one it imports over any number of edges. */
  lemma AffectedAreOrdered(m: PkgMap, target: string, imports: set<string>)
    requires AffectedInOrder(m, target, imports).Success?
    ensures var r := AffectedInOrder(m, target, imports).value;
      DependencyOrder(Deps(m), AffectedSet(m, target, imports), r)
  {
    var a := AffectedSet(m, target, imports);
    if a != {} {
      var edges := AffectedEdges(m, a, target);
      SortOrdersNodes(edges, a + {target}, a);
      var r := AffectedInOrder(m, target, imports).value;
      forall i, j | 0 <= i < |r| && 0 <= j < |r| && Depends(Deps(m), r[i], r[j])
        ensures j < i
      {
        assert r[i] in r && r[j] in r;
        DependsAmongAffected(m, target, imports, r[i], r[j]);
      }
    }
  }

  lemma FewerEdgesReach(some: Edges, all: Edges, a: string, b: string)
    requires forall k, d :: d in some(k) ==> d in all(k)
    requires Reaches(some, a, b)
    ensures Reaches(all, a, b)
  {
    var p :| IsPathTo(some, p, a, b);
    assert IsPathTo(all, p, a, b);
  }

  lemma FewerEdgesCycle(some: Edges, all: Edges, few: set<string>, many: set<string>)
    requires forall k, d :: d in some(k) ==> d in all(k)
    requires CycleBehind(some, few) && few <= many
    ensures CycleBehind(all, many)
  {
    var n, c :| n in few && Reaches(some, n, c) && Depends(some, c, c);
    FewerEdgesReach(some, all, n, c);
    var d :| d in some(c) && Reaches(some, d, c);
    FewerEdgesReach(some, all, d, c);
    assert Depends(all, c, c);
  }

  /** ListLocalPackages sorts all local packages before any test is built; after that, no error can come. */
  lemma NoErrorOnceListed(m: PkgMap, target: string, imports: set<string>)
    requires SortedNodes(Deps(m), Universe(m), m.Keys).Success?
    ensures AffectedInOrder(m, target, imports).Success?
  {
    var a := AffectedSet(m, target, imports);
    var edges := AffectedEdges(m, a, target);
    SortFailsIffCycle(Deps(m), Universe(m), m.Keys);
    if a != {} {
      SortFailsIffCycle(edges, a + {target}, a);
      if SortedNodes(edges, a + {target}, a).Failure? {
        FewerEdgesCycle(edges, Deps(m), a, m.Keys);
        assert false;
      }
    }
  }
}
