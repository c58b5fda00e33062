/**
  affectedLocalDeps (go/go2nix/pkg/testrunner/testrunner.go): the local packages to recompile
  for an external test, and the order to recompile them in.
 */
module LocalDeps {
  import opened Wrappers
  import opened Graphs
  import opened Toposort

  /** Import path to LocalDeps, of every local package. */
  type PkgMap = map<string, seq<string>>

  /** The import graph of the local packages; a path that is not one of them has no edges. */
  function Deps(m: PkgMap): Edges {
    ip => if ip in m then m[ip] else []
  }

  /** Everything an import path can be here. */
  function Universe(m: PkgMap): set<string> {
    m.Keys + set p, d | p in m && d in m[p] :: d
  }

  /**
    The packages whose archive was built against the one the test replaces: reached from the
    external test's imports, and importing the target over one or more edges.
   */
  ghost predicate Affected(m: PkgMap, target: string, imports: set<string>, p: string) {
    p in m && p != target && ReachedFrom(Deps(m), imports, p) && Depends(Deps(m), p, target)
  }

  ghost function AffectedSet(m: PkgMap, target: string, imports: set<string>): set<string> {
    set p | p in m && Affected(m, target, imports, p)
  }

  /** The graph that is sorted: edges to affected packages and to the target. */
  function AffectedEdges(m: PkgMap, affected: set<string>, target: string): Edges {
    ip => Selected(Deps(m)(ip), affected + {target})
  }

  /** The result of affectedLocalDeps, whatever order its maps are iterated in. */
  ghost function AffectedInOrder(m: PkgMap, target: string, imports: set<string>): Result<seq<string>, string> {
    var a := AffectedSet(m, target, imports);
    if a == {} then Success([]) else SortedNodes(AffectedEdges(m, a, target), a + {target}, a)
  }

  // ---- The steps ----

  /** r adds to `reachable` packages behind ip, with their dependencies, those of `open` excepted. */
  ghost predicate Walked(m: PkgMap, reachable: set<string>, ip: string, open: set<string>, r: set<string>) {
    && reachable <= r <= Universe(m)
    && (forall k :: k in r - reachable ==> Reaches(Deps(m), ip, k))
    && (forall k, d :: k in r - reachable - open && d in Deps(m)(k) ==> d in r)
  }

  /** walkForward, with what xtestReachable has grown to. */
  method WalkForward(m: PkgMap, reachable: set<string>, ip: string) returns (r: set<string>)
    requires reachable <= Universe(m) && ip in Universe(m)
    ensures Walked(m, reachable, ip, {}, r) && ip in r
    decreases Universe(m) - reachable
  {
    r := reachable;
    ReachesSelf(Deps(m), ip);
    if ip in reachable {
      return;
    }
    r := r + {ip};
    if ip in m {
      for i := 0 to |m[ip]|
        invariant Walked(m, reachable, ip, {ip}, r) && ip in r
        invariant forall j :: 0 <= j < i ==> m[ip][j] in r
      {
        UniverseShrinks(m, reachable, ip, i, r);
        ghost var before := r;
        r := WalkForward(m, r, m[ip][i]);
        WalkedOn(m, reachable, ip, before, m[ip][i], r);
      }
    }
  }

  lemma UniverseShrinks(m: PkgMap, reachable: set<string>, ip: string, i: nat, r: set<string>)
    requires ip in m && i < |m[ip]| && ip in r && ip !in reachable && reachable <= r
    ensures m[ip][i] in Universe(m)
    ensures Universe(m) - r < Universe(m) - reachable
  {
    assert m[ip][i] in m[ip];
    assert ip in Universe(m) - reachable && ip !in Universe(m) - r;
  }

  lemma WalkedOn(m: PkgMap, reachable: set<string>, ip: string, before: set<string>, dep: string, r: set<string>)
    requires Walked(m, reachable, ip, {ip}, before) && Walked(m, before, dep, {}, r) && dep in Deps(m)(ip)
    ensures Walked(m, reachable, ip, {ip}, r)
  {
    forall k | k in r - before
      ensures Reaches(Deps(m), ip, k)
    {
      ReachesFirst(Deps(m), ip, dep, k);
    }
  }

  method Reachable(m: PkgMap, imports: seq<string>) returns (r: set<string>)
    requires forall i :: i in imports ==> i in m
    ensures forall k :: k in r <==> ReachedFrom(Deps(m), ToSet(imports), k)
  {
    r := {};
    for i := 0 to |imports|
      invariant r <= Universe(m) && Closed(Deps(m), r)
      invariant forall j :: 0 <= j < i ==> imports[j] in r
      invariant forall k :: k in r ==> ReachedFrom(Deps(m), ToSet(imports), k)
    {
      ghost var before := r;
      r := WalkForward(m, r, imports[i]);
      assert Walked(m, before, imports[i], {}, r);
      forall k | k in r - before
        ensures ReachedFrom(Deps(m), ToSet(imports), k)
      {
        assert imports[i] in ToSet(imports) && Reaches(Deps(m), imports[i], k);
      }
    }
    forall k | ReachedFrom(Deps(m), ToSet(imports), k)
      ensures k in r
    {
      var i :| i in ToSet(imports) && Reaches(Deps(m), i, k);
      ClosedHoldsReached(Deps(m), r, i, k);
    }
  }

  ghost predicate IsReverse(m: PkgMap, revDeps: map<string, seq<string>>) {
    forall p, d :: p in m && d in m[p] <==> d in revDeps && p in revDeps[d]
  }

  function Dependents(revDeps: map<string, seq<string>>, d: string): seq<string> {
    if d in revDeps then revDeps[d] else []
  }

  lemma DependentsAre(m: PkgMap, revDeps: map<string, seq<string>>, d: string)
    requires IsReverse(m, revDeps)
    ensures forall p :: p in Dependents(revDeps, d) <==> p in m && d in m[p]
  {
  }

  /** revDeps, over the packages in whatever order the map yields them. */
  method Reverse(m: PkgMap) returns (revDeps: map<string, seq<string>>)
    ensures IsReverse(m, revDeps)
  {
    revDeps := map[];
    var left := m.Keys;
    while left != {}
      invariant left <= m.Keys
      invariant forall p, d :: p in m && p !in left && d in m[p] <==> d in revDeps && p in revDeps[d]
      decreases |left|
    {
      var ip :| ip in left;
      ghost var before := revDeps;
      for i := 0 to |m[ip]|
        invariant forall p, d :: p != ip ==> (d in revDeps && p in revDeps[d] <==> d in before && p in before[d])
        invariant forall d :: d in revDeps && ip in revDeps[d] <==> d in m[ip][..i]
      {
        var dep := m[ip][i];
        assert m[ip][..i + 1] == m[ip][..i] + [dep];
        revDeps := revDeps[dep := Dependents(revDeps, dep) + [ip]];
      }
      assert m[ip][..|m[ip]|] == m[ip];
      left := left - {ip};
    }
  }

  // ---- The pruned breadth-first search ----

  /** x's dependents that the external test reaches are in `affected`, the target aside. */
  ghost predicate Spread(m: PkgMap, target: string, reachable: set<string>, affected: set<string>, x: string) {
    forall p :: p in m && x in m[p] && p in reachable && p != target ==> p in affected
  }

  ghost predicate Found(m: PkgMap, target: string, reachable: set<string>, affected: set<string>) {
    forall p :: p in affected ==> p in m && p in reachable && p != target && Depends(Deps(m), p, target)
  }

  /** Everything found depends on the target and is reached, and what is not in the queue has spread. */
  ghost predicate Searching(m: PkgMap, target: string, reachable: set<string>, affected: set<string>,
                            queue: seq<string>) {
    && Found(m, target, reachable, affected)
    && (forall x :: x in queue ==> x == target || x in affected)
    && (forall x :: x == target || x in affected ==> x in queue || Spread(m, target, reachable, affected, x))
  }

  method Search(m: PkgMap, target: string, reachable: set<string>) returns (affected: set<string>)
    ensures Searching(m, target, reachable, affected, [])
  {
    var revDeps := Reverse(m);
    affected := {};
    var queue := [target];
    SearchStarts(m, target, reachable);
    while queue != []
      invariant Searching(m, target, reachable, affected, queue)
      decreases m.Keys - affected, |queue|
    {
      var cur := queue[0];
      var rdeps := Dependents(revDeps, cur);
      DependentsAre(m, revDeps, cur);
      assert queue == [cur] + queue[1..];
      affected, queue := Extend(m, target, reachable, affected, queue[1..], cur, rdeps);
    }
  }

  lemma SearchStarts(m: PkgMap, target: string, reachable: set<string>)
    ensures Searching(m, target, reachable, {}, [target])
  {
    assert target in [target];
  }

  lemma SearchGoesOn(m: PkgMap, target: string, reachable: set<string>, before: set<string>, cur: string,
                     rest: seq<string>,
                     affected: set<string>, queue: seq<string>)
    requires Searching(m, target, reachable, before, [cur] + rest)
    requires before <= affected && Found(m, target, reachable, affected)
    requires Spread(m, target, reachable, affected, cur)
    requires forall x :: x in queue <==> x in rest || x in affected - before
    ensures Searching(m, target, reachable, affected, queue)
  {
    forall x | x == target || x in affected
      ensures x in queue || Spread(m, target, reachable, affected, x)
    {
      if (x == target || x in before) && x != cur && x !in rest {
        assert x !in [cur] + rest;
        assert Spread(m, target, reachable, before, x);
      }
    }
    forall x | x in queue
      ensures x == target || x in affected
    {
      assert x in rest ==> x in [cur] + rest;
    }
  }

  /** One round of the loop: the dependents of `cur` not met before join the set and the queue. */
  method Extend(m: PkgMap, target: string, reachable: set<string>, before: set<string>, rest: seq<string>,
                cur: string, rdeps: seq<string>)
    returns (affected: set<string>, queue: seq<string>)
    requires Searching(m, target, reachable, before, [cur] + rest)
    requires forall p :: p in rdeps <==> p in m && cur in m[p]
    ensures Searching(m, target, reachable, affected, queue)
    ensures affected == before ==> queue == rest
    ensures affected != before ==> m.Keys - affected < m.Keys - before
  {
    assert cur in [cur] + rest;
    affected, queue := before, rest;
    for i := 0 to |rdeps|
      invariant before <= affected && Found(m, target, reachable, affected)
      invariant forall j :: 0 <= j < i ==> rdeps[j] in affected || rdeps[j] == target || rdeps[j] !in reachable
      invariant forall x :: x in queue <==> x in rest || x in affected - before
      invariant affected == before ==> queue == rest
    {
      var rdep := rdeps[i];
      if rdep == target || rdep in affected || rdep !in reachable {
        continue;
      }
      assert rdep in rdeps;
      DependsStep(m, rdep, cur, target);
      affected := affected + {rdep};
      queue := queue + [rdep];
    }
    SearchGoesOn(m, target, reachable, before, cur, rest, affected, queue);
  }

  lemma DependsStep(m: PkgMap, p: string, d: string, target: string)
    requires p in m && d in m[p] && (d == target || Depends(Deps(m), d, target))
    ensures Depends(Deps(m), p, target)
  {
    if d == target {
      ReachesSelf(Deps(m), d);
    } else {
      DependsReaches(Deps(m), d, target);
    }
    assert d in Deps(m)(p);
  }

  /** What spreads from the target through reachable packages is everything reachable that depends on it. */
  lemma {:induction false} SpreadIsAll(m: PkgMap, target: string, imports: set<string>, reachable: set<string>,
                                       affected: set<string>, path: seq<string>)
    requires forall k :: k in reachable <==> ReachedFrom(Deps(m), imports, k)
    requires forall x :: x == target || x in affected ==> Spread(m, target, reachable, affected, x)
    requires |path| > 0 && IsPathTo(Deps(m), path, path[0], target) && path[0] in reachable
    ensures path[0] == target || path[0] in affected
    decreases |path|
  {
    if |path| > 1 && path[0] != target {
      var rest := path[1..];
      assert path[1] in Deps(m)(path[0]);
      forall i | 0 < i < |rest|
        ensures rest[i] in Deps(m)(rest[i - 1])
      {
        assert path[i + 1] in Deps(m)(path[i]);
      }
      var r :| r in imports && Reaches(Deps(m), r, path[0]);
      ReachesLast(Deps(m), r, path[0], path[1]);
      SpreadIsAll(m, target, imports, reachable, affected, rest);
      assert Spread(m, target, reachable, affected, path[1]);
    }
  }

  /** affectedLocalDeps. */
  method AffectedLocalDeps(target: string, xtestLocalImports: seq<string>, m: PkgMap)
    returns (r: Result<seq<string>, string>)
    requires forall i :: i in xtestLocalImports ==> i in m
    ensures r == AffectedInOrder(m, target, ToSet(xtestLocalImports))
  {
    var reachable := Reachable(m, xtestLocalImports);
    var affected := Search(m, target, reachable);
    SearchFindsAll(m, target, ToSet(xtestLocalImports), reachable, affected);
    if affected == {} {
      return Success([]);
    }
    r := SortIdentity(AffectedEdges(m, affected, target), affected, affected + {target});
  }

  /** Sort over an identity map, which is what `affected` is. */
  method SortIdentity(edges: Edges, affected: set<string>, ghost universe: set<string>)
    returns (r: Result<seq<string>, string>)
    requires Closed(edges, universe) && affected <= universe
    ensures r == SortedNodes(edges, universe, affected)
  {
    var identity := map p | p in affected :: p;
    assert identity.Keys == affected;
    r := Sort(identity, edges, universe);
    ghost var sorted := SortedNodes(edges, universe, identity.Keys);
    if sorted.Success? {
      assert Values(identity, sorted.value) == sorted.value;
    }
  }

  lemma SearchFindsAll(m: PkgMap, target: string, imports: set<string>, reachable: set<string>, affected: set<string>)
    requires forall k :: k in reachable <==> ReachedFrom(Deps(m), imports, k)
    requires Searching(m, target, reachable, affected, [])
    ensures affected == AffectedSet(m, target, imports)
  {
    forall p | Affected(m, target, imports, p)
      ensures p in affected
    {
      DependsReaches(Deps(m), p, target);
      var path :| IsPathTo(Deps(m), path, p, target);
      SpreadIsAll(m, target, imports, reachable, affected, path);
    }
  }
}
