/**
  Steps 6 to 9 of the experimental resolver (go/go2nix/pkg/resolve/resolve.go, graph.go): packages
  in dependency order, a derivation for each, all of them registered with the store, then the link.
 */
module Registration {
  import opened Wrappers
  import opened Graphs
  import Ordering

  datatype Pkg = Pkg(importPath: string, imports: seq<string>, name: string)

  /** By import path. */
  type PkgGraph = map<string, Pkg>

  /** An importcfg line: an archive of the standard library, or the output of a derivation. */
  datatype Entry = Std(importPath: string) | Archive(importPath: string, drvPath: string)

  datatype Drv = Drv(name: string, entries: seq<Entry>, inputDrvs: set<string>)

  datatype Error =
    | ImportCycle(key: string)
    | NoDrvPath(importPath: string)
    | InputNotInStore(drv: Drv)
    | PathMismatch(drv: Drv)
    | NoMainPackages

  ghost predicate WellKeyed(g: PkgGraph) {
    forall ip :: ip in g ==> g[ip].importPath == ip
  }

  /** topoSort's edges: every import, the standard library's too. */
  function AllImports(g: PkgGraph): Edges {
    ip => if ip in g then g[ip].imports else []
  }

  function Universe(g: PkgGraph): set<string> {
    g.Keys + set ip, d | ip in g && d in g[ip].imports :: d
  }

  /** The imports that are packages of the graph. */
  function GraphImports(g: PkgGraph): Edges {
    ip => if ip in g then Selected(g[ip].imports, g.Keys) else []
  }

  // ---- What a derivation is, given the paths of the others ----

  type Paths = map<string, string>

  predicate ImportsHavePaths(g: PkgGraph, paths: Paths, pkg: Pkg) {
    forall d :: d in pkg.imports && d in g ==> d in paths
  }

  function EntriesFor(g: PkgGraph, paths: Paths, imports: seq<string>): seq<Entry>
    requires forall d :: d in imports && d in g ==> d in paths
  {
    if |imports| == 0 then []
    else
      var last := imports[|imports| - 1];
      EntriesFor(g, paths, imports[..|imports| - 1]) + [if last in g then Archive(last, paths[last]) else Std(last)]
  }

  function PackageDrv(g: PkgGraph, paths: Paths, pkg: Pkg): Drv
    requires ImportsHavePaths(g, paths, pkg)
  {
    Drv(pkg.importPath, EntriesFor(g, paths, pkg.imports), set d | d in pkg.imports && d in g :: paths[d])
  }

  /** An entry for each import, in order: an archive of the graph's package, or of the standard library. */
  lemma {:induction false} EntriesAt(g: PkgGraph, paths: Paths, imports: seq<string>)
    requires forall d :: d in imports && d in g ==> d in paths
    ensures |EntriesFor(g, paths, imports)| == |imports|
    ensures forall i :: 0 <= i < |imports| ==>
      EntriesFor(g, paths, imports)[i]
      == if imports[i] in g then Archive(imports[i], paths[imports[i]]) else Std(imports[i])
  {
    if |imports| > 0 {
      var n := |imports| - 1;
      assert imports[n] in imports && forall d :: d in imports[..n] ==> d in imports;
      EntriesAt(g, paths, imports[..n]);
    }
  }

  /**
    The packages of order have their derivations' paths, each computed from the paths of the
    derivations it imports.
   */
  ghost predicate Assigned(g: PkgGraph, pathOf: Drv -> string, paths: Paths, done: set<string>) {
    && paths.Keys == done && done <= g.Keys
    && forall ip :: ip in done ==> ImportsHavePaths(g, paths, g[ip]) && paths[ip] == pathOf(PackageDrv(g, paths, g[ip]))
  }

  // ---- transitiveClosure ----

  ghost function ReachSet(g: PkgGraph, main: string): set<string> {
    set ip | ip in g && Reaches(GraphImports(g), main, ip)
  }

  ghost predicate Covered(g: PkgGraph, seen: set<string>, ip: string) {
    forall d :: d in GraphImports(g)(ip) ==> d in seen
  }

  ghost predicate Searching(g: PkgGraph, main: string, seen: set<string>, queue: seq<string>) {
    && main in seen && seen <= ReachSet(g, main)
    && (forall x :: x in queue ==> x in seen)
    && (forall x :: x in seen ==> x in queue || Covered(g, seen, x))
  }

  /** The package and all it reaches over imports inside the graph, by import path. */
  method TransitiveClosure(g: PkgGraph, main: string) returns (closure: seq<string>)
    requires main in g
    ensures closure == Ordering.Sorted(ReachSet(g, main))
  {
    var seen := {main};
    var queue := [main];
    ReachesSelf(GraphImports(g), main);
    while queue != []
      invariant Searching(g, main, seen, queue)
      decreases g.Keys - seen, |queue|
    {
      var cur := queue[0];
      assert queue == [cur] + queue[1..];
      seen, queue := AddImports(g, main, seen, queue[1..], cur);
    }
    SearchEnds(g, main, seen);
    closure := Ordering.SortKeys(seen);
  }

  /** The imports of cur not seen before join the set and the queue. */
  method AddImports(g: PkgGraph, main: string, before: set<string>, rest: seq<string>, cur: string)
    returns (seen: set<string>, queue: seq<string>)
    requires Searching(g, main, before, [cur] + rest) && main in g
    ensures Searching(g, main, seen, queue) && before <= seen
    ensures seen == before ==> queue == rest
    ensures seen != before ==> g.Keys - seen < g.Keys - before
  {
    assert cur in [cur] + rest;
    seen, queue := before, rest;
    var imports := g[cur].imports;
    for i := 0 to |imports|
      invariant Adding(g, main, imports, i, before, rest, seen, queue)
    {
      var imp := imports[i];
      AddingNext(g, main, cur, i, before, rest, seen, queue);
      if imp in seen || imp !in g {
        continue;
      }
      seen := seen + {imp};
      queue := queue + [imp];
    }
    CoverAll(g, cur, seen);
    SearchGoesOn(g, main, before, rest, cur, seen, queue);
    FewerLeft(g, main, before, seen);
  }

  lemma ReachNext(g: PkgGraph, main: string, cur: string, imp: string)
    requires cur in ReachSet(g, main) && imp in g[cur].imports && imp in g
    ensures imp in ReachSet(g, main)
  {
    ReachesLast(GraphImports(g), main, cur, imp);
  }

  lemma CoverAll(g: PkgGraph, cur: string, seen: set<string>)
    requires cur in g && forall j :: 0 <= j < |g[cur].imports| && g[cur].imports[j] in g ==> g[cur].imports[j] in seen
    ensures Covered(g, seen, cur)
  {
  }

  lemma FewerLeft(g: PkgGraph, main: string, before: set<string>, seen: set<string>)
    requires before <= seen <= ReachSet(g, main)
    ensures seen != before ==> g.Keys - seen < g.Keys - before
  {
    if x :| x in seen && x !in before {
      assert x in g.Keys - before && x !in g.Keys - seen;
    }
  }

  ghost predicate Queued(before: set<string>, rest: seq<string>, seen: set<string>, queue: seq<string>) {
    && before <= seen
    && (forall x :: x in queue <==> x in rest || x in seen - before)
    && (seen == before ==> queue == rest)
  }

  ghost predicate Adding(g: PkgGraph, main: string, imports: seq<string>, i: nat, before: set<string>,
                         rest: seq<string>,
                         seen: set<string>, queue: seq<string>)
  {
    && seen <= ReachSet(g, main) && i <= |imports|
    && (forall j :: 0 <= j < i && imports[j] in g ==> imports[j] in seen)
    && Queued(before, rest, seen, queue)
  }

  lemma AddNext(before: set<string>, rest: seq<string>, seen: set<string>, queue: seq<string>, imp: string)
    requires Queued(before, rest, seen, queue) && imp !in seen
    ensures Queued(before, rest, seen + {imp}, queue + [imp])
  {
  }

  lemma AddingNext(g: PkgGraph, main: string, cur: string, i: nat, before: set<string>, rest: seq<string>,
                   seen: set<string>, queue: seq<string>)
    requires cur in ReachSet(g, main) && i < |g[cur].imports|
      && Adding(g, main, g[cur].imports, i, before, rest, seen, queue)
    ensures var imp := g[cur].imports[i];
      if imp in seen || imp !in g then Adding(g, main, g[cur].imports, i + 1, before, rest, seen, queue)
      else Adding(g, main, g[cur].imports, i + 1, before, rest, seen + {imp}, queue + [imp])
  {
    var imp := g[cur].imports[i];
    if imp !in seen && imp in g {
      ReachNext(g, main, cur, imp);
      AddNext(before, rest, seen, queue, imp);
    }
  }

  lemma SearchGoesOn(g: PkgGraph, main: string, before: set<string>, rest: seq<string>, cur: string,
                     seen: set<string>, queue: seq<string>)
    requires Searching(g, main, before, [cur] + rest) && before <= seen <= ReachSet(g, main)
    requires Covered(g, seen, cur) && forall x :: x in queue <==> x in rest || x in seen - before
    ensures Searching(g, main, seen, queue)
  {
    forall x | x in seen
      ensures x in queue || Covered(g, seen, x)
    {
      if x in before && x != cur && x !in rest {
        assert x !in [cur] + rest;
        assert Covered(g, before, x);
      }
    }
    forall x | x in queue
      ensures x in seen
    {
      assert x in rest ==> x in [cur] + rest;
    }
  }

  lemma SearchEnds(g: PkgGraph, main: string, seen: set<string>)
    requires Searching(g, main, seen, [])
    ensures seen == ReachSet(g, main)
  {
    forall ip | ip in ReachSet(g, main)
      ensures ip in seen
    {
      ClosedHoldsReached(GraphImports(g), seen, main, ip);
    }
  }

  // ---- The link and collector derivations ----

  function ArchivesOf(paths: Paths, closure: seq<string>): seq<Entry>
    requires forall ip :: ip in closure ==> ip in paths
  {
    seq(|closure|, i requires 0 <= i < |closure| => Archive(closure[i], paths[closure[i]]))
  }

  function StdEntries(stdlib: seq<string>): seq<Entry> {
    seq(|stdlib|, i requires 0 <= i < |stdlib| => Std(stdlib[i]))
  }

  /** The last element of an import path. */
  function LastElement(path: string): string {
    if '/' !in path then path
    else if path[0] == '/' && '/' !in path[1..] then path[1..]
    else LastElement(path[1..])
  }

  /** The settings of a run that the derivations depend on. */
  datatype Config = Config(pname: string, stdlib: seq<string>, pathOf: Drv -> string)

  function BinaryName(cfg: Config, mains: nat, main: string): string {
    if mains > 1 then LastElement(main) else cfg.pname
  }

  /** What is behind the last slash, if there is one. */
  lemma {:induction false} LastElementIs(path: string) returns (k: nat)
    ensures k <= |path| && LastElement(path) == path[k..] && '/' !in path[k..]
    ensures k > 0 ==> path[k - 1] == '/'
  {
    if '/' !in path {
      k := 0;
    } else if path[0] == '/' && '/' !in path[1..] {
      k := 1;
    } else {
      var j := LastElementIs(path[1..]);
      assert j > 0 by {
        assert path == [path[0]] + path[1..] && path[1..][0..] == path[1..];
      }
      k := j + 1;
      assert path[1..][j..] == path[k..] && path[1..][j - 1] == path[k - 1];
    }
  }

  ghost function LinkDrv(cfg: Config, g: PkgGraph, paths: Paths, mains: nat, main: string): Drv
    requires ReachSet(g, main) <= paths.Keys
  {
    var closure := Ordering.Sorted(ReachSet(g, main));
    Drv(BinaryName(cfg, mains, main), ArchivesOf(paths, closure) + StdEntries(cfg.stdlib),
      set ip | ip in ReachSet(g, main) :: paths[ip])
  }

  /** A link lists exactly what its main reaches, and what a listed package imports is listed or not in the graph. */
  lemma LinkListsReached(cfg: Config, g: PkgGraph, paths: Paths, mains: nat, main: string)
    requires g.Keys <= paths.Keys
    ensures var drv := LinkDrv(cfg, g, paths, mains, main);
      && (forall ip, p :: Archive(ip, p) in drv.entries <==> ip in ReachSet(g, main) && p == paths[ip])
      && (forall ip, d :: ip in ReachSet(g, main) && d in g[ip].imports ==> d in ReachSet(g, main) || d !in g)
      && (forall p :: p in drv.inputDrvs <==> exists ip :: ip in ReachSet(g, main) && p == paths[ip])
    ensures var drv, closure := LinkDrv(cfg, g, paths, mains, main), Ordering.Sorted(ReachSet(g, main));
      && |drv.entries| == |closure| + |cfg.stdlib|
      && (forall i :: 0 <= i < |closure| ==> drv.entries[i] == Archive(closure[i], paths[closure[i]]))
      && (forall i :: 0 <= i < |cfg.stdlib| ==> drv.entries[|closure| + i] == Std(cfg.stdlib[i]))
      && (mains <= 1 ==> drv.name == cfg.pname)
      && (mains > 1 ==> drv.name == LastElement(main))
  {
    var closure := Ordering.Sorted(ReachSet(g, main));
    var archives := ArchivesOf(paths, closure);
    forall ip | ip in ReachSet(g, main)
      ensures Archive(ip, paths[ip]) in archives
    {
      var i :| 0 <= i < |closure| && closure[i] == ip;
      assert archives[i] == Archive(ip, paths[ip]);
    }
    forall ip, d | ip in ReachSet(g, main) && d in g[ip].imports && d in g
      ensures d in ReachSet(g, main)
    {
      ReachesLast(GraphImports(g), main, ip, d);
    }
  }

  // ---- The store ----

  class Store {
    const pathOf: Drv -> string
    var known: set<string>

    constructor (pathOf: Drv -> string, known: set<string>)
      ensures this.pathOf == pathOf && this.known == known
    {
      this.pathOf, this.known := pathOf, known;
    }

    /** Nix checks that a derivation's input derivations exist when it is added. */
    method DerivationAdd(drv: Drv) returns (ok: bool)
      modifies this
      ensures ok <==> drv.inputDrvs <= old(known)
      ensures known == old(known) + if ok then {pathOf(drv)} else {}
    {
      ok := drv.inputDrvs <= known;
      if ok {
        known := known + {pathOf(drv)};
      }
    }
  }

  ghost function PathsOf(pathOf: Drv -> string, drvs: seq<Drv>): set<string> {
    set drv | drv in drvs :: pathOf(drv)
  }

  ghost predicate InputsKnown(pathOf: Drv -> string, known: set<string>, drvs: seq<Drv>, i: nat)
    requires i < |drvs|
  {
    drvs[i].inputDrvs <= known + PathsOf(pathOf, drvs[..i])
  }

  /** Each derivation's inputs are known, or are derivations listed before it. */
  ghost predicate InputsFirst(pathOf: Drv -> string, known: set<string>, drvs: seq<Drv>) {
    forall i :: 0 <= i < |drvs| ==> InputsKnown(pathOf, known, drvs, i)
  }

  /** The loop that registers the final derivations, in order: an error exactly when one's inputs are not there. */
  method Register(store: Store, drvs: seq<Drv>) returns (failed: Option<Error>)
    modifies store
    ensures failed.None? <==> InputsFirst(store.pathOf, old(store.known), drvs)
    ensures failed.None? ==> store.known == old(store.known) + PathsOf(store.pathOf, drvs)
    ensures failed.Some? ==>
      exists i :: 0 <= i < |drvs| && !InputsKnown(store.pathOf, old(store.known), drvs, i)
                  && failed == Some(InputNotInStore(drvs[i]))
  {
    ghost var before := store.known;
    assert PathsOf(store.pathOf, drvs[..0]) == {};
    for i := 0 to |drvs|
      invariant store.known == before + PathsOf(store.pathOf, drvs[..i])
      invariant forall j :: 0 <= j < i ==> InputsKnown(store.pathOf, before, drvs, j)
    {
      PathsNext(store.pathOf, drvs, i);
      var ok := store.DerivationAdd(drvs[i]);
      if !ok {
        assert !InputsKnown(store.pathOf, before, drvs, i);
        return Some(InputNotInStore(drvs[i]));
      }
    }
    assert drvs[..|drvs|] == drvs;
    return None;
  }

  /**
    registerPackageDerivations: in slice order, and each path the store returns compared with the
    one computed. An error exactly when an input is not there or two paths differ.
   */
  method RegisterChecked(store: Store, pathOf: Drv -> string, drvs: seq<Drv>) returns (failed: Option<Error>)
    modifies store
    ensures failed.None? <==>
      && InputsFirst(store.pathOf, old(store.known), drvs)
      && forall drv :: drv in drvs ==> store.pathOf(drv) == pathOf(drv)
    ensures failed.None? ==> store.known == old(store.known) + PathsOf(pathOf, drvs)
    ensures match failed
      case None => true
      case Some(InputNotInStore(drv)) => !InputsFirst(pathOf, old(store.known), drvs)
      case Some(PathMismatch(drv)) => drv in drvs && store.pathOf(drv) != pathOf(drv)
      case Some(_) => false
  {
    ghost var before := store.known;
    assert PathsOf(pathOf, drvs[..0]) == {};
    for i := 0 to |drvs|
      invariant AgreeingUpTo(store.pathOf, pathOf, before, drvs, i)
      invariant store.known == before + PathsOf(pathOf, drvs[..i])
    {
      failed := RegisterNext(store, pathOf, drvs, i, before);
      if failed.Some? {
        return;
      }
    }
    assert drvs[..|drvs|] == drvs;
    AgreeingAll(store.pathOf, pathOf, before, drvs);
    return None;
  }

  /** One of them. */
  method RegisterNext(store: Store, pathOf: Drv -> string, drvs: seq<Drv>, i: nat, ghost before: set<string>)
    returns (failed: Option<Error>)
    requires i < |drvs| && AgreeingUpTo(store.pathOf, pathOf, before, drvs, i)
    requires store.known == before + PathsOf(pathOf, drvs[..i])
    modifies store
    ensures match failed
      case None =>
        && AgreeingUpTo(store.pathOf, pathOf, before, drvs, i + 1)
        && store.known == before + PathsOf(pathOf, drvs[..i + 1])
      case Some(InputNotInStore(drv)) =>
        drv == drvs[i] && !InputsKnown(store.pathOf, before, drvs, i) && !InputsKnown(pathOf, before, drvs, i)
      case Some(PathMismatch(drv)) => drv == drvs[i] && store.pathOf(drv) != pathOf(drv)
      case Some(_) => false
  {
    PathsNext(pathOf, drvs, i);
    SamePaths(store.pathOf, pathOf, drvs, i);
    var ok := store.DerivationAdd(drvs[i]);
    if !ok {
      return Some(InputNotInStore(drvs[i]));
    }
    return if store.pathOf(drvs[i]) != pathOf(drvs[i]) then Some(PathMismatch(drvs[i])) else None;
  }

  lemma AgreeingAll(storePathOf: Drv -> string, pathOf: Drv -> string, known: set<string>, drvs: seq<Drv>)
    requires AgreeingUpTo(storePathOf, pathOf, known, drvs, |drvs|)
    ensures InputsFirst(storePathOf, known, drvs) && forall drv :: drv in drvs ==> storePathOf(drv) == pathOf(drv)
  {
  }

  /** The first i derivations went in without an error. */
  ghost predicate AgreeingUpTo(storePathOf: Drv -> string, pathOf: Drv -> string, known: set<string>, drvs: seq<Drv>,
                               i: nat)
    requires i <= |drvs|
  {
    forall j :: 0 <= j < i ==> storePathOf(drvs[j]) == pathOf(drvs[j]) && InputsKnown(storePathOf, known, drvs, j)
  }

  lemma SamePaths(a: Drv -> string, b: Drv -> string, drvs: seq<Drv>, i: nat)
    requires i <= |drvs| && forall j :: 0 <= j < i ==> a(drvs[j]) == b(drvs[j])
    ensures PathsOf(a, drvs[..i]) == PathsOf(b, drvs[..i])
  {
    forall d | d in drvs[..i]
      ensures a(d) == b(d)
    {
      var j :| 0 <= j < i && drvs[j] == d;
    }
  }

  lemma PathsNext(pathOf: Drv -> string, drvs: seq<Drv>, i: nat)
    requires i < |drvs|
    ensures PathsOf(pathOf, drvs[..i + 1]) == PathsOf(pathOf, drvs[..i]) + {pathOf(drvs[i])}
  {
    assert drvs[..i + 1] == drvs[..i] + [drvs[i]];
    assert forall d :: d in drvs[..i + 1] <==> d in drvs[..i] || d == drvs[i];
  }
}
