/**
  The experimental resolver's run over steps 6 to 9 (go/go2nix/pkg/resolve/resolve.go): what it
  registers with the store, in which order, and that nothing it needs is missing on the way.
 */
module Resolver {
  import opened Wrappers
  import opened Graphs
  import opened Seqs
  import opened Toposort
  import Ordering
  import opened Registration

  // ---- Step 7: a derivation for each package, in dependency order ----

  lemma {:induction false} EntriesStay(g: PkgGraph, paths: Paths, more: Paths, imports: seq<string>)
    requires forall d :: d in imports && d in g ==> d in paths && d in more && more[d] == paths[d]
    ensures EntriesFor(g, more, imports) == EntriesFor(g, paths, imports)
  {
    if |imports| > 0 {
      var n := |imports| - 1;
      assert imports[n] in imports && forall d :: d in imports[..n] ==> d in imports;
      EntriesStay(g, paths, more, imports[..n]);
    }
  }

  /** A derivation does not change as the paths of further packages become known. */
  lemma DrvStays(g: PkgGraph, paths: Paths, more: Paths, pkg: Pkg)
    requires ImportsHavePaths(g, paths, pkg) && forall d :: d in paths ==> d in more && more[d] == paths[d]
    ensures ImportsHavePaths(g, more, pkg) && PackageDrv(g, more, pkg) == PackageDrv(g, paths, pkg)
  {
    EntriesStay(g, paths, more, pkg.imports);
  }

  lemma AssignedNext(g: PkgGraph, pathOf: Drv -> string, paths: Paths, done: set<string>, ip: string)
    requires Assigned(g, pathOf, paths, done) && ip in g && ip !in done && ImportsHavePaths(g, paths, g[ip])
    ensures Assigned(g, pathOf, paths[ip := pathOf(PackageDrv(g, paths, g[ip]))], done + {ip})
  {
    var more := paths[ip := pathOf(PackageDrv(g, paths, g[ip]))];
    forall q | q in done + {ip}
      ensures ImportsHavePaths(g, more, g[q]) && more[q] == pathOf(PackageDrv(g, more, g[q]))
    {
      DrvStays(g, paths, more, g[q]);
    }
  }

  /** buildImportcfg, and what the rest of buildPackageDrv takes from it. */
  method BuildPackageDrv(g: PkgGraph, paths: Paths, pkg: Pkg) returns (r: Result<Drv, Error>)
    ensures r.Success? <==> forall d :: d in pkg.imports && d in g ==> d in paths
    ensures r.Success? ==> r.value.name == pkg.importPath && |r.value.entries| == |pkg.imports|
    ensures r.Success? ==> forall i :: 0 <= i < |pkg.imports| ==>
      r.value.entries[i] == if pkg.imports[i] in g then Archive(pkg.imports[i], paths[pkg.imports[i]])
                            else Std(pkg.imports[i])
    ensures r.Success? ==> forall p :: p in r.value.inputDrvs <==>
      exists d :: d in pkg.imports && d in g && p == paths[d]
    ensures r.Success? ==> r.value == PackageDrv(g, paths, pkg)
    ensures !ImportsHavePaths(g, paths, pkg) ==>
      && r.Failure? && r.error.NoDrvPath?
      && r.error.importPath in pkg.imports && r.error.importPath in g && r.error.importPath !in paths
  {
    var entries: seq<Entry> := [];
    var inputs: set<string> := {};
    for i := 0 to |pkg.imports|
      invariant Listing(g, paths, pkg.imports[..i], entries, inputs)
    {
      var imp := pkg.imports[i];
      ListingNext(g, paths, pkg.imports, i, entries, inputs);
      if imp !in g {
        entries := entries + [Std(imp)];
        continue;
      }
      if imp !in paths {
        return Failure(NoDrvPath(imp));
      }
      entries := entries + [Archive(imp, paths[imp])];
      inputs := inputs + {paths[imp]};
    }
    assert pkg.imports[..|pkg.imports|] == pkg.imports;
    EntriesAt(g, paths, pkg.imports);
    return Success(Drv(pkg.importPath, entries, inputs));
  }

  ghost predicate Listing(g: PkgGraph, paths: Paths, imports: seq<string>, entries: seq<Entry>, inputs: set<string>) {
    && (forall d :: d in imports && d in g ==> d in paths)
    && entries == EntriesFor(g, paths, imports)
    && inputs == set d | d in imports && d in g :: paths[d]
  }

  lemma ListingNext(g: PkgGraph, paths: Paths, imports: seq<string>, i: nat, entries: seq<Entry>, inputs: set<string>)
    requires i < |imports| && Listing(g, paths, imports[..i], entries, inputs)
    ensures imports[i] !in g ==> Listing(g, paths, imports[..i + 1], entries + [Std(imports[i])], inputs)
    ensures imports[i] in g && imports[i] in paths ==>
      Listing(g, paths, imports[..i + 1], entries + [Archive(imports[i], paths[imports[i]])],
        inputs + {paths[imports[i]]})
  {
    assert imports[..i + 1][..i] == imports[..i];
    assert imports[..i + 1] == imports[..i] + [imports[i]];
    assert forall d :: d in imports[..i + 1] <==> d in imports[..i] || d == imports[i];
  }

  /** The derivations of order, given the paths of all of them. */
  ghost predicate AreDrvs(g: PkgGraph, paths: Paths, keys: seq<string>, drvs: seq<Drv>) {
    |drvs| == |keys| && forall i :: 0 <= i < |keys| ==> IsDrvOf(g, paths, keys[i], drvs[i])
  }

  ghost predicate IsDrvOf(g: PkgGraph, paths: Paths, ip: string, drv: Drv) {
    ip in g && ImportsHavePaths(g, paths, g[ip]) && drv == PackageDrv(g, paths, g[ip])
  }

  /** Everything a package imports comes before it. */
  ghost predicate ImportsFirst(g: PkgGraph, keys: seq<string>) {
    && (forall i, j :: 0 <= i < j < |keys| ==> keys[i] != keys[j])
    && (forall i, d :: 0 <= i < |keys| && keys[i] in g && d in g[keys[i]].imports && d in g ==> d in keys[..i])
  }

  lemma SortedImportsFirst(g: PkgGraph, keys: seq<string>)
    requires DependencyOrder(AllImports(g), g.Keys, keys)
    ensures ImportsFirst(g, keys)
  {
    forall i, d | 0 <= i < |keys| && keys[i] in g && d in g[keys[i]].imports && d in g
      ensures d in keys[..i]
    {
      ReachesSelf(AllImports(g), d);
      assert d in AllImports(g)(keys[i]) && Depends(AllImports(g), keys[i], d);
      var j :| 0 <= j < |keys| && keys[j] == d;
      assert keys[..i][j] == d;
    }
  }

  lemma DrvsStay(g: PkgGraph, pathOf: Drv -> string, paths: Paths, keys: seq<string>, drvs: seq<Drv>, ip: string)
    requires Assigned(g, pathOf, paths, ToSet(keys)) && AreDrvs(g, paths, keys, drvs)
    requires ip in g && ip !in keys && ImportsHavePaths(g, paths, g[ip])
    ensures var drv := PackageDrv(g, paths, g[ip]);
      Assigned(g, pathOf, paths[ip := pathOf(drv)], ToSet(keys + [ip]))
        && AreDrvs(g, paths[ip := pathOf(drv)], keys + [ip], drvs + [drv])
  {
    var drv := PackageDrv(g, paths, g[ip]);
    var more := paths[ip := pathOf(drv)];
    AssignedNext(g, pathOf, paths, ToSet(keys), ip);
    assert ToSet(keys + [ip]) == ToSet(keys) + {ip};
    forall i | 0 <= i < |keys + [ip]|
      ensures IsDrvOf(g, more, (keys + [ip])[i], (drvs + [drv])[i])
    {
      if i < |keys| {
        assert IsDrvOf(g, paths, keys[i], drvs[i]);
        DrvStays(g, paths, more, g[keys[i]]);
      } else {
        DrvStays(g, paths, more, g[ip]);
      }
    }
  }

  ghost predicate BuiltUpTo(g: PkgGraph, pathOf: Drv -> string, keys: seq<string>, paths: Paths, drvs: seq<Drv>) {
    Assigned(g, pathOf, paths, ToSet(keys)) && AreDrvs(g, paths, keys, drvs)
  }

  lemma BuildNext(g: PkgGraph, pathOf: Drv -> string, keys: seq<string>, i: nat, paths: Paths, drvs: seq<Drv>)
    requires (forall k :: k in keys ==> k in g) && ImportsFirst(g, keys) && i < |keys|
      && BuiltUpTo(g, pathOf, keys[..i], paths, drvs)
    ensures ImportsHavePaths(g, paths, g[keys[i]])
    ensures var drv := PackageDrv(g, paths, g[keys[i]]);
      BuiltUpTo(g, pathOf, keys[..i + 1], paths[keys[i] := pathOf(drv)], drvs + [drv])
  {
    NextHasPaths(g, pathOf, paths, keys, i);
    DrvsStay(g, pathOf, paths, keys[..i], drvs, keys[i]);
    assert keys[..i + 1] == keys[..i] + [keys[i]];
  }

  /** Step 7b: no import is met before its path is known. */
  method BuildPackageDrvs(g: PkgGraph, pathOf: Drv -> string, keys: seq<string>)
    returns (r: Result<seq<Drv>, Error>, paths: Paths)
    requires (forall k :: k in keys ==> k in g) && ImportsFirst(g, keys)
    ensures r.Success? && BuiltUpTo(g, pathOf, keys, paths, r.value)
  {
    paths := map[];
    var drvs: seq<Drv> := [];
    for i := 0 to |keys|
      invariant BuiltUpTo(g, pathOf, keys[..i], paths, drvs)
    {
      BuildNext(g, pathOf, keys, i, paths, drvs);
      var built := BuildPackageDrv(g, paths, g[keys[i]]);
      paths, drvs := paths[keys[i] := pathOf(built.value)], drvs + [built.value];
    }
    assert keys[..|keys|] == keys;
    return Success(drvs), paths;
  }

  lemma NextHasPaths(g: PkgGraph, pathOf: Drv -> string, paths: Paths, keys: seq<string>, i: nat)
    requires ImportsFirst(g, keys) && i < |keys| && keys[i] in g && Assigned(g, pathOf, paths, ToSet(keys[..i]))
    ensures ImportsHavePaths(g, paths, g[keys[i]]) && keys[i] !in keys[..i]
  {
    forall d | d in g[keys[i]].imports && d in g
      ensures d in paths
    {
      assert d in keys[..i];
    }
  }

  /** The derivations of a dependency order have their inputs before them. */
  lemma PackageInputsFirst(g: PkgGraph, pathOf: Drv -> string, paths: Paths, keys: seq<string>, drvs: seq<Drv>,
                           known: set<string>)
    requires ImportsFirst(g, keys) && BuiltUpTo(g, pathOf, keys, paths, drvs)
    ensures InputsFirst(pathOf, known, drvs)
    ensures PathsOf(pathOf, drvs) == paths.Values
  {
    forall i | 0 <= i < |drvs|
      ensures InputsKnown(pathOf, known, drvs, i)
    {
      assert IsDrvOf(g, paths, keys[i], drvs[i]);
      forall d | d in g[keys[i]].imports && d in g
        ensures paths[d] in PathsOf(pathOf, drvs[..i])
      {
        EarlierPath(g, pathOf, paths, keys, drvs, i, d);
      }
    }
    forall p | p in paths.Values
      ensures p in PathsOf(pathOf, drvs)
    {
      var d :| d in paths && paths[d] == p;
      var j :| 0 <= j < |keys| && keys[j] == d;
      assert IsDrvOf(g, paths, keys[j], drvs[j]);
    }
    forall drv | drv in drvs
      ensures pathOf(drv) in paths.Values
    {
      var j :| 0 <= j < |drvs| && drvs[j] == drv;
      assert IsDrvOf(g, paths, keys[j], drvs[j]);
      assert keys[j] in ToSet(keys);
    }
  }

  /**
    Every archive a derivation lists is among its inputs, is the output of a package imported, and
    is registered before it; and it has no other inputs.
   */
  lemma ArchivesAreInputs(g: PkgGraph, pathOf: Drv -> string, paths: Paths, keys: seq<string>, drvs: seq<Drv>, i: nat)
    requires ImportsFirst(g, keys) && BuiltUpTo(g, pathOf, keys, paths, drvs) && i < |drvs|
    ensures forall ip, p :: Archive(ip, p) in drvs[i].entries ==>
      p in drvs[i].inputDrvs && ip in keys[..i] && p in PathsOf(pathOf, drvs[..i])
    ensures forall p :: p in drvs[i].inputDrvs ==> exists ip :: Archive(ip, p) in drvs[i].entries
    ensures forall d :: d in g[keys[i]].imports ==>
      if d in g then Archive(d, paths[d]) in drvs[i].entries else Std(d) in drvs[i].entries
  {
    assert IsDrvOf(g, paths, keys[i], drvs[i]);
    var imports, entries := g[keys[i]].imports, drvs[i].entries;
    EntriesAt(g, paths, imports);
    forall ip, p | Archive(ip, p) in entries
      ensures p in drvs[i].inputDrvs && ip in keys[..i] && p in PathsOf(pathOf, drvs[..i])
    {
      var k :| 0 <= k < |entries| && entries[k] == Archive(ip, p);
      assert imports[k] == ip && ip in imports && ip in g;
      EarlierPath(g, pathOf, paths, keys, drvs, i, ip);
    }
    forall d | d in imports
      ensures if d in g then Archive(d, paths[d]) in entries else Std(d) in entries
    {
      var k :| 0 <= k < |imports| && imports[k] == d;
      assert entries[k] in entries;
    }
  }

  lemma EarlierPath(g: PkgGraph, pathOf: Drv -> string, paths: Paths, keys: seq<string>, drvs: seq<Drv>, i: nat,
                    d: string)
    requires BuiltUpTo(g, pathOf, keys, paths, drvs) && i < |drvs| && d in keys[..i]
    ensures d in paths && paths[d] in PathsOf(pathOf, drvs[..i])
  {
    var j :| 0 <= j < i && keys[j] == d;
    assert IsDrvOf(g, paths, keys[j], drvs[j]);
    assert drvs[..i][j] == drvs[j];
  }

  // ---- Steps 8 and 9: a link for each main package, and a collector ----

  /** buildLinkDrv. */
  method BuildLinkDrv(cfg: Config, g: PkgGraph, paths: Paths, mains: nat, main: string) returns (drv: Drv)
    requires main in g && g.Keys <= paths.Keys
    ensures drv == LinkDrv(cfg, g, paths, mains, main)
  {
    var closure := TransitiveClosure(g, main);
    var entries: seq<Entry> := [];
    var inputs: set<string> := {};
    for i := 0 to |closure|
      invariant Linking(paths, closure, i, entries, inputs)
    {
      assert closure[i] in closure;
      LinkingNext(paths, closure, i, entries, inputs);
      entries := entries + [Archive(closure[i], paths[closure[i]])];
      inputs := inputs + {paths[closure[i]]};
    }
    LinkingEnds(g, paths, main, closure, entries, inputs);
    entries := entries + StdEntries(cfg.stdlib);
    drv := Drv(BinaryName(cfg, mains, main), entries, inputs);
  }

  ghost predicate Linking(paths: Paths, closure: seq<string>, i: nat, entries: seq<Entry>, inputs: set<string>) {
    && i <= |closure| && |entries| == i
    && (forall j :: 0 <= j < i ==> closure[j] in paths && entries[j] == Archive(closure[j], paths[closure[j]]))
    && inputs == set j | 0 <= j < i :: paths[closure[j]]
  }

  lemma LinkingNext(paths: Paths, closure: seq<string>, i: nat, entries: seq<Entry>, inputs: set<string>)
    requires Linking(paths, closure, i, entries, inputs) && i < |closure| && closure[i] in paths
    ensures Linking(paths, closure, i + 1, entries + [Archive(closure[i], paths[closure[i]])],
      inputs + {paths[closure[i]]})
  {
  }

  lemma LinkingEnds(g: PkgGraph, paths: Paths, main: string, closure: seq<string>, entries: seq<Entry>,
                    inputs: set<string>)
    requires g.Keys <= paths.Keys && closure == Ordering.Sorted(ReachSet(g, main))
      && Linking(paths, closure, |closure|, entries, inputs)
    ensures entries == ArchivesOf(paths, closure) && inputs == set ip | ip in ReachSet(g, main) :: paths[ip]
  {
    forall ip | ip in ReachSet(g, main)
      ensures paths[ip] in inputs
    {
      var j :| 0 <= j < |closure| && closure[j] == ip;
      assert paths[closure[j]] in inputs;
    }
    forall j | 0 <= j < |closure|
      ensures closure[j] in ReachSet(g, main)
    {
      assert closure[j] in closure;
    }
  }

  /** The main packages, in dependency order. */
  function Mains(g: PkgGraph, keys: seq<string>): (r: seq<string>)
    ensures forall ip :: ip in r <==> ip in keys && ip in g && g[ip].name == "main"
  {
    if |keys| == 0 then []
    else
      var last := keys[|keys| - 1];
      assert keys == keys[..|keys| - 1] + [last];
      Mains(g, keys[..|keys| - 1]) + if last in g && g[last].name == "main" then [last] else []
  }

  lemma {:induction false} MainsInOrder(g: PkgGraph, keys: seq<string>)
    ensures IsSubsequence(Mains(g, keys), keys)
  {
    if |keys| > 0 {
      var init, last := keys[..|keys| - 1], keys[|keys| - 1];
      MainsInOrder(g, init);
      SubsequenceAppend(Mains(g, init), init, last);
      assert keys == init + [last] && Mains(g, init) + [] == Mains(g, init);
    }
  }

  ghost function Links(cfg: Config, g: PkgGraph, paths: Paths, mains: seq<string>, n: nat): seq<Drv>
    requires n <= |mains| && g.Keys <= paths.Keys
  {
    if n == 0 then [] else Links(cfg, g, paths, mains, n - 1) + [LinkDrv(cfg, g, paths, |mains|, mains[n - 1])]
  }

  ghost function Collector(cfg: Config, links: seq<Drv>): Drv {
    Drv("collector", [], PathsOf(cfg.pathOf, links))
  }

  /** What is registered last: the links, and with more than one the collector. */
  ghost function FinalDrvs(cfg: Config, g: PkgGraph, paths: Paths, mains: seq<string>): seq<Drv>
    requires g.Keys <= paths.Keys
  {
    var links := Links(cfg, g, paths, mains, |mains|);
    if |mains| <= 1 then links else links + [Collector(cfg, links)]
  }

  /** The main packages of the sorted ones. */
  method FindMains(g: PkgGraph, keys: seq<string>) returns (mains: seq<string>)
    ensures mains == Mains(g, keys)
  {
    mains := [];
    for i := 0 to |keys|
      invariant mains == Mains(g, keys[..i])
    {
      assert keys[..i + 1][..i] == keys[..i];
      if keys[i] in g && g[keys[i]].name == "main" {
        mains := mains + [keys[i]];
      }
    }
    assert keys[..|keys|] == keys;
  }

  /** A link for each of them. */
  method BuildLinks(cfg: Config, g: PkgGraph, paths: Paths, mains: seq<string>)
    returns (drvs: seq<Drv>, linkPaths: set<string>)
    requires g.Keys <= paths.Keys && forall ip :: ip in mains ==> ip in g
    ensures drvs == Links(cfg, g, paths, mains, |mains|) && linkPaths == PathsOf(cfg.pathOf, drvs)
  {
    drvs, linkPaths := [], {};
    for i := 0 to |mains|
      invariant drvs == Links(cfg, g, paths, mains, i) && linkPaths == PathsOf(cfg.pathOf, drvs)
    {
      assert mains[i] in mains;
      var drv := BuildLinkDrv(cfg, g, paths, |mains|, mains[i]);
      PathsOfMore(cfg.pathOf, drvs, drv);
      drvs, linkPaths := drvs + [drv], linkPaths + {cfg.pathOf(drv)};
    }
  }

  /** buildFinalDrv: the derivation that gives the result, and all to register for it. */
  method BuildFinalDrv(cfg: Config, g: PkgGraph, paths: Paths, keys: seq<string>) returns (r: Result<seq<Drv>, Error>)
    requires g.Keys <= paths.Keys
    ensures r == if Mains(g, keys) == [] then Failure(NoMainPackages)
      else Success(FinalDrvs(cfg, g, paths, Mains(g, keys)))
  {
    var mains := FindMains(g, keys);
    if mains == [] {
      return Failure(NoMainPackages);
    }
    var drvs, linkPaths := BuildLinks(cfg, g, paths, mains);
    if |mains| > 1 {
      drvs := drvs + [Drv("collector", [], linkPaths)];
    }
    return Success(drvs);
  }

  lemma PathsOfMore(pathOf: Drv -> string, drvs: seq<Drv>, drv: Drv)
    ensures PathsOf(pathOf, drvs + [drv]) == PathsOf(pathOf, drvs) + {pathOf(drv)}
  {
    assert forall d :: d in drvs + [drv] <==> d in drvs || d == drv;
  }

  lemma {:induction false} LinkInputs(cfg: Config, g: PkgGraph, paths: Paths, mains: seq<string>, n: nat)
    requires n <= |mains| && g.Keys <= paths.Keys
    ensures |Links(cfg, g, paths, mains, n)| == n
    ensures forall i :: 0 <= i < n ==> Links(cfg, g, paths, mains, n)[i].inputDrvs <= paths.Values
  {
    if n > 0 {
      LinkInputs(cfg, g, paths, mains, n - 1);
    }
  }

  /** A link for each main package, in order, and behind more than one a collector that depends on all of them. */
  lemma {:induction false} LinksAre(cfg: Config, g: PkgGraph, paths: Paths, mains: seq<string>, n: nat)
    requires n <= |mains| && g.Keys <= paths.Keys
    ensures |Links(cfg, g, paths, mains, n)| == n
    ensures forall i :: 0 <= i < n ==> Links(cfg, g, paths, mains, n)[i] == LinkDrv(cfg, g, paths, |mains|, mains[i])
  {
    if n > 0 {
      LinksAre(cfg, g, paths, mains, n - 1);
    }
  }

  lemma FinalAre(cfg: Config, g: PkgGraph, paths: Paths, mains: seq<string>)
    requires g.Keys <= paths.Keys
    ensures var final := FinalDrvs(cfg, g, paths, mains);
      && |final| == |mains| + (if |mains| > 1 then 1 else 0)
      && (forall i :: 0 <= i < |mains| ==> final[i] == LinkDrv(cfg, g, paths, |mains|, mains[i]))
      && (|mains| > 1 ==> final[|mains|].entries == [])
      && (|mains| > 1 ==> forall p :: p in final[|mains|].inputDrvs <==>
           exists i :: 0 <= i < |mains| && p == cfg.pathOf(final[i]))
  {
    LinksAre(cfg, g, paths, mains, |mains|);
    var links, final := Links(cfg, g, paths, mains, |mains|), FinalDrvs(cfg, g, paths, mains);
    forall p | p in PathsOf(cfg.pathOf, links)
      ensures exists i :: 0 <= i < |mains| && p == cfg.pathOf(final[i])
    {
      var drv :| drv in links && p == cfg.pathOf(drv);
      var i :| 0 <= i < |links| && links[i] == drv;
      assert final[i] == drv;
    }
  }

  /** Once the packages are registered, everything the links and the collector need is. */
  lemma FinalInputsFirst(cfg: Config, g: PkgGraph, paths: Paths, mains: seq<string>, known: set<string>)
    requires g.Keys <= paths.Keys && paths.Values <= known
    ensures InputsFirst(cfg.pathOf, known, FinalDrvs(cfg, g, paths, mains))
  {
    var links, drvs := Links(cfg, g, paths, mains, |mains|), FinalDrvs(cfg, g, paths, mains);
    LinkInputs(cfg, g, paths, mains, |mains|);
    forall i | 0 <= i < |drvs|
      ensures InputsKnown(cfg.pathOf, known, drvs, i)
    {
      if i == |links| {
        assert drvs[..i] == links;
      } else {
        assert drvs[i] == links[i];
      }
    }
  }

  // ---- The run ----

  function KeysOf(pkgs: seq<Pkg>): seq<string> {
    seq(|pkgs|, i requires 0 <= i < |pkgs| => pkgs[i].importPath)
  }

  ghost predicate HasMain(g: PkgGraph) {
    exists ip :: ip in g && g[ip].name == "main"
  }

  lemma SortedKeys(g: PkgGraph, keys: seq<string>)
    requires WellKeyed(g) && SortedNodes(AllImports(g), Universe(g), g.Keys) == Success(keys)
    ensures (forall k :: k in keys <==> k in g) && ImportsFirst(g, keys) && KeysOf(Values(g, keys)) == keys
  {
    SortOrdersNodes(AllImports(g), Universe(g), g.Keys);
    SortedImportsFirst(g, keys);
  }

  /** Step 6: topoSort, as the import paths of the packages it returns. */
  method SortPackages(g: PkgGraph) returns (r: Result<seq<string>, Error>)
    requires WellKeyed(g)
    ensures r.Success? ==>
      !CycleBehind(AllImports(g), g.Keys) && (forall k :: k in r.value <==> k in g) && ImportsFirst(g, r.value)
    ensures r.Failure? ==>
      CycleBehind(AllImports(g), g.Keys) && r.error.ImportCycle? && Depends(AllImports(g), r.error.key, r.error.key)
  {
    SortFailsIffCycle(AllImports(g), Universe(g), g.Keys);
    var sorted := Sort(g, AllImports(g), Universe(g));
    if sorted.Failure? {
      return Failure(ImportCycle(sorted.error));
    }
    SortedKeys(g, SortedNodes(AllImports(g), Universe(g), g.Keys).value);
    return Success(KeysOf(sorted.value));
  }

  /** The store names every package's derivation as it is computed here. */
  ghost predicate PackagesAgree(cfg: Config, g: PkgGraph, paths: Paths, storePathOf: Drv -> string) {
    forall ip, drv :: IsDrvOf(g, paths, ip, drv) ==> storePathOf(drv) == cfg.pathOf(drv)
  }

  ghost predicate IsPackageDrv(g: PkgGraph, paths: Paths, drv: Drv) {
    exists ip :: IsDrvOf(g, paths, ip, drv)
  }

  lemma DrvsOfPackages(g: PkgGraph, paths: Paths, keys: seq<string>, drvs: seq<Drv>)
    requires (forall k :: k in keys <==> k in g) && AreDrvs(g, paths, keys, drvs)
    ensures forall drv :: drv in drvs <==> IsPackageDrv(g, paths, drv)
  {
    forall drv | drv in drvs
      ensures IsPackageDrv(g, paths, drv)
    {
      var i :| 0 <= i < |drvs| && drvs[i] == drv;
      assert IsDrvOf(g, paths, keys[i], drv);
    }
    forall ip, drv | IsDrvOf(g, paths, ip, drv)
      ensures drv in drvs
    {
      var i :| 0 <= i < |keys| && keys[i] == ip;
      assert IsDrvOf(g, paths, keys[i], drvs[i]);
    }
  }

  lemma AgreeingInputsFirst(a: Drv -> string, b: Drv -> string, known: set<string>, drvs: seq<Drv>)
    requires (forall drv :: drv in drvs ==> a(drv) == b(drv)) && InputsFirst(b, known, drvs)
    ensures InputsFirst(a, known, drvs)
  {
    forall i | 0 <= i < |drvs|
      ensures InputsKnown(a, known, drvs, i)
    {
      assert InputsKnown(b, known, drvs, i);
      assert forall j :: 0 <= j < i ==> drvs[j] in drvs;
      SamePaths(a, b, drvs, i);
    }
  }

  /**
    Steps 7b and 7c: every package's derivation is in the store, under the path the others name. An
    error exactly when the store names one of them otherwise.
   */
  method RegisterPackages(cfg: Config, g: PkgGraph, keys: seq<string>, store: Store)
    returns (failed: Option<Error>, paths: Paths)
    requires (forall k :: k in keys <==> k in g) && ImportsFirst(g, keys)
    modifies store
    ensures Assigned(g, cfg.pathOf, paths, g.Keys)
    ensures failed.None? <==> PackagesAgree(cfg, g, paths, store.pathOf)
    ensures failed.None? ==> store.known == old(store.known) + paths.Values
    ensures failed.Some? ==>
      && failed.value.PathMismatch? && IsPackageDrv(g, paths, failed.value.drv)
      && store.pathOf(failed.value.drv) != cfg.pathOf(failed.value.drv)
  {
    assert ToSet(keys) == g.Keys;
    var drvs;
    drvs, paths := BuildPackageDrvs(g, cfg.pathOf, keys);
    PackageInputsFirst(g, cfg.pathOf, paths, keys, drvs.value, store.known);
    DrvsOfPackages(g, paths, keys, drvs.value);
    if PackagesAgree(cfg, g, paths, store.pathOf) {
      AgreeingInputsFirst(store.pathOf, cfg.pathOf, store.known, drvs.value);
    }
    failed := RegisterChecked(store, cfg.pathOf, drvs.value);
  }

  /**
    Where the last registration fails: the store names a link otherwise, so that the collector
    asks for a path that is not there. With one main package there is no collector.
   */
  ghost predicate CollectorMisses(cfg: Config, g: PkgGraph, paths: Paths, mains: seq<string>,
                                  storePathOf: Drv -> string,
                                  known: set<string>)
    requires g.Keys <= paths.Keys
  {
    var links := Links(cfg, g, paths, mains, |mains|);
    |mains| > 1 && !(PathsOf(cfg.pathOf, links) <= known + PathsOf(storePathOf, links))
  }

  lemma OnlyCollectorMisses(cfg: Config, g: PkgGraph, paths: Paths, mains: seq<string>, storePathOf: Drv -> string,
                            known: set<string>)
    requires g.Keys <= paths.Keys && paths.Values <= known
    ensures var final := FinalDrvs(cfg, g, paths, mains);
      && (InputsFirst(storePathOf, known, final) <==> !CollectorMisses(cfg, g, paths, mains, storePathOf, known))
      && forall i :: 0 <= i < |final| && !InputsKnown(storePathOf, known, final, i) ==>
           final[i] == Collector(cfg, Links(cfg, g, paths, mains, |mains|))
  {
    var links, final := Links(cfg, g, paths, mains, |mains|), FinalDrvs(cfg, g, paths, mains);
    LinkInputs(cfg, g, paths, mains, |mains|);
    forall i | 0 <= i < |links|
      ensures InputsKnown(storePathOf, known, final, i)
    {
      assert final[i] == links[i];
    }
    if |mains| > 1 {
      assert final[..|links|] == links && final[|links|] == Collector(cfg, links);
      assert InputsKnown(storePathOf, known, final, |links|)
        <==> !CollectorMisses(cfg, g, paths, mains, storePathOf, known);
    }
  }

  /** Steps 8 and 9, once the packages are in the store. */
  method RegisterFinal(cfg: Config, g: PkgGraph, paths: Paths, keys: seq<string>, store: Store)
    returns (result: Result<string, Error>)
    requires g.Keys <= paths.Keys && paths.Values <= store.known
    modifies store
    ensures Mains(g, keys) == [] ==> result == Failure(NoMainPackages) && store.known == old(store.known)
    ensures Mains(g, keys) != [] ==>
      var mains := Mains(g, keys);
      var final := FinalDrvs(cfg, g, paths, mains);
      if CollectorMisses(cfg, g, paths, mains, store.pathOf, old(store.known)) then
        result == Failure(InputNotInStore(Collector(cfg, Links(cfg, g, paths, mains, |mains|))))
      else
        && |final| > 0 && result == Success(cfg.pathOf(final[|final| - 1]))
        && store.known == old(store.known) + PathsOf(store.pathOf, final)
  {
    var final := BuildFinalDrv(cfg, g, paths, keys);
    if final.Failure? {
      return Failure(final.error);
    }
    OnlyCollectorMisses(cfg, g, paths, Mains(g, keys), store.pathOf, store.known);
    LastFinal(cfg, g, paths, Mains(g, keys));
    var failed := Register(store, final.value);
    if failed.Some? {
      return Failure(failed.value);
    }
    return Success(cfg.pathOf(final.value[|final.value| - 1]));
  }

  /** The store holds what it held, every package's derivation, the links and the collector. */
  ghost predicate Resolved(cfg: Config, g: PkgGraph, storePathOf: Drv -> string, before: set<string>,
                           after: set<string>,
                           paths: Paths, keys: seq<string>, out: string) {
    && (forall k :: k in keys <==> k in g) && ImportsFirst(g, keys)
    && Assigned(g, cfg.pathOf, paths, g.Keys)
    && var final := FinalDrvs(cfg, g, paths, Mains(g, keys));
       after == before + paths.Values + PathsOf(storePathOf, final) && |final| > 0
         && out == cfg.pathOf(final[|final| - 1])
  }

  /** The packages of an acyclic graph have their paths, and the store agrees with all of them or not. */
  ghost predicate Computed(cfg: Config, g: PkgGraph, paths: Paths, storePathOf: Drv -> string, agree: bool) {
    && !CycleBehind(AllImports(g), g.Keys) && Assigned(g, cfg.pathOf, paths, g.Keys)
    && agree == PackagesAgree(cfg, g, paths, storePathOf)
  }

  /**
    Steps 6 to 9. An acyclic graph with a main package resolves, unless the store names a package's
    derivation otherwise, or a link's that a collector needs: every package's path is found in time
    and every derivation's inputs are in the store when it is added.
   */
  method Resolve(cfg: Config, g: PkgGraph, store: Store)
    returns (result: Result<string, Error>, ghost paths: Paths, ghost order: seq<string>)
    requires WellKeyed(g)
    modifies store
    ensures match result
      case Failure(ImportCycle(key)) => CycleBehind(AllImports(g), g.Keys) && Depends(AllImports(g), key, key)
      case Failure(PathMismatch(drv)) =>
        Computed(cfg, g, paths, store.pathOf, false) && IsPackageDrv(g, paths, drv)
          && store.pathOf(drv) != cfg.pathOf(drv)
      case Failure(NoMainPackages) => Computed(cfg, g, paths, store.pathOf, true) && !HasMain(g)
      case Failure(InputNotInStore(drv)) =>
        var mains := Mains(g, order);
        && Computed(cfg, g, paths, store.pathOf, true) && HasMain(g)
        && CollectorMisses(cfg, g, paths, mains, store.pathOf, old(store.known) + paths.Values)
        && drv == Collector(cfg, Links(cfg, g, paths, mains, |mains|))
      case Failure(NoDrvPath(_)) => false
      case Success(out) =>
        && Computed(cfg, g, paths, store.pathOf, true) && HasMain(g)
        && !CollectorMisses(cfg, g, paths, Mains(g, order), store.pathOf, old(store.known) + paths.Values)
        && Resolved(cfg, g, store.pathOf, old(store.known), store.known, paths, order, out)
  {
    paths, order := map[], [];
    var sorted := SortPackages(g);
    if sorted.Failure? {
      return Failure(sorted.error), paths, order;
    }
    order := sorted.value;
    NoMains(g, sorted.value);
    result, paths := ResolveSorted(cfg, g, sorted.value, store);
  }

  /** Steps 7 to 9, on the packages in dependency order. */
  method ResolveSorted(cfg: Config, g: PkgGraph, keys: seq<string>, store: Store)
    returns (result: Result<string, Error>, ghost paths: Paths)
    requires (forall k :: k in keys <==> k in g) && ImportsFirst(g, keys)
    modifies store
    ensures Assigned(g, cfg.pathOf, paths, g.Keys)
    ensures match result
      case Failure(PathMismatch(drv)) =>
        && !PackagesAgree(cfg, g, paths, store.pathOf)
        && IsPackageDrv(g, paths, drv) && store.pathOf(drv) != cfg.pathOf(drv)
      case Failure(NoMainPackages) => PackagesAgree(cfg, g, paths, store.pathOf) && Mains(g, keys) == []
      case Failure(InputNotInStore(drv)) =>
        var mains := Mains(g, keys);
        && PackagesAgree(cfg, g, paths, store.pathOf) && mains != []
        && CollectorMisses(cfg, g, paths, mains, store.pathOf, old(store.known) + paths.Values)
        && drv == Collector(cfg, Links(cfg, g, paths, mains, |mains|))
      case Failure(_) => false
      case Success(out) =>
        && PackagesAgree(cfg, g, paths, store.pathOf) && Mains(g, keys) != []
        && !CollectorMisses(cfg, g, paths, Mains(g, keys), store.pathOf, old(store.known) + paths.Values)
        && Resolved(cfg, g, store.pathOf, old(store.known), store.known, paths, keys, out)
  {
    var failed, found := RegisterPackages(cfg, g, keys, store);
    paths := found;
    if failed.Some? {
      return Failure(failed.value), paths;
    }
    result := RegisterFinal(cfg, g, found, keys, store);
  }

  lemma NoMains(g: PkgGraph, keys: seq<string>)
    requires forall k :: k in keys <==> k in g
    ensures Mains(g, keys) == [] <==> !HasMain(g)
  {
    if HasMain(g) {
      var ip :| ip in g && g[ip].name == "main";
      assert ip in Mains(g, keys);
    }
    assert Mains(g, keys) != [] ==> Mains(g, keys)[0] in Mains(g, keys);
  }

  lemma LastFinal(cfg: Config, g: PkgGraph, paths: Paths, mains: seq<string>)
    requires g.Keys <= paths.Keys && |mains| > 0
    ensures |FinalDrvs(cfg, g, paths, mains)| > 0
  {
    LinkInputs(cfg, g, paths, mains, |mains|);
  }
}
