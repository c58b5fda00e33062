/**
  The second half of classify_test_packages (packages/go2nix-nix-plugin/rust/src/resolve.rs): which
  test-only local packages are kept, their imports sorted, and all of it merged into the build graph.
 */
module TestReach {
  import opened Wrappers
  import opened Graphs
  import opened GoListing
  import opened Classify
  import opened ClassifyTests
  import opened TestSets
  import opened TestOutcome

  /** What the walk follows: from a test-only package of a module its imports, from a local one its test imports too. */
  function TestEdges(st: TestState): Edges {
    ip =>
      if ip in st.packages then st.packages[ip].imports
      else if ip in st.localPaths then
        (if ip in st.raws then st.raws[ip].imports else []) + (if ip in st.testImports then st.testImports[ip] else [])
      else []
  }

  /** The walk starts at what the tests of the build graph's local packages import. */
  ghost function Seeds(local: set<string>, st: TestState): set<string> {
    set ip, d | ip in local && ip in st.testImports && d in st.testImports[ip] :: d
  }

  ghost predicate IsReachable(c: Context, st: TestState, ip: string) {
    ip in st.localPaths && ip !in st.packages && ReachedFrom(TestEdges(st), Seeds(c.local, st), ip)
  }

  ghost function ReachableLocals(c: Context, st: TestState): set<string> {
    set ip | ip in st.localPaths && IsReachable(c, st, ip)
  }

  function KeptLocals(c: Context, st: TestState, reachable: set<string>): set<LocalPkg> {
    set p | p in st.raws && p in reachable :: KeptLocal(c, st, p)
  }

  function KeptLocal(c: Context, st: TestState, p: string): LocalPkg
    requires p in st.raws
  {
    LocalOf(st.raws[p], c.local + st.localPaths, c.third + st.packages.Keys, p in st.unresolved)
  }

  /** The result of classify_test_packages from what it collected, or the packages it reports. */
  ghost function TestPassFrom(c: Context, fatal: set<string>, st: TestState): Result<TestPass, set<string>> {
    if fatal != {} then Failure(fatal)
    else
      Success(TestPass(st.packages.Values, KeptLocals(c, st, ReachableLocals(c, st)), st.embedFiles,
                       st.unresolved * c.local, st.replacements))
  }

  /** The same on a set of records. */
  ghost function TestPassOf(c: Context, s: set<Rec>, known: map<ModKey, Target>): Result<TestPass, set<string>> {
    TestPassFrom(c, Fatal(c, s), StateOf(c, s, known))
  }

  // ---- The worklist ----

  predicate IsLive(st: TestState, ip: string) {
    ip in st.packages || ip in st.localPaths
  }

  ghost predicate Covered(st: TestState, seen: set<string>, frontier: seq<string>, d: string) {
    d in seen || d in frontier || !IsLive(st, d)
  }

  ghost predicate Spread(st: TestState, seen: set<string>, frontier: seq<string>, x: string) {
    forall d :: d in TestEdges(st)(x) ==> Covered(st, seen, frontier, d)
  }

  ghost predicate Reaching(c: Context, st: TestState, seen: set<string>, frontier: seq<string>) {
    && (forall x :: x in seen || x in frontier ==> ReachedFrom(TestEdges(st), Seeds(c.local, st), x))
    && (forall x :: x in Seeds(c.local, st) ==> Covered(st, seen, frontier, x))
    && (forall x :: x in seen ==> IsLive(st, x) && Spread(st, seen, frontier, x))
  }

  lemma ReachingPops(c: Context, st: TestState, seen: set<string>, rest: seq<string>, ip: string)
    requires Reaching(c, st, seen, rest + [ip]) && (ip in seen || !IsLive(st, ip))
    ensures Reaching(c, st, seen, rest)
  {
    assert forall x :: x in rest + [ip] <==> x in rest || x == ip;
    forall x | x in seen
      ensures Spread(st, seen, rest, x)
    {
      assert Spread(st, seen, rest + [ip], x);
    }
  }

  lemma ReachingGoesOn(c: Context, st: TestState, seen: set<string>, rest: seq<string>, ip: string, more: seq<string>)
    requires Reaching(c, st, seen, rest + [ip]) && IsLive(st, ip)
    requires forall x :: x in more <==> x in rest || x in TestEdges(st)(ip)
    ensures Reaching(c, st, seen + {ip}, more)
  {
    assert forall x :: x in rest + [ip] <==> x in rest || x == ip;
    var edges, seeds := TestEdges(st), Seeds(c.local, st);
    forall x | x in TestEdges(st)(ip)
      ensures ReachedFrom(edges, seeds, x)
    {
      ReachedFromNext(edges, seeds, ip, x);
    }
    forall x | x in seen + {ip}
      ensures Spread(st, seen + {ip}, more, x)
    {
      if x in seen {
        assert Spread(st, seen, rest + [ip], x);
      }
    }
  }

  lemma ReachingEnds(c: Context, st: TestState, seen: set<string>)
    requires Reaching(c, st, seen, [])
    ensures forall ip :: ip in seen <==> IsLive(st, ip) && ReachedFrom(TestEdges(st), Seeds(c.local, st), ip)
  {
    var edges, seeds := TestEdges(st), Seeds(c.local, st);
    var dead := (set x, d | x in seen && d in edges(x) && !IsLive(st, d) :: d) + (set x | x in seeds && !IsLive(st, x));
    forall x, d | x in seen + dead && d in edges(x)
      ensures d in seen + dead
    {
      assert x in seen;
      assert Spread(st, seen, [], x);
    }
    forall ip | IsLive(st, ip) && ReachedFrom(edges, seeds, ip)
      ensures ip in seen
    {
      ClosedHoldsAllReached(edges, seen + dead, seeds, ip);
    }
  }

  method SeedFrontier(local: set<string>, st: TestState) returns (frontier: seq<string>)
    ensures forall x :: x in frontier <==> x in Seeds(local, st)
  {
    frontier := [];
    var left := local;
    while left != {}
      invariant left <= local
      invariant forall x :: x in frontier <==> x in Seeds(local - left, st)
      decreases |left|
    {
      var ip :| ip in left;
      var before := frontier;
      if ip in st.testImports {
        frontier := frontier + st.testImports[ip];
      }
      SeedsNext(local, left, st, ip);
      left := left - {ip};
    }
    assert local - left == local;
  }

  lemma SeedsNext(local: set<string>, left: set<string>, st: TestState, ip: string)
    requires left <= local && ip in left
    ensures Seeds(local - (left - {ip}), st)
      == Seeds(local - left, st) + if ip in st.testImports then ToSet(st.testImports[ip]) else {}
  {
    assert local - (left - {ip}) == (local - left) + {ip};
  }

  /** One round of the walk over the import path popped from the frontier. */
  method Visit(c: Context, st: TestState, walkedThird: set<string>, reachable: set<string>, rest: seq<string>,
               ip: string)
    returns (third: set<string>, local: set<string>, frontier: seq<string>)
    requires Split(st, walkedThird, reachable) && Reaching(c, st, walkedThird + reachable, rest + [ip])
    ensures Split(st, third, local)
    ensures Reaching(c, st, third + local, frontier)
    ensures walkedThird + reachable <= third + local
    ensures third + local == walkedThird + reachable ==> frontier == rest
  {
    third, local, frontier := walkedThird, reachable, rest;
    ghost var seen := walkedThird + reachable;
    if ip in st.packages {
      if ip in walkedThird {
        ReachingPops(c, st, seen, rest, ip);
      } else {
        frontier := rest + st.packages[ip].imports;
        ReachingGoesOn(c, st, seen, rest, ip, frontier);
        third := walkedThird + {ip};
        assert third + local == seen + {ip} && ip !in seen;
      }
    } else if ip !in st.localPaths || ip in reachable {
      ReachingPops(c, st, seen, rest, ip);
    } else {
      if ip in st.raws {
        frontier := frontier + st.raws[ip].imports;
      }
      if ip in st.testImports {
        frontier := frontier + st.testImports[ip];
      }
      ReachingGoesOn(c, st, seen, rest, ip, frontier);
      local := reachable + {ip};
      assert third + local == seen + {ip} && ip !in seen;
    }
  }

  /** The same on the frontier it is popped from. */
  method Pop(c: Context, st: TestState, walkedThird: set<string>, reachable: set<string>, before: seq<string>)
    returns (third: set<string>, local: set<string>, frontier: seq<string>)
    requires before != [] && Split(st, walkedThird, reachable) && Reaching(c, st, walkedThird + reachable, before)
    ensures Split(st, third, local) && Reaching(c, st, third + local, frontier)
    ensures walkedThird + reachable <= third + local
    ensures third + local == walkedThird + reachable ==> |frontier| < |before|
  {
    var ip := before[|before| - 1];
    var rest := before[..|before| - 1];
    assert before == rest + [ip];
    third, local, frontier := Visit(c, st, walkedThird, reachable, rest, ip);
  }

  ghost function Live(st: TestState): set<string> {
    st.packages.Keys + st.localPaths
  }

  ghost predicate Split(st: TestState, third: set<string>, local: set<string>) {
    third <= st.packages.Keys && local <= st.localPaths - st.packages.Keys
  }

  /** The loop: until nothing is left on the frontier. */
  method WalkFrontier(c: Context, st: TestState, start: seq<string>)
    returns (walkedThird: set<string>, reachable: set<string>)
    requires Reaching(c, st, {}, start)
    ensures Split(st, walkedThird, reachable) && Reaching(c, st, walkedThird + reachable, [])
  {
    walkedThird, reachable := {}, {};
    var frontier := start;
    ghost var seen: set<string> := {};
    while frontier != []
      invariant Split(st, walkedThird, reachable) && seen == walkedThird + reachable
      invariant Reaching(c, st, seen, frontier)
      decreases Live(st) - seen, |frontier|
    {
      walkedThird, reachable, frontier := Pop(c, st, walkedThird, reachable, frontier);
      FewerLeft(st, seen, walkedThird, reachable);
      seen := walkedThird + reachable;
    }
  }

  /** The least set: from the seeds, through test-only packages of modules and test-only locals. */
  method Reach(c: Context, st: TestState) returns (reachable: set<string>)
    ensures reachable == ReachableLocals(c, st)
  {
    var frontier := SeedFrontier(c.local, st);
    SeedsReached(c, st, frontier);
    var walkedThird, found := WalkFrontier(c, st, frontier);
    ReachEnds(c, st, walkedThird, found);
    reachable := found;
  }

  lemma FewerLeft(st: TestState, seen: set<string>, third: set<string>, local: set<string>)
    requires Split(st, third, local) && seen <= third + local
    ensures third + local == seen || Live(st) - (third + local) < Live(st) - seen
  {
    if x :| x in third + local && x !in seen {
      assert x in Live(st) - seen && x !in Live(st) - (third + local);
    }
  }

  lemma ReachEnds(c: Context, st: TestState, third: set<string>, local: set<string>)
    requires Split(st, third, local) && Reaching(c, st, third + local, [])
    ensures local == ReachableLocals(c, st)
  {
    ReachingEnds(c, st, third + local);
  }

  lemma SeedsReached(c: Context, st: TestState, frontier: seq<string>)
    requires forall x :: x in frontier <==> x in Seeds(c.local, st)
    ensures Reaching(c, st, {}, frontier)
  {
    var edges, seeds := TestEdges(st), Seeds(c.local, st);
    forall x | x in frontier
      ensures ReachedFrom(edges, seeds, x)
    {
      RootReached(edges, seeds, x);
    }
  }

  // ---- Which locals are kept, in terms of the records ----

  /** The edges of the walk, in terms of the records. */
  lemma ThirdEdges(c: Context, recs: seq<Rec>, known: map<ModKey, Target>, ip: string, d: string)
    requires ip in PkgPaths(PackagesMet(c, recs).Values)
    ensures d in TestEdges(CollectedFrom(c, recs, known))(ip) <==>
      exists p :: p in PackagesMet(c, recs).Values && p.path == ip && d in p.imports
  {
    PackagesFiled(c, recs);
    FiledValues(PackagesMet(c, recs), ip, d);
  }

  lemma LocalEdges(c: Context, recs: seq<Rec>, known: map<ModKey, Target>, ip: string, d: string)
    requires ip !in PkgPaths(PackagesMet(c, recs).Values)
    ensures d in TestEdges(CollectedFrom(c, recs, known))(ip) <==>
      ip in TestPaths(c, recs) && (Imports(c, recs, ip, d) || TestImports(c, recs, ip, d))
  {
    PkgPathsAre(c, recs);
    TestPathsAre(c, recs);
    ImportsAre(c, recs, ip, d);
    TestImportsAre(c, recs, ip, d);
  }

  lemma SeedsAre(c: Context, recs: seq<Rec>, known: map<ModKey, Target>, d: string)
    ensures d in Seeds(c.local, CollectedFrom(c, recs, known)) <==>
      exists ip :: ip in c.local && TestImports(c, recs, ip, d)
  {
    var st := CollectedFrom(c, recs, known);
    if d in Seeds(c.local, st) {
      var ip :| ip in c.local && ip in st.testImports && d in st.testImports[ip];
      TestImportsAre(c, recs, ip, d);
    }
    if ip :| ip in c.local && TestImports(c, recs, ip, d) {
      TestImportsAre(c, recs, ip, d);
    }
  }

  /** What the walk follows stays in every set that has all the tests need. */
  lemma EdgeFollows(c: Context, recs: seq<Rec>, known: map<ModKey, Target>, xs: iset<string>, ip: string, d: string)
    requires FollowsTests(c, recs, PackagesMet(c, recs).Values, xs)
    requires ip in xs && d in TestEdges(CollectedFrom(c, recs, known))(ip)
    ensures d in xs
  {
    if ip in PkgPaths(PackagesMet(c, recs).Values) {
      ThirdEdges(c, recs, known, ip, d);
    } else {
      LocalEdges(c, recs, known, ip, d);
    }
  }

  lemma PathFollows(c: Context, recs: seq<Rec>, known: map<ModKey, Target>, xs: iset<string>, path: seq<string>)
    requires FollowsTests(c, recs, PackagesMet(c, recs).Values, xs)
    requires IsPath(TestEdges(CollectedFrom(c, recs, known)), path) && path[0] in xs
    ensures path[|path| - 1] in xs
  {
    var edges := TestEdges(CollectedFrom(c, recs, known));
    forall ip, d | ip in xs && d in edges(ip)
      ensures d in xs
    {
      EdgeFollows(c, recs, known, xs, ip, d);
    }
    ClosedHoldsEnd(edges, xs, path);
  }

  lemma ReachedIsNeeded(c: Context, recs: seq<Rec>, known: map<ModKey, Target>, p: string)
    requires var st := CollectedFrom(c, recs, known); ReachedFrom(TestEdges(st), Seeds(c.local, st), p)
    ensures IsNeeded(c, recs, PackagesMet(c, recs).Values, p)
  {
    var st := CollectedFrom(c, recs, known);
    var r :| r in Seeds(c.local, st) && Reaches(TestEdges(st), r, p);
    var path :| IsPathTo(TestEdges(st), path, r, p);
    SeedsAre(c, recs, known, r);
    forall xs | FollowsTests(c, recs, PackagesMet(c, recs).Values, xs)
      ensures p in xs
    {
      PathFollows(c, recs, known, xs, path);
    }
  }

  /** And what the walk reaches is such a set. */
  lemma ReachedFollows(c: Context, recs: seq<Rec>, known: map<ModKey, Target>, xs: iset<string>)
    requires forall d :: d in Seeds(c.local, CollectedFrom(c, recs, known)) ==> d in xs
    requires forall ip, d :: ip in xs && d in TestEdges(CollectedFrom(c, recs, known))(ip) ==> d in xs
    ensures FollowsTests(c, recs, PackagesMet(c, recs).Values, xs)
  {
    forall ip, d | ip in c.local && TestImports(c, recs, ip, d)
      ensures d in xs
    {
      SeedsAre(c, recs, known, d);
    }
    forall p, d | p in PackagesMet(c, recs).Values && p.path in xs && d in p.imports
      ensures d in xs
    {
      ThirdEdges(c, recs, known, p.path, d);
    }
    forall ip, d | ip in xs && ip in TestPaths(c, recs) && ip !in PkgPaths(PackagesMet(c, recs).Values)
        && (Imports(c, recs, ip, d) || TestImports(c, recs, ip, d))
      ensures d in xs
    {
      LocalEdges(c, recs, known, ip, d);
    }
  }

  ghost function Reached(c: Context, st: TestState): iset<string> {
    iset x | ReachedFrom(TestEdges(st), Seeds(c.local, st), x)
  }

  lemma ReachedIsClosed(c: Context, st: TestState)
    ensures forall d :: d in Seeds(c.local, st) ==> d in Reached(c, st)
    ensures forall ip, d :: ip in Reached(c, st) && d in TestEdges(st)(ip) ==> d in Reached(c, st)
  {
    var edges, seeds := TestEdges(st), Seeds(c.local, st);
    forall d | d in seeds
      ensures d in Reached(c, st)
    {
      RootReached(edges, seeds, d);
    }
    forall ip, d | ip in Reached(c, st) && d in edges(ip)
      ensures d in Reached(c, st)
    {
      ReachedFromNext(edges, seeds, ip, d);
    }
  }

  lemma NeededIffReached(c: Context, recs: seq<Rec>, known: map<ModKey, Target>, p: string)
    ensures var st := CollectedFrom(c, recs, known);
      IsNeeded(c, recs, PackagesMet(c, recs).Values, p) <==> ReachedFrom(TestEdges(st), Seeds(c.local, st), p)
  {
    var st := CollectedFrom(c, recs, known);
    if ReachedFrom(TestEdges(st), Seeds(c.local, st), p) {
      ReachedIsNeeded(c, recs, known, p);
    }
    ReachedIsClosed(c, st);
    ReachedFollows(c, recs, known, Reached(c, st));
  }

  lemma KeptLocalAt(c: Context, recs: seq<Rec>, known: map<ModKey, Target>, i: nat)
    requires FirstOf(c, NewLocal, recs, i) && HasFiles(recs[i])
    ensures var st, p := CollectedFrom(c, recs, known), Strip(recs[i].path);
      p in st.raws && st.raws[p].path == p && LocalAt(c, recs, st.packages.Values, i, KeptLocal(c, st, p))
  {
    var st, p := CollectedFrom(c, recs, known), Strip(recs[i].path);
    RawMet(c, recs, i);
    RenamedRaw(recs[i]);
    ExcusedAre(c, recs, p);
    TestPathsAre(c, recs);
    PkgPathsAre(c, recs);
    ImportsAreSorted(st.raws[p], c.local + st.localPaths, c.third + st.packages.Keys, p in st.unresolved);
  }

  /** A kept local is that of the first record of its path. */
  lemma KeptAt(c: Context, recs: seq<Rec>, known: map<ModKey, Target>, lp: LocalPkg) returns (i: nat)
    requires var st := CollectedFrom(c, recs, known); lp in KeptLocals(c, st, ReachableLocals(c, st))
    ensures var st := CollectedFrom(c, recs, known);
      LocalAt(c, recs, st.packages.Values, i, lp) && Strip(recs[i].path) == lp.raw.path
        && lp.raw.path in ReachableLocals(c, st)
  {
    var st := CollectedFrom(c, recs, known);
    var p :| p in st.raws && p in ReachableLocals(c, st) && lp == KeptLocal(c, st, p);
    i := RawFound(c, recs, p);
    KeptLocalAt(c, recs, known, i);
  }

  lemma KeptIffNeeded(c: Context, recs: seq<Rec>, known: map<ModKey, Target>, i: nat)
    requires FirstOf(c, NewLocal, recs, i) && HasFiles(recs[i])
    requires Strip(recs[i].path) !in PackagesMet(c, recs)
    ensures Strip(recs[i].path) in ReachableLocals(c, CollectedFrom(c, recs, known))
      <==> IsNeeded(c, recs, PackagesMet(c, recs).Values, Strip(recs[i].path))
  {
    var p := Strip(recs[i].path);
    NeededIffReached(c, recs, known, p);
    TestPathsAre(c, recs);
    assert recs[i] in recs && p in TestPaths(c, recs);
  }

  lemma LocalIsGiven(c: Context, recs: seq<Rec>, known: map<ModKey, Target>, i: nat)
    requires FirstOf(c, NewLocal, recs, i) && HasFiles(recs[i])
    requires Strip(recs[i].path) !in PackagesMet(c, recs)
    ensures var st := CollectedFrom(c, recs, known);
      var packages, locals := st.packages.Values, KeptLocals(c, st, ReachableLocals(c, st));
      (exists lp :: lp in locals && LocalAt(c, recs, packages, i, lp))
      <==> IsNeeded(c, recs, packages, Strip(recs[i].path))
  {
    var st, p := CollectedFrom(c, recs, known), Strip(recs[i].path);
    KeptIffNeeded(c, recs, known, i);
    KeptLocalAt(c, recs, known, i);
    if lp :| lp in KeptLocals(c, st, ReachableLocals(c, st)) && LocalAt(c, recs, st.packages.Values, i, lp) {
      var j := KeptAt(c, recs, known, lp);
    }
    if p in ReachableLocals(c, st) {
      assert KeptLocal(c, st, p) in KeptLocals(c, st, ReachableLocals(c, st));
    }
  }

  lemma LocalsAreGiven(c: Context, recs: seq<Rec>, known: map<ModKey, Target>)
    ensures var st := CollectedFrom(c, recs, known);
      LocalsGiven(c, recs, st.packages.Values, KeptLocals(c, st, ReachableLocals(c, st)))
  {
    var st := CollectedFrom(c, recs, known);
    var packages, locals := st.packages.Values, KeptLocals(c, st, ReachableLocals(c, st));
    PkgPathsAre(c, recs);
    forall lp | lp in locals
      ensures exists i: nat :: LocalAt(c, recs, packages, i, lp)
      ensures lp.raw.path !in PkgPaths(packages)
    {
      var i := KeptAt(c, recs, known, lp);
    }
    forall i: nat | FirstOf(c, NewLocal, recs, i) && HasFiles(recs[i]) && Strip(recs[i].path) !in PkgPaths(packages)
      ensures (exists lp :: lp in locals && LocalAt(c, recs, packages, i, lp))
        <==> IsNeeded(c, recs, packages, Strip(recs[i].path))
    {
      LocalIsGiven(c, recs, known, i);
    }
  }

  lemma TestResultIs(c: Context, recs: seq<Rec>, known: map<ModKey, Target>)
    ensures IsTestResult(c, recs, known, TestPassFrom(c, Fatal(c, RecSet(recs)), CollectedFrom(c, recs, known)))
  {
    forall p
      ensures p in Fatal(c, RecSet(recs)) <==> exists r :: r in recs && IsTestReported(c, r) && r.path == p
    {
      FatalAre(c, recs, p);
    }
    GivenBesideLocals(c, recs, known);
    LocalsAreGiven(c, recs, known);
    if Fatal(c, RecSet(recs)) == {} {
      assert forall r :: r in recs && IsTestReported(c, r) ==> r.path in Fatal(c, RecSet(recs));
    }
  }

  /** classify_test_packages. */
  method ClassifyTestPackages(c: Context, recs: seq<Rec>, known: map<ModKey, Target>)
    returns (result: Result<TestPass, set<string>>)
    ensures result == TestPassFrom(c, Fatal(c, RecSet(recs)), CollectedFrom(c, recs, known))
    ensures CoherentList(c, recs) ==> result == TestPassOf(c, RecSet(recs), known)
    ensures IsTestResult(c, recs, known, result)
  {
    TestResultIs(c, recs, known);
    if CoherentList(c, recs) {
      CollectedOfSet(c, recs, known);
    }
    var st, errors := ReadTestRecords(c, recs, known);
    if errors != {} {
      return Failure(errors);
    }
    var reachable := Reach(c, st);
    return Success(TestPass(st.packages.Values, KeptLocals(c, st, reachable), st.embedFiles, st.unresolved * c.local,
      st.replacements));
  }

  // ---- merge_test_pass ----

  function MergedLocal(lp: LocalPkg, tp: TestPass): LocalPkg {
    var path := lp.raw.path;
    var src := if path in tp.embedFiles then lp.raw.mainSrcFiles + ToSet(tp.embedFiles[path]) else lp.raw.mainSrcFiles;
    lp.(raw := lp.raw.(mainSrcFiles := src), embedsUnresolved := lp.embedsUnresolved || path in tp.unresolved)
  }

  function MergeTestPass(g: Graph, tp: TestPass): Graph {
    g.(locals := set lp | lp in g.locals :: MergedLocal(lp, tp),
       testPackages := tp.packages, testLocals := tp.locals,
       testOnlyPaths := set p | p in tp.packages :: p.path,
       replacements := tp.replacements)
  }

  /** The imports stay; the sources gain the test embeds of the path, and either pass can find embeds missing. */
  ghost predicate IsMergedLocal(lp: LocalPkg, tp: TestPass, merged: LocalPkg) {
    var path := lp.raw.path;
    && merged.localImports == lp.localImports && merged.thirdPartyImports == lp.thirdPartyImports
    && merged.raw.(mainSrcFiles := lp.raw.mainSrcFiles) == lp.raw
    && (forall f :: f in merged.raw.mainSrcFiles <==>
          f in lp.raw.mainSrcFiles || (path in tp.embedFiles && f in tp.embedFiles[path]))
    && (merged.embedsUnresolved <==> lp.embedsUnresolved || path in tp.unresolved)
  }

  ghost predicate IsMerged(g: Graph, tp: TestPass, merged: Graph) {
    && merged.packages == g.packages && merged.thirdPartyPaths == g.thirdPartyPaths
    && merged.localPaths == g.localPaths && merged.localReplaceModPaths == g.localReplaceModPaths
    && merged.siblingModules == g.siblingModules && merged.modulePath == g.modulePath
    && merged.goVersion == g.goVersion
    && merged.testPackages == tp.packages && merged.testLocals == tp.locals && merged.replacements == tp.replacements
    && (forall p :: p in merged.testOnlyPaths <==> exists q :: q in tp.packages && q.path == p)
    && (forall lp :: lp in g.locals ==> exists x :: x in merged.locals && IsMergedLocal(lp, tp, x))
    && (forall x :: x in merged.locals ==> exists lp :: lp in g.locals && IsMergedLocal(lp, tp, x))
  }

  lemma Merges(g: Graph, tp: TestPass)
    ensures IsMerged(g, tp, MergeTestPass(g, tp))
  {
    var merged := MergeTestPass(g, tp);
    forall lp | lp in g.locals
      ensures MergedLocal(lp, tp) in merged.locals && IsMergedLocal(lp, tp, MergedLocal(lp, tp))
    {
    }
    forall x | x in merged.locals
      ensures exists lp :: lp in g.locals && IsMergedLocal(lp, tp, x)
    {
      var lp :| lp in g.locals && x == MergedLocal(lp, tp);
      assert IsMergedLocal(lp, tp, x);
    }
  }

  // ---- What is kept is enough ----

  ghost predicate HasLocal(locals: set<LocalPkg>, path: string) {
    exists lp :: lp in locals && lp.raw.path == path
  }

  /** A raw local is filed under its own path, and no path is both local and of a module. */
  ghost predicate PathsApart(c: Context, st: TestState) {
    && (forall p :: p in st.raws ==> st.raws[p].path == p && p in st.localPaths)
    && st.localPaths !! st.packages.Keys
  }

  lemma LocalOrThird(c: Context, recs: seq<Rec>, p: string)
    requires OnePackage(c, RecSet(recs)) && p in LocalPaths(c, RecSet(recs))
    ensures p !in PackagesMet(c, recs)
  {
    var q :| q in RecSet(recs) && IsNewLocal(c, q) && Strip(q.path) == p;
    forall r | r in recs && IsNewThird(c, r)
      ensures Strip(r.path) != p
    {
      if Strip(r.path) == p {
        SameParts(q, r);
      }
    }
  }

  lemma RawsFiled(c: Context, recs: seq<Rec>, p: string)
    requires p in RawsMet(c, recs)
    ensures RawsMet(c, recs)[p].path == p && p in LocalPaths(c, RecSet(recs))
  {
    var r := First(c, NewLocal, recs, p).value;
    assert RawsMet(c, recs)[p] == RawOf(Normal(r), r.mod.value);
  }

  lemma CollectedPathsApart(c: Context, recs: seq<Rec>, known: map<ModKey, Target>)
    requires OnePackage(c, RecSet(recs))
    ensures PathsApart(c, CollectedFrom(c, recs, known))
  {
    var st := CollectedFrom(c, recs, known);
    assert st.raws == RawsMet(c, recs) && st.packages == PackagesMet(c, recs)
      && st.localPaths == LocalPaths(c, RecSet(recs));
    forall p | p in st.raws
      ensures st.raws[p].path == p && p in st.localPaths
    {
      RawsFiled(c, recs, p);
    }
    forall p | p in st.localPaths
      ensures p !in st.packages
    {
      LocalOrThird(c, recs, p);
    }
  }

  lemma KeptClosed(c: Context, st: TestState, lp: LocalPkg, d: string)
    requires PathsApart(c, st) && lp in KeptLocals(c, st, ReachableLocals(c, st)) && d in lp.localImports
    ensures d in c.local || d !in st.raws || HasLocal(KeptLocals(c, st, ReachableLocals(c, st)), d)
  {
    var p :| p in st.raws && p in ReachableLocals(c, st)
      && lp == KeptLocal(c, st, p);
    if d in st.raws {
      assert d in TestEdges(st)(p);
      ReachedFromNext(TestEdges(st), Seeds(c.local, st), p, d);
      var dp := KeptLocal(c, st, d);
      assert d in ReachableLocals(c, st);
      assert dp in KeptLocals(c, st, ReachableLocals(c, st)) && dp.raw.path == d;
    }
  }

  /**
    Every local import of a test-only local kept lands in the build graph or is kept itself, if it
    has files to compile.
   */
  lemma KeptImportsAreKept(c: Context, recs: seq<Rec>, known: map<ModKey, Target>, lp: LocalPkg, d: string)
    requires OnePackage(c, RecSet(recs)) && Fatal(c, RecSet(recs)) == {}
    requires var st := CollectedFrom(c, recs, known);
      lp in TestPassFrom(c, {}, st).value.locals && d in lp.localImports
    ensures var st := CollectedFrom(c, recs, known);
      d in c.local || d !in st.raws || HasLocal(TestPassFrom(c, {}, st).value.locals, d)
  {
    CollectedPathsApart(c, recs, known);
    KeptClosed(c, CollectedFrom(c, recs, known), lp, d);
  }
}
