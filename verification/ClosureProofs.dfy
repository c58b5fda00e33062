/** The two walks compute listings: over fewer patterns, and of the build pass. */
module ClosureProofs {
  import opened Wrappers
  import opened Graphs
  import opened GoListing
  import opened Closures

  // ---- Paths ----

  lemma {:induction false} StripStays(path: string, tail: string)
    requires Strip(path) == path && (tail == "" || tail[0] != '[') && Strip(tail) == tail
    ensures Strip(path + tail) == path + tail
  {
    if |path| == 0 {
      assert path + tail == tail;
    } else {
      assert path[0] == Strip(path)[0] && Strip(path[1..]) == path[1..];
      assert (path + tail)[0] == path[0] && (path + tail)[1..] == path[1..] + tail;
      if |path| > 1 {
        assert (path + tail)[1] == path[1];
      }
      StripStays(path[1..], tail);
      assert path + tail == [path[0]] + (path[1..] + tail);
    }
  }

  /** A test main is bare: it has no ForTest, and nothing in its path says it was generated. */
  lemma MainIsBare(w: World, x: string)
    requires WalkOk(w) && x in w.mains
    ensures IsBare(w.mains[x])
  {
    assert Strip(".test") == ".test" by {
      StripDots();
    }
    StripStays(x, ".test");
  }

  lemma StripDots()
    ensures Strip(".test") == ".test"
  {
    assert Strip("t") == "t";
    assert "st"[1..] == "t" && Strip("st") == "st";
    assert "est"[1..] == "st" && Strip("est") == "est";
    assert "test"[1..] == "est" && Strip("test") == "test";
    assert ".test"[1..] == "test";
  }

  // ---- Which node a printed path is ----

  function Printed(n: Node): string {
    match n case Pkg(p) => p case Main(x) => TestMain(x)
  }

  lemma RecordOf(w: World, patterns: seq<string>, nodes: seq<Node>, recs: seq<Listed>, i: nat)
    requires WalkOk(w) && IsTestListing(w, patterns, nodes, recs) && i < |recs|
    ensures NodeListed(w, patterns, nodes[i])
    ensures recs[i].rec == View(w, patterns, NodeRec(w, nodes[i])) && recs[i].rec.path == Printed(nodes[i])
    ensures recs[i].rec.imports == NodeRec(w, nodes[i]).imports
    ensures recs[i].rec.forTest == NodeRec(w, nodes[i]).forTest && recs[i].rec.mod == NodeRec(w, nodes[i]).mod
  {
    assert Packages(recs)[i] == recs[i].rec;
  }

  lemma PlaceOf(w: World, patterns: seq<string>, nodes: seq<Node>, recs: seq<Listed>, n: Node) returns (i: nat)
    requires WalkOk(w) && IsTestListing(w, patterns, nodes, recs) && NodeListed(w, patterns, n)
    ensures i < |recs| && nodes[i] == n && recs[i].rec.path == Printed(n)
  {
    assert n in nodes;
    i :| 0 <= i < |nodes| && nodes[i] == n;
    RecordOf(w, patterns, nodes, recs, i);
  }

  /** The listing holds what its members import. */
  lemma ListingClosed(w: World, patterns: seq<string>, n: Node, d: string)
    requires WalkOk(w) && NodeListed(w, patterns, n) && d in NodeRec(w, n).imports && d in w.pkgs
    ensures InTestListing(w, patterns, d)
  {
    match n
    case Pkg(p) =>
      var r :| r in TestRoots(w, patterns) && Reaches(PkgEdges(w), r, p);
      assert d in PkgEdges(w)(p);
      ReachesLast(PkgEdges(w), r, p, d);
    case Main(x) =>
      assert d in TestRoots(w, patterns);
      ReachesSelf(PkgEdges(w), d);
  }

  lemma ImportResolves(w: World, n: Node, d: string)
    requires ImportsResolve(w) && NamesMain(w, d)
    requires (match n case Pkg(p) => p in w.pkgs case Main(x) => x in w.mains) && d in NodeRec(w, n).imports
    ensures d in w.pkgs
  {
  }

  /** A printed import found in an index over the listing is the package of that path. */
  lemma ImportIsPkg(w: World, patterns: seq<string>, nodes: seq<Node>, recs: seq<Listed>, i: nat, n: Node, d: string)
    requires WalkOk(w) && IsTestListing(w, patterns, nodes, recs) && i < |recs| && recs[i].rec.path == d
    requires NodeListed(w, patterns, n) && d in NodeRec(w, n).imports
    ensures d in w.pkgs && NodeListed(w, patterns, Pkg(d))
  {
    RecordOf(w, patterns, nodes, recs, i);
    if nodes[i].Main? {
      assert NamesMain(w, d);
      ImportResolves(w, n, d);
    }
    ListingClosed(w, patterns, n, d);
  }

  /** The node a package kept is indexed at. */
  lemma PkgIndexed(w: World, patterns: seq<string>, nodes: seq<Node>, recs: seq<Listed>, keep: Rec -> bool,
                   index: Index, n: Node)
    requires WalkOk(w) && IsTestListing(w, patterns, nodes, recs) && Indexes(recs, keep, index)
    requires NodeListed(w, patterns, n) && keep(View(w, patterns, NodeRec(w, n)))
    ensures Printed(n) in index && index[Printed(n)] < |recs| && nodes[index[Printed(n)]] == n
  {
    var i := PlaceOf(w, patterns, nodes, recs, n);
    RecordOf(w, patterns, nodes, recs, i);
  }

  /** Where a record walked to imports, among the records. */
  lemma IndexEdgesAre(w: World, patterns: seq<string>, nodes: seq<Node>, recs: seq<Listed>, keep: Rec -> bool,
                      index: Index, p: string)
    requires WalkOk(w) && IsTestListing(w, patterns, nodes, recs) && Indexes(recs, keep, index) && p in index
    ensures forall d :: d in IndexEdges(recs, index)(p) <==> d in NodeRec(w, nodes[index[p]]).imports && d in index
  {
    RecordOf(w, patterns, nodes, recs, index[p]);
  }

  // ---- build_closure is the build pass ----

  ghost function BuildPaths(w: World, roots: set<string>): set<string> {
    set p | p in w.pkgs && InBuildListing(w, roots, p)
  }

  lemma RootIsPkg(w: World, patterns: seq<string>, nodes: seq<Node>, recs: seq<Listed>, i: nat, r: string)
    requires WalkOk(w) && IsTestListing(w, patterns, nodes, recs) && i < |recs| && recs[i].rec.path == r
    requires "./..." in patterns && IsSubPackage(w, r)
    ensures NodeListed(w, patterns, Pkg(r))
  {
    RecordOf(w, patterns, nodes, recs, i);
    if nodes[i].Main? {
      var k :| 0 <= k < |patterns| && patterns[k] == "./...";
      assert PatternMatches(w.pkgs[r], patterns[k]);
      assert r in Matched(w, patterns);
      RootReached(PkgEdges(w), TestRoots(w, patterns), r);
    }
  }

  lemma BareListedNext(w: World, patterns: seq<string>, p: string, d: string)
    requires WalkOk(w) && NodeListed(w, patterns, Pkg(p)) && IsBare(w.pkgs[p]) && d in PkgEdges(w)(p)
    ensures NodeListed(w, patterns, Pkg(d)) && IsBare(w.pkgs[d])
  {
    ListingClosed(w, patterns, Pkg(p), d);
  }

  ghost predicate RootsListed(w: World, patterns: seq<string>, roots: set<string>) {
    forall r :: r in roots ==> NodeListed(w, patterns, Pkg(r)) && IsBare(w.pkgs[r])
  }

  /** The build pass prints bare packages only, and all of them are in the listing. */
  lemma BuildPathsListed(w: World, patterns: seq<string>, roots: set<string>, p: string)
    requires WalkOk(w) && RootsListed(w, patterns, roots) && p in BuildPaths(w, roots)
    ensures NodeListed(w, patterns, Pkg(p)) && IsBare(w.pkgs[p])
  {
    var listed := set q | q in w.pkgs && NodeListed(w, patterns, Pkg(q)) && IsBare(w.pkgs[q]);
    forall k, d | k in listed && d in PkgEdges(w)(k)
      ensures d in listed
    {
      BareListedNext(w, patterns, k, d);
    }
    ClosedHoldsAllReached(PkgEdges(w), listed, roots, p);
  }

  lemma BuildPathsClosed(w: World, roots: set<string>)
    ensures Closed(PkgEdges(w), BuildPaths(w, roots))
  {
    forall p, d | p in BuildPaths(w, roots) && d in PkgEdges(w)(p)
      ensures d in BuildPaths(w, roots)
    {
      ReachedFromNext(PkgEdges(w), roots, p, d);
    }
  }

  lemma BareIndexed(w: World, patterns: seq<string>, nodes: seq<Node>, recs: seq<Listed>, index: Index, p: string)
    requires WalkOk(w) && IsTestListing(w, patterns, nodes, recs) && Indexes(recs, IsBare, index)
    requires NodeListed(w, patterns, Pkg(p)) && IsBare(w.pkgs[p])
    ensures p in index && index[p] < |nodes| && nodes[index[p]] == Pkg(p)
  {
    PkgIndexed(w, patterns, nodes, recs, IsBare, index, Pkg(p));
  }

  lemma IndexEdgeIsImport(w: World, patterns: seq<string>, nodes: seq<Node>, recs: seq<Listed>, index: Index,
                          p: string, d: string)
    requires WalkOk(w) && IsTestListing(w, patterns, nodes, recs) && Indexes(recs, IsBare, index)
    requires p in index && nodes[index[p]] == Pkg(p) && d in IndexEdges(recs, index)(p)
    ensures d in PkgEdges(w)(p)
  {
    RecordOf(w, patterns, nodes, recs, index[p]);
    ImportIsPkg(w, patterns, nodes, recs, index[d], Pkg(p), d);
  }

  lemma ImportIsIndexEdge(w: World, patterns: seq<string>, nodes: seq<Node>, recs: seq<Listed>, index: Index,
                          p: string, d: string)
    requires WalkOk(w) && IsTestListing(w, patterns, nodes, recs)
    requires p in index && index[p] < |nodes| && nodes[index[p]] == Pkg(p) && d in PkgEdges(w)(p) && d in index
    ensures d in IndexEdges(recs, index)(p)
  {
    RecordOf(w, patterns, nodes, recs, index[p]);
  }

  /** Among bare packages listed, the index walk and the import graph have the same edges. */
  lemma SameEdges(w: World, patterns: seq<string>, nodes: seq<Node>, recs: seq<Listed>, index: Index, p: string,
                  d: string)
    requires WalkOk(w) && IsTestListing(w, patterns, nodes, recs) && Indexes(recs, IsBare, index)
    requires NodeListed(w, patterns, Pkg(p)) && IsBare(w.pkgs[p])
    ensures d in PkgEdges(w)(p) <==> d in IndexEdges(recs, index)(p)
  {
    BareIndexed(w, patterns, nodes, recs, index, p);
    if d in IndexEdges(recs, index)(p) {
      IndexEdgeIsImport(w, patterns, nodes, recs, index, p, d);
    }
    if d in PkgEdges(w)(p) {
      BareListedNext(w, patterns, p, d);
      BareIndexed(w, patterns, nodes, recs, index, d);
      ImportIsIndexEdge(w, patterns, nodes, recs, index, p, d);
    }
  }

  lemma IndexReachIsBuild(w: World, patterns: seq<string>, nodes: seq<Node>, recs: seq<Listed>, index: Index,
                          roots: set<string>, p: string)
    requires WalkOk(w) && IsTestListing(w, patterns, nodes, recs) && Indexes(recs, IsBare, index)
    requires RootsListed(w, patterns, roots)
    ensures ReachedFrom(IndexEdges(recs, index), roots, p) <==> ReachedFrom(PkgEdges(w), roots, p)
  {
    var build := BuildPaths(w, roots);
    forall r | r in roots
      ensures r in build
    {
      RootReached(PkgEdges(w), roots, r);
    }
    forall k, d | k in build
      ensures d in PkgEdges(w)(k) <==> d in IndexEdges(recs, index)(k)
    {
      BuildPathsListed(w, patterns, roots, k);
      SameEdges(w, patterns, nodes, recs, index, k, d);
    }
    BuildPathsClosed(w, roots);
    AgreeingEdgesReach(PkgEdges(w), IndexEdges(recs, index), roots, build, p);
  }

  lemma {:induction false} MainModulePathIs(recs: seq<Listed>, modulePath: string)
    requires forall i :: 0 <= i < |recs| && InMainModule(recs[i].rec) ==> recs[i].rec.mod.value.path == modulePath
    ensures MainModulePath(recs).Some? ==> MainModulePath(recs).value == modulePath
  {
    if |recs| > 0 {
      forall i | 0 <= i < |recs[1..]| && InMainModule(recs[1..][i].rec)
        ensures recs[1..][i].rec.mod.value.path == modulePath
      {
        assert recs[1..][i] == recs[i + 1];
      }
      MainModulePathIs(recs[1..], modulePath);
    }
  }

  lemma ListedModule(w: World, patterns: seq<string>, nodes: seq<Node>, recs: seq<Listed>, i: nat)
    requires WalkOk(w) && OneMainModule(w) && IsTestListing(w, patterns, nodes, recs) && i < |recs|
    ensures InMainModule(recs[i].rec) ==> recs[i].rec.mod.value.path == w.modulePath
  {
    RecordOf(w, patterns, nodes, recs, i);
  }

  /** Every subPackage names a package, rather than a test main. */
  ghost predicate SubPackagesExist(w: World, subPackages: seq<string>) {
    forall sp :: sp in subPackages ==> IsSubPackage(w, SubPackagePath(w.modulePath, sp))
  }

  ghost predicate IsBuildNode(w: World, roots: set<string>, n: Node) {
    n.Pkg? && InBuildListing(w, roots, n.path)
  }

  lemma BuildIndex(w: World, patterns: seq<string>, nodes: seq<Node>, recs: seq<Listed>, index: Index,
                   roots: set<string>, i: nat)
    requires WalkOk(w) && IsTestListing(w, patterns, nodes, recs) && Indexes(recs, IsBare, index)
    requires RootsListed(w, patterns, roots) && i < |nodes|
    ensures Walked(recs, index, IsBare, roots, i) <==> IsBuildNode(w, roots, nodes[i])
  {
    RecordOf(w, patterns, nodes, recs, i);
    var path := Printed(nodes[i]);
    IndexReachIsBuild(w, patterns, nodes, recs, index, roots, path);
    if Walked(recs, index, IsBare, roots, i) {
      BuildRootsReach(w, patterns, roots, path);
      assert path in BuildPaths(w, roots);
      BuildPathsListed(w, patterns, roots, path);
      BareIndexed(w, patterns, nodes, recs, index, path);
    } else if IsBuildNode(w, roots, nodes[i]) {
      BuildPathsListed(w, patterns, roots, path);
    }
  }

  lemma BuildRootsReach(w: World, patterns: seq<string>, roots: set<string>, p: string)
    requires RootsListed(w, patterns, roots) && ReachedFrom(PkgEdges(w), roots, p)
    ensures p in w.pkgs
  {
    ClosedHoldsAllReached(PkgEdges(w), w.pkgs.Keys, roots, p);
  }

  lemma RootsAreListed(w: World, patterns: seq<string>, nodes: seq<Node>, recs: seq<Listed>, subPackages: seq<string>,
                       index: Index, build: set<nat>)
    requires WalkOk(w) && OneMainModule(w) && IsTestListing(w, patterns, nodes, recs) && "./..." in patterns
    requires IsBuildClosure(recs, subPackages, index, build) && SubPackagesExist(w, subPackages)
    ensures MainModulePath(recs) == Some(w.modulePath)
    ensures RootsListed(w, patterns, SubPaths(w.modulePath, subPackages))
  {
    forall i | 0 <= i < |recs| && InMainModule(recs[i].rec)
      ensures recs[i].rec.mod.value.path == w.modulePath
    {
      ListedModule(w, patterns, nodes, recs, i);
    }
    MainModulePathIs(recs, w.modulePath);
    forall r | r in SubPaths(w.modulePath, subPackages)
      ensures NodeListed(w, patterns, Pkg(r)) && IsBare(w.pkgs[r])
    {
      RootIsPkg(w, patterns, nodes, recs, index[r], r);
    }
  }

  /** build_closure's records are those go list -deps prints for the subPackages, and all are in the listing. */
  lemma BuildClosureIsBuildPass(w: World, patterns: seq<string>, nodes: seq<Node>, recs: seq<Listed>,
                                subPackages: seq<string>,
                                index: Index, build: set<nat>)
    requires WalkOk(w) && OneMainModule(w) && IsTestListing(w, patterns, nodes, recs) && "./..." in patterns
    requires IsBuildClosure(recs, subPackages, index, build) && SubPackagesExist(w, subPackages)
    ensures forall i :: 0 <= i < |nodes| ==>
      (i in build <==> IsBuildNode(w, SubPaths(w.modulePath, subPackages), nodes[i]))
    ensures forall p :: p in BuildPaths(w, SubPaths(w.modulePath, subPackages)) ==> Pkg(p) in nodes
  {
    RootsAreListed(w, patterns, nodes, recs, subPackages, index, build);
    var roots := SubPaths(w.modulePath, subPackages);
    forall i | 0 <= i < |nodes|
      ensures i in build <==> IsBuildNode(w, roots, nodes[i])
    {
      BuildIndex(w, patterns, nodes, recs, index, roots, i);
    }
    forall p | p in BuildPaths(w, roots)
      ensures Pkg(p) in nodes
    {
      BuildPathsListed(w, patterns, roots, p);
    }
  }
}
