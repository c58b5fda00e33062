/** Two inputs on which the single pass returns a graph that is not the one of the two passes. */
module SinglePassLimits {
  import opened Wrappers
  import opened Graphs
  import opened GoListing
  import opened Closures
  import opened ClosureProofs
  import opened RestrictProofs
  import opened Classify
  import opened ClassifyTests
  import Ordering
  import SinglePass
  import TwoPasses

  function PackageIn(modulePath: string, path: string, testFiles: seq<string>, testEmbeds: seq<string>): Rec {
    Rec(path, "", Some(Module(modulePath, "", true, "1.21", None)), [], BuildInfo("/src", [], [], []),
      Sources(["a.go"], [], [], []),
        [], testFiles, [], testEmbeds, [], [], [], [], NoError)
  }

  /** A main module of one package, which has a test, which embeds some files. */
  function OneTested(modulePath: string, path: string, testEmbeds: seq<string>): World {
    World(modulePath, map[path := PackageIn(modulePath, path, ["a_test.go"], testEmbeds)],
          map[path := PackageIn(modulePath, TestMain(path), [], [])], {})
  }

  /** The path of a package, of whatever spelling go allows. */
  predicate IsPackagePath(modulePath: string, path: string) {
    Strip(path) == path && path != "_test" && Below(path, modulePath) && modulePath != "."
  }

  lemma OneTestedWalks(modulePath: string, path: string, testEmbeds: seq<string>)
    requires IsPackagePath(modulePath, path)
    ensures WalkOk(OneTested(modulePath, path, testEmbeds))
  {
  }

  lemma OneTestedAgrees(modulePath: string, path: string, testEmbeds: seq<string>)
    requires IsPackagePath(modulePath, path)
    ensures var w := OneTested(modulePath, path, testEmbeds);
      CopiesAgree(w) && OneMainModule(w) && ModulesAgree(w)
  {
  }

  lemma OneTestedOk(modulePath: string, path: string, testEmbeds: seq<string>)
    requires IsPackagePath(modulePath, path)
    ensures WorldOk(OneTested(modulePath, path, testEmbeds))
    ensures path in Tested(OneTested(modulePath, path, testEmbeds), ["./..."])
  {
    OneTestedWalks(modulePath, path, testEmbeds);
    OneTestedAgrees(modulePath, path, testEmbeds);
    MatchesOne(OneTested(modulePath, path, testEmbeds), "./...", path);
  }

  /** build_closure takes the test main of any tested package of the main module for a package of its path. */
  lemma TestMainAccepted(w: World, patterns: seq<string>, nodes: seq<Node>, recs: seq<Listed>, index: Index, x: string)
    requires WalkOk(w) && IsTestListing(w, patterns, nodes, recs) && Indexes(recs, IsBare, index)
    requires x in Tested(w, patterns) && InMainModule(w.pkgs[x])
    ensures FoundInMain(recs, index, TestMain(x))
  {
    MainIsBare(w, x);
    assert NodeListed(w, patterns, Main(x));
    PkgIndexed(w, patterns, nodes, recs, IsBare, index, Main(x));
    RecordOf(w, patterns, nodes, recs, index[TestMain(x)]);
  }

  /** The subPackage `./<dir>.test` has the path of the test main of the package in `./<dir>`. */
  lemma SubPackageNamesMain(modulePath: string, dir: string)
    requires dir != ""
    ensures SubPackagePath(modulePath, "./" + dir + ".test") == TestMain(modulePath + "/" + dir)
  {
    var sp := "./" + dir + ".test";
    assert sp[..2] == "./" && sp[2..] == dir + ".test";
    assert modulePath + "/" + (dir + ".test") == modulePath + "/" + dir + ".test";
  }

  // ---- What go list prints of a module of one package ----

  predicate IsPlain(w: World, r: Rec) {
    r.error == NoError && r.mod.Some? && r.mod.value.main && r.mod.value.path == w.modulePath
  }

  /** One package, which has a test, and its test main; nothing fails to load. */
  ghost predicate HasOne(w: World, path: string) {
    && w.pkgs.Keys == {path} && w.mains.Keys == {path}
    && path in Tested(w, ["./..."])
    && IsPlain(w, w.pkgs[path]) && IsPlain(w, w.mains[path])
    && w.mains[path] == WithoutTestEmbeds(w.mains[path])
  }

  lemma OneTestedHasOne(modulePath: string, path: string, testEmbeds: seq<string>)
    requires IsPackagePath(modulePath, path)
    ensures HasOne(OneTested(modulePath, path, testEmbeds), path)
  {
    OneTestedOk(modulePath, path, testEmbeds);
  }

  function OneListing(w: World, path: string): seq<Listed>
    requires path in w.pkgs && path in w.mains
  {
    [Listed(w.pkgs[path], ["./..."]), Listed(w.mains[path], [])]
  }

  function OneNodes(path: string): seq<Node> {
    [Pkg(path), Main(path)]
  }

  lemma MainIsAnother(w: World, path: string)
    requires WalkOk(w) && HasOne(w, path)
    ensures IsBare(w.pkgs[path]) && w.pkgs[path].path == path
    ensures IsBare(w.mains[path]) && w.mains[path].path == TestMain(path) != path
  {
    MainIsBare(w, path);
    assert |TestMain(path)| != |path|;
  }

  lemma OneNodesListed(w: World, path: string, n: Node)
    requires HasOne(w, path)
    ensures NodeListed(w, ["./..."], n) <==> n in OneNodes(path)
  {
    RootReached(PkgEdges(w), TestRoots(w, ["./..."]), path);
    assert OneNodes(path)[0] == Pkg(path) && OneNodes(path)[1] == Main(path);
  }

  lemma OneListsPackages(w: World, path: string)
    requires WalkOk(w) && HasOne(w, path)
    ensures ListsPackages(w, ["./..."], OneNodes(path), Packages(OneListing(w, path)))
  {
    MainIsAnother(w, path);
    forall n
      ensures n in OneNodes(path) <==> NodeListed(w, ["./..."], n)
    {
      OneNodesListed(w, path, n);
    }
    assert View(w, ["./..."], w.pkgs[path]) == w.pkgs[path] && View(w, ["./..."], w.mains[path]) == w.mains[path];
  }

  lemma OneListingIs(w: World, path: string)
    requires WalkOk(w) && HasOne(w, path)
    ensures IsTestListing(w, ["./..."], OneNodes(path), OneListing(w, path))
  {
    MainIsAnother(w, path);
    OneListsPackages(w, path);
    assert HasMatch(w, ["./..."], Pkg(path), ["./..."]) && HasMatch(w, ["./..."], Main(path), []);
  }

  lemma NoSiblingPatterns()
    ensures TwoPasses.TestPatterns({}) == ["./..."]
  {
    assert TwoPasses.SiblingPatterns(Ordering.Sorted({})) == [];
  }

  // ---- Neither pass meets an error there ----

  ghost predicate AllPlain(w: World, s: set<Rec>) {
    forall r :: r in s ==> IsPlain(w, r)
  }

  lemma PlainBuilds(w: World, s: set<Rec>)
    requires AllPlain(w, s)
    ensures BuildGraph(s, map[]).Success? && BuildGraph(s, map[]).value.localReplaceModPaths == {}
  {
    assert Failing(s, map[]) == {};
    assert SiblingPaths(Mods(Loaded(s, map[]))) == {};
  }

  lemma PlainTests(w: World, path: string, g: Graph)
    requires HasOne(w, path) && g.localReplaceModPaths == {}
    ensures TwoPasses.WithTests(w, g, map[]).Success?
  {
    NoSiblingPatterns();
    TestRecordsPlain(w, path);
    NothingFatal(w, TwoPasses.ContextOf(g, map[]), TestRecords(w, ["./..."]));
  }

  lemma TestRecordsPlain(w: World, path: string)
    requires HasOne(w, path)
    ensures AllPlain(w, TestRecords(w, ["./..."]))
  {
  }

  lemma NothingFatal(w: World, c: Context, s: set<Rec>)
    requires AllPlain(w, s)
    ensures Fatal(c, s) == {}
  {
  }

  lemma OneHasClosure(w: World, path: string, sp: string)
    requires WalkOk(w) && HasOne(w, path)
    requires SubPackagePath(w.modulePath, sp) == path || SubPackagePath(w.modulePath, sp) == TestMain(path)
    ensures MainModulePath(OneListing(w, path)) == Some(w.modulePath) && !NoClosure(OneListing(w, path), [sp])
  {
    MainIsAnother(w, path);
    var recs := OneListing(w, path);
    assert recs[0].rec == w.pkgs[path] && recs[1].rec == w.mains[path];
    assert !Missing(recs, path) && !Missing(recs, TestMain(path));
  }

  /** The one listing serves for a subPackage that has the path of either record. */
  lemma OneServes(w: World, path: string, sp: string)
    requires WalkOk(w) && HasOne(w, path) && SinglePass.IsPlainSubPackage(sp)
    requires SubPackagePath(w.modulePath, sp) == path || SubPackagePath(w.modulePath, sp) == TestMain(path)
    ensures !SinglePass.Declines(w, [sp], {}, map[], OneListing(w, path))
  {
    OneHasClosure(w, path, sp);
    assert SinglePass.ArePlain([sp]);
    var s := ReachedRecs(OneListing(w, path), [sp]);
    ReachedPlain(w, path, sp);
    PlainBuilds(w, s);
    PlainTestsServe(w, path, BuildGraph(s, map[]).value);
  }

  lemma ReachedPlain(w: World, path: string, sp: string)
    requires HasOne(w, path) && MainModulePath(OneListing(w, path)).Some?
    ensures AllPlain(w, ReachedRecs(OneListing(w, path), [sp]))
  {
  }

  lemma PlainTestsServe(w: World, path: string, g: Graph)
    requires HasOne(w, path) && g.localReplaceModPaths == {}
    ensures !SinglePass.TestsDecline(w, {}, map[], OneListing(w, path), g)
  {
    PlainTests(w, path, g);
  }

  lemma OneResolves(w: World, path: string, sp: string)
    requires HasOne(w, path) && SubPackagesExist(w, [sp])
    ensures TwoPasses.Resolved(w, [sp], map[]).Success?
  {
    var s := BuildRecords(w, SubPaths(w.modulePath, [sp]));
    assert AllPlain(w, s);
    PlainBuilds(w, s);
    PlainTests(w, path, BuildGraph(s, map[]).value);
  }

  // ---- The two inputs ----

  lemma NotAPackage(w: World, sp: string)
    requires SubPackagePath(w.modulePath, sp) !in w.pkgs
    ensures TwoPasses.Resolved(w, [sp], map[]).Failure?
  {
    assert sp in [sp];
  }

  method ServeOne(w: World, path: string, sp: string) returns (graph: Option<Graph>)
    requires WorldOk(w) && HasOne(w, path) && SinglePass.IsPlainSubPackage(sp)
    requires SubPackagePath(w.modulePath, sp) == path || SubPackagePath(w.modulePath, sp) == TestMain(path)
    ensures graph.Some? && SinglePass.AgreesIff(w, [sp], {}, map[], graph.value)
  {
    NoSiblingPatterns();
    OneListingIs(w, path);
    OneServes(w, path, sp);
    graph := SinglePass.ResolveSinglePass([sp], {}, map[], OneListing(w, path), w, OneNodes(path));
  }

  /** A subPackage that names a test main: the single pass returns a graph, the two passes find no package. */
  method TestMainIsServed(modulePath: string, path: string, sp: string) returns (graph: Option<Graph>)
    requires IsPackagePath(modulePath, path) && SinglePass.IsPlainSubPackage(sp)
      && SubPackagePath(modulePath, sp) == TestMain(path)
    ensures graph.Some? && TwoPasses.Resolved(OneTested(modulePath, path, []), [sp], map[]).Failure?
  {
    var w := OneTested(modulePath, path, []);
    OneTestedOk(modulePath, path, []);
    OneTestedHasOne(modulePath, path, []);
    assert |TestMain(path)| != |path|;
    NotAPackage(w, sp);
    graph := ServeOne(w, path, sp);
  }

  lemma OneEmbedShown(modulePath: string, path: string, sp: string, file: string)
    requires IsPackagePath(modulePath, path) && EndsWith(path, ".test") && SubPackagePath(modulePath, sp) == path
    requires file != "a.go" && file != "a_test.go"
    ensures var w := OneTested(modulePath, path, [file]);
      && WorldOk(w) && HasOne(w, path) && SubPackagesExist(w, [sp])
      && !SinglePass.MainLikeEmbedsShown(w, ["./..."], SubPaths(modulePath, [sp]))
  {
    OneTestedOk(modulePath, path, [file]);
    OneTestedHasOne(modulePath, path, [file]);
    SubPathOfOne(modulePath, sp);
    OnlyTestsEmbed(modulePath, path, file);
    EmbedShown(OneTested(modulePath, path, [file]), path, SubPaths(modulePath, [sp]), file);
  }

  lemma OnlyTestsEmbed(modulePath: string, path: string, file: string)
    requires file != "a.go" && file != "a_test.go"
    ensures var r := PackageIn(modulePath, path, ["a_test.go"], [file]);
      file in r.testEmbeds && file !in BuildSrcFiles(r)
  {
  }

  /** A package with a path like a test main's, whose test embeds a file: both ways give a graph, and not the same. */
  method MainLikeEmbedsDiffer(modulePath: string, path: string, sp: string, file: string) returns (graph: Option<Graph>)
    requires IsPackagePath(modulePath, path) && EndsWith(path, ".test")
    requires SinglePass.IsPlainSubPackage(sp) && SubPackagePath(modulePath, sp) == path
    requires file != "a.go" && file != "a_test.go"
    ensures var resolved := TwoPasses.Resolved(OneTested(modulePath, path, [file]), [sp], map[]);
      graph.Some? && resolved.Success? && graph.value != resolved.value
  {
    var w := OneTested(modulePath, path, [file]);
    OneEmbedShown(modulePath, path, sp, file);
    OneResolves(w, path, sp);
    NoSiblingPatterns();
    graph := ServeOne(w, path, sp);
  }

  lemma SubPathOfOne(modulePath: string, sp: string)
    ensures SubPaths(modulePath, [sp]) == {SubPackagePath(modulePath, sp)}
  {
    assert sp in [sp];
  }

  lemma EmbedShown(w: World, path: string, roots: set<string>, file: string)
    requires PathsOk(w) && HasOne(w, path) && path in roots && EndsWith(path, ".test")
    requires file in w.pkgs[path].testEmbeds && file !in BuildSrcFiles(w.pkgs[path])
    ensures !SinglePass.MainLikeEmbedsShown(w, ["./..."], roots)
  {
    RootReached(PkgEdges(w), roots, path);
    assert path in BuildPaths(w, roots);
    assert file in TestEmbeds(View(w, ["./..."], w.pkgs[path]));
  }
}
