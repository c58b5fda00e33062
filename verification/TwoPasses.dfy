/**
  resolve_two_passes (packages/go2nix-nix-plugin/rust/src/resolve.rs) with do_check: one go list for
  the build graph, one with -test for what only tests need.
 */
module TwoPasses {
  import opened Wrappers
  import Ordering
  import opened GoListing
  import opened Closures
  import opened ClosureProofs
  import opened Classify
  import opened ClassifyTests
  import opened CoherentListings
  import opened TestOutcome
  import opened TestReach

  /** `<module>/...` for each module. */
  function SiblingPatterns(mods: seq<string>): seq<string> {
    if |mods| == 0 then [] else SiblingPatterns(mods[..|mods| - 1]) + [mods[|mods| - 1] + "/..."]
  }

  /** test_patterns: the main module, and every module replaced with a directory, in order. */
  ghost function TestPatterns(siblings: set<string>): seq<string> {
    ["./..."] + SiblingPatterns(Ordering.Sorted(siblings))
  }

  method PatternsOf(siblings: set<string>) returns (patterns: seq<string>)
    ensures patterns == TestPatterns(siblings)
  {
    var mods := Ordering.SortKeys(siblings);
    patterns := ["./..."];
    for i := 0 to |mods|
      invariant patterns == ["./..."] + SiblingPatterns(mods[..i])
    {
      assert mods[..i + 1][..i] == mods[..i];
      patterns := patterns + [mods[i] + "/..."];
    }
    assert mods[..|mods|] == mods;
  }

  ghost function ContextOf(g: Graph, overlays: Overlays): Context {
    Context(g.thirdPartyPaths, g.localPaths, overlays)
  }

  /** The test pass merged into a build graph, over the siblings the graph holds a package of. */
  ghost function WithTests(w: World, g: Graph, overlays: Overlays): Result<Graph, set<string>> {
    match TestPassOf(ContextOf(g, overlays), TestRecords(w, TestPatterns(g.localReplaceModPaths)), g.replacements)
    case Failure(e) => Failure(e)
    case Success(tp) => Success(MergeTestPass(g, tp))
  }

  /** A build graph finished: with the test pass merged in when it has a local package. */
  ghost function Finished(w: World, built: Result<Graph, set<string>>, overlays: Overlays): Result<Graph, set<string>> {
    if built.Failure? || built.value.locals == {} then built else WithTests(w, built.value, overlays)
  }

  /** Without a subPackage go list lists `.`. */
  function Asked(subPackages: seq<string>): seq<string> {
    if |subPackages| == 0 then ["."] else subPackages
  }

  ghost function MissingPaths(w: World, subPackages: seq<string>): set<string> {
    set sp | sp in subPackages && !IsSubPackage(w, SubPackagePath(w.modulePath, sp)) :: sp
  }

  /** The build graph of the subPackages, or the packages that do not load. */
  ghost function Built(w: World, subPackages: seq<string>, overlays: Overlays): Result<Graph, set<string>> {
    BuildGraph(BuildRecords(w, SubPaths(w.modulePath, Asked(subPackages))), overlays)
  }

  /** The graph of the two passes, or the packages an error is reported for. */
  ghost function Resolved(w: World, subPackages: seq<string>, overlays: Overlays): Result<Graph, set<string>> {
    if !SubPackagesExist(w, Asked(subPackages)) then Failure(MissingPaths(w, Asked(subPackages)))
    else Finished(w, Built(w, subPackages, overlays), overlays)
  }

  // ---- The modules of a world ----

  ghost predicate FromWorld(w: World, m: Module) {
    exists p :: p in w.pkgs && w.pkgs[p].mod == Some(m)
  }

  lemma WorldModules(w: World, s: set<Rec>)
    requires OneMainModule(w) && ModulesAgree(w)
    requires forall r :: r in s && r.mod.Some? ==> FromWorld(w, r.mod.value)
    ensures OneVersion(Mods(s))
  {
    forall m, n | m in Mods(s) && n in Mods(s) && (m.path == n.path || (m.main && n.main))
      ensures m == n
    {
      var p :| p in w.pkgs && w.pkgs[p].mod == Some(m);
      var q :| q in w.pkgs && w.pkgs[q].mod == Some(n);
    }
  }

  lemma BuildRecordsOneVersion(w: World, roots: set<string>, overlays: Overlays)
    requires OneMainModule(w) && ModulesAgree(w)
    ensures OneVersion(Mods(Loaded(BuildRecords(w, roots), overlays)))
  {
    var s := Loaded(BuildRecords(w, roots), overlays);
    forall r | r in s && r.mod.Some?
      ensures FromWorld(w, r.mod.value)
    {
      var p :| p in w.pkgs && r == WithoutTestEmbeds(w.pkgs[p]);
    }
    WorldModules(w, s);
  }

  // ---- The two runs ----

  /** What go list -deps prints for the subPackages, if it does not fail; it does when one of them names no package. */
  ghost predicate ListsBuild(w: World, subPackages: seq<string>, out: Option<seq<Rec>>) {
    out.Some? ==>
      && SubPackagesExist(w, Asked(subPackages))
      && RecSet(out.value) == BuildRecords(w, SubPaths(w.modulePath, Asked(subPackages)))
  }

  ghost predicate IsListing(w: World, patterns: seq<string>, recs: seq<Rec>) {
    exists nodes :: ListsPackages(w, patterns, nodes, recs)
  }

  /** What go list -deps -test prints for the patterns, if it does not fail. */
  ghost predicate ListsTests(w: World, patterns: seq<string>, out: Option<seq<Rec>>) {
    out.Some? ==> IsListing(w, patterns, out.value)
  }

  /** The build graph has local packages, and the command that lists their tests fails. */
  ghost predicate TestRunFails(w: World, subPackages: seq<string>, overlays: Overlays,
                               listTests: seq<string> -> Option<seq<Rec>>) {
    var built := Built(w, subPackages, overlays);
    built.Success? && built.value.locals != {} && listTests(TestPatterns(built.value.localReplaceModPaths)).None?
  }

  /** The graph with what the tests need merged in, in terms of the records they were listed as. */
  ghost predicate IsMergedResult(g: Graph, overlays: Overlays, recs: seq<Rec>, result: Result<Graph, set<string>>) {
    match result
    case Success(merged) =>
      exists tp :: IsTestResult(ContextOf(g, overlays), recs, g.replacements, Success(tp)) && IsMerged(g, tp, merged)
    case Failure(e) => IsTestResult(ContextOf(g, overlays), recs, g.replacements, Failure(e))
  }

  lemma MergeGives(g: Graph, overlays: Overlays, recs: seq<Rec>, tp: TestPass)
    requires IsTestResult(ContextOf(g, overlays), recs, g.replacements, Success(tp))
    ensures IsMergedResult(g, overlays, recs, Success(MergeTestPass(g, tp)))
  {
    Merges(g, tp);
  }

  /** The test classifier on a listing of the patterns of g, in whatever order it is printed, and the merge. */
  method MergeTests(g: Graph, overlays: Overlays, recs: seq<Rec>, ghost w: World)
    returns (result: Result<Graph, set<string>>)
    requires WorldOk(w) && IsListing(w, TestPatterns(g.localReplaceModPaths), recs)
    ensures IsMergedResult(g, overlays, recs, result)
    ensures result == WithTests(w, g, overlays)
  {
    ghost var nodes :| ListsPackages(w, TestPatterns(g.localReplaceModPaths), nodes, recs);
    var c := Context(g.thirdPartyPaths, g.localPaths, overlays);
    ListingCoherent(w, TestPatterns(g.localReplaceModPaths), nodes, recs, c);
    var tests := ClassifyTestPackages(c, recs, g.replacements);
    if tests.Failure? {
      return Failure(tests.error);
    }
    MergeGives(g, overlays, recs, tests.value);
    return Success(MergeTestPass(g, tests.value));
  }

  /** The second command, on the build graph of the first. */
  method AddTests(g: Graph, overlays: Overlays, listTests: seq<string> -> Option<seq<Rec>>, ghost w: World)
    returns (result: Result<Graph, set<string>>)
    requires WorldOk(w) && ListsTests(w, TestPatterns(g.localReplaceModPaths),
      listTests(TestPatterns(g.localReplaceModPaths)))
    ensures result == if listTests(TestPatterns(g.localReplaceModPaths)).None? then Failure({})
      else WithTests(w, g, overlays)
  {
    var patterns := PatternsOf(g.localReplaceModPaths);
    var listed := listTests(patterns);
    if listed.None? {
      return Failure({});
    }
    result := MergeTests(g, overlays, listed.value, w);
  }

  /** The first command's records as a build graph. */
  method BuildPass(subPackages: seq<string>, overlays: Overlays, recs: seq<Rec>, ghost w: World)
    returns (built: Result<Graph, set<string>>)
    requires WorldOk(w) && RecSet(recs) == BuildRecords(w, SubPaths(w.modulePath, Asked(subPackages)))
    ensures built == Built(w, subPackages, overlays)
  {
    BuildRecordsOneVersion(w, SubPaths(w.modulePath, Asked(subPackages)), overlays);
    built := ClassifyGoPackages(recs, overlays);
  }

  /** resolve_two_passes: `buildOut` and `listTests` are the two go list commands, in whatever order they print. */
  method ResolveTwoPasses(subPackages: seq<string>, overlays: Overlays, buildOut: Option<seq<Rec>>,
                          listTests: seq<string> -> Option<seq<Rec>>, ghost w: World)
    returns (result: Result<Graph, set<string>>)
    requires WorldOk(w) && ListsBuild(w, subPackages, buildOut)
    requires forall patterns :: ListsTests(w, patterns, listTests(patterns))
    ensures buildOut.None? ==> result == Failure({})
    ensures buildOut.Some? && TestRunFails(w, subPackages, overlays, listTests) ==> result == Failure({})
    ensures buildOut.Some? && !TestRunFails(w, subPackages, overlays, listTests) ==>
      result == Resolved(w, subPackages, overlays)
  {
    if buildOut.None? {
      return Failure({});
    }
    var built := BuildPass(subPackages, overlays, buildOut.value, w);
    if built.Failure? || built.value.locals == {} {
      return built;
    }
    result := AddTests(built.value, overlays, listTests, w);
  }
}
