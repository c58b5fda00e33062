/**
  resolve_single_pass (packages/go2nix-nix-plugin/rust/src/resolve.rs): both passes from one
  go list -deps -test, and exactly when the graph it returns is the one the two passes return.
 */
module SinglePass {
  import opened Wrappers
  import opened Graphs
  import Seqs
  import opened Maps
  import opened GoListing
  import opened Closures
  import opened ClosureProofs
  import opened RestrictProofs
  import opened Classify
  import opened ClassifyTests
  import opened TestSets
  import opened TestReach
  import opened SinglePassProofs
  import opened ListedRecords
  import TwoPasses

  // ---- Which test embeds the single pass shows that the two passes do not ----

  /**
    No local package of the build graph whose path ends like that of a test main embeds, in its
    tests only, a file that is not one of its sources.
   */
  ghost predicate MainLikeEmbedsShown(w: World, patterns: seq<string>, roots: set<string>) {
    forall p :: p in BuildPaths(w, roots) && IsLocalPkg(w, p) && EndsWith(p, ".test") ==>
      TestEmbeds(View(w, patterns, w.pkgs[p])) <= BuildSrcFiles(w.pkgs[p])
  }

  lemma BuildPathsBare(w: World, roots: set<string>, p: string)
    requires ImportsResolve(w) && (forall r :: r in roots ==> r in w.pkgs && IsBare(w.pkgs[r]))
      && p in BuildPaths(w, roots)
    ensures IsBare(w.pkgs[p])
  {
    var bare := set q | q in w.pkgs && IsBare(w.pkgs[q]);
    ClosedHoldsAllReached(PkgEdges(w), bare, roots, p);
  }

  /** A package of the build graph that is local is known to be, and its module is among those listed. */
  lemma BuiltLocal(w: World, roots: set<string>, overlays: Overlays, p: string)
    requires BuildGraph(BuildRecords(w, roots), overlays).Success? && p in BuildPaths(w, roots) && IsLocalPkg(w, p)
      && w.pkgs[p].path == p
    ensures var g := BuildGraph(BuildRecords(w, roots), overlays).value;
      p in g.localPaths && OwnModuleListed(w.pkgs[p], g.localReplaceModPaths)
  {
    var s := BuildRecords(w, roots);
    var r := WithoutTestEmbeds(w.pkgs[p]);
    assert r in s;
    assert !IsAccepted(r, overlays) ==> r.path in Failing(s, overlays);
    assert r in LocalRecs(Loaded(s, overlays));
    assert r.mod.value in Mods(Loaded(s, overlays));
  }

  lemma AppendedEmbeds(r: Rec)
    ensures ToSet(r.testEmbeds + r.xtestEmbeds) == TestEmbeds(r)
  {
  }

  lemma NoEmbedsShown(w: World, patterns: seq<string>, r: Rec)
    requires Strip(r.path) !in Matched(w, patterns) || !HasTestEmbeds(r)
    ensures TestEmbeds(View(w, patterns, r)) == {}
  {
  }

  /** A match's test embeds are added by the test pass, unless its path looks like a test main's. */
  lemma AddedUnlessMainLike(w: World, patterns: seq<string>, c: Context, siblings: set<string>, p: string)
    requires WorldOk(w) && IsLocalPkg(w, p) && IsBare(w.pkgs[p]) && p in c.local && OwnModuleListed(w.pkgs[p], siblings)
    requires Fatal(c, TestRecords(w, TwoPasses.TestPatterns(siblings))) == {}
    ensures var extra := Extra(MapOf(EmbedPairs(c, TestRecords(w, TwoPasses.TestPatterns(siblings)))), p);
      if EndsWith(p, ".test") then extra == {} else TestEmbeds(View(w, patterns, w.pkgs[p])) <= extra
  {
    var own := TwoPasses.TestPatterns(siblings);
    var r := w.pkgs[p];
    assert r.path == p;
    if EndsWith(p, ".test") {
      MainLikeEmbedsDropped(c, TestRecords(w, own), p);
    } else if p in Matched(w, patterns) && HasTestEmbeds(r) {
      MatchedByOwnModule(w, patterns, siblings, p);
      MatchEmbedsAdded(w, own, c, r);
      AppendedEmbeds(r);
    } else {
      NoEmbedsShown(w, patterns, r);
    }
  }

  /** g has the build graph's packages, whatever it knows of the files of the local ones. */
  ghost predicate IsBuildGraph(w: World, roots: set<string>, overlays: Overlays, g: Graph) {
    BuildGraph(BuildRecords(w, roots), overlays).Success?
    && g == BuildGraph(BuildRecords(w, roots), overlays).value.(locals := g.locals)
  }

  ghost predicate RootsBare(w: World, roots: set<string>) {
    forall r :: r in roots ==> r in w.pkgs && IsBare(w.pkgs[r])
  }

  lemma AddedAt(w: World, patterns: seq<string>, roots: set<string>, overlays: Overlays, g: Graph, p: string)
    requires WorldOk(w) && RootsBare(w, roots) && IsBuildGraph(w, roots, overlays, g) && p in BuildPaths(w, roots)
      && IsLocalPkg(w, p)
    requires Fatal(TwoPasses.ContextOf(g, overlays), TestRecords(w, TwoPasses.TestPatterns(g.localReplaceModPaths)))
      == {}
    ensures var extra := Extra(MapOf(EmbedPairs(TwoPasses.ContextOf(g, overlays),
        TestRecords(w, TwoPasses.TestPatterns(g.localReplaceModPaths)))), p);
      if EndsWith(p, ".test") then extra == {} else TestEmbeds(View(w, patterns, w.pkgs[p])) <= extra
  {
    BuildPathsBare(w, roots, p);
    BuiltLocal(w, roots, overlays, p);
    AddedUnlessMainLike(w, patterns, TwoPasses.ContextOf(g, overlays), g.localReplaceModPaths, p);
  }

  ghost predicate AddedBy(w: World, patterns: seq<string>, tp: TestPass, p: string)
    requires p in w.pkgs
  {
    if EndsWith(p, ".test") then Extra(tp.embedFiles, p) == {}
      else TestEmbeds(View(w, patterns, w.pkgs[p])) <= Extra(tp.embedFiles, p)
  }

  lemma PointwiseCovered(w: World, patterns: seq<string>, roots: set<string>, tp: TestPass)
    requires forall p :: p in BuildPaths(w, roots) && IsLocalPkg(w, p) ==> AddedBy(w, patterns, tp, p)
    ensures EmbedsCovered(w, patterns, roots, tp) <==> MainLikeEmbedsShown(w, patterns, roots)
  {
    forall p | p in BuildPaths(w, roots) && IsLocalPkg(w, p)
      ensures TestEmbeds(View(w, patterns, w.pkgs[p])) <= BuildSrcFiles(w.pkgs[p]) + Extra(tp.embedFiles, p)
        <==> !EndsWith(p, ".test") || TestEmbeds(View(w, patterns, w.pkgs[p])) <= BuildSrcFiles(w.pkgs[p])
    {
      assert AddedBy(w, patterns, tp, p);
    }
  }

  lemma CoveredIff(w: World, patterns: seq<string>, roots: set<string>, overlays: Overlays, g: Graph, tp: TestPass)
    requires WorldOk(w) && RootsBare(w, roots) && IsBuildGraph(w, roots, overlays, g)
    requires TestPassOf(TwoPasses.ContextOf(g, overlays),
      TestRecords(w, TwoPasses.TestPatterns(g.localReplaceModPaths)), g.replacements)
      == Success(tp)
    ensures EmbedsCovered(w, patterns, roots, tp) <==> MainLikeEmbedsShown(w, patterns, roots)
  {
    forall p | p in BuildPaths(w, roots) && IsLocalPkg(w, p)
      ensures AddedBy(w, patterns, tp, p)
    {
      AddedAt(w, patterns, roots, overlays, g, p);
    }
    PointwiseCovered(w, patterns, roots, tp);
  }

  // ---- The graph of the single pass, and the theorem ----

  /** Every subPackage go list is asked for names a package, rather than a test main. */
  ghost predicate AllExist(w: World, subPackages: seq<string>) {
    SubPackagesExist(w, TwoPasses.Asked(subPackages))
  }

  ghost function RootPaths(w: World, subPackages: seq<string>): set<string> {
    SubPaths(w.modulePath, TwoPasses.Asked(subPackages))
  }

  /** What the single pass computes from the listing of the patterns, for subPackages that exist. */
  ghost function SingleResolved(w: World, subPackages: seq<string>, patterns: seq<string>,
                                overlays: Overlays): Result<Graph, set<string>> {
    TwoPasses.Finished(w, BuildGraph(SingleRecords(w, patterns, RootPaths(w, subPackages)), overlays), overlays)
  }

  lemma LocalsEmpty(s: set<Rec>, overlays: Overlays)
    requires BuildGraph(s, overlays).Success?
    ensures BuildGraph(s, overlays).value.locals == {} <==> LocalRecs(Loaded(s, overlays)) == {}
    ensures BuildGraph(s, overlays).value.localPaths == {} <==> LocalRecs(Loaded(s, overlays)) == {}
  {
    var k := Loaded(s, overlays);
    if r :| r in LocalRecs(k) {
      var g := BuildGraph(s, overlays).value;
      var x := Sorted(RawOf(r, r.mod.value), r.error == MissingEmbed);
      assert x in Raws(k);
      assert LocalOf(x.raw, g.localPaths, g.thirdPartyPaths, x.unresolved) in g.locals;
      assert r.path in g.localPaths;
    }
  }

  lemma NoLocals(w: World, patterns: seq<string>, roots: set<string>, overlays: Overlays)
    requires PathsOk(w) && BuildGraph(BuildRecords(w, roots), overlays).Success?
    requires BuildGraph(BuildRecords(w, roots), overlays).value.localPaths == {}
    ensures MainLikeEmbedsShown(w, patterns, roots)
  {
    forall p | p in BuildPaths(w, roots)
      ensures !IsLocalPkg(w, p)
    {
      if IsLocalPkg(w, p) {
        BuiltLocal(w, roots, overlays, p);
      }
    }
  }

  lemma MergesAgree(w: World, patterns: seq<string>, roots: set<string>, overlays: Overlays, g: Graph, h: Graph,
                    tp: TestPass)
    requires PathsOk(w)
    requires BuildGraph(SingleRecords(w, patterns, roots), overlays) == Success(g)
    requires BuildGraph(BuildRecords(w, roots), overlays) == Success(h) && g == h.(locals := g.locals)
    ensures MergeTestPass(g, tp) == MergeTestPass(h, tp) <==> EmbedsCovered(w, patterns, roots, tp)
  {
    MergedLocalsAre(SingleRecords(w, patterns, roots), overlays, g, tp);
    MergedLocalsAre(BuildRecords(w, roots), overlays, h, tp);
    assert MergedSet(BuildRecords(w, roots), h, tp) == MergedSet(BuildRecords(w, roots), g, tp);
    MergedSame(w, patterns, roots, g, tp);
  }

  lemma WithTestsAgree(w: World, patterns: seq<string>, roots: set<string>, overlays: Overlays, g: Graph, h: Graph,
                       graph: Graph)
    requires WorldOk(w) && RootsBare(w, roots)
    requires BuildGraph(SingleRecords(w, patterns, roots), overlays) == Success(g)
    requires BuildGraph(BuildRecords(w, roots), overlays) == Success(h) && g == h.(locals := g.locals)
    requires TwoPasses.WithTests(w, g, overlays) == Success(graph)
    ensures TwoPasses.WithTests(w, h, overlays) == Success(graph) <==> MainLikeEmbedsShown(w, patterns, roots)
  {
    assert TwoPasses.ContextOf(g, overlays) == TwoPasses.ContextOf(h, overlays);
    var tests := TestPassOf(TwoPasses.ContextOf(g, overlays),
      TestRecords(w, TwoPasses.TestPatterns(g.localReplaceModPaths)), g.replacements);
    MergesAgree(w, patterns, roots, overlays, g, h, tests.value);
    CoveredIff(w, patterns, roots, overlays, g, tests.value);
  }

  /** The build graphs of the two ways: either none, or equal but for what the local packages say of their files. */
  lemma BothGraphs(w: World, patterns: seq<string>, roots: set<string>, overlays: Overlays)
    ensures var g, h := BuildGraph(SingleRecords(w, patterns, roots), overlays),
      BuildGraph(BuildRecords(w, roots), overlays);
      && (g.Success? <==> h.Success?)
      && (g.Success? ==> g.value == h.value.(locals := g.value.locals))
      && (g.Success? ==> (g.value.locals == {} <==> h.value.locals == {}))
      && (g.Success? ==> (g.value.locals == {} <==> h.value.localPaths == {}))
  {
    SingleAlike(w, patterns, roots);
    AlikeGraphs(SingleRecords(w, patterns, roots), BuildRecords(w, roots), overlays);
    if BuildGraph(BuildRecords(w, roots), overlays).Success? {
      LocalsEmpty(SingleRecords(w, patterns, roots), overlays);
      LocalsEmpty(BuildRecords(w, roots), overlays);
    }
  }

  lemma FinishedWith(w: World, patterns: seq<string>, roots: set<string>, overlays: Overlays, g: Graph, h: Graph,
                     graph: Graph)
    requires WorldOk(w) && RootsBare(w, roots)
    requires BuildGraph(SingleRecords(w, patterns, roots), overlays) == Success(g)
    requires BuildGraph(BuildRecords(w, roots), overlays) == Success(h) && g == h.(locals := g.locals)
    requires (g.locals == {} <==> h.locals == {}) && (g.locals == {} <==> h.localPaths == {})
    requires TwoPasses.Finished(w, Success(g), overlays) == Success(graph)
    ensures TwoPasses.Finished(w, Success(h), overlays) == Success(graph) <==> MainLikeEmbedsShown(w, patterns, roots)
  {
    if g.locals == {} {
      NoLocals(w, patterns, roots, overlays);
    } else {
      WithTestsAgree(w, patterns, roots, overlays, g, h, graph);
    }
  }

  lemma FinishedAgrees(w: World, patterns: seq<string>, roots: set<string>, overlays: Overlays, graph: Graph)
    requires WorldOk(w) && RootsBare(w, roots)
    requires TwoPasses.Finished(w, BuildGraph(SingleRecords(w, patterns, roots), overlays), overlays) == Success(graph)
    ensures TwoPasses.Finished(w, BuildGraph(BuildRecords(w, roots), overlays), overlays) == Success(graph)
      <==> MainLikeEmbedsShown(w, patterns, roots)
  {
    BothGraphs(w, patterns, roots, overlays);
    FinishedWith(w, patterns, roots, overlays, BuildGraph(SingleRecords(w, patterns, roots), overlays).value,
                 BuildGraph(BuildRecords(w, roots), overlays).value, graph);
  }

  lemma SingleResolvedAgrees(w: World, subPackages: seq<string>, patterns: seq<string>, overlays: Overlays,
                             graph: Graph)
    requires WorldOk(w) && AllExist(w, subPackages)
    requires SingleResolved(w, subPackages, patterns, overlays) == Success(graph)
    ensures TwoPasses.Resolved(w, subPackages, overlays) == Success(graph)
      <==> MainLikeEmbedsShown(w, patterns, RootPaths(w, subPackages))
  {
    FinishedAgrees(w, patterns, RootPaths(w, subPackages), overlays, graph);
  }

  // ---- resolve_single_pass ----

  predicate IsPlainSubPackage(sp: string) {
    sp == "." || Seqs.StartsWith(sp, "./")
  }

  /** The test pass's records: those of the siblings the build graph holds a package of. */
  method TestPassRecords(recs: seq<Listed>, siblings: set<string>, own: set<string>, ghost w: World,
                         ghost nodes: seq<Node>)
    returns (records: Option<seq<Rec>>)
    requires WorldOk(w) && IsTestListing(w, TwoPasses.TestPatterns(siblings), nodes, recs) && own <= siblings
    ensures records.None? <==> own != siblings && PathShared(recs, Any)
    ensures records.Some? ==> TwoPasses.IsListing(w, TwoPasses.TestPatterns(own), records.value)
  {
    if own == siblings {
      return Some(Packages(recs));
    }
    FewerSiblings(own, siblings);
    NoMainMissing(w, TwoPasses.TestPatterns(own), TwoPasses.TestPatterns(siblings), nodes, recs);
    var patterns := TwoPasses.PatternsOf(own);
    var restricted, index, order := RestrictToPatterns(recs, patterns);
    if restricted.None? {
      return None;
    }
    RestrictionIsListing(w, patterns, TwoPasses.TestPatterns(siblings), nodes, recs, index, order, restricted.value);
    return Some(Packages(restricted.value));
  }

  lemma ClosureInside(recs: seq<Listed>, subPackages: seq<string>, index: Index, build: set<nat>)
    requires IsBuildClosure(recs, subPackages, index, build)
    ensures forall i :: i in build ==> i < |recs|
  {
    assert forall i :: i in build ==> Walked(recs, index, IsBare, SubPaths(MainModulePath(recs).value, subPackages), i);
  }

  /** What the records picked are: those reached, and those of the build pass. */
  lemma PickedForBuild(w: World, patterns: seq<string>, nodes: seq<Node>, recs: seq<Listed>,
                       subPackages: seq<string>, overlays: Overlays,
                       index: Index, build: set<nat>, order: seq<nat>, picked: seq<Listed>)
    requires WorldOk(w) && IsTestListing(w, patterns, nodes, recs) && "./..." in patterns && |subPackages| > 0
    requires IsBuildClosure(recs, subPackages, index, build) && Enumerates(order, |recs|, build) && |picked| == |order|
    requires forall k :: 0 <= k < |order| ==> order[k] < |recs| && picked[k] == recs[order[k]]
    ensures OneVersion(Mods(Loaded(RecSet(Packages(picked)), overlays)))
    ensures RecSet(Packages(picked)) == ReachedRecs(recs, subPackages)
    ensures AllExist(w, subPackages) ==>
      RecSet(Packages(picked)) == SingleRecords(w, patterns, RootPaths(w, subPackages))
  {
    PickedListed(w, patterns, nodes, recs, order, picked);
    PickedAreReached(recs, subPackages, index, build, order, picked);
    SomeRecordsOneVersion(w, patterns, RecSet(Packages(picked)), overlays);
    if AllExist(w, subPackages) {
      BuildClosureIsBuildPass(w, patterns, nodes, recs, subPackages, index, build);
      PickedAreSingle(w, patterns, nodes, recs, RootPaths(w, subPackages), build, order, picked);
    }
  }

  /** The build graph, from the records build_closure finds. */
  method SingleBuildGraph(subPackages: seq<string>, siblings: set<string>, overlays: Overlays, recs: seq<Listed>,
                          ghost w: World, ghost nodes: seq<Node>)
    returns (graph: Option<Graph>)
    requires WorldOk(w) && IsTestListing(w, TwoPasses.TestPatterns(siblings), nodes, recs) && |subPackages| > 0
    ensures graph.None?
      <==> NoClosure(recs, subPackages) || BuildGraph(ReachedRecs(recs, subPackages), overlays).Failure?
    ensures graph.Some? ==> BuildGraph(ReachedRecs(recs, subPackages), overlays) == Success(graph.value)
    ensures graph.Some? && AllExist(w, subPackages) ==>
      BuildGraph(SingleRecords(w, TwoPasses.TestPatterns(siblings), RootPaths(w, subPackages)), overlays)
        == Success(graph.value)
  {
    ghost var patterns := TwoPasses.TestPatterns(siblings);
    var build, index := BuildClosure(recs, subPackages);
    if build.None? {
      return None;
    }
    ClosureInside(recs, subPackages, index, build.value);
    var picked, order := Pick(recs, build.value);
    PickedForBuild(w, patterns, nodes, recs, subPackages, overlays, index, build.value, order, picked);
    var built := ClassifyGoPackages(Packages(picked), overlays);
    return if built.Success? then Some(built.value) else None;
  }

  /** The build graph with the test pass merged in, from the narrowed records. */
  method SingleTestPass(g: Graph, siblings: set<string>, overlays: Overlays, recs: seq<Listed>, ghost w: World,
                        ghost nodes: seq<Node>)
    returns (graph: Option<Graph>)
    requires WorldOk(w) && IsTestListing(w, TwoPasses.TestPatterns(siblings), nodes, recs)
      && g.localReplaceModPaths <= siblings
    ensures graph.None? <==>
      (g.localReplaceModPaths != siblings && PathShared(recs, Any)) || TwoPasses.WithTests(w, g, overlays).Failure?
    ensures graph.Some? ==> TwoPasses.WithTests(w, g, overlays) == Success(graph.value)
  {
    var records := TestPassRecords(recs, siblings, g.localReplaceModPaths, w, nodes);
    if records.None? {
      return None;
    }
    var result := TwoPasses.MergeTests(g, overlays, records.value, w);
    return if result.Success? then Some(result.value) else None;
  }

  /** The graph is that of the two passes exactly when the two conditions hold. */
  ghost predicate AgreesIff(w: World, subPackages: seq<string>, siblings: set<string>, overlays: Overlays,
                            graph: Graph) {
    TwoPasses.Resolved(w, subPackages, overlays) == Success(graph)
    <==> AllExist(w, subPackages)
         && MainLikeEmbedsShown(w, TwoPasses.TestPatterns(siblings), RootPaths(w, subPackages))
  }

  lemma SinglePassAgrees(w: World, subPackages: seq<string>, siblings: set<string>, overlays: Overlays, graph: Graph)
    requires WorldOk(w)
    requires AllExist(w, subPackages) ==>
      SingleResolved(w, subPackages, TwoPasses.TestPatterns(siblings), overlays) == Success(graph)
    ensures AgreesIff(w, subPackages, siblings, overlays, graph)
  {
    if AllExist(w, subPackages) {
      SingleResolvedAgrees(w, subPackages, TwoPasses.TestPatterns(siblings), overlays, graph);
    }
  }

  /** The subPackages the single pass takes: at least one, each written as `.` or `./dir`. */
  predicate ArePlain(subPackages: seq<string>) {
    |subPackages| > 0 && forall k :: 0 <= k < |subPackages| ==> IsPlainSubPackage(subPackages[k])
  }

  /** Where the test pass declines: a sibling go.mod does not name, a path shared, or an error. */
  ghost predicate TestsDecline(w: World, siblings: set<string>, overlays: Overlays, recs: seq<Listed>, g: Graph) {
    || !(g.localReplaceModPaths <= siblings)
    || (g.localReplaceModPaths != siblings && PathShared(recs, Any))
    || TwoPasses.WithTests(w, g, overlays).Failure?
  }

  /** All that makes the single pass decline, so that the two passes have to serve. */
  ghost predicate Declines(w: World, subPackages: seq<string>, siblings: set<string>, overlays: Overlays,
                           recs: seq<Listed>) {
    || !ArePlain(subPackages)
    || NoClosure(recs, subPackages)
    || match BuildGraph(ReachedRecs(recs, subPackages), overlays)
       case Failure(_) => true
       case Success(g) => g.locals != {} && TestsDecline(w, siblings, overlays, recs, g)
  }

  /** From the build graph on: done, if it has no local package, else with the test pass. */
  method FinishSingle(g: Graph, siblings: set<string>, overlays: Overlays, recs: seq<Listed>, ghost w: World,
                      ghost nodes: seq<Node>)
    returns (graph: Option<Graph>)
    requires WorldOk(w) && IsTestListing(w, TwoPasses.TestPatterns(siblings), nodes, recs)
    ensures graph.None? <==> g.locals != {} && TestsDecline(w, siblings, overlays, recs, g)
    ensures graph.Some? ==> TwoPasses.Finished(w, Success(g), overlays) == Success(graph.value)
  {
    if g.locals == {} {
      return Some(g);
    }
    if !(g.localReplaceModPaths <= siblings) {
      return None;
    }
    graph := SingleTestPass(g, siblings, overlays, recs, w, nodes);
  }

  /**
    resolve_single_pass, on the records of its one go list over `./...` and the siblings of go.mod.
    It declines for the reasons listed and for no other. A graph it returns is that of the two
    passes exactly when every subPackage names a package, and no package of the build graph with a
    path like a test main's has files only its tests embed.
   */
  method ResolveSinglePass(subPackages: seq<string>, siblings: set<string>, overlays: Overlays, recs: seq<Listed>,
                           ghost w: World, ghost nodes: seq<Node>)
    returns (graph: Option<Graph>)
    requires WorldOk(w) && IsTestListing(w, TwoPasses.TestPatterns(siblings), nodes, recs)
    ensures graph.None? <==> Declines(w, subPackages, siblings, overlays, recs)
    ensures graph.Some? ==> AgreesIff(w, subPackages, siblings, overlays, graph.value)
  {
    if !ArePlain(subPackages) {
      return None;
    }
    var built := SingleBuildGraph(subPackages, siblings, overlays, recs, w, nodes);
    if built.None? {
      return None;
    }
    graph := FinishSingle(built.value, siblings, overlays, recs, w, nodes);
    if graph.Some? {
      SinglePassAgrees(w, subPackages, siblings, overlays, graph.value);
    }
  }

  /**
    resolve_packages with do_check: the single pass, and the two passes where it does not serve.
    `listing` is the output of the one command, None when it fails.
   */
  method ResolvePackages(subPackages: seq<string>, siblings: set<string>, overlays: Overlays,
                         listing: Option<seq<Listed>>,
                         buildOut: Option<seq<Rec>>, listTests: seq<string> -> Option<seq<Rec>>, ghost w: World,
                           ghost nodes: seq<Node>)
    returns (result: Result<Graph, set<string>>)
    requires WorldOk(w)
    requires listing.Some? ==> IsTestListing(w, TwoPasses.TestPatterns(siblings), nodes, listing.value)
    requires TwoPasses.ListsBuild(w, subPackages, buildOut)
    requires forall patterns :: TwoPasses.ListsTests(w, patterns, listTests(patterns))
    ensures AllExist(w, subPackages) ==>
      MainLikeEmbedsShown(w, TwoPasses.TestPatterns(siblings), RootPaths(w, subPackages)) ==>
      result == TwoPasses.Resolved(w, subPackages, overlays)
      || (result == Failure({}) && (buildOut.None? || TwoPasses.TestRunFails(w, subPackages, overlays, listTests)))
  {
    if listing.Some? {
      var graph := ResolveSinglePass(subPackages, siblings, overlays, listing.value, w, nodes);
      if graph.Some? {
        return Success(graph.value);
      }
    }
    result := TwoPasses.ResolveTwoPasses(subPackages, overlays, buildOut, listTests, w);
  }
}
