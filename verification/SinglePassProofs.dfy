/**
  The build graph found among the records of go list -deps -test, and the one of go list -deps: the
  first knows the test embeds of its local packages, to which the test pass adds them anyway.
 */
module SinglePassProofs {
  import opened Wrappers
  import opened Graphs
  import Ordering
  import opened Maps
  import opened GoListing
  import opened ClosureProofs
  import opened RestrictProofs
  import opened Classify
  import opened ClassifyTests
  import opened TestSets
  import opened CoherentListings
  import opened TestReach
  import TwoPasses

  // ---- The build records, with and without the test embeds of matches ----

  /** The records build_closure finds among those listed for the patterns. */
  ghost function SingleRecords(w: World, patterns: seq<string>, roots: set<string>): set<Rec> {
    set p | p in BuildPaths(w, roots) :: View(w, patterns, w.pkgs[p])
  }

  /** A record and the same without what only tests embed: all that the build classifier sees alike. */
  ghost predicate Alike(q: Rec, r: Rec) {
    q == r || WithoutTestEmbeds(q) == r || q == WithoutTestEmbeds(r)
  }

  lemma AlikeRecords(q: Rec, r: Rec, overlays: Overlays)
    requires Alike(q, r)
    ensures q.path == r.path && q.mod == r.mod && q.error == r.error
    ensures IsAccepted(q, overlays) == IsAccepted(r, overlays)
    ensures q.mod.Some? ==> PkgOf(q, q.mod.value) == PkgOf(r, r.mod.value)
  {
  }

  ghost predicate HasAlike(s: set<Rec>, r: Rec) {
    exists q :: q in s && Alike(r, q)
  }

  ghost predicate AllHaveAlike(s: set<Rec>, t: set<Rec>) {
    forall r :: r in s ==> HasAlike(t, r)
  }

  ghost predicate AlikeSets(s: set<Rec>, t: set<Rec>) {
    AllHaveAlike(s, t) && AllHaveAlike(t, s)
  }

  lemma AlikeLoaded(s: set<Rec>, t: set<Rec>, overlays: Overlays)
    requires AlikeSets(s, t)
    ensures AlikeSets(Loaded(s, overlays), Loaded(t, overlays))
    ensures Failing(s, overlays) == Failing(t, overlays)
  {
    HalfLoaded(s, t, overlays);
    HalfLoaded(t, s, overlays);
  }

  lemma HalfLoaded(s: set<Rec>, t: set<Rec>, overlays: Overlays)
    requires AllHaveAlike(s, t)
    ensures AllHaveAlike(Loaded(s, overlays), Loaded(t, overlays))
    ensures Failing(s, overlays) <= Failing(t, overlays)
  {
    forall r | r in s
      ensures r in Loaded(s, overlays) ==> HasAlike(Loaded(t, overlays), r)
      ensures !IsAccepted(r, overlays) ==> r.path in Failing(t, overlays)
    {
      assert HasAlike(t, r);
      var q :| q in t && Alike(r, q);
      AlikeRecords(r, q, overlays);
    }
  }

  lemma HalfSame(s: set<Rec>, t: set<Rec>)
    requires AllHaveAlike(s, t)
    ensures Mods(s) <= Mods(t) && Paths(LocalRecs(s)) <= Paths(LocalRecs(t))
      && Paths(ThirdRecs(s)) <= Paths(ThirdRecs(t))
    ensures Pkgs(s) <= Pkgs(t)
  {
    forall r | r in s
      ensures exists q ::
        q in t && r.path == q.path && r.mod == q.mod && (r.mod.Some? ==> PkgOf(r, r.mod.value) == PkgOf(q, q.mod.value))
    {
      assert HasAlike(t, r);
      var q :| q in t && Alike(r, q);
      AlikeRecords(r, q, map[]);
    }
  }

  lemma AlikeParts(s: set<Rec>, t: set<Rec>)
    requires AlikeSets(s, t)
    ensures Mods(s) == Mods(t) && Pkgs(s) == Pkgs(t)
    ensures Paths(LocalRecs(s)) == Paths(LocalRecs(t)) && Paths(ThirdRecs(s)) == Paths(ThirdRecs(t))
  {
    HalfSame(s, t);
    HalfSame(t, s);
  }

  /** The two build graphs differ in their local packages only. */
  lemma AlikeGraphs(s: set<Rec>, t: set<Rec>, overlays: Overlays)
    requires AlikeSets(s, t)
    ensures BuildGraph(s, overlays).Success? <==> BuildGraph(t, overlays).Success?
    ensures BuildGraph(s, overlays).Success? ==>
      BuildGraph(s, overlays).value == BuildGraph(t, overlays).value.(locals := BuildGraph(s, overlays).value.locals)
  {
    AlikeLoaded(s, t, overlays);
    AlikeParts(Loaded(s, overlays), Loaded(t, overlays));
  }

  lemma SingleAlike(w: World, patterns: seq<string>, roots: set<string>)
    ensures AlikeSets(SingleRecords(w, patterns, roots), BuildRecords(w, roots))
  {
    forall r | r in SingleRecords(w, patterns, roots)
      ensures HasAlike(BuildRecords(w, roots), r)
    {
      var p :| p in BuildPaths(w, roots) && r == View(w, patterns, w.pkgs[p]);
      assert WithoutTestEmbeds(w.pkgs[p]) in BuildRecords(w, roots);
    }
    forall r | r in BuildRecords(w, roots)
      ensures HasAlike(SingleRecords(w, patterns, roots), r)
    {
      var p :| p in w.pkgs && InBuildListing(w, roots, p) && r == WithoutTestEmbeds(w.pkgs[p]);
      assert p in BuildPaths(w, roots);
      assert View(w, patterns, w.pkgs[p]) in SingleRecords(w, patterns, roots);
    }
  }

  // ---- What the test pass adds to the files of a build-graph package ----

  function Extra(files: map<string, seq<string>>, path: string): set<string> {
    if path in files then ToSet(files[path]) else {}
  }

  lemma {:induction false} SiblingHasPattern(mods: seq<string>, m: string)
    requires m in mods
    ensures m + "/..." in TwoPasses.SiblingPatterns(mods)
  {
    var n := |mods| - 1;
    assert mods == mods[..n] + [mods[n]];
    if m != mods[n] {
      SiblingHasPattern(mods[..n], m);
    }
  }

  lemma {:induction false} PatternsAreSiblings(mods: seq<string>, pattern: string)
    requires pattern in TwoPasses.SiblingPatterns(mods)
    ensures exists m :: m in mods && pattern == m + "/..."
  {
    var n := |mods| - 1;
    assert mods == mods[..n] + [mods[n]];
    if pattern in TwoPasses.SiblingPatterns(mods[..n]) {
      PatternsAreSiblings(mods[..n], pattern);
      var m :| m in mods[..n] && pattern == m + "/...";
      assert m in mods;
    } else {
      assert mods[n] in mods;
    }
  }

  lemma FewerSiblings(few: set<string>, many: set<string>)
    requires few <= many
    ensures Fewer(TwoPasses.TestPatterns(few), TwoPasses.TestPatterns(many))
  {
    forall p | p in TwoPasses.TestPatterns(few)
      ensures p in TwoPasses.TestPatterns(many)
    {
      if p in TwoPasses.SiblingPatterns(Ordering.Sorted(few)) {
        PatternsAreSiblings(Ordering.Sorted(few), p);
        var m :| m in Ordering.Sorted(few) && p == m + "/...";
        SiblingHasPattern(Ordering.Sorted(many), m);
      }
    }
  }

  lemma SiblingPatternMatches(r: Rec, m: string)
    requires Below(r.path, m) && m != "."
    ensures PatternMatches(r, m + "/...")
  {
    var pattern := m + "/...";
    assert pattern[|pattern| - 4..] == "/..." && pattern[..|pattern| - 4] == m;
    assert "./..."[..1] == ".";
  }

  ghost predicate OwnModuleListed(r: Rec, siblings: set<string>) {
    r.mod.Some? && (r.mod.value.main || r.mod.value.path in siblings)
  }

  /** A local package the wider listing matches is matched by the pattern of its own module. */
  lemma MatchedByOwnModule(w: World, patterns: seq<string>, siblings: set<string>, p: string)
    requires ModulesAgree(w) && p in Matched(w, patterns) && w.pkgs[p].path == p && OwnModuleListed(w.pkgs[p], siblings)
    ensures p in Matched(w, TwoPasses.TestPatterns(siblings))
  {
    var m := w.pkgs[p].mod.value;
    var own := if m.main then "./..." else m.path + "/...";
    if !m.main {
      ModuleHolds(w, p);
      SiblingPatternMatches(w.pkgs[p], m.path);
      SiblingHasPattern(Ordering.Sorted(siblings), m.path);
    }
    MatchesOne(w, own, p);
    assert own in TwoPasses.TestPatterns(siblings);
    MatchesSome(w, TwoPasses.TestPatterns(siblings), p);
  }

  lemma ModuleHolds(w: World, p: string)
    requires ModulesAgree(w) && p in w.pkgs && IsBare(w.pkgs[p]) && w.pkgs[p].mod.Some?
    ensures Below(p, w.pkgs[p].mod.value.path) && w.pkgs[p].mod.value.path != "."
  {
  }

  /** The test embeds of a match of the build graph are among the files the test pass adds. */
  lemma MatchEmbedsAdded(w: World, few: seq<string>, c: Context, r: Rec)
    requires WorldOk(w) && r.path in w.pkgs && r == w.pkgs[r.path] && r.path in Matched(w, few)
    requires Fatal(c, TestRecords(w, few)) == {} && r.path in c.local && !EndsWith(r.path, ".test")
    requires r.mod.Some? && IsLocal(r.mod.value) && HasTestEmbeds(r)
    ensures var files := MapOf(EmbedPairs(c, TestRecords(w, few)));
      r.path in files && files[r.path] == r.testEmbeds + r.xtestEmbeds
  {
    var s := TestRecords(w, few);
    RootReached(PkgEdges(w), TestRoots(w, few), r.path);
    assert View(w, few, r) == r && r in s;
    assert IsFatal(c, r) ==> r.path in Fatal(c, s);
    assert IsEmbedder(c, r);
    TestRecordsCoherent(w, few, c);
    EmbedsFunctional(c, s);
    var pair := (Strip(r.path), r.testEmbeds + r.xtestEmbeds);
    assert pair in EmbedPairs(c, s);
    MapHolds(EmbedPairs(c, s), pair);
  }

  /** The test pass adds nothing under a path like a test main's. */
  lemma MainLikeEmbedsDropped(c: Context, s: set<Rec>, path: string)
    requires EndsWith(path, ".test")
    ensures path !in MapOf(EmbedPairs(c, s))
  {
  }

  // ---- The local packages after the merge ----

  ghost function Merged(r: Rec, g: Graph, tp: TestPass): LocalPkg
    requires r.mod.Some?
  {
    MergedLocal(LocalOf(RawOf(r, r.mod.value), g.localPaths, g.thirdPartyPaths, r.error == MissingEmbed), tp)
  }

  lemma MergedParts(r: Rec, g: Graph, tp: TestPass)
    requires r.mod.Some?
    ensures Merged(r, g, tp).raw.path == r.path
    ensures Merged(r, g, tp).raw.mainSrcFiles == MainSrcFiles(r) + Extra(tp.embedFiles, r.path)
  {
  }

  /** The merged package is the same without what only tests embed, if those files are there anyway. */
  lemma MergedAlike(r: Rec, g: Graph, tp: TestPass)
    requires r.mod.Some?
    ensures Merged(r, g, tp) == Merged(WithoutTestEmbeds(r), g, tp)
      <==> TestEmbeds(r) <= BuildSrcFiles(r) + Extra(tp.embedFiles, r.path)
  {
    var q := WithoutTestEmbeds(r);
    MergedParts(r, g, tp);
    MergedParts(q, g, tp);
    assert BuildSrcFiles(q) == BuildSrcFiles(r) && TestEmbeds(q) == {};
    var raw := RawOf(r, r.mod.value);
    assert RawOf(q, q.mod.value) == raw.(mainSrcFiles := MainSrcFiles(q));
    if TestEmbeds(r) <= BuildSrcFiles(r) + Extra(tp.embedFiles, r.path) {
      assert MainSrcFiles(r) + Extra(tp.embedFiles, r.path) == MainSrcFiles(q) + Extra(tp.embedFiles, r.path);
    }
  }

  ghost function MergedSet(s: set<Rec>, g: Graph, tp: TestPass): set<LocalPkg> {
    set r | r in LocalRecs(s) :: Merged(r, g, tp)
  }

  lemma MergedLocalsAre(s: set<Rec>, overlays: Overlays, g: Graph, tp: TestPass)
    requires BuildGraph(s, overlays) == Success(g)
    ensures MergeTestPass(g, tp).locals == MergedSet(s, g, tp)
  {
    var k := Loaded(s, overlays);
    forall r | r in s
      ensures IsAccepted(r, overlays)
    {
      assert !IsAccepted(r, overlays) ==> r.path in Failing(s, overlays);
    }
    assert LocalRecs(k) == LocalRecs(s);
    forall lp | lp in g.locals
      ensures MergedLocal(lp, tp) in MergedSet(s, g, tp)
    {
      var x :| x in Raws(k) && lp == LocalOf(x.raw, g.localPaths, g.thirdPartyPaths, x.unresolved);
      var r :| r in LocalRecs(k) && x == Sorted(RawOf(r, r.mod.value), r.error == MissingEmbed);
      assert Merged(r, g, tp) == MergedLocal(lp, tp);
    }
    forall r | r in LocalRecs(s)
      ensures Merged(r, g, tp) in MergeTestPass(g, tp).locals
    {
      var x := Sorted(RawOf(r, r.mod.value), r.error == MissingEmbed);
      assert x in Raws(k);
      var lp := LocalOf(x.raw, g.localPaths, g.thirdPartyPaths, x.unresolved);
      assert lp in g.locals;
    }
  }

  predicate IsLocalPkg(w: World, p: string) {
    p in w.pkgs && w.pkgs[p].mod.Some? && IsLocal(w.pkgs[p].mod.value)
  }

  /** Each local package's test embeds, as the listing shows them, are among its files after the merge. */
  ghost predicate EmbedsCovered(w: World, patterns: seq<string>, roots: set<string>, tp: TestPass) {
    forall p :: p in BuildPaths(w, roots) && IsLocalPkg(w, p) ==>
      TestEmbeds(View(w, patterns, w.pkgs[p])) <= BuildSrcFiles(w.pkgs[p]) + Extra(tp.embedFiles, p)
  }

  lemma ViewMerged(w: World, patterns: seq<string>, p: string, g: Graph, tp: TestPass)
    requires IsLocalPkg(w, p) && w.pkgs[p].path == p
    ensures Merged(View(w, patterns, w.pkgs[p]), g, tp) == Merged(WithoutTestEmbeds(w.pkgs[p]), g, tp)
      <==> TestEmbeds(View(w, patterns, w.pkgs[p])) <= BuildSrcFiles(w.pkgs[p]) + Extra(tp.embedFiles, p)
  {
    var v := View(w, patterns, w.pkgs[p]);
    assert WithoutTestEmbeds(v) == WithoutTestEmbeds(w.pkgs[p]) && BuildSrcFiles(v) == BuildSrcFiles(w.pkgs[p]);
    MergedAlike(v, g, tp);
  }

  /** The merged local packages of the two ways are the same exactly when all test embeds are covered. */
  lemma MergedSame(w: World, patterns: seq<string>, roots: set<string>, g: Graph, tp: TestPass)
    requires PathsOk(w)
    ensures MergedSet(SingleRecords(w, patterns, roots), g, tp) == MergedSet(BuildRecords(w, roots), g, tp)
      <==> EmbedsCovered(w, patterns, roots, tp)
  {
    var single, two := MergedSet(SingleRecords(w, patterns, roots), g, tp), MergedSet(BuildRecords(w, roots), g, tp);
    MergedElements(w, patterns, roots, g, tp);
    if single == two {
      forall p | p in BuildPaths(w, roots) && IsLocalPkg(w, p)
        ensures TestEmbeds(View(w, patterns, w.pkgs[p])) <= BuildSrcFiles(w.pkgs[p]) + Extra(tp.embedFiles, p)
      {
        var mine := Merged(View(w, patterns, w.pkgs[p]), g, tp);
        assert mine in two;
        var q :| q in BuildPaths(w, roots) && IsLocalPkg(w, q) && mine == Merged(WithoutTestEmbeds(w.pkgs[q]), g, tp);
        MergedParts(View(w, patterns, w.pkgs[p]), g, tp);
        MergedParts(WithoutTestEmbeds(w.pkgs[q]), g, tp);
        ViewMerged(w, patterns, p, g, tp);
      }
    }
    if EmbedsCovered(w, patterns, roots, tp) {
      forall p | p in BuildPaths(w, roots) && IsLocalPkg(w, p)
        ensures Merged(View(w, patterns, w.pkgs[p]), g, tp) == Merged(WithoutTestEmbeds(w.pkgs[p]), g, tp)
      {
        ViewMerged(w, patterns, p, g, tp);
      }
    }
  }

  lemma MergedElements(w: World, patterns: seq<string>, roots: set<string>, g: Graph, tp: TestPass)
    ensures forall lp :: lp in MergedSet(SingleRecords(w, patterns, roots), g, tp) <==>
      exists p :: p in BuildPaths(w, roots) && IsLocalPkg(w, p) && lp == Merged(View(w, patterns, w.pkgs[p]), g, tp)
    ensures forall lp :: lp in MergedSet(BuildRecords(w, roots), g, tp) <==>
      exists p :: p in BuildPaths(w, roots) && IsLocalPkg(w, p) && lp == Merged(WithoutTestEmbeds(w.pkgs[p]), g, tp)
  {
  }
}
