/**
  The records of `go list -deps -test` over one module are coherent, so what
  packages/go2nix-nix-plugin/rust/src/resolve.rs collects from them depends on their set only.
 */
module CoherentListings {
  import opened Graphs
  import opened GoListing
  import opened ClosureProofs
  import opened Classify
  import opened ClassifyTests
  import opened TestSets

  lemma ListingAsSet(w: World, patterns: seq<string>, nodes: seq<Node>, recs: seq<Rec>)
    requires ListsPackages(w, patterns, nodes, recs)
    ensures RecSet(recs) == TestRecords(w, patterns)
  {
    forall r | r in RecSet(recs)
      ensures r in TestRecords(w, patterns)
    {
      var i :| 0 <= i < |recs| && recs[i] == r;
      assert NodeListed(w, patterns, nodes[i]);
    }
    forall n | NodeListed(w, patterns, n)
      ensures View(w, patterns, NodeRec(w, n)) in RecSet(recs)
    {
      assert n in nodes;
      var i :| 0 <= i < |nodes| && nodes[i] == n;
      assert recs[i] in recs;
    }
    forall p | p in w.pkgs && InTestListing(w, patterns, p)
      ensures View(w, patterns, w.pkgs[p]) in RecSet(recs)
    {
      assert NodeListed(w, patterns, Pkg(p));
    }
    forall x | x in w.mains && x in Tested(w, patterns)
      ensures View(w, patterns, w.mains[x]) in RecSet(recs)
    {
      assert NodeListed(w, patterns, Main(x));
    }
  }

  /** A test main is not read by the test classifier. */
  lemma MainNotRead(w: World, patterns: seq<string>, c: Context, x: string)
    requires WalkOk(w) && x in w.mains
    ensures !IsRead(c, View(w, patterns, w.mains[x]))
  {
    MainIsBare(w, x);
    assert EndsWith(TestMain(x), ".test");
  }

  lemma ReadIsPkg(w: World, patterns: seq<string>, c: Context, r: Rec) returns (p: string)
    requires WalkOk(w) && r in TestRecords(w, patterns) && IsRead(c, r)
    ensures p in w.pkgs && InTestListing(w, patterns, p) && r == View(w, patterns, w.pkgs[p])
  {
    forall x | x in w.mains
      ensures View(w, patterns, w.mains[x]) != r
    {
      MainNotRead(w, patterns, c, x);
    }
    p :| p in w.pkgs && InTestListing(w, patterns, p) && r == View(w, patterns, w.pkgs[p]);
  }

  lemma ViewsAgree(w: World, patterns: seq<string>, q: Rec, r: Rec)
    requires SamePackage(q, r)
    ensures SamePackage(View(w, patterns, q), View(w, patterns, r))
  {
    assert forall x :: WithoutTestEmbeds(Normal(WithoutTestEmbeds(x))) == WithoutTestEmbeds(Normal(x));
  }

  /** Two records read are of one package when their paths say so, and of one module version. */
  ghost predicate PairOk(c: Context, q: Rec, r: Rec) {
    && (Strip(q.path) == Strip(r.path) ==> SamePackage(q, r))
    && (q.mod.Some? && r.mod.Some? && q.mod.value.path == r.mod.value.path ==> q.mod == r.mod)
    && (IsImporter(c, q) && IsImporter(c, r) && Strip(q.path) == Strip(r.path) ==> q == r)
  }

  lemma PkgPair(w: World, patterns: seq<string>, c: Context, a: string, b: string)
    requires WorldOk(w) && a in w.pkgs && b in w.pkgs
    requires IsRead(c, View(w, patterns, w.pkgs[a])) && IsRead(c, View(w, patterns, w.pkgs[b]))
    ensures PairOk(c, View(w, patterns, w.pkgs[a]), View(w, patterns, w.pkgs[b]))
  {
    var q, r := View(w, patterns, w.pkgs[a]), View(w, patterns, w.pkgs[b]);
    assert IsSelfTest(q) == IsSelfTest(w.pkgs[a]) && IsSelfTest(r) == IsSelfTest(w.pkgs[b]);
    if Strip(a) == Strip(b) {
      ViewsAgree(w, patterns, w.pkgs[a], w.pkgs[b]);
    }
  }

  lemma ReadPair(w: World, patterns: seq<string>, c: Context, q: Rec, r: Rec)
    requires WorldOk(w) && q in TestRecords(w, patterns) && r in TestRecords(w, patterns) && IsRead(c, q)
      && IsRead(c, r)
    ensures PairOk(c, q, r)
  {
    var a := ReadIsPkg(w, patterns, c, q);
    var b := ReadIsPkg(w, patterns, c, r);
    PkgPair(w, patterns, c, a, b);
  }

  lemma PairsAgree(c: Context, s: set<Rec>)
    requires forall q, r :: q in s && r in s && IsRead(c, q) && IsRead(c, r) ==> PairOk(c, q, r)
    ensures OnePackage(c, s) && OneImporter(c, s)
  {
    forall q, r | q in s && r in s && IsRead(c, q) && IsRead(c, r)
      ensures Strip(q.path) == Strip(r.path) ==> SamePackage(q, r)
      ensures q.mod.value.path == r.mod.value.path ==> q.mod == r.mod
      ensures IsImporter(c, q) && IsImporter(c, r) && Strip(q.path) == Strip(r.path) ==> q == r
    {
      assert PairOk(c, q, r);
    }
  }

  // ---- The test embeds a record shows ----

  lemma {:induction false} StripTwice(path: string)
    ensures Strip(Strip(path)) == Strip(path)
  {
    if |path| > 0 && !(|path| > 1 && path[0] == ' ' && path[1] == '[') {
      StripTwice(path[1..]);
      var t := Strip(path[1..]);
      assert Strip(path) == [path[0]] + t && ([path[0]] + t)[1..] == t;
      assert |t| > 0 ==> t[0] == path[1];
    }
  }

  /** The owner differs from the package in an external test only. */
  lemma OwnerOfPackage(w: World, a: string)
    requires PathsOk(w) && a in w.pkgs && !IsSelfTest(w.pkgs[a])
    ensures Owner(w.pkgs[a]) == Strip(a)
  {
    var r, bare := w.pkgs[a], Strip(a);
    assert EndsWith(bare, "_test") ==> bare == bare[..|bare| - 5] + "_test";
    assert r.forTest == "" ==> r.forTest + "_test" == "_test" && bare == a;
  }

  /** A copy made early is read only if its package is. */
  lemma EarlyCopyRead(w: World, patterns: seq<string>, c: Context, a: string)
    requires WorldOk(w) && a in w.pkgs && Strip(a) in w.pkgs && CopiedEarly(w.pkgs[a], w.pkgs[Strip(a)])
    requires IsRead(c, View(w, patterns, w.pkgs[a]))
    ensures IsRead(c, View(w, patterns, w.pkgs[Strip(a)])) && w.pkgs[a].mod == w.pkgs[Strip(a)].mod
  {
    var p := Strip(a);
    StripTwice(a);
    assert !IsSelfTest(w.pkgs[a]) by {
      assert IsSelfTest(View(w, patterns, w.pkgs[a])) == IsSelfTest(w.pkgs[a]);
    }
    assert !IsSelfTest(w.pkgs[p]);
    OwnerOfPackage(w, a);
    OwnerOfPackage(w, p);
    SameParts(w.pkgs[a], w.pkgs[p]);
  }

  /** What a record read shows of test embeds: those of a match, unless it is a copy made early. */
  lemma EmbedsShown(w: World, patterns: seq<string>, c: Context, a: string)
    requires WorldOk(w) && a in w.pkgs && IsRead(c, View(w, patterns, w.pkgs[a]))
    ensures var r, p := View(w, patterns, w.pkgs[a]), Strip(a);
      if p !in Matched(w, patterns) then r.testEmbeds == [] && r.xtestEmbeds == []
      else SameTestEmbeds(r, w.pkgs[p]) || CopiedEarly(w.pkgs[a], w.pkgs[p])
  {
    assert IsSelfTest(View(w, patterns, w.pkgs[a])) == IsSelfTest(w.pkgs[a]);
  }

  lemma MatchListed(w: World, patterns: seq<string>, p: string)
    requires p in Matched(w, patterns)
    ensures NodeListed(w, patterns, Pkg(p)) && View(w, patterns, w.pkgs[p]) in TestRecords(w, patterns)
  {
    RootReached(PkgEdges(w), TestRoots(w, patterns), p);
    assert InTestListing(w, patterns, p);
  }

  lemma EmbeddersAgree(w: World, patterns: seq<string>, c: Context, q: Rec, r: Rec)
    requires WorldOk(w) && q in TestRecords(w, patterns) && r in TestRecords(w, patterns)
    requires IsRead(c, q) && IsRead(c, r) && Strip(q.path) == Strip(r.path)
    ensures HasTestEmbeds(q) && HasTestEmbeds(r) ==> SameTestEmbeds(q, r)
    ensures Stands(c, TestRecords(w, patterns), q) && Stands(c, TestRecords(w, patterns), r) ==> SameTestEmbeds(q, r)
  {
    var s := TestRecords(w, patterns);
    var a := ReadIsPkg(w, patterns, c, q);
    var b := ReadIsPkg(w, patterns, c, r);
    EmbedsShown(w, patterns, c, a);
    EmbedsShown(w, patterns, c, b);
    if Stands(c, s, q) && Stands(c, s, r) {
      EarlyCopyStands(w, patterns, c, a);
      EarlyCopyStands(w, patterns, c, b);
    }
  }

  /** A copy made early does not stand for its package: the package is there. */
  lemma EarlyCopyStands(w: World, patterns: seq<string>, c: Context, a: string)
    requires WorldOk(w) && a in w.pkgs && Stands(c, TestRecords(w, patterns), View(w, patterns, w.pkgs[a]))
    ensures Strip(a) in Matched(w, patterns) ==> SameTestEmbeds(View(w, patterns, w.pkgs[a]), w.pkgs[Strip(a)])
  {
    var p := Strip(a);
    if p in Matched(w, patterns) {
      EmbedsShown(w, patterns, c, a);
      if CopiedEarly(w.pkgs[a], w.pkgs[p]) {
        EarlyCopyRead(w, patterns, c, a);
        MatchListed(w, patterns, p);
        var m := View(w, patterns, w.pkgs[p]);
        assert m in TestRecords(w, patterns) && IsNewLocal(c, m) && m.forTest == "" && Strip(m.path) == p;
        assert View(w, patterns, w.pkgs[a]).forTest == "";
      }
    }
  }

  lemma TestRecordsCoherent(w: World, patterns: seq<string>, c: Context)
    requires WorldOk(w)
    ensures Coherent(c, TestRecords(w, patterns))
  {
    var s := TestRecords(w, patterns);
    forall q, r | q in s && r in s && IsRead(c, q) && IsRead(c, r)
      ensures PairOk(c, q, r)
      ensures Strip(q.path) == Strip(r.path) ==>
        && (HasTestEmbeds(q) && HasTestEmbeds(r) ==> SameTestEmbeds(q, r))
        && (Stands(c, s, q) && Stands(c, s, r) ==> SameTestEmbeds(q, r))
    {
      ReadPair(w, patterns, c, q, r);
      if Strip(q.path) == Strip(r.path) {
        EmbeddersAgree(w, patterns, c, q, r);
      }
    }
    PairsAgree(c, s);
  }

  // ---- And a match is met before a copy of it that lacks its test embeds ----

  lemma ReadNode(w: World, patterns: seq<string>, nodes: seq<Node>, recs: seq<Rec>, c: Context, i: nat)
    requires WorldOk(w) && ListsPackages(w, patterns, nodes, recs) && i < |recs| && IsRead(c, recs[i])
    ensures nodes[i].Pkg? && nodes[i].path in w.pkgs && recs[i] == View(w, patterns, w.pkgs[nodes[i].path])
    ensures recs[i].path == nodes[i].path
  {
    assert NodeListed(w, patterns, nodes[i]);
    if nodes[i].Main? {
      MainNotRead(w, patterns, c, nodes[i].of);
    }
  }

  /** Where a match is printed: not behind a record of its path. */
  lemma MatchPlace(w: World, patterns: seq<string>, nodes: seq<Node>, recs: seq<Rec>, i: nat, p: string)
    returns (k: nat)
    requires ListsPackages(w, patterns, nodes, recs) && i < |nodes| && p in Matched(w, patterns)
    requires nodes[i].Pkg? && Strip(nodes[i].path) == p
    ensures k <= i && recs[k] == View(w, patterns, w.pkgs[p])
  {
    MatchListed(w, patterns, p);
    assert Pkg(p) in nodes;
    k :| 0 <= k < |nodes| && nodes[k] == Pkg(p);
  }

  lemma MatchMet(w: World, patterns: seq<string>, nodes: seq<Node>, recs: seq<Rec>, c: Context, i: nat, p: string)
    requires WorldOk(w) && ListsPackages(w, patterns, nodes, recs) && i < |recs|
    requires IsNewLocal(c, recs[i]) && Strip(recs[i].path) == p && p in Matched(w, patterns)
    requires IsNewLocal(c, View(w, patterns, w.pkgs[p]))
    ensures PackageMet(c, recs, i, p)
  {
    ReadNode(w, patterns, nodes, recs, c, i);
    var k := MatchPlace(w, patterns, nodes, recs, i, p);
    assert recs[k].path == p && Strip(p) == p && recs[k].forTest == "";
  }

  lemma MatchedFirst(w: World, patterns: seq<string>, nodes: seq<Node>, recs: seq<Rec>, c: Context, i: nat, j: nat)
    requires WorldOk(w) && ListsPackages(w, patterns, nodes, recs) && i < j < |recs|
    requires IsNewLocal(c, recs[i]) && IsNewLocal(c, recs[j]) && Strip(recs[i].path) == Strip(recs[j].path)
    ensures SameTestEmbeds(recs[i], recs[j]) || PackageMet(c, recs, i, Strip(recs[i].path))
  {
    var p := Strip(recs[i].path);
    ReadNode(w, patterns, nodes, recs, c, i);
    ReadNode(w, patterns, nodes, recs, c, j);
    EmbedsShown(w, patterns, c, nodes[i].path);
    EmbedsShown(w, patterns, c, nodes[j].path);
    if !SameTestEmbeds(recs[i], recs[j]) {
      var early := if CopiedEarly(w.pkgs[nodes[i].path], w.pkgs[p]) then nodes[i].path else nodes[j].path;
      EarlyCopyRead(w, patterns, c, early);
      assert IsNewLocal(c, View(w, patterns, w.pkgs[p]));
      MatchMet(w, patterns, nodes, recs, c, i, p);
    }
  }

  /** Whatever order go list prints its records in. */
  lemma ListingCoherent(w: World, patterns: seq<string>, nodes: seq<Node>, recs: seq<Rec>, c: Context)
    requires WorldOk(w) && ListsPackages(w, patterns, nodes, recs)
    ensures CoherentList(c, recs) && RecSet(recs) == TestRecords(w, patterns)
  {
    ListingAsSet(w, patterns, nodes, recs);
    TestRecordsCoherent(w, patterns, c);
    forall i, j | 0 <= i < j < |recs| && IsNewLocal(c, recs[i]) && IsNewLocal(c, recs[j])
      && Strip(recs[i].path) == Strip(recs[j].path)
      ensures SameTestEmbeds(recs[i], recs[j]) || PackageMet(c, recs, i, Strip(recs[i].path))
    {
      MatchedFirst(w, patterns, nodes, recs, c, i, j);
    }
  }
}
