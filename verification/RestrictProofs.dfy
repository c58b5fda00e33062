/** restrict_to_patterns turns the listing of more patterns into the listing of fewer. */
module RestrictProofs {
  import opened Graphs
  import opened GoListing
  import opened Closures
  import opened ClosureProofs

  ghost predicate Fewer(few: seq<string>, many: seq<string>) {
    forall p :: p in few ==> p in many
  }

  lemma MatchesOne(w: World, pattern: string, path: string)
    ensures path in Matched(w, [pattern]) <==>
      path in w.pkgs && IsBare(w.pkgs[path]) && path !in w.hidden && PatternMatches(w.pkgs[path], pattern)
  {
    if path in w.pkgs && IsBare(w.pkgs[path]) && path !in w.hidden && PatternMatches(w.pkgs[path], pattern) {
      assert PatternMatches(w.pkgs[path], [pattern][0]);
    }
  }

  lemma MatchesSome(w: World, patterns: seq<string>, path: string)
    ensures path in Matched(w, patterns) <==> exists p :: p in patterns && path in Matched(w, [p])
  {
    if path in Matched(w, patterns) {
      var k :| 0 <= k < |patterns| && PatternMatches(w.pkgs[path], patterns[k]);
      MatchesOne(w, patterns[k], path);
    }
    if p :| p in patterns && path in Matched(w, [p]) {
      MatchesOne(w, p, path);
      var k :| 0 <= k < |patterns| && patterns[k] == p;
      assert PatternMatches(w.pkgs[path], patterns[k]);
    }
  }

  lemma FewerMatched(w: World, few: seq<string>, many: seq<string>)
    requires Fewer(few, many)
    ensures Matched(w, few) <= Matched(w, many) && Tested(w, few) <= Tested(w, many)
  {
    forall p | p in Matched(w, few)
      ensures p in Matched(w, many)
    {
      MatchesSome(w, few, p);
      MatchesSome(w, many, p);
    }
    forall p | p in Tested(w, few)
      ensures p in Tested(w, many)
    {
      assert p in Matched(w, few);
    }
  }

  lemma FewerRoots(w: World, few: seq<string>, many: seq<string>)
    requires Fewer(few, many)
    ensures TestRoots(w, few) <= TestRoots(w, many)
  {
    FewerMatched(w, few, many);
  }

  lemma FewerListed(w: World, few: seq<string>, many: seq<string>, n: Node)
    requires Fewer(few, many) && NodeListed(w, few, n)
    ensures NodeListed(w, many, n)
  {
    FewerMatched(w, few, many);
    FewerRoots(w, few, many);
    if n.Pkg? {
      var r :| r in TestRoots(w, few) && Reaches(PkgEdges(w), r, n.path);
    }
  }

  lemma MatchIsShown(w: World, few: seq<string>, many: seq<string>, nodes: seq<Node>, recs: seq<Listed>, i: nat)
    requires WalkOk(w) && IsTestListing(w, many, nodes, recs) && Fewer(few, many) && i < |nodes|
    ensures IsMatch(recs[i], few) <==> nodes[i].Pkg? && nodes[i].path in Matched(w, few)
  {
    RecordOf(w, many, nodes, recs, i);
    var l := recs[i];
    assert HasMatch(w, many, nodes[i], l.matched);
    if IsMatch(l, few) {
      var k :| 0 <= k < |l.matched| && l.matched[k] in few;
      assert l.matched[k] in l.matched;
      MatchesSome(w, few, nodes[i].path);
    }
    if nodes[i].Pkg? && nodes[i].path in Matched(w, few) {
      MatchesSome(w, few, nodes[i].path);
      var p :| p in few && nodes[i].path in Matched(w, [p]);
      assert p in l.matched;
    }
  }

  lemma MatchedPathsAre(w: World, few: seq<string>, many: seq<string>, nodes: seq<Node>, recs: seq<Listed>)
    requires WalkOk(w) && IsTestListing(w, many, nodes, recs) && Fewer(few, many)
    ensures MatchedPaths(recs, few) == Matched(w, few)
  {
    forall p | p in MatchedPaths(recs, few)
      ensures p in Matched(w, few)
    {
      var i :| 0 <= i < |recs| && IsMatch(recs[i], few) && recs[i].rec.path == p;
      MatchIsShown(w, few, many, nodes, recs, i);
      RecordOf(w, many, nodes, recs, i);
    }
    forall p | p in Matched(w, few)
      ensures p in MatchedPaths(recs, few)
    {
      var i := MatchPlace(w, few, many, nodes, recs, p);
    }
  }

  lemma MatchPlace(w: World, few: seq<string>, many: seq<string>, nodes: seq<Node>, recs: seq<Listed>, p: string)
    returns (i: nat)
    requires WalkOk(w) && IsTestListing(w, many, nodes, recs) && Fewer(few, many) && p in Matched(w, few)
    ensures i < |nodes| && IsMatch(recs[i], few) && recs[i].rec.path == p && nodes[i] == Pkg(p)
  {
    FewerMatched(w, few, many);
    RootReached(PkgEdges(w), TestRoots(w, many), p);
    i := PlaceOf(w, many, nodes, recs, Pkg(p));
    MatchIsShown(w, few, many, nodes, recs, i);
  }

  ghost function MainPaths(w: World, few: seq<string>): set<string> {
    set x | x in Tested(w, few) :: TestMain(x)
  }

  lemma TestedShown(w: World, few: seq<string>, many: seq<string>, nodes: seq<Node>, recs: seq<Listed>, i: nat)
    requires WalkOk(w) && IsTestListing(w, many, nodes, recs) && Fewer(few, many) && i < |nodes|
    ensures IsMatch(recs[i], few) && HasTests(recs[i].rec) <==> nodes[i].Pkg? && nodes[i].path in Tested(w, few)
  {
    MatchIsShown(w, few, many, nodes, recs, i);
    RecordOf(w, many, nodes, recs, i);
  }

  lemma MainShown(w: World, few: seq<string>, many: seq<string>, nodes: seq<Node>, recs: seq<Listed>, i: nat)
    requires WalkOk(w) && IsTestListing(w, many, nodes, recs) && Fewer(few, many)
    requires i < |recs| && IsMatch(recs[i], few) && HasTests(recs[i].rec)
    ensures TestMain(recs[i].rec.path) in MainPaths(w, few)
  {
    TestedShown(w, few, many, nodes, recs, i);
    RecordOf(w, many, nodes, recs, i);
  }

  lemma MainListed(w: World, few: seq<string>, many: seq<string>, nodes: seq<Node>, recs: seq<Listed>, x: string)
    requires WalkOk(w) && IsTestListing(w, many, nodes, recs) && Fewer(few, many) && x in Tested(w, few)
    ensures TestMain(x) in TestMainPaths(recs, few)
  {
    var i := MatchPlace(w, few, many, nodes, recs, x);
    TestedShown(w, few, many, nodes, recs, i);
  }

  lemma TestMainPathsAre(w: World, few: seq<string>, many: seq<string>, nodes: seq<Node>, recs: seq<Listed>)
    requires WalkOk(w) && IsTestListing(w, many, nodes, recs) && Fewer(few, many)
    ensures TestMainPaths(recs, few) == MainPaths(w, few)
  {
    forall i | 0 <= i < |recs| && IsMatch(recs[i], few) && HasTests(recs[i].rec)
      ensures TestMain(recs[i].rec.path) in MainPaths(w, few)
    {
      MainShown(w, few, many, nodes, recs, i);
    }
    forall x | x in Tested(w, few)
      ensures TestMain(x) in TestMainPaths(recs, few)
    {
      MainListed(w, few, many, nodes, recs, x);
    }
  }

  /** On a listing every match with tests has its test main, so the narrowing gives up for a shared path only. */
  lemma NoMainMissing(w: World, few: seq<string>, many: seq<string>, nodes: seq<Node>, recs: seq<Listed>)
    requires WalkOk(w) && IsTestListing(w, many, nodes, recs) && Fewer(few, many)
    ensures !MainMissing(recs, few)
  {
    TestMainPathsAre(w, few, many, nodes, recs);
    FewerMatched(w, few, many);
    forall x | x in Tested(w, few)
      ensures !NoRecord(recs, TestMain(x))
    {
      assert x in w.mains && NodeListed(w, many, Main(x));
      var i := PlaceOf(w, many, nodes, recs, Main(x));
    }
  }

  lemma MainOfOne(x: string, y: string)
    ensures TestMain(x) == TestMain(y) ==> x == y
  {
    assert TestMain(x)[..|TestMain(x)| - 5] == x && TestMain(y)[..|TestMain(y)| - 5] == y;
  }

  /** Two nodes printed alike are one, or a test main and the package of its path. */
  lemma SameMain(m: Node, n: Node)
    requires m != n && Printed(m) == Printed(n)
    ensures m.Main? != n.Main?
  {
    match (m, n)
    case (Main(x), Main(y)) => MainOfOne(x, y);
    case _ =>
  }

  /** A package listed has the path of the test main of another, also listed. */
  ghost predicate NamedLikeMain(w: World, patterns: seq<string>, x: string) {
    NodeListed(w, patterns, Main(x)) && NodeListed(w, patterns, Pkg(TestMain(x)))
  }

  lemma SharedByMain(w: World, patterns: seq<string>, nodes: seq<Node>, recs: seq<Listed>, i: nat, j: nat)
    requires WalkOk(w) && IsTestListing(w, patterns, nodes, recs) && Share(recs, Any, i, j)
    ensures exists x :: NamedLikeMain(w, patterns, x)
  {
    RecordOf(w, patterns, nodes, recs, i);
    RecordOf(w, patterns, nodes, recs, j);
    SameMain(nodes[i], nodes[j]);
    assert NamedLikeMain(w, patterns, if nodes[i].Main? then nodes[i].of else nodes[j].of);
  }

  lemma MainShares(w: World, patterns: seq<string>, nodes: seq<Node>, recs: seq<Listed>, x: string)
    requires WalkOk(w) && IsTestListing(w, patterns, nodes, recs) && NamedLikeMain(w, patterns, x)
    ensures PathShared(recs, Any)
  {
    var i := PlaceOf(w, patterns, nodes, recs, Main(x));
    var j := PlaceOf(w, patterns, nodes, recs, Pkg(TestMain(x)));
    if i < j {
      assert Share(recs, Any, i, j);
    } else {
      assert Share(recs, Any, j, i);
    }
  }

  /** Two records have one path exactly when a package is named like the test main of another, and both are listed. */
  lemma SharedIffNamedLikeMain(w: World, patterns: seq<string>, nodes: seq<Node>, recs: seq<Listed>)
    requires WalkOk(w) && IsTestListing(w, patterns, nodes, recs)
    ensures PathShared(recs, Any) <==> exists x :: NamedLikeMain(w, patterns, x)
  {
    if PathShared(recs, Any) {
      var i: nat, j: nat :| Share(recs, Any, i, j);
      SharedByMain(w, patterns, nodes, recs, i, j);
    } else if x :| NamedLikeMain(w, patterns, x) {
      MainShares(w, patterns, nodes, recs, x);
    }
  }

  // ---- What the walk reaches ----

  ghost function RestrictRoots(w: World, few: seq<string>): set<string> {
    Matched(w, few) + MainPaths(w, few)
  }

  lemma AnyIndexed(w: World, many: seq<string>, nodes: seq<Node>, recs: seq<Listed>, index: Index, n: Node)
    requires WalkOk(w) && IsTestListing(w, many, nodes, recs) && Indexes(recs, Any, index) && NodeListed(w, many, n)
    ensures Printed(n) in index && index[Printed(n)] < |nodes| && nodes[index[Printed(n)]] == n
  {
    PkgIndexed(w, many, nodes, recs, Any, index, n);
  }

  /** A package imported by a node of the narrow listing is an edge of the walk, and the other way around. */
  lemma EdgeFromListed(w: World, few: seq<string>, many: seq<string>, nodes: seq<Node>, recs: seq<Listed>,
                       index: Index, n: Node, d: string)
    requires WalkOk(w) && IsTestListing(w, many, nodes, recs) && Indexes(recs, Any, index) && Fewer(few, many)
    requires NodeListed(w, few, n)
    ensures d in IndexEdges(recs, index)(Printed(n)) <==> d in NodeRec(w, n).imports && d in w.pkgs
    ensures d in IndexEdges(recs, index)(Printed(n)) ==> NodeListed(w, few, Pkg(d))
  {
    FewerListed(w, few, many, n);
    AnyIndexed(w, many, nodes, recs, index, n);
    IndexEdgesAre(w, many, nodes, recs, Any, index, Printed(n));
    if d in NodeRec(w, n).imports {
      if d in index {
        ImportIsPkg(w, many, nodes, recs, index[d], n, d);
      }
      if d in w.pkgs {
        ListingClosed(w, few, n, d);
        FewerListed(w, few, many, Pkg(d));
        AnyIndexed(w, many, nodes, recs, index, Pkg(d));
      }
    }
  }

  ghost function ListedPaths(w: World, few: seq<string>): set<string> {
    (set p | p in w.pkgs && NodeListed(w, few, Pkg(p))) + MainPaths(w, few)
  }

  lemma ListedPathNode(w: World, few: seq<string>, p: string) returns (n: Node)
    requires WalkOk(w) && p in ListedPaths(w, few)
    ensures NodeListed(w, few, n) && Printed(n) == p
  {
    if p in w.pkgs && NodeListed(w, few, Pkg(p)) {
      n := Pkg(p);
    } else {
      var x :| x in Tested(w, few) && TestMain(x) == p;
      n := Main(x);
    }
  }

  lemma WalkStaysListed(w: World, few: seq<string>, many: seq<string>, nodes: seq<Node>, recs: seq<Listed>,
                        index: Index, p: string)
    requires WalkOk(w) && IsTestListing(w, many, nodes, recs) && Indexes(recs, Any, index) && Fewer(few, many)
    requires ReachedFrom(IndexEdges(recs, index), RestrictRoots(w, few), p)
    ensures p in ListedPaths(w, few)
  {
    var listed := ListedPaths(w, few);
    forall k, d | k in listed && d in IndexEdges(recs, index)(k)
      ensures d in listed
    {
      var n := ListedPathNode(w, few, k);
      EdgeFromListed(w, few, many, nodes, recs, index, n, d);
    }
    forall r | r in Matched(w, few)
      ensures r in listed
    {
      RootReached(PkgEdges(w), TestRoots(w, few), r);
    }
    ClosedHoldsAllReached(IndexEdges(recs, index), listed, RestrictRoots(w, few), p);
  }

  lemma TestRootWalked(w: World, few: seq<string>, many: seq<string>, nodes: seq<Node>, recs: seq<Listed>,
                       index: Index, r: string)
    requires WalkOk(w) && IsTestListing(w, many, nodes, recs) && Indexes(recs, Any, index) && Fewer(few, many)
    requires r in TestRoots(w, few)
    ensures ReachedFrom(IndexEdges(recs, index), RestrictRoots(w, few), r) && NodeListed(w, few, Pkg(r))
  {
    RootReached(PkgEdges(w), TestRoots(w, few), r);
    if r in Matched(w, few) {
      RootReached(IndexEdges(recs, index), RestrictRoots(w, few), r);
    } else {
      var x :| x in Tested(w, few) && x in w.mains && r in w.mains[x].imports;
      assert TestMain(x) in MainPaths(w, few);
      RootReached(IndexEdges(recs, index), RestrictRoots(w, few), TestMain(x));
      EdgeFromListed(w, few, many, nodes, recs, index, Main(x), r);
      ReachedFromNext(IndexEdges(recs, index), RestrictRoots(w, few), TestMain(x), r);
    }
  }

  lemma ListedIsWalked(w: World, few: seq<string>, many: seq<string>, nodes: seq<Node>, recs: seq<Listed>,
                       index: Index, n: Node)
    requires WalkOk(w) && IsTestListing(w, many, nodes, recs) && Indexes(recs, Any, index) && Fewer(few, many)
    requires NodeListed(w, few, n)
    ensures ReachedFrom(IndexEdges(recs, index), RestrictRoots(w, few), Printed(n))
  {
    var edges, roots := IndexEdges(recs, index), RestrictRoots(w, few);
    match n
    case Main(x) =>
      assert TestMain(x) in MainPaths(w, few);
      RootReached(edges, roots, TestMain(x));
    case Pkg(p) =>
      var walked := set k | k in w.pkgs && NodeListed(w, few, Pkg(k)) && ReachedFrom(edges, roots, k);
      forall k, d | k in walked && d in PkgEdges(w)(k)
        ensures d in walked
      {
        EdgeFromListed(w, few, many, nodes, recs, index, Pkg(k), d);
        ReachedFromNext(edges, roots, k, d);
      }
      forall r | r in TestRoots(w, few)
        ensures r in walked
      {
        TestRootWalked(w, few, many, nodes, recs, index, r);
      }
      ClosedHoldsAllReached(PkgEdges(w), walked, TestRoots(w, few), p);
  }

  lemma WalkedIffListed(w: World, few: seq<string>, many: seq<string>, nodes: seq<Node>, recs: seq<Listed>,
                        index: Index, i: nat)
    requires WalkOk(w) && IsTestListing(w, many, nodes, recs) && Indexes(recs, Any, index) && Fewer(few, many)
      && i < |nodes|
    ensures Walked(recs, index, Any, RestrictRoots(w, few), i) <==> NodeListed(w, few, nodes[i])
  {
    RecordOf(w, many, nodes, recs, i);
    if Walked(recs, index, Any, RestrictRoots(w, few), i) {
      WalkStaysListed(w, few, many, nodes, recs, index, Printed(nodes[i]));
      var n := ListedPathNode(w, few, Printed(nodes[i]));
      FewerListed(w, few, many, n);
      AnyIndexed(w, many, nodes, recs, index, n);
    }
    if NodeListed(w, few, nodes[i]) {
      ListedIsWalked(w, few, many, nodes, recs, index, nodes[i]);
    }
  }

  lemma NarrowedView(w: World, few: seq<string>, many: seq<string>, r: Rec, l: Listed)
    requires Fewer(few, many) && l.rec == View(w, many, r)
    ensures Narrowed(l, Matched(w, few)).rec == View(w, few, r)
  {
    FewerMatched(w, few, many);
  }

  // ---- The narrowing theorem ----

  ghost function PickedNodes(nodes: seq<Node>, order: seq<nat>): seq<Node>
    requires forall i :: i in order ==> i < |nodes|
  {
    seq(|order|, k requires 0 <= k < |order| => assert order[k] in order; nodes[order[k]])
  }

  lemma RestrictedAreListed(w: World, few: seq<string>, many: seq<string>, nodes: seq<Node>, recs: seq<Listed>,
                            index: Index, order: seq<nat>, restricted: seq<Listed>)
    requires WalkOk(w) && IsTestListing(w, many, nodes, recs) && Fewer(few, many)
    requires IsRestriction(recs, few, index, order, restricted)
    ensures forall i :: i in order ==> i < |nodes|
    ensures forall i :: 0 <= i < |nodes| ==> (i in order <==> NodeListed(w, few, nodes[i]))
  {
    MatchedPathsAre(w, few, many, nodes, recs);
    TestMainPathsAre(w, few, many, nodes, recs);
    forall i | 0 <= i < |nodes|
      ensures i in order <==> NodeListed(w, few, nodes[i])
    {
      WalkedIffListed(w, few, many, nodes, recs, index, i);
    }
  }

  lemma RestrictedRecord(w: World, few: seq<string>, many: seq<string>, nodes: seq<Node>, recs: seq<Listed>,
                         index: Index, order: seq<nat>, restricted: seq<Listed>, k: nat)
    requires WalkOk(w) && IsTestListing(w, many, nodes, recs) && Fewer(few, many)
    requires IsRestriction(recs, few, index, order, restricted) && k < |order|
    ensures order[k] < |nodes| && NodeListed(w, many, nodes[order[k]])
    ensures restricted[k].rec == View(w, few, NodeRec(w, nodes[order[k]]))
  {
    MatchedPathsAre(w, few, many, nodes, recs);
    RecordOf(w, many, nodes, recs, order[k]);
    NarrowedView(w, few, many, NodeRec(w, nodes[order[k]]), recs[order[k]]);
  }

  /** Each package and test main that go list prints for the fewer patterns, once, as it prints it. */
  lemma RestrictionIsListing(w: World, few: seq<string>, many: seq<string>, nodes: seq<Node>, recs: seq<Listed>,
                             index: Index, order: seq<nat>, restricted: seq<Listed>)
    requires WalkOk(w) && IsTestListing(w, many, nodes, recs) && Fewer(few, many)
    requires IsRestriction(recs, few, index, order, restricted)
    ensures forall i :: i in order ==> i < |nodes|
    ensures ListsPackages(w, few, PickedNodes(nodes, order), Packages(restricted))
  {
    RestrictedAreListed(w, few, many, nodes, recs, index, order, restricted);
    PickedAre(w, few, many, nodes, order);
    PickedMatchesFirst(w, few, many, nodes, order);
    forall k | 0 <= k < |order|
      ensures NodeListed(w, few, nodes[order[k]])
      ensures Packages(restricted)[k] == View(w, few, NodeRec(w, nodes[order[k]]))
    {
      assert order[k] in order;
      RestrictedRecord(w, few, many, nodes, recs, index, order, restricted, k);
    }
  }

  lemma PickedMatchesFirst(w: World, few: seq<string>, many: seq<string>, nodes: seq<Node>, order: seq<nat>)
    requires Fewer(few, many) && MatchesFirst(w, many, nodes) && forall i :: i in order ==> i < |nodes|
    requires forall j, k :: 0 <= j < k < |order| ==> order[j] < order[k]
    ensures MatchesFirst(w, few, PickedNodes(nodes, order))
  {
    FewerMatched(w, few, many);
    var picked := PickedNodes(nodes, order);
    forall j, k | 0 <= j < k < |picked| && picked[j].Pkg? && picked[k].Pkg? && picked[k].path in Matched(w, few)
      ensures Strip(picked[j].path) != picked[k].path
    {
      assert order[j] in order && order[k] in order;
      assert picked[j] == nodes[order[j]] && picked[k] == nodes[order[k]];
    }
  }

  lemma PickedAre(w: World, few: seq<string>, many: seq<string>, nodes: seq<Node>, order: seq<nat>)
    requires Fewer(few, many)
    requires forall n :: n in nodes <==> NodeListed(w, many, n)
    requires forall i, j :: 0 <= i < j < |nodes| ==> nodes[i] != nodes[j]
    requires forall i :: i in order ==> i < |nodes|
    requires forall i :: 0 <= i < |nodes| ==> (i in order <==> NodeListed(w, few, nodes[i]))
    requires forall j, k :: 0 <= j < k < |order| ==> order[j] < order[k]
    ensures forall n :: n in PickedNodes(nodes, order) <==> NodeListed(w, few, n)
    ensures forall j, k :: 0 <= j < k < |order| ==> PickedNodes(nodes, order)[j] != PickedNodes(nodes, order)[k]
  {
    var picked := PickedNodes(nodes, order);
    forall n | NodeListed(w, few, n)
      ensures n in picked
    {
      FewerListed(w, few, many, n);
      var i :| 0 <= i < |nodes| && nodes[i] == n;
      var k :| 0 <= k < |order| && order[k] == i;
      assert picked[k] == n;
    }
    forall n | n in picked
      ensures NodeListed(w, few, n)
    {
      var k :| 0 <= k < |picked| && picked[k] == n;
      assert order[k] in order;
    }
    forall j, k | 0 <= j < k < |order|
      ensures picked[j] != picked[k]
    {
      assert order[j] in order && order[k] in order;
    }
  }
}
