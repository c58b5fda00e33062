/** The records a command printed, or a walk picked from them, as the sets the classifiers are specified on. */
module ListedRecords {
  import opened GoListing
  import opened Closures
  import opened ClosureProofs
  import opened CoherentListings
  import opened Classify
  import opened SinglePassProofs
  import TwoPasses

  lemma ViewMod(w: World, patterns: seq<string>, r: Rec)
    ensures View(w, patterns, r).mod == r.mod
  {
  }

  lemma TestRecordFromWorld(w: World, patterns: seq<string>, r: Rec)
    requires MainsOk(w) && r in TestRecords(w, patterns) && r.mod.Some?
    ensures TwoPasses.FromWorld(w, r.mod.value)
  {
    if p :| p in w.pkgs && r == View(w, patterns, w.pkgs[p]) {
      ViewMod(w, patterns, w.pkgs[p]);
    } else {
      var x :| x in w.mains && r == View(w, patterns, w.mains[x]);
      ViewMod(w, patterns, w.mains[x]);
    }
  }

  lemma SomeRecordsOneVersion(w: World, patterns: seq<string>, s: set<Rec>, overlays: Overlays)
    requires WorldOk(w) && s <= TestRecords(w, patterns)
    ensures OneVersion(Mods(Loaded(s, overlays)))
  {
    forall r | r in Loaded(s, overlays) && r.mod.Some?
      ensures TwoPasses.FromWorld(w, r.mod.value)
    {
      TestRecordFromWorld(w, patterns, r);
    }
    TwoPasses.WorldModules(w, Loaded(s, overlays));
  }

  lemma PickedListed(w: World, patterns: seq<string>, nodes: seq<Node>, recs: seq<Listed>, order: seq<nat>,
                     picked: seq<Listed>)
    requires IsTestListing(w, patterns, nodes, recs) && |picked| == |order|
    requires forall k :: 0 <= k < |order| ==> order[k] < |recs| && picked[k] == recs[order[k]]
    ensures RecSet(Packages(picked)) <= TestRecords(w, patterns)
  {
    ListingAsSet(w, patterns, nodes, Packages(recs));
    forall r | r in RecSet(Packages(picked))
      ensures r in RecSet(Packages(recs))
    {
      var k :| 0 <= k < |picked| && Packages(picked)[k] == r;
      assert Packages(recs)[order[k]] == r;
    }
  }

  lemma PickedAreSingle(w: World, patterns: seq<string>, nodes: seq<Node>, recs: seq<Listed>, roots: set<string>,
                        build: set<nat>, order: seq<nat>, picked: seq<Listed>)
    requires IsTestListing(w, patterns, nodes, recs) && |picked| == |order| && Enumerates(order, |recs|, build)
    requires forall k :: 0 <= k < |order| ==> order[k] < |recs| && picked[k] == recs[order[k]]
    requires forall i :: 0 <= i < |nodes| ==> (i in build <==> IsBuildNode(w, roots, nodes[i]))
    requires forall p :: p in BuildPaths(w, roots) ==> Pkg(p) in nodes
    ensures RecSet(Packages(picked)) == SingleRecords(w, patterns, roots)
  {
    forall k | 0 <= k < |picked|
      ensures Packages(picked)[k] in SingleRecords(w, patterns, roots)
    {
      assert order[k] in order;
      assert Packages(recs)[order[k]] == picked[k].rec;
      assert nodes[order[k]].path in BuildPaths(w, roots);
    }
    forall p | p in BuildPaths(w, roots)
      ensures View(w, patterns, w.pkgs[p]) in RecSet(Packages(picked))
    {
      var i :| 0 <= i < |nodes| && nodes[i] == Pkg(p);
      assert Packages(recs)[i] == View(w, patterns, w.pkgs[p]);
      PickedAt(order, build, recs, picked, i);
    }
  }

  /** The records picked are those reached from the subPackages. */
  lemma PickedAreReached(recs: seq<Listed>, subPackages: seq<string>, index: Index, build: set<nat>, order: seq<nat>,
                         picked: seq<Listed>)
    requires IsBuildClosure(recs, subPackages, index, build) && |picked| == |order| && Enumerates(order, |recs|, build)
    requires forall k :: 0 <= k < |order| ==> order[k] < |recs| && picked[k] == recs[order[k]]
    ensures RecSet(Packages(picked)) == ReachedRecs(recs, subPackages)
  {
    IndexIs(recs, IsBare, index);
    forall k | 0 <= k < |picked|
      ensures Packages(picked)[k] in ReachedRecs(recs, subPackages)
    {
      assert order[k] in order;
    }
    forall i | 0 <= i < |recs| && i in build
      ensures recs[i].rec in RecSet(Packages(picked))
    {
      PickedAt(order, build, recs, picked, i);
    }
  }

  lemma PickedAt(order: seq<nat>, build: set<nat>, recs: seq<Listed>, picked: seq<Listed>, i: nat)
    requires Enumerates(order, |recs|, build) && |picked| == |order| && i in build && i < |recs|
    requires forall k :: 0 <= k < |order| ==> order[k] < |recs| && picked[k] == recs[order[k]]
    ensures recs[i].rec in Packages(picked)
  {
    assert i in order;
    var k :| 0 <= k < |order| && order[k] == i;
    assert Packages(picked)[k] == recs[i].rec;
  }
}
