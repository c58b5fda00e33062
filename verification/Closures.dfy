/**
  The walks over the records of one `go list -deps -test` (packages/go2nix-nix-plugin/rust/src/
  resolve.rs): build_closure, which finds the build graph among them, and restrict_to_patterns,
  which narrows them to the listing of fewer patterns.
 */
module Closures {
  import opened Wrappers
  import opened Graphs
  import opened GoListing

  type Index = map<string, nat>

  ghost predicate Indexes(recs: seq<Listed>, keep: Rec -> bool, index: Index) {
    && (forall p :: p in index ==> index[p] < |recs| && keep(recs[index[p]].rec) && recs[index[p]].rec.path == p)
    && (forall i :: 0 <= i < |recs| && keep(recs[i].rec) ==> recs[i].rec.path in index && index[recs[i].rec.path] == i)
  }

  ghost predicate Share(recs: seq<Listed>, keep: Rec -> bool, i: nat, j: nat) {
    i < j < |recs| && keep(recs[i].rec) && keep(recs[j].rec) && recs[i].rec.path == recs[j].rec.path
  }

  ghost predicate PathShared(recs: seq<Listed>, keep: Rec -> bool) {
    exists i, j :: Share(recs, keep, i, j)
  }

  /** index_by_path: None exactly when two records kept share a path. */
  method IndexByPath(recs: seq<Listed>, keep: Rec -> bool) returns (index: Option<Index>)
    ensures index.Some? ==> Indexes(recs, keep, index.value)
    ensures index.None? <==> PathShared(recs, keep)
  {
    var found: Index := map[];
    for i := 0 to |recs|
      invariant forall p :: p in found ==> found[p] < i && keep(recs[found[p]].rec) && recs[found[p]].rec.path == p
      invariant forall j :: 0 <= j < i && keep(recs[j].rec) ==>
        recs[j].rec.path in found && found[recs[j].rec.path] == j
    {
      if keep(recs[i].rec) {
        if recs[i].rec.path in found {
          assert Share(recs, keep, found[recs[i].rec.path], i);
          return None;
        }
        found := found[recs[i].rec.path := i];
      }
    }
    return Some(found);
  }

  // ---- The worklist both walks run ----

  /** Imports as the walks follow them: to the record indexed under the name printed. */
  function IndexEdges(recs: seq<Listed>, index: Index): Edges {
    p => if p in index && index[p] < |recs| then Selected(recs[index[p]].rec.imports, index.Keys) else []
  }

  ghost function PathsAt(recs: seq<Listed>, stack: seq<nat>): set<string> {
    set i | i in stack && i < |recs| :: recs[i].rec.path
  }

  ghost predicate Kept(recs: seq<Listed>, keep: Rec -> bool, i: nat) {
    i < |recs| && keep(recs[i].rec)
  }

  ghost predicate Walked(recs: seq<Listed>, index: Index, keep: Rec -> bool, roots: set<string>, i: nat) {
    Kept(recs, keep, i) && ReachedFrom(IndexEdges(recs, index), roots, recs[i].rec.path)
  }

  ghost predicate Pending(recs: seq<Listed>, index: Index, seen: set<nat>, stack: seq<nat>, i: nat)
    requires i < |recs|
  {
    forall d :: d in recs[i].rec.imports && d in index ==> index[d] in seen || index[d] in stack
  }

  ghost predicate Walking(recs: seq<Listed>, index: Index, keep: Rec -> bool, start: seq<nat>, seen: set<nat>,
                          stack: seq<nat>) {
    && (forall i :: i in seen || i in stack ==> Walked(recs, index, keep, PathsAt(recs, start), i))
    && (forall i :: i in start ==> i in seen || i in stack)
    && (forall i :: i in seen ==> Pending(recs, index, seen, stack, i))
  }

  /** The records reached, as indices: the least set with the start and the indexed imports of its members. */
  method Walk(recs: seq<Listed>, index: Index, start: seq<nat>, ghost keep: Rec -> bool) returns (seen: set<nat>)
    requires Indexes(recs, keep, index) && forall i :: i in start ==> Kept(recs, keep, i)
    ensures forall i :: i in seen <==> Walked(recs, index, keep, PathsAt(recs, start), i)
  {
    seen := {};
    var stack := start;
    StartReached(recs, index, keep, start);
    ghost var all := index.Values;
    while stack != []
      invariant Walking(recs, index, keep, start, seen, stack) && seen <= all
      decreases all - seen, |stack|
    {
      seen, stack := WalkOne(recs, index, start, keep, seen, stack);
    }
    WalkDone(recs, index, keep, start, seen);
  }

  /** One round: the record popped, if it is new, joins, and its imports are pushed. */
  method WalkOne(recs: seq<Listed>, index: Index, ghost start: seq<nat>, ghost keep: Rec -> bool, before: set<nat>,
                 pushed: seq<nat>)
    returns (seen: set<nat>, stack: seq<nat>)
    requires Indexes(recs, keep, index) && Walking(recs, index, keep, start, before, pushed) && pushed != []
    requires before <= index.Values
    ensures Walking(recs, index, keep, start, seen, stack) && seen <= index.Values
    ensures (seen == before && |stack| < |pushed|) || index.Values - seen < index.Values - before
  {
    var i := pushed[|pushed| - 1];
    var rest := pushed[..|pushed| - 1];
    assert pushed == rest + [i];
    Popped(recs, index, keep, start, before, rest, i);
    if i in before {
      WalkPops(recs, index, keep, start, before, rest, i);
      return before, rest;
    }
    stack := Extend(recs, index, i, rest);
    WalkGoesOn(recs, index, keep, start, before, rest, i, stack);
    FewerIndices(index.Values, before, i);
    seen := before + {i};
  }

  lemma Popped(recs: seq<Listed>, index: Index, keep: Rec -> bool, start: seq<nat>, seen: set<nat>, rest: seq<nat>,
               i: nat)
    requires Indexes(recs, keep, index) && Walking(recs, index, keep, start, seen, rest + [i])
    ensures i < |recs| && Walked(recs, index, keep, PathsAt(recs, start), i) && i in index.Values
  {
    assert i in rest + [i];
    assert Walked(recs, index, keep, PathsAt(recs, start), i);
    assert index[recs[i].rec.path] == i;
  }

  lemma FewerIndices(all: set<nat>, seen: set<nat>, i: nat)
    requires i in all && i !in seen
    ensures all - (seen + {i}) < all - seen
  {
    assert i in all - seen && i !in all - (seen + {i});
  }

  lemma WalkDone(recs: seq<Listed>, index: Index, keep: Rec -> bool, start: seq<nat>, seen: set<nat>)
    requires Indexes(recs, keep, index) && Walking(recs, index, keep, start, seen, [])
    ensures forall i :: i in seen <==> Walked(recs, index, keep, PathsAt(recs, start), i)
  {
    forall i | Walked(recs, index, keep, PathsAt(recs, start), i)
      ensures i in seen
    {
      WalkEnds(recs, index, keep, start, seen, i);
    }
  }

  method Extend(recs: seq<Listed>, index: Index, i: nat, stack: seq<nat>) returns (more: seq<nat>)
    requires i < |recs|
    ensures forall k :: k in more <==> k in stack || exists d :: d in recs[i].rec.imports && d in index && index[d] == k
  {
    more := stack;
    var imports := recs[i].rec.imports;
    for j := 0 to |imports|
      invariant forall k :: k in more <==> k in stack || exists d :: d in imports[..j] && d in index && index[d] == k
    {
      assert imports[..j + 1] == imports[..j] + [imports[j]];
      ghost var before := more;
      if imports[j] in index {
        more := more + [index[imports[j]]];
      }
      forall k
        ensures k in more <==> k in stack || exists d :: d in imports[..j + 1] && d in index && index[d] == k
      {
        if d :| d in imports[..j + 1] && d in index && index[d] == k {
          assert d in imports[..j] || d == imports[j];
        }
      }
    }
    assert imports[..|imports|] == imports;
  }

  lemma StartReached(recs: seq<Listed>, index: Index, keep: Rec -> bool, start: seq<nat>)
    requires forall i :: i in start ==> Kept(recs, keep, i)
    ensures Walking(recs, index, keep, start, {}, start)
  {
    forall i | i in start
      ensures Walked(recs, index, keep, PathsAt(recs, start), i)
    {
      ReachesSelf(IndexEdges(recs, index), recs[i].rec.path);
      assert recs[i].rec.path in PathsAt(recs, start);
    }
  }

  lemma WalkPops(recs: seq<Listed>, index: Index, keep: Rec -> bool, start: seq<nat>, seen: set<nat>, rest: seq<nat>,
                 i: nat)
    requires Walking(recs, index, keep, start, seen, rest + [i]) && i in seen
    ensures Walking(recs, index, keep, start, seen, rest)
  {
    assert forall k :: k in rest + [i] <==> k in rest || k == i;
    forall k | k in seen
      ensures Pending(recs, index, seen, rest, k)
    {
      assert Pending(recs, index, seen, rest + [i], k);
    }
  }

  lemma ImportWalked(recs: seq<Listed>, index: Index, keep: Rec -> bool, roots: set<string>, i: nat, d: string)
    requires Indexes(recs, keep, index) && Walked(recs, index, keep, roots, i)
    requires d in recs[i].rec.imports && d in index
    ensures Walked(recs, index, keep, roots, index[d])
  {
    var r :| r in roots && Reaches(IndexEdges(recs, index), r, recs[i].rec.path);
    assert d in IndexEdges(recs, index)(recs[i].rec.path);
    ReachesLast(IndexEdges(recs, index), r, recs[i].rec.path, d);
  }

  lemma WalkGoesOn(recs: seq<Listed>, index: Index, keep: Rec -> bool, start: seq<nat>, seen: set<nat>,
                   rest: seq<nat>, i: nat, more: seq<nat>)
    requires Indexes(recs, keep, index) && Walking(recs, index, keep, start, seen, rest + [i])
    requires i < |recs| && Walked(recs, index, keep, PathsAt(recs, start), i)
    requires forall k :: k in more <==> k in rest || exists d :: d in recs[i].rec.imports && d in index && index[d] == k
    ensures Walking(recs, index, keep, start, seen + {i}, more)
  {
    assert forall k :: k in rest + [i] <==> k in rest || k == i;
    forall k | k in more
      ensures Walked(recs, index, keep, PathsAt(recs, start), k)
    {
      if k !in rest {
        var d :| d in recs[i].rec.imports && d in index && index[d] == k;
        ImportWalked(recs, index, keep, PathsAt(recs, start), i, d);
      }
    }
    forall k | k in seen + {i}
      ensures Pending(recs, index, seen + {i}, more, k)
    {
      if k != i {
        assert Pending(recs, index, seen, rest + [i], k);
      }
    }
  }

  lemma WalkEnds(recs: seq<Listed>, index: Index, keep: Rec -> bool, start: seq<nat>, seen: set<nat>, i: nat)
    requires Indexes(recs, keep, index) && Walking(recs, index, keep, start, seen, [])
    requires Walked(recs, index, keep, PathsAt(recs, start), i)
    ensures i in seen
  {
    var edges := IndexEdges(recs, index);
    var paths := set k | k in seen && k < |recs| :: recs[k].rec.path;
    forall p, d | p in paths && d in edges(p)
      ensures d in paths
    {
      var k :| k in seen && k < |recs| && recs[k].rec.path == p;
      assert Walked(recs, index, keep, PathsAt(recs, start), k);
      assert Pending(recs, index, seen, [], k);
      assert recs[index[d]].rec.path == d;
    }
    var r :| r in PathsAt(recs, start) && Reaches(edges, r, recs[i].rec.path);
    assert r in paths;
    ClosedHoldsReached(edges, paths, r, recs[i].rec.path);
    var k :| k in seen && k < |recs| && recs[k].rec.path == recs[i].rec.path;
    assert Walked(recs, index, keep, PathsAt(recs, start), k);
  }

  // ---- build_closure ----

  /** The path of the first record's module that is the main one. */
  function MainModulePath(recs: seq<Listed>): Option<string> {
    if |recs| == 0 then None
    else if InMainModule(recs[0].rec) then Some(recs[0].rec.mod.value.path)
    else MainModulePath(recs[1..])
  }

  ghost function SubPaths(modulePath: string, subPackages: seq<string>): set<string> {
    set sp | sp in subPackages :: SubPackagePath(modulePath, sp)
  }

  predicate FoundInMain(recs: seq<Listed>, index: Index, path: string) {
    path in index && index[path] < |recs| && InMainModule(recs[index[path]].rec)
  }

  /** What build_closure returns: the records reached from the subPackages, all of them found. */
  ghost predicate IsBuildClosure(recs: seq<Listed>, subPackages: seq<string>, index: Index, build: set<nat>) {
    && Indexes(recs, IsBare, index)
    && MainModulePath(recs).Some?
    && (forall sp :: sp in subPackages ==> FoundInMain(recs, index, SubPackagePath(MainModulePath(recs).value, sp)))
    && (forall i :: i in build <==> Walked(recs, index, IsBare, SubPaths(MainModulePath(recs).value, subPackages), i))
  }

  /** The last record kept of each path. */
  ghost function IndexBy(recs: seq<Listed>, keep: Rec -> bool): Index {
    if |recs| == 0 then map[]
    else
      var n := |recs| - 1;
      var before := IndexBy(recs[..n], keep);
      if keep(recs[n].rec) then before[recs[n].rec.path := n] else before
  }

  lemma {:induction false} IndexByKept(recs: seq<Listed>, keep: Rec -> bool)
    ensures forall p :: p in IndexBy(recs, keep) ==>
      IndexBy(recs, keep)[p] < |recs| && keep(recs[IndexBy(recs, keep)[p]].rec)
        && recs[IndexBy(recs, keep)[p]].rec.path == p
    ensures forall i :: 0 <= i < |recs| && keep(recs[i].rec) ==> recs[i].rec.path in IndexBy(recs, keep)
  {
    if |recs| > 0 {
      var n := |recs| - 1;
      IndexByKept(recs[..n], keep);
      assert forall i :: 0 <= i < n ==> recs[..n][i] == recs[i];
    }
  }

  /** There is one index over records of which no two share a path. */
  lemma IndexIs(recs: seq<Listed>, keep: Rec -> bool, index: Index)
    requires Indexes(recs, keep, index)
    ensures index == IndexBy(recs, keep)
  {
    IndexByKept(recs, keep);
    assert forall p :: p in index <==> p in IndexBy(recs, keep);
  }

  /** The bare records reached from the subPackages. */
  ghost function ReachedRecs(recs: seq<Listed>, subPackages: seq<string>): set<Rec>
    requires MainModulePath(recs).Some?
  {
    set i | 0 <= i < |recs| && Walked(recs, IndexBy(recs, IsBare), IsBare,
      SubPaths(MainModulePath(recs).value, subPackages), i) :: recs[i].rec
  }

  ghost predicate Missing(recs: seq<Listed>, path: string) {
    forall i :: 0 <= i < |recs| && IsBare(recs[i].rec) && InMainModule(recs[i].rec) ==> recs[i].rec.path != path
  }

  lemma FoundOrMissing(recs: seq<Listed>, index: Index, path: string)
    requires Indexes(recs, IsBare, index)
    ensures FoundInMain(recs, index, path) <==> !Missing(recs, path)
  {
  }

  /** Where build_closure gives up: two bare records of one path, no main module, or a subPackage without a record. */
  ghost predicate NoClosure(recs: seq<Listed>, subPackages: seq<string>) {
    || PathShared(recs, IsBare)
    || MainModulePath(recs).None?
    || exists sp :: sp in subPackages && Missing(recs, SubPackagePath(MainModulePath(recs).value, sp))
  }

  /** The indices the walk starts from, or None when a subPackage has no bare record in the main module. */
  method SubPackageIndices(recs: seq<Listed>, bare: Index, modulePath: string, subPackages: seq<string>)
    returns (stack: Option<seq<nat>>)
    requires Indexes(recs, IsBare, bare)
    ensures stack.Some? ==>
      && (forall i :: i in stack.value ==> Kept(recs, IsBare, i))
      && PathsAt(recs, stack.value) == SubPaths(modulePath, subPackages)
    ensures stack.Some? <==> forall sp :: sp in subPackages ==> FoundInMain(recs, bare, SubPackagePath(modulePath, sp))
  {
    var found: seq<nat> := [];
    for k := 0 to |subPackages|
      invariant |found| == k && FoundAll(recs, bare, modulePath, subPackages[..k], found)
    {
      var path := SubPackagePath(modulePath, subPackages[k]);
      if !FoundInMain(recs, bare, path) {
        assert subPackages[k] in subPackages;
        return None;
      }
      FoundNext(recs, bare, modulePath, subPackages, k, found);
      found := found + [bare[path]];
    }
    assert subPackages[..|subPackages|] == subPackages;
    FoundCover(recs, bare, modulePath, subPackages, found);
    return Some(found);
  }

  ghost predicate FoundAt(recs: seq<Listed>, bare: Index, modulePath: string, sp: string, i: nat) {
    var path := SubPackagePath(modulePath, sp);
    FoundInMain(recs, bare, path) && bare[path] == i
  }

  ghost predicate FoundAll(recs: seq<Listed>, bare: Index, modulePath: string, subPackages: seq<string>,
                           found: seq<nat>) {
    |found| == |subPackages| && forall j :: 0 <= j < |found| ==>
      FoundAt(recs, bare, modulePath, subPackages[j], found[j])
  }

  lemma FoundNext(recs: seq<Listed>, bare: Index, modulePath: string, subPackages: seq<string>, k: nat, found: seq<nat>)
    requires k < |subPackages| && FoundAll(recs, bare, modulePath, subPackages[..k], found)
    requires FoundInMain(recs, bare, SubPackagePath(modulePath, subPackages[k]))
    ensures FoundAll(recs, bare, modulePath, subPackages[..k + 1],
      found + [bare[SubPackagePath(modulePath, subPackages[k])]])
  {
    var more := found + [bare[SubPackagePath(modulePath, subPackages[k])]];
    forall j | 0 <= j < |more|
      ensures FoundAt(recs, bare, modulePath, subPackages[..k + 1][j], more[j])
    {
      assert j < k ==> subPackages[..k][j] == subPackages[j];
    }
  }

  lemma FoundCover(recs: seq<Listed>, bare: Index, modulePath: string, subPackages: seq<string>, found: seq<nat>)
    requires Indexes(recs, IsBare, bare) && FoundAll(recs, bare, modulePath, subPackages, found)
    ensures forall i :: i in found ==> Kept(recs, IsBare, i)
    ensures PathsAt(recs, found) == SubPaths(modulePath, subPackages)
    ensures forall sp :: sp in subPackages ==> FoundInMain(recs, bare, SubPackagePath(modulePath, sp))
  {
    forall p | p in PathsAt(recs, found)
      ensures p in SubPaths(modulePath, subPackages)
    {
      var j :| 0 <= j < |found| && found[j] < |recs| && recs[found[j]].rec.path == p;
      assert FoundAt(recs, bare, modulePath, subPackages[j], found[j]);
      assert subPackages[j] in subPackages;
    }
    forall p | p in SubPaths(modulePath, subPackages)
      ensures p in PathsAt(recs, found)
    {
      var j :| 0 <= j < |found| && SubPackagePath(modulePath, subPackages[j]) == p;
      assert FoundAt(recs, bare, modulePath, subPackages[j], found[j]);
      assert found[j] in found;
    }
  }

  /** build_closure. */
  method BuildClosure(recs: seq<Listed>, subPackages: seq<string>) returns (build: Option<set<nat>>, ghost index: Index)
    ensures build.Some? ==> IsBuildClosure(recs, subPackages, index, build.value)
    ensures build.None? <==> NoClosure(recs, subPackages)
  {
    var indexed := IndexByPath(recs, IsBare);
    index := map[];
    if indexed.None? {
      return None, index;
    }
    var bare := indexed.value;
    index := bare;
    var modulePath := MainModulePath(recs);
    if modulePath.None? {
      return None, index;
    }
    forall sp | sp in subPackages
      ensures FoundInMain(recs, bare, SubPackagePath(modulePath.value, sp))
        <==> !Missing(recs, SubPackagePath(modulePath.value, sp))
    {
      FoundOrMissing(recs, bare, SubPackagePath(modulePath.value, sp));
    }
    var stack := SubPackageIndices(recs, bare, modulePath.value, subPackages);
    if stack.None? {
      return None, index;
    }
    var seen := Walk(recs, bare, stack.value, IsBare);
    return Some(seen), index;
  }

  // ---- restrict_to_patterns ----

  predicate Any(r: Rec) {
    true
  }

  predicate IsMatch(l: Listed, patterns: seq<string>) {
    IsBare(l.rec) && exists k :: 0 <= k < |l.matched| && l.matched[k] in patterns
  }

  /** roots: the paths of the matches. */
  ghost function MatchedPaths(recs: seq<Listed>, patterns: seq<string>): set<string> {
    set i | 0 <= i < |recs| && IsMatch(recs[i], patterns) :: recs[i].rec.path
  }

  ghost function TestMainPaths(recs: seq<Listed>, patterns: seq<string>): set<string> {
    set i | 0 <= i < |recs| && IsMatch(recs[i], patterns) && HasTests(recs[i].rec) :: TestMain(recs[i].rec.path)
  }

  function Narrowed(l: Listed, roots: set<string>): Listed {
    if Strip(l.rec.path) in roots then l else l.(rec := WithoutTestEmbeds(l.rec))
  }

  /** The indices of order, ascending, are those of seen. */
  ghost predicate Enumerates(order: seq<nat>, n: nat, seen: set<nat>) {
    && (forall k :: k in order <==> k in seen && k < n)
    && (forall j, k :: 0 <= j < k < |order| ==> order[j] < order[k])
  }

  /** The records of seen, in the order they were printed. */
  method Pick(recs: seq<Listed>, seen: set<nat>) returns (picked: seq<Listed>, ghost order: seq<nat>)
    requires forall i :: i in seen ==> i < |recs|
    ensures Enumerates(order, |recs|, seen) && |picked| == |order|
    ensures forall k :: 0 <= k < |order| ==> order[k] < |recs| && picked[k] == recs[order[k]]
  {
    picked, order := [], [];
    for i := 0 to |recs|
      invariant Enumerates(order, i, seen) && |picked| == |order|
      invariant forall k :: 0 <= k < |order| ==> order[k] < |recs| && picked[k] == recs[order[k]]
    {
      if i in seen {
        assert forall k :: k in order + [i] <==> k in order || k == i;
        assert forall k :: 0 <= k < |order| ==> order[k] in order;
        picked, order := picked + [recs[i]], order + [i];
      }
    }
  }

  /** What restrict_to_patterns returns: the records reached from the matches and their test mains. */
  ghost predicate IsRestriction(recs: seq<Listed>, patterns: seq<string>, index: Index, order: seq<nat>,
                                restricted: seq<Listed>) {
    && Indexes(recs, Any, index)
    && TestMainPaths(recs, patterns) <= index.Keys
    && |restricted| == |order|
    && (forall i :: i in order <==>
        Walked(recs, index, Any, MatchedPaths(recs, patterns) + TestMainPaths(recs, patterns), i))
    && (forall j, k :: 0 <= j < k < |order| ==> order[j] < order[k])
    && (forall k :: 0 <= k < |order| ==>
        order[k] < |recs| && restricted[k] == Narrowed(recs[order[k]], MatchedPaths(recs, patterns)))
  }

  /** A match with tests whose test main is not among the records. */
  ghost predicate MainMissing(recs: seq<Listed>, patterns: seq<string>) {
    exists p :: p in TestMainPaths(recs, patterns) && NoRecord(recs, p)
  }

  ghost predicate NoRecord(recs: seq<Listed>, path: string) {
    forall i :: 0 <= i < |recs| ==> recs[i].rec.path != path
  }

  /** restrict_to_patterns. */
  method RestrictToPatterns(recs: seq<Listed>, patterns: seq<string>)
    returns (restricted: Option<seq<Listed>>, ghost index: Index, ghost order: seq<nat>)
    ensures restricted.Some? ==> IsRestriction(recs, patterns, index, order, restricted.value)
    ensures restricted.None? <==> PathShared(recs, Any) || MainMissing(recs, patterns)
  {
    index, order := map[], [];
    var indexed := IndexByPath(recs, Any);
    if indexed.None? {
      return None, index, order;
    }
    var byPath := indexed.value;
    index := byPath;
    var roots, stack := Roots(recs, byPath, patterns);
    if stack.None? {
      return None, index, order;
    }
    var reached := Walk(recs, byPath, stack.value, Any);
    var picked;
    picked, order := Pick(recs, reached);
    var kept: seq<Listed> := [];
    for k := 0 to |picked|
      invariant |kept| == k && forall j :: 0 <= j < k ==> kept[j] == Narrowed(picked[j], roots)
    {
      kept := kept + [Narrowed(picked[k], roots)];
    }
    return Some(kept), index, order;
  }

  method Roots(recs: seq<Listed>, byPath: Index, patterns: seq<string>)
    returns (roots: set<string>, stack: Option<seq<nat>>)
    requires Indexes(recs, Any, byPath)
    ensures stack.Some? ==>
      && roots == MatchedPaths(recs, patterns)
      && TestMainPaths(recs, patterns) <= byPath.Keys
      && (forall i :: i in stack.value ==> Kept(recs, Any, i))
      && PathsAt(recs, stack.value) == MatchedPaths(recs, patterns) + TestMainPaths(recs, patterns)
    ensures stack.None? <==> MainMissing(recs, patterns)
  {
    roots := {};
    var found: seq<nat> := [];
    for i := 0 to |recs|
      invariant RootsFound(recs, byPath, patterns, i, roots, found)
    {
      RootsStep(recs, byPath, patterns, i, roots, found);
      if IsMatch(recs[i], patterns) {
        roots := roots + {recs[i].rec.path};
        found := found + [i];
        if HasTests(recs[i].rec) {
          var main := TestMain(recs[i].rec.path);
          if main !in byPath {
            assert main in TestMainPaths(recs, patterns) && NoRecord(recs, main);
            return roots, None;
          }
          found := found + [byPath[main]];
        }
      }
    }
    assert recs[..|recs|] == recs;
    assert forall p :: p in byPath ==> !NoRecord(recs, p);
    return roots, Some(found);
  }

  ghost predicate RootsFound(recs: seq<Listed>, byPath: Index, patterns: seq<string>, i: nat, roots: set<string>,
                             found: seq<nat>) {
    && i <= |recs|
    && roots == MatchedPaths(recs[..i], patterns)
    && TestMainPaths(recs[..i], patterns) <= byPath.Keys
    && StartsAt(recs, found, roots + TestMainPaths(recs[..i], patterns))
  }

  ghost predicate StartsAt(recs: seq<Listed>, found: seq<nat>, paths: set<string>) {
    (forall k :: k in found ==> Kept(recs, Any, k)) && PathsAt(recs, found) == paths
  }

  lemma StartsNext(recs: seq<Listed>, found: seq<nat>, paths: set<string>, k: nat)
    requires StartsAt(recs, found, paths) && k < |recs|
    ensures StartsAt(recs, found + [k], paths + {recs[k].rec.path})
  {
    PathsAtNext(recs, found, k);
    assert forall j :: j in found + [k] <==> j in found || j == k;
  }

  lemma RootsStep(recs: seq<Listed>, byPath: Index, patterns: seq<string>, i: nat, roots: set<string>, found: seq<nat>)
    requires Indexes(recs, Any, byPath) && i < |recs| && RootsFound(recs, byPath, patterns, i, roots, found)
    ensures !IsMatch(recs[i], patterns) ==> RootsFound(recs, byPath, patterns, i + 1, roots, found)
    ensures IsMatch(recs[i], patterns) && !HasTests(recs[i].rec) ==>
      RootsFound(recs, byPath, patterns, i + 1, roots + {recs[i].rec.path}, found + [i])
    ensures IsMatch(recs[i], patterns) && HasTests(recs[i].rec) && TestMain(recs[i].rec.path) in byPath ==>
      RootsFound(recs, byPath, patterns, i + 1, roots + {recs[i].rec.path},
        found + [i] + [byPath[TestMain(recs[i].rec.path)]])
  {
    RootsNext(recs, patterns, i);
    var path, main := recs[i].rec.path, TestMain(recs[i].rec.path);
    var mains := TestMainPaths(recs[..i], patterns);
    StartsNext(recs, found, roots + mains, i);
    assert roots + mains + {path} == roots + {path} + mains;
    if main in byPath {
      StartsNext(recs, found + [i], roots + mains + {path}, byPath[main]);
      assert roots + mains + {path} + {main} == roots + {path} + (mains + {main});
    }
  }

  lemma RootsNext(recs: seq<Listed>, patterns: seq<string>, i: nat)
    requires i < |recs|
    ensures MatchedPaths(recs[..i + 1], patterns)
      == MatchedPaths(recs[..i], patterns) + if IsMatch(recs[i], patterns) then {recs[i].rec.path} else {}
    ensures TestMainPaths(recs[..i + 1], patterns) == TestMainPaths(recs[..i], patterns)
      + if IsMatch(recs[i], patterns) && HasTests(recs[i].rec) then {TestMain(recs[i].rec.path)} else {}
  {
    var now := recs[..i + 1];
    assert forall k :: 0 <= k < i ==> now[k] == recs[..i][k];
    assert now[i] == recs[i];
    forall p | p in MatchedPaths(recs[..i], patterns)
      ensures p in MatchedPaths(now, patterns)
    {
      var k :| 0 <= k < i && IsMatch(recs[..i][k], patterns) && recs[..i][k].rec.path == p;
      assert IsMatch(now[k], patterns);
    }
    forall p | p in TestMainPaths(recs[..i], patterns)
      ensures p in TestMainPaths(now, patterns)
    {
      var k :| 0 <= k < i && IsMatch(recs[..i][k], patterns) && HasTests(recs[..i][k].rec)
        && TestMain(recs[..i][k].rec.path) == p;
      assert IsMatch(now[k], patterns);
    }
  }

  lemma PathsAtNext(recs: seq<Listed>, stack: seq<nat>, i: nat)
    requires i < |recs|
    ensures PathsAt(recs, stack + [i]) == PathsAt(recs, stack) + {recs[i].rec.path}
  {
    assert forall k :: k in stack + [i] <==> k in stack || k == i;
  }
}
