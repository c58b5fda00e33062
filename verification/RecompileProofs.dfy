/** After the recompile loop the external test sees one consistent set of archives, if their names do not collide. */
module RecompileProofs {
  import opened Wrappers
  import opened Graphs
  import opened Toposort
  import opened LocalDeps
  import opened LocalDepsProofs
  import opened Importcfg
  import opened Recompile

  ghost predicate PathsHaveNoEquals(paths: seq<string>) {
    forall p :: p in paths ==> HasNoEquals(p)
  }

  lemma RecompiledNext(c: Cfgs, archives: Archives, affected: seq<string>, n: nat)
    requires n < |affected|
    ensures Recompiled(c, archives, affected[..n + 1])
      == Replaced(Recompiled(c, archives, affected[..n]), affected[n], archives(affected[n]))
  {
    assert affected[..n + 1][..n] == affected[..n];
  }

  ghost predicate EntriesAre(c: Cfgs, x: string, link: seq<string>, comp: seq<string>) {
    Entries(c.link, x) == link && Entries(c.comp, x) == comp
  }

  lemma ReplacedEntries(c: Cfgs, p: string, archive: string, x: string)
    requires HasNoEquals(p) && HasNoEquals(x)
    ensures if x == p then EntriesAre(Replaced(c, p, archive), x, [archive], [archive])
      else EntriesAre(Replaced(c, p, archive), x, Entries(c.link, x), Entries(c.comp, x))
  {
    OverrideEntries(c.link, p, archive, x);
    OverrideEntries(c.comp, p, archive, x);
  }

  lemma EntriesNext(c: Cfgs, archives: Archives, affected: seq<string>, n: nat, x: string)
    requires n < |affected| && HasNoEquals(affected[n]) && HasNoEquals(x)
    ensures var before, after := Recompiled(c, archives, affected[..n]), Recompiled(c, archives, affected[..n + 1]);
      if x == affected[n] then EntriesAre(after, x, [archives(x)], [archives(x)])
      else EntriesAre(after, x, Entries(before.link, x), Entries(before.comp, x))
  {
    RecompiledNext(c, archives, affected, n);
    ReplacedEntries(Recompiled(c, archives, affected[..n]), affected[n], archives(affected[n]), x);
  }

  lemma InPrefix(affected: seq<string>, n: nat, x: string)
    requires 0 < n <= |affected|
    ensures x in affected[..n] <==> x in affected[..n - 1] || x == affected[n - 1]
  {
    assert affected[..n] == affected[..n - 1] + [affected[n - 1]];
  }

  lemma {:induction false} EntriesAfter(c: Cfgs, archives: Archives, affected: seq<string>, n: nat, x: string)
    requires PathsHaveNoEquals(affected) && HasNoEquals(x) && n <= |affected|
    ensures if x in affected[..n] then
      EntriesAre(Recompiled(c, archives, affected[..n]), x, [archives(x)], [archives(x)])
      else EntriesAre(Recompiled(c, archives, affected[..n]), x, Entries(c.link, x), Entries(c.comp, x))
  {
    if n > 0 {
      assert affected[n - 1] in affected;
      EntriesAfter(c, archives, affected, n - 1, x);
      EntriesNext(c, archives, affected, n - 1, x);
      InPrefix(affected, n, x);
    } else {
      assert affected[..0] == [];
    }
  }

  /** The loop leaves the affected paths one entry each, and every other path the entries it had. */
  lemma RecompiledEntries(c: Cfgs, archives: Archives, affected: seq<string>, x: string)
    requires PathsHaveNoEquals(affected) && HasNoEquals(x)
    ensures var r := Recompiled(c, archives, affected);
      && Entries(r.link, x) == (if x in affected then [archives(x)] else Entries(c.link, x))
      && Entries(r.comp, x) == (if x in affected then [archives(x)] else Entries(c.comp, x))
  {
    EntriesAfter(c, archives, affected, |affected|, x);
    assert affected[..|affected|] == affected;
  }

  ghost predicate LastOfName(archives: Archives, affected: seq<string>, i: nat) {
    i < |affected| && forall j :: i < j < |affected| ==> archives(affected[j]) != archives(affected[i])
  }

  ghost predicate Holds(c: Cfgs, archive: string, build: Build) {
    archive in c.built && c.built[archive] == build
  }

  lemma ReplacedHolds(c: Cfgs, p: string, archive: string, other: string, build: Build)
    requires other != archive && Holds(c, other, build)
    ensures Holds(Replaced(c, p, archive), other, build)
  {
  }

  lemma BuildMade(c: Cfgs, archives: Archives, affected: seq<string>, i: nat)
    requires i < |affected|
    ensures Holds(Recompiled(c, archives, affected[..i + 1]), archives(affected[i]),
                  Build(affected[i], Recompiled(c, archives, affected[..i]).comp))
  {
    RecompiledNext(c, archives, affected, i);
  }

  lemma BuildKept(c: Cfgs, archives: Archives, affected: seq<string>, n: nat, archive: string, build: Build)
    requires n < |affected| && archives(affected[n]) != archive
      && Holds(Recompiled(c, archives, affected[..n]), archive, build)
    ensures Holds(Recompiled(c, archives, affected[..n + 1]), archive, build)
  {
    RecompiledNext(c, archives, affected, n);
    ReplacedHolds(Recompiled(c, archives, affected[..n]), affected[n], archives(affected[n]), archive, build);
  }

  ghost predicate HoldsAfter(c: Cfgs, archives: Archives, affected: seq<string>, n: nat, archive: string, build: Build)
    requires n <= |affected|
  {
    Holds(Recompiled(c, archives, affected[..n]), archive, build)
  }

  lemma {:induction false} BuildStays(c: Cfgs, archives: Archives, affected: seq<string>, n: nat, archive: string,
                                      build: Build)
    requires n <= |affected| && HoldsAfter(c, archives, affected, n, archive, build)
    requires forall j :: n <= j < |affected| ==> archives(affected[j]) != archive
    ensures HoldsAfter(c, archives, affected, |affected|, archive, build)
    decreases |affected| - n
  {
    if n < |affected| {
      BuildKept(c, archives, affected, n, archive, build);
      BuildStays(c, archives, affected, n + 1, archive, build);
    }
  }

  /** An archive holds what the last package of its name was compiled from. */
  lemma LastBuild(c: Cfgs, archives: Archives, affected: seq<string>, i: nat)
    requires LastOfName(archives, affected, i)
    ensures Holds(Recompiled(c, archives, affected), archives(affected[i]),
                  Build(affected[i], Recompiled(c, archives, affected[..i]).comp))
  {
    BuildMade(c, archives, affected, i);
    BuildStays(c, archives, affected, i + 1, archives(affected[i]),
      Build(affected[i], Recompiled(c, archives, affected[..i]).comp));
    assert affected[..|affected|] == affected;
  }

  lemma {:induction false} OtherArchiveStays(c: Cfgs, archives: Archives, affected: seq<string>, other: string,
                                        build: Build)
    requires Holds(c, other, build) && forall p :: p in affected ==> archives(p) != other
    ensures Holds(Recompiled(c, archives, affected), other, build)
  {
    if |affected| > 0 {
      var n := |affected| - 1;
      OtherArchiveStays(c, archives, affected[..n], other, build);
      assert affected[n] in affected;
      ReplacedHolds(Recompiled(c, archives, affected[..n]), affected[n], archives(affected[n]), other, build);
    }
  }

  /** No two packages share an archive. */
  ghost predicate DistinctArchives(archives: Archives, paths: set<string>) {
    forall p, q :: p in paths && q in paths && archives(p) == archives(q) ==> p == q
  }

  /** p maps, in both configs, to one archive, which was compiled from p. */
  ghost predicate Replacing(c: Cfgs, archive: string, p: string) {
    && Entries(c.link, p) == [archive]
    && Entries(c.comp, p) == [archive]
    && archive in c.built
    && c.built[archive].importPath == p
  }

  /** When archive was compiled, everything of `changed` behind p was already what it is at the end. */
  ghost predicate CompiledAgainstFinal(c: Cfgs, m: PkgMap, changed: set<string>, archive: string, p: string)
    requires archive in c.built
  {
    forall q :: q in changed && Depends(Deps(m), p, q) ==> Entries(c.built[archive].cfg, q) == Entries(c.comp, q)
  }

  ghost predicate Consistent(c: Cfgs, archives: Archives, m: PkgMap, target: string, affected: set<string>) {
    forall p :: p in affected ==>
      && Replacing(c, archives(p), p)
      && CompiledAgainstFinal(c, m, affected + {target}, archives(p), p)
  }

  lemma DistinctAreLast(archives: Archives, affected: set<string>, order: seq<string>, i: nat)
    requires DistinctArchives(archives, affected) && (forall p :: p in order <==> p in affected)
    requires forall i, j :: 0 <= i < j < |order| ==> order[i] != order[j]
    requires i < |order|
    ensures LastOfName(archives, order, i)
  {
    assert order[i] in order;
    forall j | i < j < |order|
      ensures archives(order[j]) != archives(order[i])
    {
      assert order[j] in order;
    }
  }

  /** Once everything of order behind a package has been replaced, its entries are the final ones. */
  lemma SeenIsFinal(c: Cfgs, archives: Archives, order: seq<string>, i: nat, q: string)
    requires i <= |order| && PathsHaveNoEquals(order) && HasNoEquals(q)
    requires q in order ==> q in order[..i]
    ensures Entries(Recompiled(c, archives, order[..i]).comp, q) == Entries(Recompiled(c, archives, order).comp, q)
  {
    EntriesAfter(c, archives, order, i, q);
    RecompiledEntries(c, archives, order, q);
    assert q in order[..i] ==> q in order;
  }

  lemma ConsistentAt(c: Cfgs, archives: Archives, m: PkgMap, target: string, affected: set<string>,
                     order: seq<string>, i: nat)
    requires DependencyOrder(Deps(m), affected, order) && i < |order|
    requires affected <= m.Keys && target in m && target !in affected && forall p :: p in m ==> HasNoEquals(p)
    requires DistinctArchives(archives, affected)
    ensures var r := Recompiled(c, archives, order);
      && Replacing(r, archives(order[i]), order[i])
      && CompiledAgainstFinal(r, m, affected + {target}, archives(order[i]), order[i])
  {
    var p := order[i];
    assert p in order;
    RecompiledEntries(c, archives, order, p);
    DistinctAreLast(archives, affected, order, i);
    LastBuild(c, archives, order, i);
    forall q | q in affected + {target} && Depends(Deps(m), p, q)
      ensures Entries(Recompiled(c, archives, order[..i]).comp, q) == Entries(Recompiled(c, archives, order).comp, q)
    {
      if q in order {
        var j :| 0 <= j < |order| && order[j] == q;
        assert order[..i][j] == q;
      }
      SeenIsFinal(c, archives, order, i, q);
    }
  }

  /** Two affected packages of one archive: the archive holds only one of them. */
  lemma CollisionBreaks(c: Cfgs, archives: Archives, m: PkgMap, target: string, affected: set<string>)
    requires Consistent(c, archives, m, target, affected)
    ensures DistinctArchives(archives, affected)
  {
    forall p, q | p in affected && q in affected && archives(p) == archives(q)
      ensures p == q
    {
      assert Replacing(c, archives(p), p) && Replacing(c, archives(q), q);
    }
  }

  lemma DistinctSuffice(c: Cfgs, archives: Archives, m: PkgMap, target: string, affected: set<string>,
                        order: seq<string>)
    requires DependencyOrder(Deps(m), affected, order)
    requires affected <= m.Keys && target in m && target !in affected && forall p :: p in m ==> HasNoEquals(p)
    requires DistinctArchives(archives, affected)
    ensures Consistent(Recompiled(c, archives, order), archives, m, target, affected)
  {
    var r := Recompiled(c, archives, order);
    forall p | p in affected
      ensures Replacing(r, archives(p), p)
      ensures CompiledAgainstFinal(r, m, affected + {target}, archives(p), p)
    {
      var i :| 0 <= i < |order| && order[i] == p;
      ConsistentAt(c, archives, m, target, affected, order, i);
    }
  }

  // ---- The archive names of the source ----

  ghost predicate DistinctNames(paths: set<string>) {
    forall p, q :: p in paths && q in paths && Sanitize(p) == Sanitize(q) ==> p == q
  }

  predicate IsMarked(c: char) {
    c == '/' || c == '.' || c == '_'
  }

  /** Two paths share a name exactly when they differ in slashes, dots and underscores alone, place by place. */
  lemma SameNameIff(p: string, q: string)
    ensures Sanitize(p) == Sanitize(q) <==>
      |p| == |q| && forall i :: 0 <= i < |p| ==> p[i] == q[i] || (IsMarked(p[i]) && IsMarked(q[i]))
  {
    if Sanitize(p) == Sanitize(q) {
      forall i | 0 <= i < |p|
        ensures p[i] == q[i] || (IsMarked(p[i]) && IsMarked(q[i]))
      {
        assert Sanitize(p)[i] == Sanitize(q)[i];
      }
    }
  }

  lemma SameArchive(testDir: string, p: string, q: string)
    ensures RecompArchives(testDir)(p) == RecompArchives(testDir)(q) <==> Sanitize(p) == Sanitize(q)
  {
    var a, b := RecompArchive(testDir, p), RecompArchive(testDir, q);
    var start := |testDir| + 8;
    assert a[start..|a| - 2] == Sanitize(p) && b[start..|b| - 2] == Sanitize(q);
  }

  lemma DistinctNamesAre(testDir: string, paths: set<string>)
    ensures DistinctArchives(RecompArchives(testDir), paths) <==> DistinctNames(paths)
  {
    forall p, q | p in paths && q in paths
      ensures RecompArchives(testDir)(p) == RecompArchives(testDir)(q) <==> Sanitize(p) == Sanitize(q)
    {
      SameArchive(testDir, p, q);
    }
  }

  lemma InternalIsOther(testDir: string, p: string)
    ensures RecompArchives(testDir)(p) != InternalArchive(testDir)
  {
    assert RecompArchive(testDir, p)[|testDir| + 1] == 'r';
    assert InternalArchive(testDir)[|testDir| + 1] == 'i';
  }

  /** The loop's promise holds exactly when no two affected packages share a sanitized name. */
  lemma RecompiledConsistentIff(c: Cfgs, testDir: string, m: PkgMap, target: string, imports: set<string>)
    requires AffectedInOrder(m, target, imports).Success?
    requires target in m && forall p :: p in m ==> HasNoEquals(p)
    ensures var archives, affected := RecompArchives(testDir), AffectedSet(m, target, imports);
      Consistent(Recompiled(c, archives, AffectedInOrder(m, target, imports).value), archives, m, target, affected)
      <==> DistinctNames(affected)
  {
    var order := AffectedInOrder(m, target, imports).value;
    var archives, affected := RecompArchives(testDir), AffectedSet(m, target, imports);
    DistinctNamesAre(testDir, affected);
    if DistinctNames(affected) {
      AffectedAreOrdered(m, target, imports);
      DistinctSuffice(c, archives, m, target, affected, order);
    } else if Consistent(Recompiled(c, archives, order), archives, m, target, affected) {
      CollisionBreaks(Recompiled(c, archives, order), archives, m, target, affected);
    }
  }

  /** Two packages that import the one under test: one below a directory, one with an underscore in its name. */
  const COLLIDING: PkgMap := map["m/t" := [], "m/a/b" := ["m/t"], "m/a_b" := ["m/t"]]

  lemma CollidingHasNoCycle(ip: string)
    ensures !Depends(Deps(COLLIDING), ip, ip)
  {
    if d :| d in Deps(COLLIDING)(ip) && Reaches(Deps(COLLIDING), d, ip) {
      ReachesUnfold(Deps(COLLIDING), "m/t", ip);
    }
  }

  lemma CollidingAffected()
    ensures {"m/a/b", "m/a_b"} <= AffectedSet(COLLIDING, "m/t", {"m/a/b", "m/a_b"})
  {
    forall p | p in {"m/a/b", "m/a_b"}
      ensures Affected(COLLIDING, "m/t", {"m/a/b", "m/a_b"}, p)
    {
      ReachesSelf(Deps(COLLIDING), p);
      ReachesSelf(Deps(COLLIDING), "m/t");
    }
  }

  lemma CollidingSorts()
    ensures AffectedInOrder(COLLIDING, "m/t", {"m/a/b", "m/a_b"}).Success?
  {
    SortFailsIffCycle(Deps(COLLIDING), Universe(COLLIDING), COLLIDING.Keys);
    forall ip
      ensures !Depends(Deps(COLLIDING), ip, ip)
    {
      CollidingHasNoCycle(ip);
    }
    NoErrorOnceListed(COLLIDING, "m/t", {"m/a/b", "m/a_b"});
  }

  lemma CollidingNames()
    ensures !DistinctNames(AffectedSet(COLLIDING, "m/t", {"m/a/b", "m/a_b"}))
  {
    CollidingAffected();
    CollidingSanitized();
  }

  lemma CollidingSanitized()
    ensures Sanitize("m/a/b") == Sanitize("m/a_b") && "m/a/b" != "m/a_b"
  {
    assert "m/a/b"[3] != "m/a_b"[3];
  }

  lemma CollidingPaths()
    ensures "m/t" in COLLIDING && forall p :: p in COLLIDING ==> HasNoEquals(p)
  {
  }

  /** There the loop ends without an error, and one of the two is left on the archive of the other. */
  lemma NamesCanCollide(c: Cfgs, testDir: string)
    ensures var imports := {"m/a/b", "m/a_b"};
      var archives, affected := RecompArchives(testDir), AffectedSet(COLLIDING, "m/t", imports);
      && AffectedInOrder(COLLIDING, "m/t", imports).Success?
      && !Consistent(Recompiled(c, archives, AffectedInOrder(COLLIDING, "m/t", imports).value), archives, COLLIDING,
        "m/t", affected)
  {
    CollidingSorts();
    CollidingNames();
    CollidingPaths();
    RecompiledConsistentIff(c, testDir, COLLIDING, "m/t", {"m/a/b", "m/a_b"});
  }

  /** The archive an external test must see for a package, one of those built for the test. */
  function TestArchive(testDir: string, target: string, p: string): string {
    if p == target then InternalArchive(testDir) else RecompArchives(testDir)(p)
  }

  // ---- What comes of steps 1 and 1b, case by case ----

  /**
    Without internal tests nothing changes, external ones or not. With internal tests only, the target is
    compiled against the configs as they are, and unless that fails its entry is the new archive; every
    other entry and archive stays.
   */
  lemma WithoutBothTests(base: Cfgs, testDir: string, m: PkgMap, target: string, imports: set<string>,
                          compiles: Compiler, x: string, other: string)
    requires HasNoEquals(target) && HasNoEquals(x) && other != testDir + "/internal.a"
    ensures forall hasXTests ::
      Prepared(base, testDir, target, false, hasXTests, imports, m, compiles) == Success(base)
    ensures var r := Prepared(base, testDir, target, true, false, imports, m, compiles);
      if !compiles(target, base.comp) then r == Result.Failure(DoesNotCompile(target))
      else
        && r.Success? && Holds(r.value, testDir + "/internal.a", Build(target, base.comp))
        && (if x == target then EntriesAre(r.value, x, [testDir + "/internal.a"], [testDir + "/internal.a"])
            else EntriesAre(r.value, x, Entries(base.link, x), Entries(base.comp, x)))
        && (other in r.value.built <==> other in base.built)
        && (other in base.built ==> r.value.built[other] == base.built[other])
  {
    ReplacedEntries(base, target, InternalArchive(testDir), x);
  }

  /** Where it comes in the order, a package compiles against what was recompiled before it. */
  ghost predicate CompilesAt(c: Cfgs, archives: Archives, affected: seq<string>, compiles: Compiler, j: nat) {
    j < |affected| && compiles(affected[j], Recompiled(c, archives, affected[..j]).comp)
  }

  /** The package at n is ip, and the first that does not. */
  ghost predicate FailsAt(c: Cfgs, archives: Archives, affected: seq<string>, compiles: Compiler, ip: string, n: nat) {
    && n < |affected| && affected[n] == ip && !CompilesAt(c, archives, affected, compiles, n)
    && forall j: nat :: j < n ==> CompilesAt(c, archives, affected, compiles, j)
  }

  lemma CompilesInPrefix(c: Cfgs, archives: Archives, affected: seq<string>, compiles: Compiler, n: nat, j: nat)
    requires j < n <= |affected|
    ensures CompilesAt(c, archives, affected[..n], compiles, j) <==> CompilesAt(c, archives, affected, compiles, j)
  {
    assert affected[..n][..j] == affected[..j];
  }

  /** n is where the first package that does not compile comes, if there is one. */
  ghost predicate FailureAt(c: Cfgs, archives: Archives, affected: seq<string>, compiles: Compiler, n: nat) {
    var failed := FirstFailure(c, archives, affected, compiles);
    if failed.Some? then FailsAt(c, archives, affected, compiles, failed.value, n)
    else forall j: nat :: j < |affected| ==> CompilesAt(c, archives, affected, compiles, j)
  }

  lemma FailureNext(c: Cfgs, archives: Archives, affected: seq<string>, compiles: Compiler, all: nat, n: nat)
    requires |affected| == all + 1 && FailureAt(c, archives, affected[..all], compiles, n)
    ensures FailureAt(c, archives, affected, compiles,
      if FirstFailure(c, archives, affected[..all], compiles).None? then all else n)
  {
    forall j: nat | j < all
      ensures CompilesAt(c, archives, affected[..all], compiles, j) <==> CompilesAt(c, archives, affected, compiles, j)
    {
      CompilesInPrefix(c, archives, affected, compiles, all, j);
    }
  }

  lemma {:induction false} FirstFailureAt(c: Cfgs, archives: Archives, affected: seq<string>, compiles: Compiler)
    returns (n: nat)
    ensures FailureAt(c, archives, affected, compiles, n)
  {
    n := 0;
    if |affected| > 0 {
      var all := |affected| - 1;
      n := FirstFailureAt(c, archives, affected[..all], compiles);
      FailureNext(c, archives, affected, compiles, all, n);
      if FirstFailure(c, archives, affected[..all], compiles).None? {
        n := all;
      }
    }
  }

  /**
    With both: the error is of the target, or of a cycle among the packages to recompile, or of the first
    of these that does not compile against what was recompiled before it; and without an error all compile.
   */
  lemma PreparedFails(base: Cfgs, testDir: string, m: PkgMap, target: string, imports: set<string>, compiles: Compiler)
    returns (n: nat)
    ensures var start := Replaced(base, target, testDir + "/internal.a");
      var order := AffectedInOrder(m, target, imports * m.Keys);
      var r := Prepared(base, testDir, target, true, true, imports, m, compiles);
      if !compiles(target, base.comp) then r == Result.Failure(DoesNotCompile(target))
      else if order.Failure? then r == Result.Failure(ImportCycle(order.error))
      else if r.Failure? then
        r.error.DoesNotCompile?
        && FailsAt(start, RecompArchives(testDir), order.value, compiles, r.error.importPath, n)
      else
        && r.value == Recompiled(start, RecompArchives(testDir), order.value)
        && forall j: nat :: j < |order.value| ==>
             CompilesAt(start, RecompArchives(testDir), order.value, compiles, j)
  {
    n := 0;
    var order := AffectedInOrder(m, target, imports * m.Keys);
    if order.Success? {
      n := FirstFailureAt(Replaced(base, target, InternalArchive(testDir)), RecompArchives(testDir), order.value,
        compiles);
    }
  }

  lemma TargetStays(base: Cfgs, archives: Archives, target: string, internal: string, order: seq<string>)
    requires HasNoEquals(target) && PathsHaveNoEquals(order)
    requires target !in order && forall p :: p in order ==> archives(p) != internal
    ensures Replacing(Recompiled(Replaced(base, target, internal), archives, order), internal, target)
  {
    var start := Replaced(base, target, internal);
    ReplacedEntries(base, target, internal, target);
    RecompiledEntries(start, archives, order, target);
    OtherArchiveStays(start, archives, order, internal, Build(target, base.comp));
  }

  lemma OthersKeepEntries(base: Cfgs, archives: Archives, target: string, internal: string, order: seq<string>,
                          x: string)
    requires HasNoEquals(target) && HasNoEquals(x) && PathsHaveNoEquals(order) && x != target && x !in order
    ensures EntriesAre(Recompiled(Replaced(base, target, internal), archives, order), x, Entries(base.link, x),
      Entries(base.comp, x))
  {
    ReplacedEntries(base, target, internal, x);
    RecompiledEntries(Replaced(base, target, internal), archives, order, x);
  }

  /**
    No package the external test reaches is left on an archive built against the old target: it
    is the target, compiled with its tests, or was recompiled when all it depends on of the target
    and the affected packages had their final entries, or does not import the target and keeps the
    entries it had.
   */
  lemma ReachedAreFresh(base: Cfgs, testDir: string, m: PkgMap, target: string, imports: set<string>,
                        compiles: Compiler, x: string)
    requires target in m && (forall p :: p in m ==> HasNoEquals(p))
    requires Prepared(base, testDir, target, true, true, imports, m, compiles).Success?
    requires DistinctNames(AffectedSet(m, target, imports * m.Keys))
    requires x in m && ReachedFrom(Deps(m), imports * m.Keys, x)
    ensures var c := Prepared(base, testDir, target, true, true, imports, m, compiles).value;
      if x == target || Depends(Deps(m), x, target) then
        var archive, changed := TestArchive(testDir, target, x), AffectedSet(m, target, imports * m.Keys) + {target};
        Replacing(c, archive, x) && (x != target ==> CompiledAgainstFinal(c, m, changed, archive, x))
      else EntriesAre(c, x, Entries(base.link, x), Entries(base.comp, x))
  {
    var local, archives, internal := imports * m.Keys, RecompArchives(testDir), InternalArchive(testDir);
    var order := AffectedInOrder(m, target, local).value;
    AffectedAreOrdered(m, target, local);
    if x == target {
      forall p | p in order
        ensures archives(p) != internal
      {
        InternalIsOther(testDir, p);
      }
      TargetStays(base, archives, target, internal, order);
    } else if Depends(Deps(m), x, target) {
      RecompiledConsistentIff(Replaced(base, target, internal), testDir, m, target, local);
      assert Affected(m, target, local, x);
    } else {
      OthersKeepEntries(base, archives, target, internal, order, x);
    }
  }
}
