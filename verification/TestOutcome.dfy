/**
  What classify_test_packages (packages/go2nix-nix-plugin/rust/src/resolve.rs) is to return, in
  terms of the records alone: which packages, with which fields, and which test-only locals.
 */
module TestOutcome {
  import opened Wrappers
  import opened GoListing
  import opened Classify
  import opened ClassifyTests

  // ---- What becomes of a record ----

  /** The package whose directory a record is of: P for the external test of P. */
  function TestedPath(r: Rec): string {
    if Strip(r.path) == r.forTest + "_test" then r.forTest else Strip(r.path)
  }

  predicate ExcusedFor(c: Context, r: Rec, path: string) {
    r.error == MissingEmbed && TestedPath(r) == path && OverlaidBy(c.overlays, path, r.mod)
  }

  predicate IsTestReported(c: Context, r: Rec) {
    && r.error != NoError && !ExcusedFor(c, r, TestedPath(r)) && !EndsWith(Strip(r.path), ".test")
    && (Strip(r.path) in c.local || (r.forTest != "" && r.forTest in c.local))
  }

  /** Not a test main, nor a copy of the package under test or its external test, and it loads. */
  predicate Passes(c: Context, r: Rec) {
    && r.mod.Some? && !EndsWith(Strip(r.path), ".test")
    && (r.forTest != "" ==> Strip(r.path) != r.forTest && Strip(r.path) != r.forTest + "_test")
    && (r.error != NoError ==> ExcusedFor(c, r, TestedPath(r)))
  }

  /** A package of a module that the build graph does not have. */
  predicate TestThird(c: Context, r: Rec) {
    Passes(c, r) && OfOtherModule(r) && Strip(r.path) !in c.third
  }

  predicate TestLocal(c: Context, r: Rec) {
    Passes(c, r) && OfLocalModule(r) && Strip(r.path) !in c.local
  }

  /** Something to compile: Go, cgo or other sources, or a pattern that embeds some. */
  predicate HasFiles(r: Rec) {
    || |r.files.goFiles| > 0 || |r.files.cgoFiles| > 0 || |r.files.embedPatterns| > 0
    || exists k :: 0 <= k < |r.files.other| && |r.files.other[k]| > 0
  }

  /** A record of the package itself, which alone has test imports. */
  predicate ShowsImports(c: Context, r: Rec) {
    Passes(c, r) && OfLocalModule(r) && r.forTest == "" && |r.testImports| + |r.xtestImports| > 0
  }

  predicate ShowsEmbeds(c: Context, r: Rec) {
    Passes(c, r) && OfLocalModule(r) && Strip(r.path) in c.local && |r.testEmbeds| + |r.xtestEmbeds| > 0
  }

  /** A record under its name, and its imports under theirs, without the suffix of a copy. */
  function Renamed(r: Rec): Rec {
    r.(path := Strip(r.path), imports := StripAll(r.imports))
  }

  // ---- The first and the last record of a path ----

  predicate Qualifies(c: Context, k: Kind, r: Rec) {
    match k
    case NewThird => TestThird(c, r)
    case NewLocal => TestLocal(c, r)
    case Importer => ShowsImports(c, r)
    case Embedder => ShowsEmbeds(c, r)
  }

  ghost predicate FirstOf(c: Context, k: Kind, recs: seq<Rec>, i: nat) {
    && i < |recs| && Qualifies(c, k, recs[i])
    && forall j :: 0 <= j < i && Qualifies(c, k, recs[j]) ==> Strip(recs[j].path) != Strip(recs[i].path)
  }

  ghost predicate LastOf(c: Context, k: Kind, recs: seq<Rec>, i: nat) {
    && i < |recs| && Qualifies(c, k, recs[i])
    && forall j :: i < j < |recs| && Qualifies(c, k, recs[j]) ==> Strip(recs[j].path) != Strip(recs[i].path)
  }

  // ---- The result ----

  ghost predicate ThirdAt(c: Context, recs: seq<Rec>, i: nat, p: PkgData) {
    FirstOf(c, NewThird, recs, i) && IsPkgOf(p, Renamed(recs[i]))
  }

  /** One package for each path outside the build graph, as the first record of the path has it. */
  ghost predicate ThirdsGiven(c: Context, recs: seq<Rec>, packages: set<PkgData>) {
    && (forall p :: p in packages ==> exists i: nat :: ThirdAt(c, recs, i, p))
    && (forall i: nat :: FirstOf(c, NewThird, recs, i) ==> exists p :: p in packages && ThirdAt(c, recs, i, p))
  }

  ghost predicate EmbedsGiven(c: Context, recs: seq<Rec>, embedFiles: map<string, seq<string>>) {
    && (forall i: nat :: LastOf(c, Embedder, recs, i) ==>
          Strip(recs[i].path) in embedFiles
          && embedFiles[Strip(recs[i].path)] == recs[i].testEmbeds + recs[i].xtestEmbeds)
    && (forall p :: p in embedFiles ==> exists i: nat :: LastOf(c, Embedder, recs, i) && Strip(recs[i].path) == p)
  }

  ghost predicate UnresolvedGiven(c: Context, recs: seq<Rec>, unresolved: set<string>) {
    forall p :: p in unresolved <==> p in c.local && exists r :: r in recs && ExcusedFor(c, r, p)
  }

  /** The first test-only package of a replaced module version, after those the build pass knows. */
  ghost predicate FirstUnder(c: Context, recs: seq<Rec>, i: nat, k: ModKey) {
    && FirstOf(c, NewThird, recs, i) && ReplacedUnder(recs[i], k)
    && forall j: nat :: j < i && FirstOf(c, NewThird, recs, j) ==> !ReplacedUnder(recs[j], k)
  }

  ghost predicate ReplacementsGiven(c: Context, recs: seq<Rec>, known: map<ModKey, Target>,
                                    replacements: map<ModKey, Target>) {
    && (forall k :: k in known ==> k in replacements && replacements[k] == known[k])
    && (forall k, i: nat :: k !in known && FirstUnder(c, recs, i, k) ==>
          k in replacements && replacements[k] == recs[i].mod.value.replace.value)
    && (forall k :: k in replacements && k !in known ==> exists i: nat :: FirstUnder(c, recs, i, k))
  }

  ghost function TestPaths(c: Context, recs: seq<Rec>): set<string> {
    set r | r in recs && TestLocal(c, r) :: Strip(r.path)
  }

  function PkgPaths(packages: set<PkgData>): set<string> {
    set p | p in packages :: p.path
  }

  /** A test-only local package with something to compile, as the first record of its path has it. */
  ghost predicate LocalAt(c: Context, recs: seq<Rec>, packages: set<PkgData>, i: nat, lp: LocalPkg) {
    && FirstOf(c, NewLocal, recs, i) && HasFiles(recs[i]) && IsRawOf(lp.raw, Renamed(recs[i]))
    && ImportsSorted(lp, c.local + TestPaths(c, recs), c.third + PkgPaths(packages))
    && (lp.embedsUnresolved <==> exists r :: r in recs && ExcusedFor(c, r, lp.raw.path))
  }

  ghost predicate TestImports(c: Context, recs: seq<Rec>, ip: string, d: string) {
    exists i: nat :: LastOf(c, Importer, recs, i) && Strip(recs[i].path) == ip
                     && d in StripAll(recs[i].testImports + recs[i].xtestImports)
  }

  ghost predicate Imports(c: Context, recs: seq<Rec>, ip: string, d: string) {
    exists i: nat :: FirstOf(c, NewLocal, recs, i) && HasFiles(recs[i]) && Strip(recs[i].path) == ip
                     && d in StripAll(recs[i].imports)
  }

  /**
    A set with all that the tests need: what the tests of the build graph's local packages import,
    what a test-only package of a module in it imports, and what a test-only local package in it and
    its tests import.
   */
  ghost predicate FollowsTests(c: Context, recs: seq<Rec>, packages: set<PkgData>, xs: iset<string>) {
    && (forall ip, d :: ip in c.local && TestImports(c, recs, ip, d) ==> d in xs)
    && (forall p, d :: p in packages && p.path in xs && d in p.imports ==> d in xs)
    && (forall ip, d :: ip in xs && ip in TestPaths(c, recs) && ip !in PkgPaths(packages) ==>
          (Imports(c, recs, ip, d) || TestImports(c, recs, ip, d)) ==> d in xs)
  }

  /** In every such set. */
  ghost predicate IsNeeded(c: Context, recs: seq<Rec>, packages: set<PkgData>, p: string) {
    forall xs :: FollowsTests(c, recs, packages, xs) ==> p in xs
  }

  /** The test-only local packages that are needed, and no other. */
  ghost predicate LocalsGiven(c: Context, recs: seq<Rec>, packages: set<PkgData>, locals: set<LocalPkg>) {
    && (forall lp :: lp in locals ==> exists i: nat :: LocalAt(c, recs, packages, i, lp))
    && (forall i: nat ::
          FirstOf(c, NewLocal, recs, i) && HasFiles(recs[i]) && Strip(recs[i].path) !in PkgPaths(packages) ==>
          ((exists lp :: lp in locals && LocalAt(c, recs, packages, i, lp))
           <==> IsNeeded(c, recs, packages, Strip(recs[i].path))))
    && (forall lp :: lp in locals ==> lp.raw.path !in PkgPaths(packages))
  }

  ghost predicate IsTestResult(c: Context, recs: seq<Rec>, known: map<ModKey, Target>,
                               result: Result<TestPass, set<string>>) {
    match result
    case Failure(e) => e != {} && forall p :: p in e <==> exists r :: r in recs && IsTestReported(c, r) && r.path == p
    case Success(tp) =>
      && (forall r :: r in recs ==> !IsTestReported(c, r))
      && ThirdsGiven(c, recs, tp.packages) && EmbedsGiven(c, recs, tp.embedFiles)
      && UnresolvedGiven(c, recs, tp.unresolved) && ReplacementsGiven(c, recs, known, tp.replacements)
      && LocalsGiven(c, recs, tp.packages, tp.locals)
  }

  // ---- The conditions of the classifier are these ----

  lemma OwnerIs(r: Rec)
    ensures Owner(r) == TestedPath(r)
  {
    var bare := Strip(r.path);
    if EndsWith(bare, "_test") {
      assert bare == bare[..|bare| - 5] + "_test";
    }
    if bare == r.forTest + "_test" {
      assert bare[..|bare| - 5] == r.forTest && bare[|bare| - 5..] == "_test";
    }
  }

  lemma RecordIs(c: Context, r: Rec)
    ensures IsExcused(c, r) <==> ExcusedFor(c, r, TestedPath(r))
    ensures IsFatal(c, r) <==> IsTestReported(c, r)
    ensures IsRead(c, r) <==> Passes(c, r)
    ensures r.mod.Some? ==> (IsLocal(r.mod.value) <==> OfLocalModule(r))
    ensures NoFiles(r.files) <==> !HasFiles(r)
  {
    OwnerIs(r);
    forall k | 0 <= k < |r.files.other|
      ensures r.files.other[k] in r.files.other
    {
    }
  }

  lemma KindIs(c: Context, k: Kind, r: Rec)
    ensures Is(c, k, r) <==> Qualifies(c, k, r)
  {
    RecordIs(c, r);
  }

  lemma {:induction false} FirstAt(c: Context, k: Kind, recs: seq<Rec>, path: string) returns (i: nat)
    requires First(c, k, recs, path).Some?
    ensures i < |recs| && First(c, k, recs, path) == Some(recs[i]) && Joins(c, k, recs[i], path)
    ensures forall j :: 0 <= j < i ==> !Joins(c, k, recs[j], path)
  {
    var n := |recs| - 1;
    if First(c, k, recs[..n], path).Some? {
      i := FirstAt(c, k, recs[..n], path);
    } else {
      i := n;
      assert forall j :: 0 <= j < n ==> recs[j] in recs[..n];
    }
  }

  lemma {:induction false} LastAt(c: Context, k: Kind, recs: seq<Rec>, path: string) returns (i: nat)
    requires Last(c, k, recs, path).Some?
    ensures i < |recs| && Last(c, k, recs, path) == Some(recs[i]) && Joins(c, k, recs[i], path)
    ensures forall j :: i < j < |recs| ==> !Joins(c, k, recs[j], path)
  {
    var n := |recs| - 1;
    if Joins(c, k, recs[n], path) {
      i := n;
    } else {
      i := LastAt(c, k, recs[..n], path);
    }
  }

  lemma KindsAre(c: Context, k: Kind, recs: seq<Rec>)
    ensures forall j :: 0 <= j < |recs| ==> (Is(c, k, recs[j]) <==> Qualifies(c, k, recs[j]))
  {
    forall j | 0 <= j < |recs|
      ensures Is(c, k, recs[j]) <==> Qualifies(c, k, recs[j])
    {
      KindIs(c, k, recs[j]);
    }
  }

  /** The first record to qualify under a path is the one First gives, and the other way round. */
  lemma FirstFound(c: Context, k: Kind, recs: seq<Rec>, path: string) returns (i: nat)
    requires First(c, k, recs, path).Some?
    ensures FirstOf(c, k, recs, i) && Strip(recs[i].path) == path && First(c, k, recs, path) == Some(recs[i])
  {
    KindsAre(c, k, recs);
    i := FirstAt(c, k, recs, path);
  }

  lemma FirstIs(c: Context, k: Kind, recs: seq<Rec>, i: nat)
    requires FirstOf(c, k, recs, i)
    ensures First(c, k, recs, Strip(recs[i].path)) == Some(recs[i]) && Is(c, k, recs[i])
  {
    KindsAre(c, k, recs);
    assert recs[i] in recs;
    var j := FirstAt(c, k, recs, Strip(recs[i].path));
    assert j == i;
  }

  lemma LastFound(c: Context, k: Kind, recs: seq<Rec>, path: string) returns (i: nat)
    requires Last(c, k, recs, path).Some?
    ensures LastOf(c, k, recs, i) && Strip(recs[i].path) == path && Last(c, k, recs, path) == Some(recs[i])
  {
    KindsAre(c, k, recs);
    i := LastAt(c, k, recs, path);
  }

  lemma LastIs(c: Context, k: Kind, recs: seq<Rec>, i: nat)
    requires LastOf(c, k, recs, i)
    ensures Last(c, k, recs, Strip(recs[i].path)) == Some(recs[i]) && Is(c, k, recs[i])
  {
    KindsAre(c, k, recs);
    assert recs[i] in recs;
    var j := LastAt(c, k, recs, Strip(recs[i].path));
    assert j == i;
  }

  // ---- What is collected is what is to be given ----

  lemma PackageIs(r: Rec)
    requires r.mod.Some?
    ensures IsPkgOf(PkgOf(Normal(r), r.mod.value), Renamed(r))
  {
  }

  lemma RenamedRaw(r: Rec)
    requires r.mod.Some?
    ensures IsRawOf(RawOf(Normal(r), r.mod.value), Renamed(r))
  {
    RawIs(Normal(r));
    assert forall f :: IsSource(Normal(r), f) <==> IsSource(Renamed(r), f);
  }

  /** A package of a module is filed under its own path. */
  lemma PackageFiled(c: Context, recs: seq<Rec>, p: string) returns (i: nat)
    requires p in PackagesMet(c, recs)
    ensures FirstOf(c, NewThird, recs, i) && Strip(recs[i].path) == p
    ensures PackagesMet(c, recs)[p].path == p && IsPkgOf(PackagesMet(c, recs)[p], Renamed(recs[i]))
  {
    i := FirstFound(c, NewThird, recs, p);
    PackageIs(recs[i]);
  }

  lemma PackageMet(c: Context, recs: seq<Rec>, i: nat)
    requires FirstOf(c, NewThird, recs, i)
    ensures var p := Strip(recs[i].path); p in PackagesMet(c, recs) && ThirdAt(c, recs, i, PackagesMet(c, recs)[p])
  {
    FirstIs(c, NewThird, recs, i);
    PackageIs(recs[i]);
    assert Strip(recs[i].path) in PathsOf(c, NewThird, recs);
  }

  /** Packages that are all filed under their own paths. */
  ghost predicate Filed(m: map<string, PkgData>) {
    forall p :: p in m ==> m[p].path == p
  }

  lemma FiledValues(m: map<string, PkgData>, ip: string, d: string)
    requires Filed(m)
    ensures (exists p :: p in m.Values && p.path == ip && d in p.imports) <==> ip in m && d in m[ip].imports
    ensures ip in PkgPaths(m.Values) <==> ip in m
  {
    assert ip in m ==> m[ip] in m.Values;
  }

  lemma PackagesFiled(c: Context, recs: seq<Rec>)
    ensures Filed(PackagesMet(c, recs))
  {
    forall p | p in PackagesMet(c, recs)
      ensures PackagesMet(c, recs)[p].path == p
    {
      var i := PackageFiled(c, recs, p);
    }
  }

  lemma PkgPathsAre(c: Context, recs: seq<Rec>)
    ensures PkgPaths(PackagesMet(c, recs).Values) == PackagesMet(c, recs).Keys
  {
    PackagesFiled(c, recs);
    forall p
      ensures p in PkgPaths(PackagesMet(c, recs).Values) <==> p in PackagesMet(c, recs)
    {
      FiledValues(PackagesMet(c, recs), p, "");
    }
  }

  lemma ThirdsAre(c: Context, recs: seq<Rec>)
    ensures ThirdsGiven(c, recs, PackagesMet(c, recs).Values)
  {
    var m := PackagesMet(c, recs);
    forall q | q in m.Values
      ensures exists i: nat :: ThirdAt(c, recs, i, q)
    {
      var p :| p in m && m[p] == q;
      var i := PackageFiled(c, recs, p);
      assert ThirdAt(c, recs, i, q);
    }
    forall i: nat | FirstOf(c, NewThird, recs, i)
      ensures exists p :: p in m.Values && ThirdAt(c, recs, i, p)
    {
      PackageMet(c, recs, i);
      assert m[Strip(recs[i].path)] in m.Values;
    }
  }

  lemma EmbedsAre(c: Context, recs: seq<Rec>)
    ensures EmbedsGiven(c, recs, EmbedsMet(c, recs))
  {
    forall i: nat | LastOf(c, Embedder, recs, i)
      ensures var p := Strip(recs[i].path);
        p in EmbedsMet(c, recs) && EmbedsMet(c, recs)[p] == recs[i].testEmbeds + recs[i].xtestEmbeds
    {
      LastIs(c, Embedder, recs, i);
      assert Strip(recs[i].path) in PathsOf(c, Embedder, recs);
    }
    forall p | p in EmbedsMet(c, recs)
      ensures exists i: nat :: LastOf(c, Embedder, recs, i) && Strip(recs[i].path) == p
    {
      var i := LastFound(c, Embedder, recs, p);
    }
  }

  lemma ExcusedAre(c: Context, recs: seq<Rec>, p: string)
    ensures p in Unresolved(c, RecSet(recs)) <==> exists r :: r in recs && ExcusedFor(c, r, p)
  {
    if p in Unresolved(c, RecSet(recs)) {
      var r :| r in recs && IsExcused(c, r) && Owner(r) == p;
      OwnerIs(r);
      RecordIs(c, r);
    }
    if r :| r in recs && ExcusedFor(c, r, p) {
      OwnerIs(r);
      RecordIs(c, r);
      assert r in RecSet(recs);
    }
  }

  lemma UnresolvedAre(c: Context, recs: seq<Rec>)
    ensures UnresolvedGiven(c, recs, Unresolved(c, RecSet(recs)) * c.local)
  {
    forall p
      ensures p in Unresolved(c, RecSet(recs)) <==> exists r :: r in recs && ExcusedFor(c, r, p)
    {
      ExcusedAre(c, recs, p);
    }
  }

  lemma FatalAre(c: Context, recs: seq<Rec>, p: string)
    ensures p in Fatal(c, RecSet(recs)) <==> exists r :: r in recs && IsTestReported(c, r) && r.path == p
  {
    if p in Fatal(c, RecSet(recs)) {
      var r :| r in recs && IsFatal(c, r) && r.path == p;
      RecordIs(c, r);
    }
    if r :| r in recs && IsTestReported(c, r) && r.path == p {
      RecordIs(c, r);
      assert r in RecSet(recs);
    }
  }

  lemma ReplacesIs(r: Rec, k: ModKey)
    ensures Replaces(r, k) <==> ReplacedUnder(r, k)
    ensures Replaces(r, k) ==> TargetOf(r.mod.value) == r.mod.value.replace.value
  {
  }

  lemma FirstReplacedMore(before: seq<Rec>, more: seq<Rec>, k: ModKey)
    requires |more| <= 1
    ensures FirstReplaced(before + more, k) == if FirstReplaced(before, k).Some? then FirstReplaced(before, k)
      else if |more| > 0 && Replaces(more[0], k) then Some(more[0]) else None
  {
    if |more| == 0 {
      assert before + more == before;
    } else {
      assert (before + more)[..|before|] == before;
    }
  }

  lemma FirstsBefore(c: Context, recs: seq<Rec>, n: nat)
    requires n <= |recs|
    ensures forall j: nat :: j < n ==> (FirstOf(c, NewThird, recs, j) <==> FirstOf(c, NewThird, recs[..n], j))
    ensures forall i: nat, k :: i < n ==> (FirstUnder(c, recs, i, k) <==> FirstUnder(c, recs[..n], i, k))
  {
    forall j: nat | j < n
      ensures FirstOf(c, NewThird, recs, j) <==> FirstOf(c, NewThird, recs[..n], j)
    {
    }
  }

  /** i is where the first of the firsts with a replaced version stands among all records, if there is one. */
  ghost predicate ReplacedAt(c: Context, recs: seq<Rec>, k: ModKey, i: nat) {
    var found := FirstReplaced(Firsts(c, recs), k);
    if found.Some? then FirstUnder(c, recs, i, k) && found == Some(recs[i])
    else forall j: nat :: FirstOf(c, NewThird, recs, j) ==> !ReplacedUnder(recs[j], k)
  }

  lemma ReplacedStays(c: Context, recs: seq<Rec>, k: ModKey, n: nat, i: nat)
    requires |recs| == n + 1 && ReplacedAt(c, recs[..n], k, i) && FirstReplaced(Firsts(c, recs[..n]), k).Some?
    ensures ReplacedAt(c, recs, k, i)
  {
    FirstsBefore(c, recs, n);
    LastFirst(c, recs);
    FirstReplacedMore(Firsts(c, recs[..n]), if FirstOf(c, NewThird, recs, n) then [recs[n]] else [], k);
  }

  lemma ReplacedLast(c: Context, recs: seq<Rec>, k: ModKey, n: nat, i: nat)
    requires |recs| == n + 1 && ReplacedAt(c, recs[..n], k, i) && FirstReplaced(Firsts(c, recs[..n]), k).None?
    ensures ReplacedAt(c, recs, k, n)
  {
    FirstsBefore(c, recs, n);
    LastFirst(c, recs);
    ReplacesIs(recs[n], k);
    FirstReplacedMore(Firsts(c, recs[..n]), if FirstOf(c, NewThird, recs, n) then [recs[n]] else [], k);
  }

  lemma {:induction false} FirstReplacedAt(c: Context, recs: seq<Rec>, k: ModKey) returns (i: nat)
    ensures ReplacedAt(c, recs, k, i)
  {
    i := 0;
    if |recs| > 0 {
      var n := |recs| - 1;
      i := FirstReplacedAt(c, recs[..n], k);
      if FirstReplaced(Firsts(c, recs[..n]), k).Some? {
        ReplacedStays(c, recs, k, n, i);
      } else {
        ReplacedLast(c, recs, k, n, i);
        i := n;
      }
    }
  }

  lemma LastFirst(c: Context, recs: seq<Rec>)
    requires |recs| > 0
    ensures var n := |recs| - 1;
      Firsts(c, recs) == Firsts(c, recs[..n]) + if FirstOf(c, NewThird, recs, n) then [recs[n]] else []
  {
    var n := |recs| - 1;
    var init := recs[..n];
    KindsAre(c, NewThird, recs);
    if First(c, NewThird, init, Strip(recs[n].path)).Some? {
      var j := FirstAt(c, NewThird, init, Strip(recs[n].path));
    } else {
      assert forall j :: 0 <= j < n ==> recs[j] in init;
    }
  }

  lemma ReplacementsAre(c: Context, recs: seq<Rec>, known: map<ModKey, Target>)
    ensures ReplacementsGiven(c, recs, known, Replacing(Firsts(c, recs)) + known)
  {
    var found := Replacing(Firsts(c, recs));
    forall k, i: nat | k !in known && FirstUnder(c, recs, i, k)
      ensures k in found && found[k] == recs[i].mod.value.replace.value
    {
      var j := FirstReplacedAt(c, recs, k);
      assert i == j;
      ReplacesIs(recs[i], k);
      assert k in KeysOf(Firsts(c, recs));
    }
    forall k | k in found
      ensures exists i: nat :: FirstUnder(c, recs, i, k)
    {
      var j := FirstReplacedAt(c, recs, k);
      assert FirstUnder(c, recs, j, k);
    }
  }

  lemma TestPathsAre(c: Context, recs: seq<Rec>)
    ensures TestPaths(c, recs) == LocalPaths(c, RecSet(recs))
  {
    forall r | r in recs
      ensures IsNewLocal(c, r) <==> TestLocal(c, r)
    {
      KindIs(c, NewLocal, r);
    }
  }

  lemma RawMet(c: Context, recs: seq<Rec>, i: nat)
    requires FirstOf(c, NewLocal, recs, i) && HasFiles(recs[i])
    ensures var p := Strip(recs[i].path);
      p in RawsMet(c, recs) && RawsMet(c, recs)[p] == RawOf(Normal(recs[i]), recs[i].mod.value)
  {
    FirstIs(c, NewLocal, recs, i);
    RecordIs(c, recs[i]);
    assert Strip(recs[i].path) in PathsOf(c, NewLocal, recs);
  }

  lemma RawFound(c: Context, recs: seq<Rec>, p: string) returns (i: nat)
    requires p in RawsMet(c, recs)
    ensures FirstOf(c, NewLocal, recs, i) && HasFiles(recs[i]) && Strip(recs[i].path) == p
    ensures RawsMet(c, recs)[p] == RawOf(Normal(recs[i]), recs[i].mod.value)
  {
    i := FirstFound(c, NewLocal, recs, p);
    RecordIs(c, recs[i]);
  }

  lemma ImportsAre(c: Context, recs: seq<Rec>, ip: string, d: string)
    ensures Imports(c, recs, ip, d) <==> ip in RawsMet(c, recs) && d in RawsMet(c, recs)[ip].imports
  {
    if Imports(c, recs, ip, d) {
      var i: nat :| FirstOf(c, NewLocal, recs, i) && HasFiles(recs[i]) && Strip(recs[i].path) == ip
        && d in StripAll(recs[i].imports);
      RawMet(c, recs, i);
    }
    if ip in RawsMet(c, recs) {
      var i := RawFound(c, recs, ip);
    }
  }

  lemma TestImportsAre(c: Context, recs: seq<Rec>, ip: string, d: string)
    ensures TestImports(c, recs, ip, d) <==> ip in ImportsMet(c, recs) && d in ImportsMet(c, recs)[ip]
  {
    if TestImports(c, recs, ip, d) {
      var i: nat :| LastOf(c, Importer, recs, i) && Strip(recs[i].path) == ip
        && d in StripAll(recs[i].testImports + recs[i].xtestImports);
      LastIs(c, Importer, recs, i);
      assert ip in PathsOf(c, Importer, recs);
    }
    if ip in ImportsMet(c, recs) {
      var i := LastFound(c, Importer, recs, ip);
    }
  }

  /** All of it but the local packages. */
  lemma GivenBesideLocals(c: Context, recs: seq<Rec>, known: map<ModKey, Target>)
    ensures var st := CollectedFrom(c, recs, known);
      && ThirdsGiven(c, recs, st.packages.Values) && EmbedsGiven(c, recs, st.embedFiles)
      && UnresolvedGiven(c, recs, st.unresolved * c.local) && ReplacementsGiven(c, recs, known, st.replacements)
  {
    ThirdsAre(c, recs);
    EmbedsAre(c, recs);
    UnresolvedAre(c, recs);
    ReplacementsAre(c, recs, known);
  }
}
