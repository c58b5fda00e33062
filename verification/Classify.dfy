/**
  classify_go_packages (packages/go2nix-nix-plugin/rust/src/resolve.rs): the records of the build
  pass as a package graph. Vectors whose order the JSON output does not keep are sets here.
 */
module Classify {
  import opened Wrappers
  import opened Graphs
  import opened Seqs
  import opened GoListing
  import opened Maps

  datatype PkgData = PkgData(
    path: string, modPath: string, modVersion: string, replaceVersion: string, imports: seq<string>,
    pkgConfig: seq<string>, cflags: seq<string>, ldflags: seq<string>, isCgo: bool, files: Sources)

  datatype RawLocal = RawLocal(
    path: string, dir: string, modPath: string, imports: seq<string>,
    pkgConfig: seq<string>, cflags: seq<string>, ldflags: seq<string>, isCgo: bool, files: Sources,
    mainSrcFiles: set<string>, embedPatterns: set<string>)

  /** A local package, its imports sorted into those of local packages and those of modules. */
  datatype LocalPkg = LocalPkg(raw: RawLocal, localImports: seq<string>, thirdPartyImports: seq<string>,
                               embedsUnresolved: bool)

  datatype Sibling = Sibling(path: string, version: string, goVersion: string, replaceDir: string)

  datatype ModKey = ModKey(path: string, version: string)

  datatype Graph = Graph(
    packages: set<PkgData>, locals: set<LocalPkg>, thirdPartyPaths: set<string>, localPaths: set<string>,
    replacements: map<ModKey, Target>, localReplaceModPaths: set<string>, siblingModules: map<string, Sibling>,
    modulePath: string, goVersion: string,
    testPackages: set<PkgData>, testLocals: set<LocalPkg>, testOnlyPaths: set<string>)

  /** packageOverrides, and whether each sets srcOverlay. */
  type Overlays = map<string, bool>

  /** overlay_supplies: an entry for the import path shadows one for the module. */
  predicate OverlaySupplies(overlays: Overlays, importPath: string, mod: Option<Module>) {
    if importPath in overlays then overlays[importPath]
    else mod.Some? && mod.value.path in overlays && overlays[mod.value.path]
  }

  // ---- What one record becomes ----

  function Union(lists: seq<seq<string>>): set<string> {
    set l, f | l in lists && f in l :: f
  }

  /** The source files the build must see, without the files only tests embed. */
  function BuildSrcFiles(r: Rec): set<string> {
    ToSet(r.files.goFiles) + ToSet(r.files.cgoFiles) + Union(r.files.other) + ToSet(r.embedFiles)
    + ToSet(r.testFiles) + ToSet(r.xtestFiles)
  }

  function TestEmbeds(r: Rec): set<string> {
    ToSet(r.testEmbeds) + ToSet(r.xtestEmbeds)
  }

  /** main_src_files_from. */
  function MainSrcFiles(r: Rec): set<string> {
    BuildSrcFiles(r) + TestEmbeds(r)
  }

  function PkgOf(r: Rec, m: Module): PkgData {
    PkgData(r.path, m.path, m.version, ReplaceVersion(m), r.imports,
            r.info.pkgConfig, r.info.cflags, r.info.ldflags, r.files.cgoFiles != [], r.files)
  }

  function RawOf(r: Rec, m: Module): RawLocal {
    RawLocal(r.path, r.info.dir, m.path, r.imports, r.info.pkgConfig, r.info.cflags, r.info.ldflags,
             r.files.cgoFiles != [], r.files, MainSrcFiles(r), ToSet(r.files.embedPatterns) + ToSet(r.testPatterns))
  }

  /** The imports sorted: to a local package, else to one of a module, else neither (the standard library). */
  function LocalOf(raw: RawLocal, local: set<string>, third: set<string>, unresolved: bool): LocalPkg {
    LocalPkg(raw, Selected(raw.imports, local), Selected(raw.imports, third - local), unresolved)
  }

  /** lang_version: a version up to its second dot. */
  function LangVersion(v: string): string {
    CutAtDot(v, 1)
  }

  function CutAtDot(v: string, dots: nat): string {
    if |v| == 0 || (v[0] == '.' && dots == 0) then ""
    else [v[0]] + CutAtDot(v[1..], if v[0] == '.' then dots - 1 else dots)
  }

  lemma {:induction false} CutsBehind(v: string, rest: string, dots: nat)
    requires '.' !in v
    ensures CutAtDot(v + rest, dots) == v + CutAtDot(rest, dots)
  {
    if |v| == 0 {
      assert v + rest == rest;
    } else {
      assert (v + rest)[1..] == v[1..] + rest && (v + rest)[0] == v[0];
      CutsBehind(v[1..], rest, dots);
      assert v == [v[0]] + v[1..];
    }
  }

  /** major.minor, whatever comes behind a second dot. */
  lemma LangVersionIs(major: string, minor: string, rest: string)
    requires '.' !in major && '.' !in minor
    ensures LangVersion(major) == major
    ensures LangVersion(major + ("." + minor)) == major + ("." + minor)
    ensures LangVersion(major + ("." + (minor + ("." + rest)))) == major + ("." + minor)
  {
    CutsBehind(major, "", 1);
    CutsBehind(minor, "", 0);
    CutsBehind(minor, "." + rest, 0);
    assert major + "" == major && minor + "" == minor;
    CutsBehind(major, "." + minor, 1);
    CutsBehind(major, "." + (minor + ("." + rest)), 1);
    assert ("." + minor)[1..] == minor && ("." + (minor + ("." + rest)))[1..] == minor + ("." + rest);
  }

  // ---- What a set of modules gives, whatever order they come in ----

  predicate IsReplaced(m: Module) {
    !IsLocal(m) && ReplacePath(m) != ""
  }

  function KeyOf(m: Module): ModKey {
    ModKey(m.path, if ReplaceVersion(m) == "" then m.version else ReplaceVersion(m))
  }

  function TargetOf(m: Module): Target {
    Target(ReplacePath(m), ReplaceVersion(m))
  }

  function SiblingOf(m: Module): Sibling {
    Sibling(m.path, m.version, LangVersion(m.goVersion), ReplacePath(m))
  }

  predicate IsSibling(m: Module) {
    IsLocal(m) && !m.main
  }

  /** One module of each path, and one main module. */
  ghost predicate OneVersion(ms: set<Module>) {
    forall m, n :: m in ms && n in ms && (m.path == n.path || (m.main && n.main)) ==> m == n
  }

  ghost function ReplacementPairs(ms: set<Module>): set<(ModKey, Target)> {
    set m | m in ms && IsReplaced(m) :: (KeyOf(m), TargetOf(m))
  }

  ghost function SiblingPairs(ms: set<Module>): set<(string, Sibling)> {
    set m | m in ms && IsSibling(m) :: (m.path, SiblingOf(m))
  }

  ghost function Replacements(ms: set<Module>): map<ModKey, Target> {
    MapOf(ReplacementPairs(ms))
  }

  ghost function Siblings(ms: set<Module>): map<string, Sibling> {
    MapOf(SiblingPairs(ms))
  }

  ghost function MainOf(ms: set<Module>): Option<Module> {
    if m :| m in ms && m.main then Some(m) else None
  }

  function PathOf(m: Option<Module>): string {
    if m.Some? then m.value.path else ""
  }

  function LangOf(m: Option<Module>): string {
    if m.Some? && m.value.goVersion != "" then LangVersion(m.value.goVersion) else ""
  }

  // ---- What a set of records gives ----

  predicate IsAccepted(r: Rec, overlays: Overlays) {
    r.error == NoError || (r.error == MissingEmbed && OverlaySupplies(overlays, r.path, r.mod))
  }

  ghost function Failing(s: set<Rec>, overlays: Overlays): set<string> {
    set r | r in s && !IsAccepted(r, overlays) :: r.path
  }

  /** The records outside the standard library that load. */
  ghost function Loaded(s: set<Rec>, overlays: Overlays): set<Rec> {
    set r | r in s && IsAccepted(r, overlays) && r.mod.Some?
  }

  ghost function LocalRecs(s: set<Rec>): set<Rec> {
    set r | r in s && r.mod.Some? && IsLocal(r.mod.value)
  }

  ghost function ThirdRecs(s: set<Rec>): set<Rec> {
    set r | r in s && r.mod.Some? && !IsLocal(r.mod.value)
  }

  ghost function Paths(s: set<Rec>): set<string> {
    set r | r in s :: r.path
  }

  ghost function Mods(s: set<Rec>): set<Module> {
    set r | r in s && r.mod.Some? :: r.mod.value
  }

  ghost function Pkgs(s: set<Rec>): set<PkgData> {
    set r | r in ThirdRecs(s) :: PkgOf(r, r.mod.value)
  }

  datatype Sorted = Sorted(raw: RawLocal, unresolved: bool)

  ghost function Raws(s: set<Rec>): set<Sorted> {
    set r | r in LocalRecs(s) :: Sorted(RawOf(r, r.mod.value), r.error == MissingEmbed)
  }

  function Sort(raws: set<Sorted>, local: set<string>, third: set<string>): set<LocalPkg> {
    set x | x in raws :: LocalOf(x.raw, local, third, x.unresolved)
  }

  ghost function SiblingPaths(ms: set<Module>): set<string> {
    set m | m in ms && IsSibling(m) :: m.path
  }

  /** The graph of the records of a build pass, or the packages that do not load. */
  ghost function BuildGraph(s: set<Rec>, overlays: Overlays): Result<Graph, set<string>> {
    var k := Loaded(s, overlays);
    var ms := Mods(k);
    var local, third := Paths(LocalRecs(k)), Paths(ThirdRecs(k));
    if Failing(s, overlays) != {} then Failure(Failing(s, overlays))
    else
      Success(Graph(Pkgs(k), Sort(Raws(k), local, third), third, local, Replacements(ms), SiblingPaths(ms),
        Siblings(ms),
                    PathOf(MainOf(ms)), LangOf(MainOf(ms)), {}, {}, {}))
  }

  // ---- What the graph says of the records, field by field ----

  /** Of the main module, or of one replaced with a directory: a replacement that has no version. */
  predicate OfLocalModule(r: Rec) {
    r.mod.Some? && (r.mod.value.main || match r.mod.value.replace
                                        case None => false
                                        case Some(t) => t.path != "" && t.version == "")
  }

  predicate OfOtherModule(r: Rec) {
    r.mod.Some? && !OfLocalModule(r)
  }

  /** The package's own packageOverrides entry decides, the one of its module where it has none. */
  predicate OverlaidBy(overlays: Overlays, importPath: string, mod: Option<Module>) {
    || (importPath in overlays && overlays[importPath])
    || (importPath !in overlays && mod.Some? && mod.value.path in overlays && overlays[mod.value.path])
  }

  ghost predicate IsPkgOf(p: PkgData, r: Rec) {
    && r.mod.Some? && p.modPath == r.mod.value.path && p.modVersion == r.mod.value.version
    && (match r.mod.value.replace case None => p.replaceVersion == "" case Some(t) => p.replaceVersion == t.version)
    && p.path == r.path && p.imports == r.imports && p.files == r.files
    && p.pkgConfig == r.info.pkgConfig && p.cflags == r.info.cflags && p.ldflags == r.info.ldflags
    && (p.isCgo <==> |r.files.cgoFiles| > 0)
  }

  /** The sixteen lists: Go, cgo and the nine other kinds, the tests of both sorts, and what each embeds. */
  predicate IsSource(r: Rec, f: string) {
    || f in r.files.goFiles || f in r.files.cgoFiles
    || (exists k :: 0 <= k < |r.files.other| && f in r.files.other[k])
    || f in r.embedFiles || f in r.testFiles || f in r.xtestFiles || f in r.testEmbeds || f in r.xtestEmbeds
  }

  ghost predicate IsRawOf(l: RawLocal, r: Rec) {
    && r.mod.Some? && l.modPath == r.mod.value.path
    && l.path == r.path && l.dir == r.info.dir && l.imports == r.imports && l.files == r.files
    && l.pkgConfig == r.info.pkgConfig && l.cflags == r.info.cflags && l.ldflags == r.info.ldflags
    && (l.isCgo <==> |r.files.cgoFiles| > 0)
    && (forall f :: f in l.mainSrcFiles <==> IsSource(r, f))
    && (forall p :: p in l.embedPatterns <==> p in r.files.embedPatterns || p in r.testPatterns)
  }

  /**
    The imports of local packages, and those of modules' packages that are not also local, each list
    in the order of the imports; the standard library's are in neither.
   */
  ghost predicate ImportsSorted(lp: LocalPkg, local: set<string>, third: set<string>) {
    && (forall i :: i in lp.localImports <==> i in lp.raw.imports && i in local)
    && (forall i :: i in lp.thirdPartyImports <==> i in lp.raw.imports && i in third && i !in local)
    && IsSubsequence(lp.localImports, lp.raw.imports) && IsSubsequence(lp.thirdPartyImports, lp.raw.imports)
  }

  ghost predicate PathsClassified(s: set<Rec>, g: Graph) {
    && (forall p :: p in g.localPaths <==> exists r :: r in s && OfLocalModule(r) && r.path == p)
    && (forall p :: p in g.thirdPartyPaths <==> exists r :: r in s && OfOtherModule(r) && r.path == p)
  }

  ghost predicate IsLocalOf(lp: LocalPkg, r: Rec, g: Graph) {
    && IsRawOf(lp.raw, r) && (lp.embedsUnresolved <==> r.error != NoError)
    && ImportsSorted(lp, g.localPaths, g.thirdPartyPaths)
  }

  /** One package for each record, local or of a module. */
  ghost predicate PackagesClassified(s: set<Rec>, g: Graph) {
    && (forall p :: p in g.packages ==> exists r :: r in s && OfOtherModule(r) && IsPkgOf(p, r))
    && (forall r :: r in s && OfOtherModule(r) ==> exists p :: p in g.packages && IsPkgOf(p, r))
    && (forall lp :: lp in g.locals ==> exists r :: r in s && OfLocalModule(r) && IsLocalOf(lp, r, g))
    && (forall r :: r in s && OfLocalModule(r) ==> exists lp :: lp in g.locals && IsLocalOf(lp, r, g))
  }

  predicate OfReplaced(r: Rec) {
    OfOtherModule(r) && r.mod.value.replace.Some? && r.mod.value.replace.value.path != ""
  }

  predicate ReplacedUnder(r: Rec, k: ModKey) {
    OfReplaced(r) && r.mod.value.path == k.path && r.mod.value.replace.value.version == k.version
  }

  predicate OfSibling(r: Rec) {
    OfLocalModule(r) && !r.mod.value.main
  }

  /** A replaced module is filed under its path and the version that replaces its own, a sibling under its path. */
  ghost predicate ModulesClassified(s: set<Rec>, g: Graph) {
    && (forall r :: r in s && OfReplaced(r) ==>
          var m := r.mod.value;
          var k := ModKey(m.path, m.replace.value.version);
          k in g.replacements && g.replacements[k] == m.replace.value)
    && (forall k :: k in g.replacements ==> exists r :: r in s && ReplacedUnder(r, k))
    && (forall r :: r in s && OfSibling(r) ==>
          var m := r.mod.value;
          m.path in g.siblingModules && g.siblingModules[m.path]
            == Sibling(m.path, m.version, LangVersion(m.goVersion), m.replace.value.path))
    && (forall p :: p in g.siblingModules <==> exists r :: r in s && OfSibling(r) && r.mod.value.path == p)
    && g.localReplaceModPaths == g.siblingModules.Keys
    && (forall r :: r in s && InMainModule(r) ==>
          g.modulePath == r.mod.value.path && g.goVersion == LangVersion(r.mod.value.goVersion))
    && ((forall r :: r in s ==> !InMainModule(r)) ==> g.modulePath == "" && g.goVersion == "")
  }

  /** The build graph of the records: nothing in it that is not in them, and nothing of theirs missing. */
  ghost predicate IsClassified(s: set<Rec>, g: Graph) {
    && PathsClassified(s, g) && PackagesClassified(s, g) && ModulesClassified(s, g)
    && g.testPackages == {} && g.testLocals == {} && g.testOnlyPaths == {}
  }

  /** A package does not load: an error other than an embed's, or one no overlay makes up for. */
  predicate IsReported(r: Rec, overlays: Overlays) {
    r.error != NoError && !(r.error == MissingEmbed && OverlaidBy(overlays, r.path, r.mod))
  }

  lemma PathsAre(s: set<Rec>, g: Graph)
    requires g.localPaths == Paths(LocalRecs(s)) && g.thirdPartyPaths == Paths(ThirdRecs(s))
    ensures PathsClassified(s, g)
  {
    forall r | r in s
      ensures r in LocalRecs(s) <==> OfLocalModule(r)
      ensures r in ThirdRecs(s) <==> OfOtherModule(r)
    {
    }
    forall p | p in g.localPaths
      ensures exists r :: r in s && OfLocalModule(r) && r.path == p
    {
      var r :| r in LocalRecs(s) && r.path == p;
    }
    forall p | p in g.thirdPartyPaths
      ensures exists r :: r in s && OfOtherModule(r) && r.path == p
    {
      var r :| r in ThirdRecs(s) && r.path == p;
    }
  }

  lemma RawIs(r: Rec)
    requires r.mod.Some?
    ensures IsRawOf(RawOf(r, r.mod.value), r)
  {
    forall f
      ensures f in Union(r.files.other) <==> exists k :: 0 <= k < |r.files.other| && f in r.files.other[k]
    {
      if k :| 0 <= k < |r.files.other| && f in r.files.other[k] {
        assert r.files.other[k] in r.files.other;
      }
    }
  }

  lemma ImportsAreSorted(raw: RawLocal, local: set<string>, third: set<string>, unresolved: bool)
    ensures ImportsSorted(LocalOf(raw, local, third, unresolved), local, third)
  {
    SelectedInOrder(raw.imports, local);
    SelectedInOrder(raw.imports, third - local);
  }

  lemma PackagesAre(s: set<Rec>, g: Graph)
    requires g.packages == Pkgs(s)
    requires g.locals == Sort(Raws(s), g.localPaths, g.thirdPartyPaths)
    requires forall r :: r in s ==> r.error == NoError || r.error == MissingEmbed
    ensures PackagesClassified(s, g)
  {
    forall p | p in g.packages
      ensures exists r :: r in s && OfOtherModule(r) && IsPkgOf(p, r)
    {
      var r :| r in ThirdRecs(s) && p == PkgOf(r, r.mod.value);
      assert OfOtherModule(r) && IsPkgOf(p, r);
    }
    forall r | r in s && OfOtherModule(r)
      ensures exists p :: p in g.packages && IsPkgOf(p, r)
    {
      var p := PkgOf(r, r.mod.value);
      assert r in ThirdRecs(s) && IsPkgOf(p, r);
    }
    LocalsAre(s, g);
  }

  lemma LocalIs(r: Rec, g: Graph)
    requires r.mod.Some? && (r.error == NoError || r.error == MissingEmbed)
    ensures IsLocalOf(LocalOf(RawOf(r, r.mod.value), g.localPaths, g.thirdPartyPaths, r.error == MissingEmbed), r, g)
  {
    RawIs(r);
    ImportsAreSorted(RawOf(r, r.mod.value), g.localPaths, g.thirdPartyPaths, r.error == MissingEmbed);
  }

  /** The local packages are those of the local records. */
  lemma LocalsFrom(s: set<Rec>, local: set<string>, third: set<string>, lp: LocalPkg)
    ensures lp in Sort(Raws(s), local, third) <==>
      exists r :: r in LocalRecs(s) && lp == LocalOf(RawOf(r, r.mod.value), local, third, r.error == MissingEmbed)
  {
    if lp in Sort(Raws(s), local, third) {
      var x :| x in Raws(s) && lp == LocalOf(x.raw, local, third, x.unresolved);
      var r :| r in LocalRecs(s) && x == Sorted(RawOf(r, r.mod.value), r.error == MissingEmbed);
    }
    if r :| r in LocalRecs(s) && lp == LocalOf(RawOf(r, r.mod.value), local, third, r.error == MissingEmbed) {
      assert Sorted(RawOf(r, r.mod.value), r.error == MissingEmbed) in Raws(s);
    }
  }

  lemma LocalsAre(s: set<Rec>, g: Graph)
    requires g.locals == Sort(Raws(s), g.localPaths, g.thirdPartyPaths)
    requires forall r :: r in s ==> r.error == NoError || r.error == MissingEmbed
    ensures forall lp :: lp in g.locals ==> exists r :: r in s && OfLocalModule(r) && IsLocalOf(lp, r, g)
    ensures forall r :: r in s && OfLocalModule(r) ==> exists lp :: lp in g.locals && IsLocalOf(lp, r, g)
  {
    forall lp | lp in g.locals
      ensures exists r :: r in s && OfLocalModule(r) && IsLocalOf(lp, r, g)
    {
      LocalsFrom(s, g.localPaths, g.thirdPartyPaths, lp);
      var r :| r in LocalRecs(s)
        && lp == LocalOf(RawOf(r, r.mod.value), g.localPaths, g.thirdPartyPaths, r.error == MissingEmbed);
      LocalIs(r, g);
    }
    forall r | r in s && OfLocalModule(r)
      ensures exists lp :: lp in g.locals && IsLocalOf(lp, r, g)
    {
      var lp := LocalOf(RawOf(r, r.mod.value), g.localPaths, g.thirdPartyPaths, r.error == MissingEmbed);
      LocalIs(r, g);
      assert r in LocalRecs(s);
      LocalsFrom(s, g.localPaths, g.thirdPartyPaths, lp);
    }
  }

  lemma ReplacementsAre(s: set<Rec>, ms: set<Module>)
    requires ms == Mods(s) && OneVersion(ms)
    ensures forall r :: r in s && OfReplaced(r) ==>
      var k := ModKey(r.mod.value.path, r.mod.value.replace.value.version);
      k in Replacements(ms) && Replacements(ms)[k] == r.mod.value.replace.value
    ensures forall k :: k in Replacements(ms) ==> exists r :: r in s && ReplacedUnder(r, k)
  {
    forall r | r in s && OfReplaced(r)
      ensures var k := ModKey(r.mod.value.path, r.mod.value.replace.value.version);
        k in Replacements(ms) && Replacements(ms)[k] == r.mod.value.replace.value
    {
      var m := r.mod.value;
      assert m in ms && IsReplaced(m);
      MapHolds(ReplacementPairs(ms), (KeyOf(m), TargetOf(m)));
    }
    forall k | k in Replacements(ms)
      ensures exists r :: r in s && ReplacedUnder(r, k)
    {
      var m :| m in ms && IsReplaced(m) && KeyOf(m) == k;
      var r :| r in s && r.mod == Some(m);
      assert ReplacedUnder(r, k);
    }
  }

  lemma SiblingsAre(s: set<Rec>, ms: set<Module>)
    requires ms == Mods(s) && OneVersion(ms)
    ensures forall r :: r in s && OfSibling(r) ==>
      var m := r.mod.value;
      m.path in Siblings(ms) && Siblings(ms)[m.path]
        == Sibling(m.path, m.version, LangVersion(m.goVersion), m.replace.value.path)
    ensures forall p :: p in Siblings(ms) <==> exists r :: r in s && OfSibling(r) && r.mod.value.path == p
    ensures SiblingPaths(ms) == Siblings(ms).Keys
  {
    forall r | r in s && OfSibling(r)
      ensures var m := r.mod.value;
        m.path in Siblings(ms) && Siblings(ms)[m.path]
          == Sibling(m.path, m.version, LangVersion(m.goVersion), m.replace.value.path)
    {
      var m := r.mod.value;
      assert m in ms && IsSibling(m);
      MapHolds(SiblingPairs(ms), (m.path, SiblingOf(m)));
    }
    forall p | p in Siblings(ms)
      ensures exists r :: r in s && OfSibling(r) && r.mod.value.path == p
      ensures p in SiblingPaths(ms)
    {
      var m :| m in ms && IsSibling(m) && m.path == p;
      var r :| r in s && r.mod == Some(m);
      assert OfSibling(r);
    }
    forall p | p in SiblingPaths(ms)
      ensures p in Siblings(ms)
    {
      var m :| m in ms && IsSibling(m) && m.path == p;
      assert (m.path, SiblingOf(m)) in SiblingPairs(ms);
    }
  }

  lemma MainIs(s: set<Rec>, ms: set<Module>)
    requires ms == Mods(s) && OneVersion(ms)
    ensures forall r :: r in s && InMainModule(r) ==>
      PathOf(MainOf(ms)) == r.mod.value.path && LangOf(MainOf(ms)) == LangVersion(r.mod.value.goVersion)
    ensures (forall r :: r in s ==> !InMainModule(r)) ==> PathOf(MainOf(ms)) == "" && LangOf(MainOf(ms)) == ""
  {
    forall r | r in s && InMainModule(r)
      ensures MainOf(ms) == r.mod
    {
      assert r.mod.value in ms;
    }
    if MainOf(ms).Some? {
      var r :| r in s && r.mod == MainOf(ms);
      assert InMainModule(r);
    }
  }

  lemma AllLoaded(s: set<Rec>, overlays: Overlays)
    requires Failing(s, overlays) == {}
    ensures forall r :: r in s ==> IsAccepted(r, overlays)
    ensures var k := Loaded(s, overlays);
      LocalRecs(k) == LocalRecs(s) && ThirdRecs(k) == ThirdRecs(s) && Mods(k) == Mods(s)
  {
    forall r | r in s
      ensures IsAccepted(r, overlays)
    {
      assert !IsAccepted(r, overlays) ==> r.path in Failing(s, overlays);
    }
    var k := Loaded(s, overlays);
    assert forall r :: r in k <==> r in s && r.mod.Some?;
    assert Mods(k) == Mods(s);
  }

  lemma ModulesAre(s: set<Rec>, g: Graph)
    requires var ms := Mods(s);
      OneVersion(ms) && g.replacements == Replacements(ms) && g.siblingModules == Siblings(ms)
        && g.localReplaceModPaths == SiblingPaths(ms) && g.modulePath == PathOf(MainOf(ms))
        && g.goVersion == LangOf(MainOf(ms))
    ensures ModulesClassified(s, g)
  {
    ReplacementsAre(s, Mods(s));
    SiblingsAre(s, Mods(s));
    MainIs(s, Mods(s));
  }

  /** All of it, for records that load. */
  lemma GraphIsClassified(s: set<Rec>, overlays: Overlays)
    requires BuildGraph(s, overlays).Success? && OneVersion(Mods(Loaded(s, overlays)))
    ensures IsClassified(s, BuildGraph(s, overlays).value)
  {
    var g := BuildGraph(s, overlays).value;
    AllLoaded(s, overlays);
    PathsAre(s, g);
    PackagesAre(s, g);
    ModulesAre(s, g);
  }

  lemma FailingAre(s: set<Rec>, overlays: Overlays)
    ensures forall p :: p in Failing(s, overlays) <==> exists r :: r in s && IsReported(r, overlays) && r.path == p
  {
    assert forall r :: IsAccepted(r, overlays) <==> !IsReported(r, overlays);
  }

  /** The graph of records that all load, or else the packages that do not. */
  ghost predicate IsResult(s: set<Rec>, overlays: Overlays, result: Result<Graph, set<string>>) {
    match result
    case Success(g) => IsClassified(s, g) && forall r :: r in s ==> !IsReported(r, overlays)
    case Failure(e) => e != {} && forall p :: p in e <==> exists r :: r in s && IsReported(r, overlays) && r.path == p
  }

  lemma ResultIs(s: set<Rec>, overlays: Overlays)
    requires OneVersion(Mods(Loaded(s, overlays)))
    ensures IsResult(s, overlays, BuildGraph(s, overlays))
  {
    FailingAre(s, overlays);
    if Failing(s, overlays) == {} {
      GraphIsClassified(s, overlays);
      assert forall r :: r in s && IsReported(r, overlays) ==> r.path in Failing(s, overlays);
    }
  }

  function RecSet(recs: seq<Rec>): set<Rec> {
    set r | r in recs
  }

  lemma RecSetNext(recs: seq<Rec>, i: nat)
    requires i < |recs|
    ensures RecSet(recs[..i + 1]) == RecSet(recs[..i]) + {recs[i]}
    ensures RecSet(recs[..i + 1]) <= RecSet(recs)
  {
    assert recs[..i + 1] == recs[..i] + [recs[i]];
  }

  // ---- One record more ----

  lemma LoadedNext(s: set<Rec>, overlays: Overlays, r: Rec)
    ensures IsAccepted(r, overlays) ==> Failing(s + {r}, overlays) == Failing(s, overlays)
    ensures !IsAccepted(r, overlays) ==> Failing(s + {r}, overlays) == Failing(s, overlays) + {r.path}
    ensures Loaded(s + {r}, overlays)
      == if IsAccepted(r, overlays) && r.mod.Some? then Loaded(s, overlays) + {r} else Loaded(s, overlays)
  {
  }

  lemma LocalNext(k: set<Rec>, r: Rec)
    requires r.mod.Some? && IsLocal(r.mod.value)
    ensures Pkgs(k + {r}) == Pkgs(k) && Paths(ThirdRecs(k + {r})) == Paths(ThirdRecs(k))
    ensures Paths(LocalRecs(k + {r})) == Paths(LocalRecs(k)) + {r.path}
    ensures Raws(k + {r}) == Raws(k) + {Sorted(RawOf(r, r.mod.value), r.error == MissingEmbed)}
  {
    assert ThirdRecs(k + {r}) == ThirdRecs(k);
    assert LocalRecs(k + {r}) == LocalRecs(k) + {r};
  }

  lemma ThirdNext(k: set<Rec>, r: Rec)
    requires r.mod.Some? && !IsLocal(r.mod.value)
    ensures Raws(k + {r}) == Raws(k) && Paths(LocalRecs(k + {r})) == Paths(LocalRecs(k))
    ensures Paths(ThirdRecs(k + {r})) == Paths(ThirdRecs(k)) + {r.path}
    ensures Pkgs(k + {r}) == Pkgs(k) + {PkgOf(r, r.mod.value)}
  {
    assert ThirdRecs(k + {r}) == ThirdRecs(k) + {r};
    assert LocalRecs(k + {r}) == LocalRecs(k);
  }

  lemma ModsNext(k: set<Rec>, r: Rec)
    ensures Mods(k + {r}) == if r.mod.Some? then Mods(k) + {r.mod.value} else Mods(k)
  {
  }

  lemma SiblingNext(ms: set<Module>, m: Module)
    requires OneVersion(ms + {m})
    ensures Siblings(ms + {m}) == if IsSibling(m) && m.path !in Siblings(ms) then
      Siblings(ms)[m.path := SiblingOf(m)] else Siblings(ms)
    ensures SiblingPaths(ms + {m}) == if IsSibling(m) then SiblingPaths(ms) + {m.path} else SiblingPaths(ms)
  {
    if IsSibling(m) {
      assert SiblingPairs(ms + {m}) == SiblingPairs(ms) + {(m.path, SiblingOf(m))};
      MapNext(SiblingPairs(ms), (m.path, SiblingOf(m)));
    } else {
      assert SiblingPairs(ms + {m}) == SiblingPairs(ms);
    }
  }

  lemma ReplacedNext(ms: set<Module>, m: Module)
    requires OneVersion(ms + {m})
    ensures Replacements(ms + {m})
      == if IsReplaced(m) && KeyOf(m) !in Replacements(ms) then Replacements(ms)[KeyOf(m) := TargetOf(m)]
        else Replacements(ms)
  {
    if IsReplaced(m) {
      assert ReplacementPairs(ms + {m}) == ReplacementPairs(ms) + {(KeyOf(m), TargetOf(m))};
      MapNext(ReplacementPairs(ms), (KeyOf(m), TargetOf(m)));
    } else {
      assert ReplacementPairs(ms + {m}) == ReplacementPairs(ms);
    }
  }

  lemma MainNext(ms: set<Module>, m: Module)
    requires OneVersion(ms + {m})
    ensures MainOf(ms + {m}) == if m.main then Some(m) else MainOf(ms)
  {
  }

  // ---- The loop over the records ----

  /** The maps and names collected from the modules met so far. */
  datatype Modules = Modules(replacements: map<ModKey, Target>, siblingPaths: set<string>,
                             siblings: map<string, Sibling>,
                             modulePath: string, goVersion: string)

  ghost function ModulesOf(ms: set<Module>): Modules {
    Modules(Replacements(ms), SiblingPaths(ms), Siblings(ms), PathOf(MainOf(ms)), LangOf(MainOf(ms)))
  }

  /** What a record's module adds; the first module met under a key stays. */
  method NoteModule(before: Modules, m: Module, ghost ms: set<Module>) returns (after: Modules)
    requires OneVersion(ms + {m}) && before == ModulesOf(ms)
    ensures after == ModulesOf(ms + {m})
  {
    SiblingNext(ms, m);
    ReplacedNext(ms, m);
    MainNext(ms, m);
    MainStays(ms, m);
    after := before;
    if IsLocal(m) {
      if m.main && after.modulePath == "" {
        after := after.(modulePath := m.path);
      }
      if m.main && after.goVersion == "" && m.goVersion != "" {
        after := after.(goVersion := LangVersion(m.goVersion));
      }
      if !m.main {
        after := after.(siblingPaths := after.siblingPaths + {m.path});
        if m.path !in after.siblings {
          after := after.(siblings := after.siblings[m.path := SiblingOf(m)]);
        }
      }
    } else if ReplacePath(m) != "" && KeyOf(m) !in after.replacements {
      after := after.(replacements := after.replacements[KeyOf(m) := TargetOf(m)]);
    }
  }

  lemma MainStays(ms: set<Module>, m: Module)
    requires OneVersion(ms + {m})
    ensures m.main && MainOf(ms).Some? ==> MainOf(ms) == Some(m)
  {
  }

  /** What the loop has collected from the records that load. */
  datatype Tally = Tally(packages: set<PkgData>, raws: set<Sorted>, thirdPartyPaths: set<string>,
                         localPaths: set<string>, modules: Modules)

  ghost function TallyOf(k: set<Rec>): Tally {
    Tally(Pkgs(k), Raws(k), Paths(ThirdRecs(k)), Paths(LocalRecs(k)), ModulesOf(Mods(k)))
  }

  /** What a record outside the standard library adds. */
  method NoteRecord(before: Tally, r: Rec, ghost k: set<Rec>) returns (after: Tally)
    requires r.mod.Some? && OneVersion(Mods(k) + {r.mod.value}) && before == TallyOf(k)
    ensures after == TallyOf(k + {r})
  {
    var m := r.mod.value;
    ModsNext(k, r);
    var modules := NoteModule(before.modules, m, Mods(k));
    if IsLocal(m) {
      LocalNext(k, r);
      after := before.(modules := modules, localPaths := before.localPaths + {r.path},
        raws := before.raws + {Sorted(RawOf(r, m), r.error == MissingEmbed)});
    } else {
      ThirdNext(k, r);
      after := before.(modules := modules, thirdPartyPaths := before.thirdPartyPaths + {r.path},
        packages := before.packages + {PkgOf(r, m)});
    }
  }

  ghost predicate Noted(s: set<Rec>, overlays: Overlays, t: Tally, errors: set<string>) {
    t == TallyOf(Loaded(s, overlays)) && errors == Failing(s, overlays)
  }

  /** The body of the loop. */
  method NextRecord(t: Tally, errors: set<string>, r: Rec, overlays: Overlays, ghost s: set<Rec>)
    returns (after: Tally, failing: set<string>)
    requires OneVersion(Mods(Loaded(s + {r}, overlays))) && Noted(s, overlays, t, errors)
    ensures Noted(s + {r}, overlays, after, failing)
  {
    LoadedNext(s, overlays, r);
    after, failing := t, errors;
    if !IsAccepted(r, overlays) {
      failing := errors + {r.path};
    } else if r.mod.Some? {
      ModsNext(Loaded(s, overlays), r);
      after := NoteRecord(t, r, Loaded(s, overlays));
    }
  }

  lemma NothingNoted(overlays: Overlays)
    ensures Noted({}, overlays, Tally({}, {}, {}, {}, Modules(map[], {}, map[], "", "")), {})
  {
  }

  lemma FewerModules(recs: seq<Rec>, i: nat, overlays: Overlays)
    requires i <= |recs| && OneVersion(Mods(Loaded(RecSet(recs), overlays)))
    ensures OneVersion(Mods(Loaded(RecSet(recs[..i]), overlays)))
  {
    assert RecSet(recs[..i]) <= RecSet(recs);
    assert Mods(Loaded(RecSet(recs[..i]), overlays)) <= Mods(Loaded(RecSet(recs), overlays));
  }

  /** The loop over the records: what it collects, and the packages that do not load. */
  method NoteRecords(recs: seq<Rec>, overlays: Overlays) returns (t: Tally, errors: set<string>)
    requires OneVersion(Mods(Loaded(RecSet(recs), overlays)))
    ensures Noted(RecSet(recs), overlays, t, errors)
  {
    t, errors := Tally({}, {}, {}, {}, Modules(map[], {}, map[], "", "")), {};
    NothingNoted(overlays);
    assert RecSet(recs[..0]) == {};
    for i := 0 to |recs|
      invariant Noted(RecSet(recs[..i]), overlays, t, errors)
    {
      RecSetNext(recs, i);
      FewerModules(recs, i + 1, overlays);
      t, errors := NextRecord(t, errors, recs[i], overlays, RecSet(recs[..i]));
    }
    assert recs[..|recs|] == recs;
  }

  /** classify_go_packages. */
  method ClassifyGoPackages(recs: seq<Rec>, overlays: Overlays) returns (result: Result<Graph, set<string>>)
    requires OneVersion(Mods(Loaded(RecSet(recs), overlays)))
    ensures IsResult(RecSet(recs), overlays, result)
    ensures result == BuildGraph(RecSet(recs), overlays)
  {
    ResultIs(RecSet(recs), overlays);
    var t, errors := NoteRecords(recs, overlays);
    if errors != {} {
      return Failure(errors);
    }
    return Success(Graph(t.packages, Sort(t.raws, t.localPaths, t.thirdPartyPaths), t.thirdPartyPaths, t.localPaths,
      t.modules.replacements, t.modules.siblingPaths, t.modules.siblings, t.modules.modulePath, t.modules.goVersion,
      {}, {}, {}));
  }
}
