/**
  What `go list -e -json -deps` prints over a module, with and without `-test`, as a function of
  the packages there are; packages/go2nix-nix-plugin/rust/src/resolve.rs reads these records.
 */
module GoListing {
  import opened Wrappers
  import opened Graphs
  import Seqs

  datatype Target = Target(path: string, version: string)

  datatype Module = Module(path: string, version: string, main: bool, goVersion: string, replace: Option<Target>)

  /** The source file lists of a package; `other` are the nine kinds besides Go and cgo files. */
  datatype Sources = Sources(goFiles: seq<string>, cgoFiles: seq<string>, other: seq<seq<string>>,
                             embedPatterns: seq<string>)

  datatype BuildInfo = BuildInfo(dir: string, pkgConfig: seq<string>, cflags: seq<string>, ldflags: seq<string>)

  /** The Error field: MissingEmbed is the wording is_missing_embed_error recognises. */
  datatype LoadError = NoError | MissingEmbed | OtherError

  datatype Rec = Rec(
    path: string, forTest: string, mod: Option<Module>, imports: seq<string>,
    info: BuildInfo, files: Sources, embedFiles: seq<string>,
    testFiles: seq<string>, xtestFiles: seq<string>,
    testEmbeds: seq<string>, xtestEmbeds: seq<string>, testPatterns: seq<string>,
    testImports: seq<string>, xtestImports: seq<string>,
    error: LoadError)

  /** A printed record: the package, and the command-line patterns it matched. */
  datatype Listed = Listed(rec: Rec, matched: seq<string>)

  /** strip_variant_suffix: the path without the ` [P.test]` of a copy made for a test. */
  function Strip(path: string): string {
    if |path| == 0 || (|path| > 1 && path[0] == ' ' && path[1] == '[') then ""
    else [path[0]] + Strip(path[1..])
  }

  function StripAll(paths: seq<string>): seq<string> {
    if |paths| == 0 then [] else StripAll(paths[..|paths| - 1]) + [Strip(paths[|paths| - 1])]
  }

  predicate BracketAt(path: string, i: nat) {
    i + 1 < |path| && path[i] == ' ' && path[i + 1] == '['
  }

  /** Up to the first ` [`, if there is one. */
  lemma {:induction false} StripsAtBracket(path: string)
    ensures Strip(path) <= path && (Strip(path) == path || BracketAt(path, |Strip(path)|))
    ensures forall i :: 0 <= i < |Strip(path)| ==> !BracketAt(path, i)
  {
    if |path| > 0 && !BracketAt(path, 0) {
      StripsAtBracket(path[1..]);
      var rest := Strip(path[1..]);
      assert path == [path[0]] + path[1..];
      forall i | 0 <= i < |rest| + 1
        ensures !BracketAt(path, i)
      {
        assert i > 0 ==> !BracketAt(path[1..], i - 1);
      }
    }
  }

  lemma {:induction false} StripsEach(paths: seq<string>)
    ensures |StripAll(paths)| == |paths| && forall i :: 0 <= i < |paths| ==> StripAll(paths)[i] == Strip(paths[i])
  {
    if |paths| > 0 {
      StripsEach(paths[..|paths| - 1]);
    }
  }

  predicate EndsWith(s: string, suffix: string) {
    |suffix| <= |s| && s[|s| - |suffix|..] == suffix
  }

  /** is_bare. */
  predicate IsBare(r: Rec) {
    r.forTest == "" && Strip(r.path) == r.path
  }

  predicate HasTests(r: Rec) {
    r.testFiles != [] || r.xtestFiles != []
  }

  function TestMain(path: string): string {
    path + ".test"
  }

  predicate InMainModule(r: Rec) {
    r.mod.Some? && r.mod.value.main
  }

  function ReplacePath(m: Module): string {
    if m.replace.Some? then m.replace.value.path else ""
  }

  function ReplaceVersion(m: Module): string {
    if m.replace.Some? then m.replace.value.version else ""
  }

  /** Of the main module, or of one the main go.mod replaces with a directory. */
  predicate IsLocal(m: Module) {
    m.main || (ReplacePath(m) != "" && ReplaceVersion(m) == "")
  }

  /**
    All packages go list can print from the main module: packages and their copies by printed path, the
    test mains go generates by the path of the package under test, and the packages no `...`
    pattern looks at (under testdata/, _dir/ or .dir/).
   */
  datatype World = World(modulePath: string, pkgs: map<string, Rec>, mains: map<string, Rec>, hidden: set<string>)

  // ---- go list -deps -test ----

  /** `m/...` covers the packages at and below m, whatever module they are of. */
  predicate Below(path: string, m: string) {
    path == m || Seqs.StartsWith(path, m + "/")
  }

  predicate PatternMatches(r: Rec, pattern: string) {
    if pattern == "./..." then InMainModule(r)
    else EndsWith(pattern, "/...") && Below(r.path, pattern[..|pattern| - 4])
  }

  predicate Matches(w: World, patterns: seq<string>, path: string) {
    path in w.pkgs && IsBare(w.pkgs[path]) && path !in w.hidden
    && exists k :: 0 <= k < |patterns| && PatternMatches(w.pkgs[path], patterns[k])
  }

  function Matched(w: World, patterns: seq<string>): set<string> {
    set p | p in w.pkgs && Matches(w, patterns, p)
  }

  /** The matches that have a test main, for which go list also prints the test main. */
  function Tested(w: World, patterns: seq<string>): set<string> {
    set p | p in w.pkgs && Matches(w, patterns, p) && HasTests(w.pkgs[p])
  }

  function PkgEdges(w: World): Edges {
    p => if p in w.pkgs then Selected(w.pkgs[p].imports, w.pkgs.Keys) else []
  }

  /** A package is a root when a pattern matches it or the test main of a match imports it. */
  ghost function TestRoots(w: World, patterns: seq<string>): set<string> {
    Matched(w, patterns)
    + set x, d | x in Tested(w, patterns) && x in w.mains && d in w.mains[x].imports && d in w.pkgs :: d
  }

  ghost predicate InTestListing(w: World, patterns: seq<string>, path: string) {
    path in w.pkgs && ReachedFrom(PkgEdges(w), TestRoots(w, patterns), path)
  }

  datatype Node = Pkg(path: string) | Main(of: string)

  ghost predicate NodeListed(w: World, patterns: seq<string>, n: Node) {
    match n
    case Pkg(p) => InTestListing(w, patterns, p)
    case Main(x) => x in w.mains && x in Tested(w, patterns)
  }

  function NodeRec(w: World, n: Node): Rec
    requires match n case Pkg(p) => p in w.pkgs case Main(x) => x in w.mains
  {
    match n
    case Pkg(p) => w.pkgs[p]
    case Main(x) => w.mains[x]
  }

  /** A record without the test embed files that only -test resolves, and only for a match. */
  function WithoutTestEmbeds(r: Rec): Rec {
    r.(testEmbeds := [], xtestEmbeds := [])
  }

  /** The record as go list prints it: a copy is a match when its package is. */
  function View(w: World, patterns: seq<string>, r: Rec): Rec {
    if Strip(r.path) in Matched(w, patterns) then r else WithoutTestEmbeds(r)
  }

  /** Match: the patterns of the command line a package matched; its copies have them too. */
  ghost predicate HasMatch(w: World, patterns: seq<string>, n: Node, matched: seq<string>) {
    forall p :: p in matched <==>
      n.Pkg? && p in patterns && Strip(n.path) in Matched(w, [p])
  }

  /** Copies are made after all matches are loaded: a match is printed before its copies. */
  ghost predicate MatchesFirst(w: World, patterns: seq<string>, nodes: seq<Node>) {
    forall i, j :: 0 <= i < j < |nodes| && nodes[i].Pkg? && nodes[j].Pkg? && nodes[j].path in Matched(w, patterns) ==>
      Strip(nodes[i].path) != nodes[j].path
  }

  /** recs are the packages go list -deps -test prints for the patterns; nodes says which is which. */
  ghost predicate ListsPackages(w: World, patterns: seq<string>, nodes: seq<Node>, recs: seq<Rec>) {
    && |nodes| == |recs|
    && MatchesFirst(w, patterns, nodes)
    && (forall n :: n in nodes <==> NodeListed(w, patterns, n))
    && (forall i, j :: 0 <= i < j < |nodes| ==> nodes[i] != nodes[j])
    && (forall i :: 0 <= i < |nodes| ==>
        NodeListed(w, patterns, nodes[i]) && recs[i] == View(w, patterns, NodeRec(w, nodes[i])))
  }

  function Packages(recs: seq<Listed>): seq<Rec> {
    seq(|recs|, i requires 0 <= i < |recs| => recs[i].rec)
  }

  ghost predicate IsTestListing(w: World, patterns: seq<string>, nodes: seq<Node>, recs: seq<Listed>) {
    && ListsPackages(w, patterns, nodes, Packages(recs))
    && (forall i :: 0 <= i < |nodes| ==> HasMatch(w, patterns, nodes[i], recs[i].matched))
  }

  /** The records of that listing. */
  ghost function TestRecords(w: World, patterns: seq<string>): set<Rec> {
    (set p | p in w.pkgs && InTestListing(w, patterns, p) :: View(w, patterns, w.pkgs[p]))
    + (set x | x in w.mains && x in Tested(w, patterns) :: View(w, patterns, w.mains[x]))
  }

  // ---- go list -deps ----

  /** The import path of the subPackage `.` or `./dir`. */
  function SubPackagePath(modulePath: string, sp: string): string {
    var clean := if Seqs.StartsWith(sp, "./") then sp[2..] else sp;
    if sp == "." || clean == "" then modulePath else modulePath + "/" + clean
  }

  /** The main module itself, and the directories below it, with or without the `./`. */
  lemma SubPackagesAre(modulePath: string, dir: string)
    requires dir != "" && dir != "." && !Seqs.StartsWith(dir, "./")
    ensures SubPackagePath(modulePath, ".") == SubPackagePath(modulePath, "./") == modulePath
    ensures SubPackagePath(modulePath, "./" + dir) == SubPackagePath(modulePath, dir) == modulePath + "/" + dir
  {
    assert ("./" + dir)[2..] == dir && ("./" + dir)[..2] == "./" && "./"[2..] == "" && "./"[..2] == "./";
  }

  /** go list finds the subPackage: a package of the main module has its path. */
  predicate IsSubPackage(w: World, path: string) {
    path in w.pkgs && IsBare(w.pkgs[path]) && InMainModule(w.pkgs[path])
  }

  ghost predicate InBuildListing(w: World, roots: set<string>, path: string) {
    path in w.pkgs && ReachedFrom(PkgEdges(w), roots, path)
  }

  ghost function BuildRecords(w: World, roots: set<string>): set<Rec> {
    set p | p in w.pkgs && InBuildListing(w, roots, p) :: WithoutTestEmbeds(w.pkgs[p])
  }

  // ---- What holds of the packages of any module ----

  /** A copy made for a test that is neither the package under test nor its external test. */
  predicate IsSelfTest(r: Rec) {
    r.forTest != "" && (Strip(r.path) == r.forTest || Strip(r.path) == r.forTest + "_test")
  }

  /** A record under the names without those of copies. */
  function Normal(r: Rec): Rec {
    r.(path := Strip(r.path), imports := StripAll(r.imports), forTest := "", testImports := [], xtestImports := [],
      error := NoError)
  }

  /** What a package and its copies have in common. */
  ghost predicate SamePackage(q: Rec, r: Rec) {
    WithoutTestEmbeds(Normal(q)) == WithoutTestEmbeds(Normal(r))
  }

  predicate SameTestEmbeds(q: Rec, r: Rec) {
    q.testEmbeds == r.testEmbeds && q.xtestEmbeds == r.xtestEmbeds
  }

  /** A copy made before the test embeds of its package were resolved. */
  predicate CopiedEarly(copy: Rec, r: Rec) {
    copy.testEmbeds == [] && copy.xtestEmbeds == [] && copy.error == r.error
  }

  ghost predicate PathsOk(w: World) {
    && (forall p :: p in w.pkgs ==> w.pkgs[p].path == p && (w.pkgs[p].forTest == "" <==> Strip(p) == p))
    && "_test" !in w.pkgs
  }

  /** The test main of each package with tests, in its module, and no more hidden than the package. */
  ghost predicate MainsOk(w: World) {
    && (forall x :: x in w.mains <==> x in w.pkgs && IsBare(w.pkgs[x]) && HasTests(w.pkgs[x]))
    && (forall x :: x in w.mains ==>
        w.mains[x].path == TestMain(x) && w.mains[x].forTest == "" && x in w.pkgs && w.mains[x].mod == w.pkgs[x].mod)
    && (forall x :: x in w.mains && TestMain(x) in w.hidden ==> x in w.hidden)
  }

  /** Enough to walk the import graph. */
  ghost predicate WalkOk(w: World) {
    PathsOk(w) && MainsOk(w) && ImportsResolve(w)
  }

  ghost predicate WorldOk(w: World) {
    WalkOk(w) && CopiesAgree(w) && OneMainModule(w) && ModulesAgree(w)
  }

  /** An import names a package rather than a test main, and a bare package imports bare packages. */
  ghost predicate ImportsResolve(w: World) {
    && (forall p, d :: p in w.pkgs && d in w.pkgs[p].imports ==> d in w.pkgs || !NamesMain(w, d))
    && (forall x, d :: x in w.mains && d in w.mains[x].imports ==> d in w.pkgs || !NamesMain(w, d))
    && (forall p, d :: p in w.pkgs && IsBare(w.pkgs[p]) && d in w.pkgs[p].imports && d in w.pkgs ==> IsBare(w.pkgs[d]))
  }

  ghost predicate NamesMain(w: World, path: string) {
    exists x :: x in w.mains && path == TestMain(x)
  }

  /**
    recompileForTest copies a package: only its printed path, ForTest and the names of its imports
    change, and a copy can lack the test embeds.
   */
  ghost predicate CopiesAgree(w: World) {
    && (forall p, q :: p in w.pkgs && q in w.pkgs && Strip(p) == Strip(q) ==>
        IsSelfTest(w.pkgs[p]) || IsSelfTest(w.pkgs[q]) || SamePackage(w.pkgs[p], w.pkgs[q]))
    && (forall p, q :: p in w.pkgs && q in w.pkgs && Strip(q) == p ==>
        IsSelfTest(w.pkgs[q]) || SameTestEmbeds(w.pkgs[q], w.pkgs[p]) || CopiedEarly(w.pkgs[q], w.pkgs[p]))
  }

  ghost predicate OneMainModule(w: World) {
    forall p :: p in w.pkgs && InMainModule(w.pkgs[p]) ==> w.pkgs[p].mod.value.path == w.modulePath
  }

  /** One version of each module, and a module's packages at and below its path. */
  ghost predicate ModulesAgree(w: World) {
    && (forall p, q :: p in w.pkgs && q in w.pkgs && w.pkgs[p].mod.Some? && w.pkgs[q].mod.Some? ==>
        w.pkgs[p].mod.value.path == w.pkgs[q].mod.value.path ==> w.pkgs[p].mod == w.pkgs[q].mod)
    && (forall p :: p in w.pkgs && IsBare(w.pkgs[p]) && w.pkgs[p].mod.Some? ==>
        Below(p, w.pkgs[p].mod.value.path) && w.pkgs[p].mod.value.path != ".")
  }
}
