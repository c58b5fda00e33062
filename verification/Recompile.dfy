/**
  Steps 1 and 1b of runPackageTests (go/go2nix/pkg/testrunner/testrunner.go): the archive of the
  package under test is replaced by its internal test archive, and what was built against the
  old one is compiled again before the external test is.
 */
module Recompile {
  import opened Wrappers
  import opened Graphs
  import opened Importcfg
  import opened LocalDeps

  /** What an archive was compiled from: an import path, and the importcfg the compiler read. */
  datatype Build = Build(importPath: string, cfg: Lines)

  /** The link and compile importcfgs, and the archives this test run has written. */
  datatype Cfgs = Cfgs(link: Lines, comp: Lines, built: map<string, Build>)

  /** sanitize. */
  function Sanitize(s: string): string {
    seq(|s|, i requires 0 <= i < |s| => if s[i] == '/' || s[i] == '.' then '_' else s[i])
  }

  function InternalArchive(testDir: string): string {
    testDir + "/internal.a"
  }

  function RecompArchive(testDir: string, importPath: string): string {
    testDir + "/recomp-" + Sanitize(importPath) + ".a"
  }

  /** The archive of each recompiled package. */
  type Archives = string -> string

  function RecompArchives(testDir: string): Archives {
    importPath => RecompArchive(testDir, importPath)
  }

  /** One package compiled against the compile importcfg, and its entry overridden in both configs. */
  function Replaced(c: Cfgs, importPath: string, archive: string): Cfgs {
    Cfgs(Override(c.link, importPath, archive), Override(c.comp, importPath, archive),
         c.built[archive := Build(importPath, c.comp)])
  }

  /** The configs after the loop over the affected packages, all of which compiled. */
  function Recompiled(c: Cfgs, archives: Archives, affected: seq<string>): Cfgs {
    if |affected| == 0 then c
    else
      var last := affected[|affected| - 1];
      Replaced(Recompiled(c, archives, affected[..|affected| - 1]), last, archives(last))
  }

  /** Whether the compiler accepts a package against an importcfg. */
  type Compiler = (string, Lines) -> bool

  /** The first affected package that does not compile. */
  function FirstFailure(c: Cfgs, archives: Archives, affected: seq<string>, compiles: Compiler): Option<string> {
    if |affected| == 0 then None
    else
      var n := |affected| - 1;
      var earlier := FirstFailure(c, archives, affected[..n], compiles);
      if earlier.Some? then earlier
      else if compiles(affected[n], Recompiled(c, archives, affected[..n]).comp) then None
      else Some(affected[n])
  }

  lemma {:induction false} FailureStays(c: Cfgs, archives: Archives, affected: seq<string>, compiles: Compiler, n: nat)
    requires n <= |affected| && FirstFailure(c, archives, affected[..n], compiles).Some?
    ensures FirstFailure(c, archives, affected, compiles) == FirstFailure(c, archives, affected[..n], compiles)
    decreases |affected|
  {
    if n < |affected| {
      var all := |affected| - 1;
      assert affected[..all][..n] == affected[..n];
      FailureStays(c, archives, affected[..all], compiles, n);
    } else {
      assert affected[..n] == affected;
    }
  }

  datatype Failure = DoesNotCompile(importPath: string) | ImportCycle(importPath: string)

  /** Steps 1 and 1b: the configs the external test is compiled and linked with, or what went wrong. */
  ghost function Prepared(c: Cfgs, testDir: string, target: string, hasTests: bool, hasXTests: bool,
                          xtestImports: set<string>,
                          m: PkgMap, compiles: Compiler): Result<Cfgs, Failure>
  {
    if !hasTests then Success(c)
    else if !compiles(target, c.comp) then Failure(DoesNotCompile(target))
    else
      var start := Replaced(c, target, InternalArchive(testDir));
      if !hasXTests then Success(start)
      else match AffectedInOrder(m, target, xtestImports * m.Keys)
        case Failure(cycle) => Failure(ImportCycle(cycle))
        case Success(affected) =>
          match FirstFailure(start, RecompArchives(testDir), affected, compiles)
          case Some(ip) => Failure(DoesNotCompile(ip))
          case None => Success(Recompiled(start, RecompArchives(testDir), affected))
  }

  /** The two config files of one test directory; they are one file unless the build is split. */
  class TestRun {
    const testDir: string
    const split: bool
    var testImportCfg: Lines
    var splitCompileCfg: Lines
    var built: map<string, Build>

    constructor (testDir: string, split: bool, importCfg: Lines, compileImportCfg: Lines)
      ensures this.testDir == testDir && this.split == split
      ensures State() == Cfgs(importCfg, if split then compileImportCfg else importCfg, map[])
    {
      this.testDir, this.split := testDir, split;
      testImportCfg, splitCompileCfg, built := importCfg, compileImportCfg, map[];
    }

    function TestCompileImportCfg(): Lines
      reads this
    {
      if split then splitCompileCfg else testImportCfg
    }

    function State(): Cfgs
      reads this
    {
      Cfgs(testImportCfg, TestCompileImportCfg(), built)
    }

    method OverrideBoth(importPath: string, archivePath: string)
      modifies this
      ensures State() == Cfgs(Override(old(State().link), importPath, archivePath),
                              Override(old(State().comp), importPath, archivePath), old(built))
    {
      testImportCfg := OverrideImportCfgEntry(testImportCfg, importPath, archivePath);
      if split {
        splitCompileCfg := OverrideImportCfgEntry(splitCompileCfg, importPath, archivePath);
      }
    }

    /** CompileGoPackage: a compiler that succeeds has written the archive. */
    method Compile(importPath: string, output: string, compiles: Compiler) returns (ok: bool)
      modifies this`built
      ensures ok == compiles(importPath, TestCompileImportCfg())
      ensures built == if ok then old(built)[output := Build(importPath, TestCompileImportCfg())] else old(built)
    {
      ok := compiles(importPath, TestCompileImportCfg());
      if ok {
        built := built[output := Build(importPath, TestCompileImportCfg())];
      }
    }

    /** Step 1, for a package with internal tests. */
    method ReplaceTarget(target: string, compiles: Compiler) returns (ok: bool)
      modifies this
      ensures ok == compiles(target, old(State().comp))
      ensures State() == if ok then Replaced(old(State()), target, InternalArchive(testDir)) else old(State())
    {
      ok := Compile(target, InternalArchive(testDir), compiles);
      if ok {
        OverrideBoth(target, InternalArchive(testDir));
      }
    }

    /** Step 1b's loop, over the packages affectedLocalDeps returned. */
    method RecompileAffected(affected: seq<string>, compiles: Compiler) returns (failed: Option<string>)
      modifies this
      ensures failed == FirstFailure(old(State()), RecompArchives(testDir), affected, compiles)
      ensures failed.None? ==> State() == Recompiled(old(State()), RecompArchives(testDir), affected)
    {
      ghost var before := State();
      var archives := RecompArchives(testDir);
      for i := 0 to |affected|
        invariant FirstFailure(before, archives, affected[..i], compiles).None?
        invariant State() == Recompiled(before, archives, affected[..i])
      {
        assert affected[..i + 1][..i] == affected[..i];
        var depIP := affected[i];
        var ok := Compile(depIP, archives(depIP), compiles);
        if !ok {
          FailureStays(before, archives, affected, compiles, i + 1);
          return Some(depIP);
        }
        OverrideBoth(depIP, archives(depIP));
      }
      assert affected[..|affected|] == affected;
      return None;
    }

    /** Steps 1 and 1b. */
    method Prepare(target: string, hasTests: bool, hasXTests: bool, xtestImports: seq<string>, m: PkgMap,
                   compiles: Compiler)
      returns (failure: Option<Failure>)
      modifies this
      ensures match Prepared(old(State()), testDir, target, hasTests, hasXTests, ToSet(xtestImports), m, compiles)
        case Success(c) => failure.None? && State() == c
        case Failure(e) => failure == Some(e)
    {
      if !hasTests {
        return None;
      }
      var ok := ReplaceTarget(target, compiles);
      if !ok {
        return Some(DoesNotCompile(target));
      }
      if hasXTests {
        var imports := LocalImports(xtestImports, m);
        assert ToSet(imports) == ToSet(xtestImports) * m.Keys;
        var affected := AffectedLocalDeps(target, imports, m);
        if affected.Failure? {
          return Some(ImportCycle(affected.error));
        }
        var failed := RecompileAffected(affected.value, compiles);
        if failed.Some? {
          return Some(DoesNotCompile(failed.value));
        }
      }
      return None;
    }
  }

  method LocalImports(xtestImports: seq<string>, m: PkgMap) returns (r: seq<string>)
    ensures forall i :: i in r <==> i in xtestImports && i in m
  {
    r := [];
    for i := 0 to |xtestImports|
      invariant forall x :: x in r <==> x in xtestImports[..i] && x in m
    {
      assert xtestImports[..i + 1] == xtestImports[..i] + [xtestImports[i]];
      if xtestImports[i] in m {
        r := r + [xtestImports[i]];
      }
    }
    assert xtestImports[..|xtestImports|] == xtestImports;
  }
}
