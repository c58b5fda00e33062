/**
  The importcfg files of a test build (go/go2nix/pkg/testrunner/testrunner.go): lines
  `packagefile <import path>=<archive>`, and the rewrite of one package's entry.
 */
module Importcfg {
  import Seqs

  type Lines = seq<string>

  function EntryPrefix(importPath: string): string {
    "packagefile " + importPath + "="
  }

  /** The archive a line names for an import path, if it is the entry of that path. */
  function EntryOf(line: string, importPath: string): seq<string> {
    if Seqs.StartsWith(line, EntryPrefix(importPath)) then [line[|EntryPrefix(importPath)|..]] else []
  }

  /** The archives a config names for an import path, in the order of its lines. */
  function Entries(lines: Lines, importPath: string): seq<string> {
    if |lines| == 0 then [] else EntryOf(lines[0], importPath) + Entries(lines[1..], importPath)
  }

  /** The lines that do not start with prefix. */
  function Without(lines: Lines, prefix: string): Lines {
    if |lines| == 0 then []
    else
      var last := lines[|lines| - 1];
      Without(lines[..|lines| - 1], prefix) + if Seqs.StartsWith(last, prefix) then [] else [last]
  }

  /** The file after overrideImportCfgEntry. */
  function Override(lines: Lines, importPath: string, archive: string): Lines {
    Without(lines, EntryPrefix(importPath)) + [EntryPrefix(importPath) + archive]
  }

  method OverrideImportCfgEntry(data: Lines, importPath: string, archivePath: string) returns (lines: Lines)
    ensures lines == Override(data, importPath, archivePath)
  {
    var prefix := EntryPrefix(importPath);
    lines := [];
    for i := 0 to |data|
      invariant lines == Without(data[..i], prefix)
    {
      assert data[..i + 1][..i] == data[..i];
      if !Seqs.StartsWith(data[i], prefix) {
        lines := lines + [data[i]];
      }
    }
    assert data[..|data|] == data;
    lines := lines + [prefix + archivePath];
  }

  // ---- What a rewrite does to every entry ----

  lemma {:induction false} EntriesConcat(a: Lines, b: Lines, importPath: string)
    ensures Entries(a + b, importPath) == Entries(a, importPath) + Entries(b, importPath)
  {
    if |a| == 0 {
      assert a + b == b;
    } else {
      EntriesConcat(a[1..], b, importPath);
      assert (a + b)[1..] == a[1..] + b;
      Seqs.Associates(EntryOf(a[0], importPath), Entries(a[1..], importPath), Entries(b, importPath));
    }
  }

  /** The entry a single line holds. */
  lemma EntriesOne(line: string, importPath: string)
    ensures Entries([line], importPath) == EntryOf(line, importPath)
  {
    assert [line][1..] == [];
  }

  predicate HasNoEquals(importPath: string) {
    '=' !in importPath
  }

  /** Neither of two entry prefixes starts the other, since no import path has an equals sign. */
  lemma PrefixesDiffer(a: string, b: string) returns (k: nat)
    requires HasNoEquals(a) && HasNoEquals(b) && a != b
    ensures k < |EntryPrefix(a)| && k < |EntryPrefix(b)| && EntryPrefix(a)[k] != EntryPrefix(b)[k]
  {
    if |a| != |b| {
      k := 12 + if |a| < |b| then |a| else |b|;
    } else {
      var i :| 0 <= i < |a| && a[i] != b[i];
      k := 12 + i;
    }
  }

  /** So a line is the entry of one import path at most. */
  lemma OnePathPerLine(line: string, a: string, b: string)
    requires HasNoEquals(a) && HasNoEquals(b) && a != b
    requires Seqs.StartsWith(line, EntryPrefix(a))
    ensures !Seqs.StartsWith(line, EntryPrefix(b))
  {
    var k := PrefixesDiffer(a, b);
    assert line[k] == line[..|EntryPrefix(a)|][k] == EntryPrefix(a)[k];
    assert |EntryPrefix(b)| <= |line| ==> line[..|EntryPrefix(b)|][k] == line[k];
  }

  lemma {:induction false} WithoutEntries(lines: Lines, a: string, b: string)
    requires HasNoEquals(a) && HasNoEquals(b)
    ensures Entries(Without(lines, EntryPrefix(a)), b) == if a == b then [] else Entries(lines, b)
  {
    if |lines| > 0 {
      var n := |lines| - 1;
      WithoutEntries(lines[..n], a, b);
      assert lines == lines[..n] + [lines[n]];
      EntriesConcat(lines[..n], [lines[n]], b);
      EntriesOne(lines[n], b);
      EntriesConcat(Without(lines[..n], EntryPrefix(a)), [lines[n]], b);
      var kept := Without(lines[..n], EntryPrefix(a));
      assert kept + [] == kept;
      if Seqs.StartsWith(lines[n], EntryPrefix(a)) {
        if a != b {
          OnePathPerLine(lines[n], a, b);
        }
      }
    }
  }

  /** After a rewrite the path has the one entry given, and every other path the entries it had. */
  lemma OverrideEntries(lines: Lines, a: string, archive: string, b: string)
    requires HasNoEquals(a) && HasNoEquals(b)
    ensures Entries(Override(lines, a, archive), b) == if a == b then [archive] else Entries(lines, b)
  {
    var line := EntryPrefix(a) + archive;
    WithoutEntries(lines, a, b);
    EntriesConcat(Without(lines, EntryPrefix(a)), [line], b);
    EntriesOne(line, b);
    assert Seqs.StartsWith(line, EntryPrefix(a)) && line[|EntryPrefix(a)|..] == archive;
    if a != b {
      OnePathPerLine(line, a, b);
    }
  }

  lemma {:induction false} WithoutLines(lines: Lines, prefix: string, line: string)
    ensures multiset(Without(lines, prefix))[line]
      == if Seqs.StartsWith(line, prefix) then 0 else multiset(lines)[line]
  {
    if |lines| > 0 {
      var n := |lines| - 1;
      WithoutLines(lines[..n], prefix, line);
      assert lines == lines[..n] + [lines[n]];
    }
  }

  /** Whatever the lines are: those of the path give way to the new one, and no other is lost or doubled. */
  lemma OverrideLines(lines: Lines, a: string, archive: string, line: string)
    ensures multiset(Override(lines, a, archive))[line]
      == if Seqs.StartsWith(line, "packagefile " + a + "=") then
           (if line == "packagefile " + a + "=" + archive then 1 else 0)
         else multiset(lines)[line]
  {
    WithoutLines(lines, EntryPrefix(a), line);
    var entry := EntryPrefix(a) + archive;
    assert Seqs.StartsWith(entry, EntryPrefix(a));
  }
}
