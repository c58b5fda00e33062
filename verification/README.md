# go2nix: a verified model of its resolver, test runner and link scheduler

go2nix turns a Go module into Nix derivations. This project models the parts of it that make
decisions, in Dafny, and proves what they promise:

- the plugin's package resolution from one `go list -deps -test` instead of two commands, and the
  memo of listings in front of it (`GoListing`, `Closures`, `Classify`, `ClassifyTests`,
  `TestSets`, `TestOutcome`, `TestReach`, `TwoPasses`, `SinglePass`, `ListingMemo`, with their proofs);
- the files `//go:embed` patterns select, and the superset that stands in for them (`EmbedTree`,
  `Embed`, `EmbedSelected`, `EmbedWalk`, `EmbedResolve`);
- the parallel link jobs of `link-binary`, as a state machine over all interleavings (`LinkTargets`,
  `LinkJobs`, `LinkJobsProofs`, `LinkJobsOrder`);
- dependency ordering: the topological sort, the packages an external test needs recompiled, the
  recompilation itself, and the registration order of the experimental resolver (`Graphs`,
  `Toposort`, `LocalDeps`, `Importcfg`, `Recompile`, `Registration`, `Resolver`);
- the committed GODEBUG table, its update and check, and the default GODEBUG (`GodebugTable`,
  `GodebugProofs`, `DefaultGodebug`, `DefaultGodebugProofs`);
- the line diff of the flag-table check (`LineDiff`) and the NAR serialiser (`NarFraming`, `Nar`,
  `NarProofs`, `NarTrees`).

Code that changes state step by step is modelled by methods with loops and by classes, each proved
against a function or relation on values; the lemmas are about those. `dafny verify dfyconfig.toml`
checks everything.

## How the world outside is modelled

- `go list` (`GoListing.World`): all packages and test copies that can be printed, by printed path,
  and the test main of each tested package. A listing over patterns is what the printed imports
  reach from the matches and their test mains, with test embed files on matches and their copies
  only, in any order that prints a match before its copies. Assumed of it (`WorldOk`): a copy made
  for a test differs from its package in its printed path, ForTest and the names of its imports
  only, or lacks the test embeds too, if it was made before they were resolved; a bare package
  imports bare packages and no import names a test main that is not also a package; no package is
  called `_test`; a module path has one version, and its packages lie at or below it; no `...`
  pattern looks under testdata/, `_dir` or `.dir`.
- errgroup: `Go` takes its slot in the calling loop; a failing job flushes, closes `done`, cancels
  the context and frees its slot, in that order. The parent context is never cancelled, and a job
  reports Canceled only when cancelled.
- Compilers, the store's path computation, `filepath.Glob`, the validity of embed patterns and
  names, and the loss in `to_string_lossy` are function parameters. Of Glob only this is used: an
  element without a meta character matches itself; of bad names, that a name outside UTF-8 is one.
- That a kept listing is a function of its key is assumed, where `MemoChangesNothing` needs it.
- Vectors whose order the JSON output does not keep are sets; errors are the set of packages they
  name, not their wording.

## Where the code does not meet its promise

- The single pass is not always the two passes. A subPackage `./d.test` without a package is taken
  for the test main that go generates for `./d`, since that record has no ForTest and is in the main
  module; the two passes fail there. And a local package of the build graph whose path ends in
  `.test` keeps its test embed files in the single pass, while the test classifier, which skips such
  paths as test mains, leaves them out in the two passes. `SinglePass.ResolveSinglePass` states that
  these are the only differences; `SinglePassLimits.TestMainIsServed` and `MainLikeEmbedsDiffer` run
  it on a module where each shows.
- `sanitize` is not injective, so two affected packages can share an archive;
  `RecompileProofs.RecompiledConsistentIff` states that this is the only way the recompilation can
  go wrong (import paths without `=`), `SameNameIff` when two paths share a name, and
  `NamesCanCollide` gives three packages where it does.
- An accepting check does not compare Changed and Old of a row retired by a newer toolchain;
  `GodebugProofs.AcceptsIff` and `AcceptedIsUpdatedUnlessUnchecked` say what it does compare,
  `AcceptedButRewritten` gives a table that is accepted and not what an update would write.
- The fallback table agrees with the toolchain's own for every setting exactly under the condition
  in `DefaultGodebugProofs.FallbackAgreesIff`; `LaterReleaseDiffers` gives a table that breaks it.
- An oversized listing leaves an older entry of its key in the memo (`ListingMemo.Memo.Put`).
- embed_candidates fails, and gives no candidates for any pattern, exactly when the leading elements
  of a pattern go below something that is no directory (`EmbedResolve.ResolvedAreCandidates`,
  `BelowFileFails`).


## Model

| member | source | states |
|---|---|---|
| SinglePass.ResolveSinglePass | packages/go2nix-nix-plugin/rust/src/resolve.rs:1573-1659 | The single pass declines exactly when a subPackage is missing or not written as `.` or `./dir`, two bare records share a path, there is no main module or a subPackage has no bare record in it, a package does not load, go.mod does not name a sibling of the build graph, or, with siblings to leave out, two records share a path. A graph it returns is the graph of the two passes if and only if every subPackage names a package of the main module and no local package of the build graph whose path ends in `.test` embeds a file in its tests only |
| SinglePass.SinglePassAgrees | packages/go2nix-nix-plugin/rust/src/resolve.rs:1564-1580 | The same, for every set of packages, sibling modules, subPackages and overlays, apart from the order the records come in |
| SinglePass.SingleResolvedAgrees | packages/go2nix-nix-plugin/rust/src/resolve.rs:1581-1659 | For subPackages that exist: packages, import classification, replacements, siblings, test packages, test-only locals and sources of the single pass are those of the two passes, exactly when the `.test` condition holds |
| SinglePass.ResolvePackages | packages/go2nix-nix-plugin/rust/src/resolve.rs:1477-1499 | Under those two conditions the resolver gives the graph of the two passes whichever way it takes, also when the one command failed or does not serve, unless one of the two commands is needed and fails |
| SinglePass.SingleBuildGraph | packages/go2nix-nix-plugin/rust/src/resolve.rs:1629-1637 | The build graph of the records build_closure finds, or None exactly when it finds none or one of them does not load; for subPackages that exist it is the classification of their packages |
| SinglePass.TestPassRecords | packages/go2nix-nix-plugin/rust/src/resolve.rs:1639-1648 | The records handed to the test classifier are those go list prints for the siblings of the build graph alone; there are none exactly when siblings are left out and two records share a path |
| SinglePass.SingleTestPass | packages/go2nix-nix-plugin/rust/src/resolve.rs:1639-1658 | The merge of the narrowed records is the merge of the second command, and fails with it or for a shared path |
| SinglePass.CoveredIff | packages/go2nix-nix-plugin/rust/src/resolve.rs:1540-1558 | Test embeds the one listing shows early are all added by the merge anyway, except where a path ends in `.test` |
| SinglePass.AddedUnlessMainLike | packages/go2nix-nix-plugin/rust/src/resolve.rs:952-962 | A match's test embeds reach main_src_files through the test pass unless its path looks like a test main's, and then none do |
| SinglePassProofs.MatchedByOwnModule | packages/go2nix-nix-plugin/rust/src/resolve.rs:1639-1648 | A local package of the build graph that any pattern matches is matched by the pattern of its own module, so narrowing hides none of its embeds |
| SinglePassProofs.MatchEmbedsAdded | packages/go2nix-nix-plugin/rust/src/resolve.rs:952-962 | The test pass records exactly TestEmbedFiles and XTestEmbedFiles of a build-graph package that a pattern matches |
| SinglePassProofs.AlikeGraphs | packages/go2nix-nix-plugin/rust/src/resolve.rs:1205-1384 | Records that differ in test embeds only give build graphs that differ in the local packages' sources only |
| SinglePassProofs.MergedSame | packages/go2nix-nix-plugin/rust/src/resolve.rs:1540-1558 | The merged local packages of the two ways are one set exactly when each package's test embeds are among its sources after the merge |
| SinglePassLimits.TestMainAccepted | packages/go2nix-nix-plugin/rust/src/resolve.rs:1683-1695 | build_closure accepts the path of the test main of any tested package of the main module as a subPackage |
| SinglePassLimits.TestMainIsServed | packages/go2nix-nix-plugin/rust/src/resolve.rs:1683-1696 | With one tested package and the subPackage naming its test main the single pass returns a graph and the two passes fail |
| SinglePassLimits.MainLikeEmbedsDiffer | packages/go2nix-nix-plugin/rust/src/resolve.rs:911-913 | With one package whose path ends in `.test` and whose test embeds a file both ways return a graph, and not the same one |
| SinglePassLimits.OneServes | packages/go2nix-nix-plugin/rust/src/resolve.rs:1629-1659 | The single pass does not decline on a module of one package that loads, for a subPackage with the path of either record |
| SinglePassLimits.SubPackageNamesMain | packages/go2nix-nix-plugin/rust/src/resolve.rs:1927-1934 | The subPackage `./<dir>.test` has the path of the test main of the package in `./<dir>` |
| ClosureProofs.BuildClosureIsBuildPass | packages/go2nix-nix-plugin/rust/src/resolve.rs:1676-1708 | The bare records reached from the subPackages are exactly the packages go list -deps prints for them, and all are in the listing |
| ClosureProofs.IndexReachIsBuild | packages/go2nix-nix-plugin/rust/src/resolve.rs:1697-1707 | Following printed imports through the index of bare records is following the import graph |
| ClosureProofs.RootIsPkg | packages/go2nix-nix-plugin/rust/src/resolve.rs:1689-1696 | A subPackage that is a package is found as that package, not as a test main of the same path |
| Closures.BuildClosure | packages/go2nix-nix-plugin/rust/src/resolve.rs:1683-1708 | Result: the records reached from the subPackages. None exactly for two bare records of one path, no main module, or a subPackage without a bare record in the main module |
| Closures.IndexIs | packages/go2nix-nix-plugin/rust/src/resolve.rs:1664-1675 | There is one index over records of which no two share a path |
| Closures.SubPackageIndices | packages/go2nix-nix-plugin/rust/src/resolve.rs:1689-1696 | The start of the walk, or None exactly when some subPackage is not found in the main module |
| Closures.IndexByPath | packages/go2nix-nix-plugin/rust/src/resolve.rs:1664-1675 | None exactly when two kept records share a path; otherwise each kept record is under its path |
| Closures.Walk | packages/go2nix-nix-plugin/rust/src/resolve.rs:1697-1707 | The worklist ends with the least set holding the start and the indexed imports of its members |
| Closures.RestrictToPatterns | packages/go2nix-nix-plugin/rust/src/resolve.rs:1728-1766 | The records reached from the matches and their test mains, test embeds cleared off the matches. None exactly for two records of one path or a missing test main |
| Closures.Roots | packages/go2nix-nix-plugin/rust/src/resolve.rs:1732-1741 | The matches and the test mains of those with tests |
| Closures.Pick | packages/go2nix-nix-plugin/rust/src/resolve.rs:1753-1757 | The records reached, in the order printed, each once |
| RestrictProofs.RestrictionIsListing | packages/go2nix-nix-plugin/rust/src/resolve.rs:1710-1766 | For P within Q, narrowing the listing of Q to P gives each record go list prints for P alone, copies and test mains included, once, with test embeds on exactly the matches |
| RestrictProofs.WalkedIffListed | packages/go2nix-nix-plugin/rust/src/resolve.rs:1742-1752 | A record is reached by the narrowing walk exactly when go list prints it for the fewer patterns |
| RestrictProofs.MatchIsShown | packages/go2nix-nix-plugin/rust/src/resolve.rs:1730-1732 | The matches told by Match are the packages the fewer patterns match |
| RestrictProofs.NarrowedView | packages/go2nix-nix-plugin/rust/src/resolve.rs:1757-1763 | Clearing test embeds off the fewer matches turns what is printed for the more patterns into what is printed for the fewer |
| RestrictProofs.NoMainMissing | packages/go2nix-nix-plugin/rust/src/resolve.rs:1736-1740 | On a listing no match with tests lacks its test main, so narrowing gives up for a shared path only |
| RestrictProofs.SharedIffNamedLikeMain | packages/go2nix-nix-plugin/rust/src/resolve.rs:1661-1675 | Two records share a path exactly when a package listed is named like the test main of another |
| Classify.ClassifyGoPackages | packages/go2nix-nix-plugin/rust/src/resolve.rs:1205-1384 | Fails exactly when a record has an error other than a missing embed its overlay supplies, its own entry before its module's, and names the paths of all such records. Otherwise, whatever order the records come in: one package for each record of a module and one local package for each local record, field by field; of a local package's imports localImports has exactly those in localPaths and thirdPartyImports those in thirdPartyPaths and not in localPaths, in order; its sources are the sixteen file lists; each replacement is filed under the module path and the replacing version; siblings, module path and go version are those of the records' modules |
| Classify.ImportsAreSorted | packages/go2nix-nix-plugin/rust/src/resolve.rs:1338-1352 | The imports of a local package are told apart by the two path sets, the local one first, in order, and no other import is kept |
| Classify.RawIs | packages/go2nix-nix-plugin/rust/src/resolve.rs:306-361 | A local record becomes its package field by field; main_src_files is the union of the sixteen lists, embed_patterns of the build's and the tests' |
| Classify.ModulesAre | packages/go2nix-nix-plugin/rust/src/resolve.rs:1250-1309 | Replacements, siblings, module path and go version in terms of the records' modules, nothing missing and nothing else |
| Classify.LangVersionIs | packages/go2nix-nix-plugin/rust/src/resolve.rs:476-482 | major.minor, whatever follows a second dot; a version without one stays |
| GoListing.StripsAtBracket | packages/go2nix-nix-plugin/rust/src/resolve.rs:491-496 | The path up to its first ` [`, or all of it |
| GoListing.StripsEach | packages/go2nix-nix-plugin/rust/src/resolve.rs:1024-1028 | Imports are stripped one by one, in order |
| GoListing.SubPackagesAre | packages/go2nix-nix-plugin/rust/src/resolve.rs:1927-1934 | `.` and `./` are the module itself, any other subPackage a directory below it, with or without the `./` |
| Classify.NoteModule | packages/go2nix-nix-plugin/rust/src/resolve.rs:1250-1341 | Module path, go version, siblings and replacements, first met first kept, are functions of the set of modules met |
| ClassifyTests.ReadTestRecords | packages/go2nix-nix-plugin/rust/src/resolve.rs:848-1037 | The collections of the test classifier, path by path: the first record gives the package, the last the test imports and test embeds, the first replaced module version its target |
| ClassifyTests.ReadTestRecord | packages/go2nix-nix-plugin/rust/src/resolve.rs:870-1037 | One record more: errors excused by an overlay, test mains and self-test copies skipped, the rest collected |
| ClassifyTests.ReadLocal | packages/go2nix-nix-plugin/rust/src/resolve.rs:933-1000 | After a local record the collections are those of the records before it and of it: test imports and test embeds the last met, a package the first met |
| ClassifyTests.ReadThird | packages/go2nix-nix-plugin/rust/src/resolve.rs:1001-1037 | After a record of a module outside the build the collections are those of the records before it and of it: the first met of a path gives the package, the first of those its replacement |
| TestSets.CollectedOfSet | packages/go2nix-nix-plugin/rust/src/resolve.rs:896-1037 | What is collected from the records of one module does not depend on their order, copies included, if a package is met before copies without its test embeds |
| TestSets.FirstShowsEmbeds | packages/go2nix-nix-plugin/rust/src/resolve.rs:963-973 | The first record met of a path shows the test embeds of the package itself |
| TestSets.StandingFor | packages/go2nix-nix-plugin/rust/src/resolve.rs:963-973 | Every new local path has a record that stands for it: the package, or a copy where it is not listed |
| CoherentListings.ListingCoherent | packages/go2nix-nix-plugin/rust/src/resolve.rs:896-1037 | The records of a listing have one package to a path and a module one version, agree in the test embeds they show, and meet a match before its copies |
| CoherentListings.EarlyCopyRead | packages/go2nix-nix-plugin/rust/src/resolve.rs:870-912 | A copy made before its package had its test embeds is read only if the package is |
| TestReach.ClassifyTestPackages | packages/go2nix-nix-plugin/rust/src/resolve.rs:848-1139 | In terms of the records alone: fails exactly when a record of a package of the build graph, or of a copy made for its test, has an error no overlay excuses and is no test main; otherwise one package for each path the build graph lacks, as its first record has it; the test-only locals with files that lie in every set closed under what tests import, each with its imports split as in the build graph over both passes' paths; the last test embeds of each build-graph local; the first replacement of each module version after those known; the build-graph locals with missing embeds. On a listing the result is a function of the set of records |
| TestReach.LocalsAreGiven | packages/go2nix-nix-plugin/rust/src/resolve.rs:1096-1127 | Kept are exactly the test-only locals with something to compile that are needed, and each says of its fields, imports and embeds what its first record says |
| TestReach.NeededIffReached | packages/go2nix-nix-plugin/rust/src/resolve.rs:1048-1094 | The walk reaches exactly what is in every set that has what the tests of the build graph's locals import and, with a test-only package, what it imports (with a local one, what its tests import too) |
| TestOutcome.GivenBesideLocals | packages/go2nix-nix-plugin/rust/src/resolve.rs:864-1037 | The packages, test embeds, missing embeds and replacements collected, in terms of the first and last records of each path |
| TestOutcome.RecordIs | packages/go2nix-nix-plugin/rust/src/resolve.rs:870-912 | Which records are excused, reported, read or without files, condition by condition: the overlay of P serves the external test of P |
| TestReach.Merges | packages/go2nix-nix-plugin/rust/src/resolve.rs:1540-1558 | The merge: the test pass's packages, locals, their paths and replacements; each local of the build graph with its sources and the test embeds of its path, its imports as they were, its embeds missing if either pass says so; all else as it was |
| TwoPasses.MergeTests | packages/go2nix-nix-plugin/rust/src/resolve.rs:1511-1528 | The records of the second command merged into the build graph as the classifier's result in terms of the records, or its failure; a function of the packages there are |
| TestReach.WalkFrontier | packages/go2nix-nix-plugin/rust/src/resolve.rs:1076-1094 | The walk ends with nothing left to follow, and with nothing it did not reach |
| TestReach.Reach | packages/go2nix-nix-plugin/rust/src/resolve.rs:1062-1094 | The worklist ends with exactly the test-only locals reached from what the tests of the build graph import, through test-only modules' packages and kept locals' imports and test imports |
| TestReach.KeptImportsAreKept | packages/go2nix-nix-plugin/rust/src/resolve.rs:1096-1127 | Every local import of a kept test-only local is in the build graph or kept too, if it has files to compile |
| TestReach.LocalOrThird | packages/go2nix-nix-plugin/rust/src/resolve.rs:1078-1087 | No path is both a test-only local package and a test-only package of a module |
| TwoPasses.ResolveTwoPasses | packages/go2nix-nix-plugin/rust/src/resolve.rs:1505-1531 | The graph of the two commands is a function of the packages there are, whatever order each command prints them in; without local packages the second is not run, and if either fails so does the resolution |
| TwoPasses.PatternsOf | packages/go2nix-nix-plugin/rust/src/resolve.rs:1534-1538 | `./...` and one pattern for each sibling, in order |
| CoherentListings.TestRecordsCoherent | packages/go2nix-nix-plugin/rust/src/resolve.rs:896-940 | The records of a listing as a set: one package to a path, a module one version, one set of test imports and test embeds to a path |
| ListingMemo.Memo.Get | packages/go2nix-nix-plugin/rust/src/resolve.rs:749-755 | A hit returns what is kept under the key and moves it to the back; a miss changes nothing |
| ListingMemo.Memo.Put | packages/go2nix-nix-plugin/rust/src/resolve.rs:757-767 | The entry joins at the back and the shortest prefix goes that has to; an oversized listing changes nothing; the running total never underflows |
| ListingMemo.Memo.Ask | packages/go2nix-nix-plugin/rust/src/resolve.rs:1612-1616 | What a call is answered, and what the memo holds after the look |
| ListingMemo.Memo.Keep | packages/go2nix-nix-plugin/rust/src/resolve.rs:1621-1627 | What the memo holds after a call that had to run |
| ListingMemo.PutKeepsFit | packages/go2nix-nix-plugin/rust/src/resolve.rs:757-767 | Distinct keys and sizes within the limit are kept; evicted is the shortest prefix that has to go, never the entry just put |
| ListingMemo.GetKeepsFit | packages/go2nix-nix-plugin/rust/src/resolve.rs:749-755 | A get keeps distinct keys, the total size and every answer |
| ListingMemo.TrimsShortestPrefix | packages/go2nix-nix-plugin/rust/src/resolve.rs:763-766 | Trimming drops the shortest prefix that makes the rest fit |
| ListingMemo.AlwaysFits | packages/go2nix-nix-plugin/rust/src/resolve.rs:732-739 | After any history the keys are distinct and the sizes within the limit |
| ListingMemo.HitIsLastFitting | packages/go2nix-nix-plugin/rust/src/resolve.rs:749-767 | After any history a hit is the last fitting listing put under its key |
| ListingMemo.JustPutIsThere | packages/go2nix-nix-plugin/rust/src/resolve.rs:757-767 | A fitting listing is found right after it was put, whatever came before |
| ListingMemo.KeptByUse | packages/go2nix-nix-plugin/rust/src/resolve.rs:732-735 | After any history the entries stand in the order of their last use, so eviction takes the least recently used |
| ListingMemo.MemoChangesNothing | packages/go2nix-nix-plugin/rust/src/resolve.rs:1612-1628 | When a kept listing is a function of its key, every call is answered what the process would print for it, however looks and stores of several calls interleave |
| Embed.CandidatesCover | packages/go2nix-nix-plugin/rust/src/resolve.rs:390-441 | Whatever a pattern that resolves selects is among the candidates of any list holding the pattern, if there are any, and the pattern itself is no reason for there being none |
| EmbedResolve.ResolvedAreCandidates | packages/go2nix-nix-plugin/rust/src/resolve.rs:390-441 | The files ResolveEmbedCfg selects for any sub-list that resolves are among embed_candidates of the whole list, unless a pattern outside the sub-list goes below something that is no directory |
| EmbedResolve.BelowFileFails | packages/go2nix-nix-plugin/rust/src/resolve.rs:398-405 | One such pattern leaves no candidates at all |
| EmbedResolve.EmbedCandidates | packages/go2nix-nix-plugin/rust/src/resolve.rs:397-441 | The recursive walk fills exactly the set of files below the glob-free roots, nested modules left out and names taken as text, or fails for a root below something that is no directory |
| EmbedResolve.WalkInto | packages/go2nix-nix-plugin/rust/src/resolve.rs:398-428 | One root's walk adds exactly what is below it |
| EmbedResolve.ResolveEmbedCfg | go/go2nix/pkg/gofiles/gofiles.go:159-302 | Succeeds exactly when each pattern's syntax is valid, it has a match, and each match has good names, plain directories and no go.mod on its way and is a regular file, a symlink to one, or a directory with a file to take and none to refuse. A pattern's list then has the file itself, or of a directory m exactly the regular files m + rel with no bad element, none that starts with a dot or underscore unless the pattern has `all:`, and only directories without a go.mod between; each once, sorted; and the files are those of all lists |
| EmbedSelected.DirectoryGives | go/go2nix/pkg/gofiles/gofiles.go:237-283 | A matched directory gives the files so described; it is an error exactly when there is none, or the walk comes to something with a bad name that is no directory and does not start like a hidden one |
| EmbedSelected.MatchIs | go/go2nix/pkg/gofiles/gofiles.go:180-288 | The same for any match, with the checks on the way to it |
| EmbedSelected.PatternIs | go/go2nix/pkg/gofiles/gofiles.go:170-295 | What one pattern takes and when it resolves, in terms of its matches |
| EmbedSelected.AdmittedIsLegal | go/go2nix/pkg/gofiles/gofiles.go:197-216 | The checks on a match: every element of its path has a good name and no go.mod behind it, all but the last are directories |
| EmbedWalk.CandidatesAre | packages/go2nix-nix-plugin/rust/src/resolve.rs:390-441 | embed_candidates fails exactly when the elements of a pattern before its first with a meta character go below something that is no directory; else it lists exactly what is no directory, at or below those elements, in directories that are the package's own or have no go.mod, each step under a name its directory lists |
| EmbedWalk.WalkIs | packages/go2nix-nix-plugin/rust/src/resolve.rs:398-428 | What one walk inserts, as paths |
| EmbedResolve.ResolvePattern | go/go2nix/pkg/gofiles/gofiles.go:170-295 | One pattern resolves exactly when each match is legal and contributes files; `have` lists each file once, and the list is sorted |
| EmbedResolve.CheckParents | go/go2nix/pkg/gofiles/gofiles.go:197-216 | With the dirOK cache the loop accepts exactly the matches all of whose directories pass the checks |
| EmbedResolve.CacheGrows | go/go2nix/pkg/gofiles/gofiles.go:198-212 | What the loop marks stays true for later matches: no directory reached through a symlink is ever taken for checked |
| Embed.MatchWalked | go/go2nix/pkg/gofiles/gofiles.go:218-286 | What a match contributes is found by a walk from the match |
| LinkTargets.BuildTargets | go/go2nix/cmd/go2nix/linkbinary.go:214-243 | The binary of `.`, `./` or no path is called pname, or by the last element of the module path without one, any other by the last element of its directory; after[i] is the last earlier index of the same name or -1 |
| LinkTargets.BinNameIs | go/go2nix/cmd/go2nix/linkbinary.go:222-235 | The name of one binary, case by case |
| LinkTargets.BaseIs | go/go2nix/cmd/go2nix/linkbinary.go:229-234 | The last element of a path: between its last slash but trailing ones and the trailing ones, `.` of none and `/` of slashes alone |
| LinkTargets.LastNamedIsLast | go/go2nix/cmd/go2nix/linkbinary.go:216-218 | lastNamed gives the last earlier subPackage of a name |
| LinkJobs.LogPrinter.Flush | go/go2nix/cmd/go2nix/linkbinary.go:401-410 | One flush prints every log that is now next in order, up to the first failure of a job's own |
| LinkJobsProofs.ReachableInv | go/go2nix/cmd/go2nix/linkbinary.go:385-451 | What every interleaving of the jobs keeps: phases, errors, blame, slots, printer and output |
| LinkJobsProofs.LogsInOrder | go/go2nix/cmd/go2nix/linkbinary.go:375-384 | At any moment w has the logs 0 to next-1 and no more, all finished and none but the last an own failure |
| LinkJobsProofs.FailedRun | go/go2nix/cmd/go2nix/linkbinary.go:445-451 | A run ended by failures returns the lowest own failure and has printed exactly up to that log |
| LinkJobsProofs.SucceededRun | go/go2nix/cmd/go2nix/linkbinary.go:445-451 | A run without an own failure has succeeded in every job, returns nil and printed everything |
| LinkJobsProofs.NilIffAllSucceeded | go/go2nix/cmd/go2nix/linkbinary.go:443-451 | nil exactly when every job succeeded |
| LinkJobsProofs.ChooseError | go/go2nix/cmd/go2nix/linkbinary.go:445-450 | The final loop returns the lowest own failure, else what Wait returned |
| LinkJobsProofs.SlotBound | go/go2nix/cmd/go2nix/linkbinary.go:412-415 | At most `limit` jobs hold a slot at any moment |
| LinkJobsOrder.TargetsAreValid | go/go2nix/cmd/go2nix/linkbinary.go:225-243 | The `after` that linkBinaryTo builds is what runLinkJobs asks for |
| LinkJobsOrder.ChainSucceeded | go/go2nix/cmd/go2nix/linkbinary.go:416-434 | A job that was started follows a chain of jobs that all succeeded |
| LinkJobsOrder.NothingBehindFailure | go/go2nix/cmd/go2nix/linkbinary.go:416-434 | No job behind a failed one ever runs |
| LinkJobsOrder.NoneStartedAfterFailure | go/go2nix/cmd/go2nix/linkbinary.go:382-383 | The first failure cancels the others: once a failed job has ended no further job is started in any continuation of the run, and the error Wait returns is settled |
| LinkJobsOrder.SameNameNeverOverlap | go/go2nix/cmd/go2nix/linkbinary.go:216-218 | Of two jobs with one binary name the later starts only after the earlier has succeeded |
| LinkJobsOrder.LastListedWins | go/go2nix/cmd/go2nix/linkbinary.go:216-218 | After a successful run bin/<name> holds the output of the last listed subPackage of that name |
| LinkJobsOrder.NeverStuck | go/go2nix/cmd/go2nix/linkbinary.go:409-443 | Unless the limit is 0 a state that is not final has a job running or a step of the protocol, also when every slot is held by a waiting job |
| LinkJobsOrder.MeasureDecreases | go/go2nix/cmd/go2nix/linkbinary.go:412-441 | Every step but a job's writes brings the jobs closer to their end |
| LinkJobsOrder.RunsAreBounded | go/go2nix/cmd/go2nix/linkbinary.go:412-443 | No run of n jobs has more than 8n such steps |
| LinkJobsOrder.LimitZeroIsStuck | go/go2nix/cmd/go2nix/linkbinary.go:412-415 | With limit 0 nothing ever starts |
| Toposort.Sort | go/go2nix/pkg/toposort/toposort.go:12-58 | The nodes in the specified order, or the key a cycle was found at |
| Toposort.Sorter.Visit | go/go2nix/pkg/toposort/toposort.go:22-46 | The recursive closure over state and result does what the specification of the search does |
| Toposort.SortOrdersNodes | go/go2nix/pkg/toposort/toposort.go:9-11 | On success each node once, and each after every node it reaches, also through keys that are no nodes |
| Toposort.SortFailsIffCycle | go/go2nix/pkg/toposort/toposort.go:27-31 | Failure exactly when a node reaches a cycle; the error names a key on one |
| Toposort.SortIgnoresUniverse | go/go2nix/pkg/toposort/toposort.go:48-56 | The order depends on the node set and the edges only |
| Toposort.LeastRootFirst | go/go2nix/pkg/toposort/toposort.go:48-56 | The keys are visited in string order: what a node reaches comes before a node that neither it nor any lesser node reaches |
| Toposort.ListedDepsFirst | go/go2nix/pkg/toposort/toposort.go:33-37 | And the dependencies of a key in the order listed |
| Ordering.LessIff | go/go2nix/pkg/toposort/toposort.go:48-52 | String order: the shorter of two strings where one begins the other, else the one with the smaller character at the first difference |
| Ordering.SortKeys | go/go2nix/pkg/toposort/toposort.go:48-52 | Keys collected from a map in whatever order and sorted are one sequence |
| LocalDeps.AffectedLocalDeps | go/go2nix/pkg/testrunner/testrunner.go:192-258 | The specified packages in the specified order, whatever order the maps are iterated in |
| LocalDeps.SearchFindsAll | go/go2nix/pkg/testrunner/testrunner.go:211-237 | The search pruned to what the external test reaches finds every reachable package that depends on the target over any path |
| LocalDeps.Reachable | go/go2nix/pkg/testrunner/testrunner.go:193-209 | The forward closure of the external test's local imports |
| LocalDeps.Search | go/go2nix/pkg/testrunner/testrunner.go:219-237 | The pruned breadth-first search ends closed, with nothing in it that does not belong |
| LocalDeps.Reverse | go/go2nix/pkg/testrunner/testrunner.go:211-217 | The reverse edges of the local packages |
| LocalDepsProofs.AffectedAreOrdered | go/go2nix/pkg/testrunner/testrunner.go:239-258 | On success exactly the affected packages, each once, none before one it depends on in the whole import graph |
| LocalDepsProofs.NoErrorOnceListed | go/go2nix/pkg/testrunner/testrunner.go:192-258 | No error once the local packages have been sorted over the same imports |
| Importcfg.OverrideImportCfgEntry | go/go2nix/pkg/testrunner/testrunner.go:532-553 | The file without the path's entries, and the new one at the end |
| Importcfg.OverrideEntries | go/go2nix/pkg/testrunner/testrunner.go:532-553 | After a rewrite the path has one entry, and every other path the entries it had |
| Importcfg.OverrideLines | go/go2nix/pkg/testrunner/testrunner.go:541-550 | Line by line: those of the path give way to the new entry, and every other line stays as often as it was there |
| Recompile.TestRun.Prepare | go/go2nix/pkg/testrunner/testrunner.go:264-389 | Steps 1 and 1b: the configs and archives they leave, or what did not compile or what cycle was found |
| Recompile.TestRun.RecompileAffected | go/go2nix/pkg/testrunner/testrunner.go:364-388 | The loop over the affected packages stops at the first that does not compile, else leaves the specified configs |
| Recompile.TestRun.OverrideBoth | go/go2nix/pkg/testrunner/testrunner.go:292-302 | Both configs are rewritten, the one file once when they share it |
| RecompileProofs.RecompiledConsistentIff | go/go2nix/pkg/testrunner/testrunner.go:345-389 | Every affected package maps in both configs to one archive compiled from it, at a time when all the target and affected packages behind it had their final entries, if and only if no two affected packages share a sanitized name |
| RecompileProofs.ReachedAreFresh | go/go2nix/pkg/testrunner/testrunner.go:345-389 | Every package the external test reaches that is the target or depends on it has one entry, an archive compiled from it and, the target apart, when the target and all affected packages behind it had their final entries; the others keep their entries |
| RecompileProofs.WithoutBothTests | go/go2nix/pkg/testrunner/testrunner.go:304-353 | Without internal tests nothing changes; with internal tests only, the target is compiled against the configs as they are and gets the new archive as its one entry, every other entry and archive stays, and the one error is the target not compiling |
| RecompileProofs.PreparedFails | go/go2nix/pkg/testrunner/testrunner.go:304-389 | With both kinds of tests: the error is the target's, or a cycle among the packages to recompile, or the first of them that does not compile against what was recompiled before it; without an error all compile |
| RecompileProofs.SameNameIff | go/go2nix/pkg/testrunner/testrunner.go:568-570 | Two paths share a sanitized name exactly when they differ in slashes, dots and underscores only |
| RecompileProofs.LastBuild | go/go2nix/pkg/testrunner/testrunner.go:364-388 | An archive holds what the last package of its name was compiled from |
| RecompileProofs.NamesCanCollide | go/go2nix/pkg/testrunner/testrunner.go:568-570 | Three packages on which the loop ends without an error and is not consistent |
| NarTrees.DumpPath | packages/go2nix-nix-plugin/rust/src/nar.rs:29-85 | None exactly when something in the tree is no file, directory or link. The bytes of a tree with UTF-8 names, read back, show it: contents and the executable bit (owner's, group's or others') of each file, link targets, and each directory's entries once, by ascending name |
| NarTrees.Writer.WriteBytes | packages/go2nix-nix-plugin/rust/src/nar.rs:93-103 | What is written at any moment is the framing of the strings so far |
| NarTrees.Writer.DumpEntry | packages/go2nix-nix-plugin/rust/src/nar.rs:34-85 | The strings an entry writes, in order |
| NarTrees.DumpReadsBack | packages/go2nix-nix-plugin/rust/src/nar.rs:28-85 | A reader of the format recovers every tree with UTF-8 names, distinct in each directory, and lengths below 2^64: files, links and directories as they are on disk |
| NarTrees.FileReadsBack | packages/go2nix-nix-plugin/rust/src/nar.rs:68-78 | A file shorter than 2^64 bytes is read back with its contents, and as executable exactly when one of the bits 0x40, 0x08 and 0x01 of its mode is set |
| NarTrees.NoDumpIffSpecial | packages/go2nix-nix-plugin/rust/src/nar.rs:79-81 | A tree has no archive exactly when an unsupported file type is somewhere in it |
| NarTrees.DumpEqualIffSameTree | packages/go2nix-nix-plugin/rust/src/nar.rs:19-32 | Two trees have one archive exactly when they are the same tree: the hash is a function of the content and of nothing else |
| NarTrees.ReaddirOrderIrrelevant | packages/go2nix-nix-plugin/rust/src/nar.rs:51-57 | The order readdir returns entries in does not matter at any depth, whatever the names, link targets and file types |
| NarTrees.EntriesInAnyOrder | packages/go2nix-nix-plugin/rust/src/nar.rs:51-57 | Nor for the entries of one directory, in particular |
| NarTrees.TargetsByText | packages/go2nix-nix-plugin/rust/src/nar.rs:44-46 | Link targets outside UTF-8 are told apart exactly as far as their texts are |
| NarProofs.ReadsArchive | packages/go2nix-nix-plugin/rust/src/nar.rs:28-85 | The archive of an object can be read back |
| NarProofs.ReadsOnlyArchives | packages/go2nix-nix-plugin/rust/src/nar.rs:28-85 | The reader accepts nothing but archives: no object has two |
| NarFraming.Framed | packages/go2nix-nix-plugin/rust/src/nar.rs:92-103 | The length of a framed string is a multiple of 8 |
| NarFraming.FramedIs | packages/go2nix-nix-plugin/rust/src/nar.rs:92-103 | Eight bytes that hold the length, lowest first, the data, and fewer than eight zeros up to a multiple of eight |
| Nar.LessIff | packages/go2nix-nix-plugin/rust/src/nar.rs:57-57 | The order of names: byte by byte, a name before those it begins |
| NarFraming.FramedAll | packages/go2nix-nix-plugin/rust/src/nar.rs:28-32 | So is that of every archive |
| NarFraming.UnframeAllFramed | packages/go2nix-nix-plugin/rust/src/nar.rs:87-103 | Framed strings can be taken apart again |
| NarFraming.FramedUnframeAll | packages/go2nix-nix-plugin/rust/src/nar.rs:87-103 | What can be taken apart is the framing of its strings |
| LineDiff.Diff | scripts/check-cgo-flag-tables.go:132-161 | The printed deletions and insertions turn a into b, number len(a) + len(b) - 2 LCS, and are none exactly when a equals b |
| LineDiff.PrintsSigns | scripts/check-cgo-flag-tables.go:154-158 | A deletion is printed behind a minus sign, an insertion behind a plus sign, a kept line not at all |
| LineDiff.FillTable | scripts/check-cgo-flag-tables.go:133-146 | Every cell holds the true length for its suffixes |
| LineDiff.LcsIsLongest | scripts/check-cgo-flag-tables.go:137-145 | The recurrence is the length of a longest common subsequence |
| LineDiff.NoShorterScript | scripts/check-cgo-flag-tables.go:130-131 | No script from a to b has fewer changes |
| GodebugTable.Merge | scripts/check-godebug-table.go:66-101 | The merged rows, sorted by name, as a map from name to row |
| GodebugTable.CarryRemoved | scripts/check-godebug-table.go:261-276 | Retired settings with Changed and Old from the committed table |
| GodebugTable.AdjustListed | scripts/check-godebug-table.go:72-82 | A live row retired by a newer toolchain takes its Removed; listed names are crossed off |
| GodebugTable.AppendKept | scripts/check-godebug-table.go:83-100 | Committed rows this toolchain cannot see are kept |
| GodebugTable.DiffTables | scripts/check-godebug-table.go:376-412 | A finding for each merged row the committed table lacks, and one with both rows for each it disagrees with; none exactly when it agrees with all |
| GodebugTable.Check | scripts/check-godebug-table.go:112-121 | Whether the committed table is accepted |
| GodebugProofs.UpdateIsIdempotent | scripts/check-godebug-table.go:66-110 | Updating twice with one toolchain is updating once |
| GodebugProofs.UpdatedRows | scripts/check-godebug-table.go:66-101 | What an update leaves of each name: a live row as the toolchain has it but for the Removed of a newer one, a retired one with the toolchain's Removed and its own Changed and Old, any other as it was or dropped |
| GodebugProofs.CheckAcceptsUpdate | scripts/check-godebug-table.go:103-121 | The check accepts what an update wrote |
| GodebugProofs.AcceptsIff | scripts/check-godebug-table.go:376-412 | What an accepting check means, setting by setting, and all it means: rows retired by a newer toolchain are not compared |
| GodebugProofs.AcceptedIsUpdatedUnlessUnchecked | scripts/check-godebug-table.go:112-121 | An accepted table is what an update would write exactly when no row is one the check does not look at |
| GodebugProofs.AcceptedButRewritten | scripts/check-godebug-table.go:396-402 | A table that is accepted though an update would rewrite it |
| GodebugProofs.DroppedIff | scripts/check-godebug-table.go:83-100 | Exactly which rows an update drops |
| GodebugProofs.NewerRowKept | scripts/check-godebug-table.go:70-71 | An older toolchain never drops a row with Changed or Removed above its minor |
| GodebugProofs.NewerRemovedKept | scripts/check-godebug-table.go:77-79 | And keeps such a Removed unless it lists the name as retired itself |
| GodebugProofs.NewerRowSurvives | scripts/check-godebug-table.go:67-100 | Over any sequence of updates by toolchains of any age a row stays that is never retired at or below the minor of a toolchain that does not list it as retired; its Removed is that of the last one that does, or its own |
| DefaultGodebug.DefaultGODEBUG | go/go2nix/pkg/buildinfo/godebug.go:183-290 | Empty without a go.mod or a go version that parses (1.16 without a go line). Otherwise key=value for every setting, by ascending key, where a key has the value of the source's last directive for it, else of go.mod's last, else fips140 is on in FIPS mode, else the old value of the last table row of that name that counts; the version the table is read for is the last usable default= of the source, else of go.mod, else the go line's |
| DefaultGodebug.SettingsAre | go/go2nix/pkg/buildinfo/godebug.go:207-269 | Each key's value, with the source before go.mod before FIPS mode before the table, and which rows of the table count |
| DefaultGodebug.BaseIs | go/go2nix/pkg/buildinfo/godebug.go:217-230 | The version the defaults are of: the source's last usable default= before go.mod's before the go line |
| DefaultGodebug.RenderedIsPrinted | go/go2nix/pkg/buildinfo/godebug.go:275-289 | The string: key=value for each key in string order, with commas between |
| DefaultGodebugProofs.MinorOfVersion | go/go2nix/pkg/buildinfo/godebug.go:386-397 | The minor of `1.N` and `go1.N`, whatever follows, at most the largest int |
| DefaultGodebug.ScanDefaults | go/go2nix/pkg/buildinfo/godebug.go:217-230 | The last usable `default` directive gives the base minor |
| DefaultGodebug.CollectDefaults | go/go2nix/pkg/buildinfo/godebug.go:232-255 | The settings one table gives for a minor |
| DefaultGodebug.ApplyExplicit | go/go2nix/pkg/buildinfo/godebug.go:263-269 | Directives written over them |
| DefaultGodebugProofs.FallbackAgreesIff | go/go2nix/pkg/buildinfo/godebug.go:207-290 | After an update the fallback returns the own table's string for every go version, directive list and FIPS setting if and only if every kept row the toolchain does not list has Changed above its minor |
| DefaultGodebugProofs.LaterReleaseDiffers | scripts/check-godebug-table.go:88-100 | A table with a row of a later patch release, on which the two paths differ |
| DefaultGodebugProofs.FallbackEmits | go/go2nix/pkg/buildinfo/godebug.go:232-255 | What the fallback gives besides the own table's settings |
| DefaultGodebugProofs.MergeIsUpdate | scripts/check-godebug-table.go:66-110 | The rows of the merge are an update |
| DefaultGodebugProofs.LastDirectiveWins | go/go2nix/pkg/buildinfo/godebug.go:257-269 | A directive wins over every table and FIPS mode, the last one of a key over the others |
| Resolver.Resolve | go/go2nix/pkg/resolve/resolve.go:239-294 | The outcome, case by case and no two together: an import cycle; a package's derivation the store names otherwise than computed; no main package; a collector for several links one of which the store names so that its computed path is not there; otherwise success, and the store has gained exactly the derivations of all packages, the links and the collector. No derivation path is ever missing, and no other derivation is added before its inputs; a single link the store names otherwise still succeeds |
| Resolver.SortPackages | go/go2nix/pkg/resolve/graph.go:118-127 | Every package once and after all it imports, or the cycle |
| Resolver.BuildPackageDrvs | go/go2nix/pkg/resolve/resolve.go:254-271 | Each derivation is computed from the final paths of those it imports |
| Resolver.BuildPackageDrv | go/go2nix/pkg/resolve/resolve.go:800-829 | Without an import that has no path yet: named after the package, with one entry for each import in order, the archive at its path for a package of the graph and the standard library's otherwise, and with exactly the paths of the former as inputs. Else the error names such an import |
| Resolver.RegisterPackages | go/go2nix/pkg/resolve/resolve.go:254-280 | Every package's derivation is in the store under the path the others name, unless the store names one of them otherwise, and then that is the error |
| Resolver.OnlyCollectorMisses | go/go2nix/pkg/resolve/resolve.go:282-290 | Of the final derivations only the collector can lack an input, and exactly when a link's computed path is not in the store |
| Resolver.RegisterFinal | go/go2nix/pkg/resolve/resolve.go:282-294 | The links and then the collector are added, or the collector lacks the path of a link the store named otherwise |
| Resolver.PackageInputsFirst | go/go2nix/pkg/resolve/resolve.go:442-446 | In dependency order every derivation's inputs come before it |
| Resolver.ArchivesAreInputs | go/go2nix/pkg/resolve/resolve.go:254-271 | Every archive a package's derivation lists is among its inputs, is of a package it imports, and is registered before it; it has no other inputs |
| Resolver.FinalAre | go/go2nix/pkg/resolve/resolve.go:833-888 | The final derivations: the link of each main package in turn, and behind more than one a collector whose inputs are exactly their paths |
| Resolver.MainsInOrder | go/go2nix/pkg/resolve/resolve.go:838-844 | The main packages are in the order of the sorted packages |
| Resolver.FinalInputsFirst | go/go2nix/pkg/resolve/resolve.go:833-888 | Once the packages are registered all that links and collector need is |
| Resolver.BuildLinkDrv | go/go2nix/pkg/resolve/resolve.go:897-977 | Entries and inputs of a link |
| Resolver.BuildFinalDrv | go/go2nix/pkg/resolve/resolve.go:833-888 | A link for each main package in dependency order, a collector behind more than one |
| Registration.TransitiveClosure | go/go2nix/pkg/resolve/resolve.go:771-798 | Exactly the packages the main package reaches inside the graph, by import path |
| Registration.LinkListsReached | go/go2nix/pkg/resolve/resolve.go:897-970 | A link lists exactly what its main reaches, sorted, and behind it the standard library; every import of a listed package is listed or outside the graph; the binary is called pname, or after its import path when there are several |
| Registration.LastElementIs | go/go2nix/pkg/resolve/resolve.go:908-912 | What stands behind the last slash of an import path |
| Registration.RegisterChecked | go/go2nix/pkg/resolve/resolve.go:442-462 | Registering succeeds exactly in an order with inputs first when the store returns the computed paths, and adds exactly those derivations |
| Registration.Register | go/go2nix/pkg/resolve/resolve.go:282-290 | The same for the final derivations, whose paths are not compared |

## Left out

- Running go, nix, compilers and linkers, and assembling their arguments: process plumbing. Their results are parameters.
- JSON, TOML and Go source parsing, flag parsing and the C++ shim: serialisation and foreign code.
- `listing_can_be_kept` and symlinks out of the store: their conclusion is an assumption on keys.
- Wording of errors (`pkg_error_text`, `without_modfile_text`) and the recognition of embed errors by text: a record's error is one of three kinds.
- `compute_sub_package_closures` and the JSON output of the graph: a plain breadth-first search and a translation field by field.
- Spellings of a subPackage such as `./a/../b`: the single pass declines them, so the two passes' reading of them is not compared.
- Resolver.Resolve: FODs and staging of local sources are not modelled; a derivation is its name, importcfg entries and input derivations.
- Resolver.BuildPackageDrv: leaves out the script, environment, compile manifest and input sources of a derivation: they are assembled, not decided.
- Resolver.BuildLinkDrv: leaves out the modinfo line, flags and environment, for the same reason.
- buildPackageGraph: the translation of go list records is an assumption that each package is filed under its own path.
- Recompile.TestRun.Prepare: stops before the external test is compiled; a package that is not in the map of local packages cannot occur among the affected ones and has no branch.
- Importcfg.OverrideImportCfgEntry: a file is its lines; line ends and the scanner's line length limit are not modelled.
- EmbedResolve.ResolveEmbedCfg: symlink cycles and unreadable directories do not occur, and a pattern is given as path elements.
- EmbedResolve.EmbedCandidates: unreadable directories do not occur, and `.` and `..` are no elements of a pattern.
- ListingMemo.Memo.Ask: a poisoned lock does not occur.
- LinkJobs: jobs' scratch directories; a job that cannot make its directory is a job that returns an error.
- DefaultGodebug.DefaultGODEBUG: the process-wide cache of the toolchain's table; the table is a parameter.
- LineDiff.Diff: reading the sections that are compared.
- `MergeEmbedCfg`, the small string helpers, `buildCores` and the benchmarks: easy members only.
