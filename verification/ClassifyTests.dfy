/**
  classify_test_packages and merge_test_pass (packages/go2nix-nix-plugin/rust/src/resolve.rs): what
  only tests need, found among the records of go list -deps -test, and merged into the build graph.
 */
module ClassifyTests {
  import opened Wrappers
  import opened GoListing
  import opened Classify

  /** What the build pass found, and the overlays. */
  datatype Context = Context(third: set<string>, local: set<string>, overlays: Overlays)

  /** The path of the package whose overlay supplies a record's files: P for the external test of P. */
  function Owner(r: Rec): string {
    var bare := Strip(r.path);
    if EndsWith(bare, "_test") && bare[..|bare| - 5] == r.forTest then r.forTest else bare
  }

  predicate IsExcused(c: Context, r: Rec) {
    r.error == MissingEmbed && OverlaySupplies(c.overlays, Owner(r), r.mod)
  }

  /** Printed like the test main of a package. */
  predicate LooksLikeMain(r: Rec) {
    EndsWith(Strip(r.path), ".test")
  }

  /** An error of a package of the build graph, or of a copy made for the test of one. */
  predicate IsFatal(c: Context, r: Rec) {
    && r.error != NoError && !IsExcused(c, r) && !LooksLikeMain(r)
    && (Strip(r.path) in c.local || (r.forTest != "" && r.forTest in c.local))
  }

  /** The records that are classified at all. */
  predicate IsRead(c: Context, r: Rec) {
    (r.error == NoError || IsExcused(c, r)) && !LooksLikeMain(r) && !IsSelfTest(r) && r.mod.Some?
  }

  predicate IsLocalRead(c: Context, r: Rec) {
    IsRead(c, r) && IsLocal(r.mod.value)
  }

  predicate HasTestImports(r: Rec) {
    r.forTest == "" && (r.testImports != [] || r.xtestImports != [])
  }

  predicate HasTestEmbeds(r: Rec) {
    r.testEmbeds != [] || r.xtestEmbeds != []
  }

  predicate NoFiles(f: Sources) {
    f.goFiles == [] && f.cgoFiles == [] && (forall l :: l in f.other ==> l == []) && f.embedPatterns == []
  }

  predicate IsNewLocal(c: Context, r: Rec) {
    IsLocalRead(c, r) && Strip(r.path) !in c.local
  }

  predicate IsImporter(c: Context, r: Rec) {
    IsLocalRead(c, r) && HasTestImports(r)
  }

  predicate IsEmbedder(c: Context, r: Rec) {
    IsLocalRead(c, r) && Strip(r.path) in c.local && HasTestEmbeds(r)
  }

  predicate IsNewThird(c: Context, r: Rec) {
    IsRead(c, r) && !IsLocal(r.mod.value) && Strip(r.path) !in c.third
  }

  // ---- The collections, as functions of the records in the order met ----

  /** The collections a record can join. */
  datatype Kind = NewLocal | NewThird | Importer | Embedder

  predicate Is(c: Context, k: Kind, r: Rec) {
    match k
    case NewLocal => IsNewLocal(c, r)
    case NewThird => IsNewThird(c, r)
    case Importer => IsImporter(c, r)
    case Embedder => IsEmbedder(c, r)
  }

  predicate Joins(c: Context, k: Kind, r: Rec, path: string) {
    Is(c, k, r) && Strip(r.path) == path
  }

  /** The first record to join a collection under a path. */
  function First(c: Context, k: Kind, recs: seq<Rec>, path: string): (r: Option<Rec>)
    ensures r.Some? ==> r.value in recs && Joins(c, k, r.value, path)
    ensures r.None? ==> forall x :: x in recs ==> !Joins(c, k, x, path)
  {
    if |recs| == 0 then None
    else
      var init, last := recs[..|recs| - 1], recs[|recs| - 1];
      assert recs == init + [last];
      var first := First(c, k, init, path);
      if first.Some? then first else if Joins(c, k, last, path) then Some(last) else None
  }

  /** The last one. */
  function Last(c: Context, k: Kind, recs: seq<Rec>, path: string): (r: Option<Rec>)
    ensures r.Some? ==> r.value in recs && Joins(c, k, r.value, path)
    ensures r.None? ==> forall x :: x in recs ==> !Joins(c, k, x, path)
  {
    if |recs| == 0 then None
    else
      var init, last := recs[..|recs| - 1], recs[|recs| - 1];
      assert recs == init + [last];
      if Joins(c, k, last, path) then Some(last) else Last(c, k, init, path)
  }

  ghost function PathsOf(c: Context, k: Kind, recs: seq<Rec>): set<string> {
    set r | r in recs && Is(c, k, r) :: Strip(r.path)
  }

  /** Of several records with one path the first gives a test-only package of a module. */
  function PackageAt(c: Context, recs: seq<Rec>, p: string): Option<PkgData> {
    var r := First(c, NewThird, recs, p);
    if r.None? then None else Some(PkgOf(Normal(r.value), r.value.mod.value))
  }

  /** And a test-only local package, unless that record has no files. */
  function RawAt(c: Context, recs: seq<Rec>, p: string): Option<RawLocal> {
    var r := First(c, NewLocal, recs, p);
    if r.None? || NoFiles(r.value.files) then None else Some(RawOf(Normal(r.value), r.value.mod.value))
  }

  /** The last one gives the test embeds and the test imports. */
  function EmbedsAt(c: Context, recs: seq<Rec>, p: string): Option<seq<string>> {
    var r := Last(c, Embedder, recs, p);
    if r.None? then None else Some(r.value.testEmbeds + r.value.xtestEmbeds)
  }

  function ImportsAt(c: Context, recs: seq<Rec>, p: string): Option<seq<string>> {
    var r := Last(c, Importer, recs, p);
    if r.None? then None else Some(StripAll(r.value.testImports + r.value.xtestImports))
  }

  /** A partial function of paths as a map. */
  ghost function Tabled<K, V>(keys: set<K>, at: K -> Option<V>): map<K, V> {
    map k | k in keys && at(k).Some? :: at(k).value
  }

  ghost function PackagesMet(c: Context, recs: seq<Rec>): map<string, PkgData> {
    Tabled(PathsOf(c, NewThird, recs), p => PackageAt(c, recs, p))
  }

  ghost function RawsMet(c: Context, recs: seq<Rec>): map<string, RawLocal> {
    Tabled(PathsOf(c, NewLocal, recs), p => RawAt(c, recs, p))
  }

  ghost function EmbedsMet(c: Context, recs: seq<Rec>): map<string, seq<string>> {
    Tabled(PathsOf(c, Embedder, recs), p => EmbedsAt(c, recs, p))
  }

  ghost function ImportsMet(c: Context, recs: seq<Rec>): map<string, seq<string>> {
    Tabled(PathsOf(c, Importer, recs), p => ImportsAt(c, recs, p))
  }

  /** The records that are the first of their path among the test-only packages of modules. */
  function Firsts(c: Context, recs: seq<Rec>): (r: seq<Rec>)
    ensures forall x :: x in r ==> x in recs && IsNewThird(c, x)
  {
    if |recs| == 0 then []
    else
      var init, last := recs[..|recs| - 1], recs[|recs| - 1];
      Firsts(c, init) + if IsNewThird(c, last) && First(c, NewThird, init, Strip(last.path)).None? then [last] else []
  }

  predicate Replaces(r: Rec, k: ModKey) {
    r.mod.Some? && IsReplaced(r.mod.value) && KeyOf(r.mod.value) == k
  }

  /** The first record of a replaced module version. */
  function FirstReplaced(recs: seq<Rec>, k: ModKey): (r: Option<Rec>)
    ensures r.Some? ==> r.value in recs && Replaces(r.value, k)
    ensures r.None? ==> forall x :: x in recs ==> !Replaces(x, k)
  {
    if |recs| == 0 then None
    else
      var init, last := recs[..|recs| - 1], recs[|recs| - 1];
      assert recs == init + [last];
      var first := FirstReplaced(init, k);
      if first.Some? then first else if Replaces(last, k) then Some(last) else None
  }

  ghost function KeysOf(recs: seq<Rec>): set<ModKey> {
    set r | r in recs && r.mod.Some? && IsReplaced(r.mod.value) :: KeyOf(r.mod.value)
  }

  function TargetAt(recs: seq<Rec>, k: ModKey): Option<Target> {
    var r := FirstReplaced(recs, k);
    if r.None? then None else Some(TargetOf(r.value.mod.value))
  }

  ghost function Replacing(recs: seq<Rec>): map<ModKey, Target> {
    Tabled(KeysOf(recs), k => TargetAt(recs, k))
  }

  ghost function Fatal(c: Context, s: set<Rec>): set<string> {
    set r | r in s && IsFatal(c, r) :: r.path
  }

  ghost function Unresolved(c: Context, s: set<Rec>): set<string> {
    set r | r in s && IsExcused(c, r) :: Owner(r)
  }

  ghost function LocalPaths(c: Context, s: set<Rec>): set<string> {
    set r | r in s && IsNewLocal(c, r) :: Strip(r.path)
  }

  /** What classify_test_packages collects; `known` are the replacements the build pass found. */
  datatype TestState = TestState(
    packages: map<string, PkgData>, localPaths: set<string>, raws: map<string, RawLocal>,
    embedFiles: map<string, seq<string>>, testImports: map<string, seq<string>>,
    replacements: map<ModKey, Target>, unresolved: set<string>)

  /** What it returns. */
  datatype TestPass = TestPass(packages: set<PkgData>, locals: set<LocalPkg>, embedFiles: map<string, seq<string>>,
                               unresolved: set<string>, replacements: map<ModKey, Target>)

  ghost function CollectedFrom(c: Context, recs: seq<Rec>, known: map<ModKey, Target>): TestState {
    TestState(PackagesMet(c, recs), LocalPaths(c, RecSet(recs)), RawsMet(c, recs), EmbedsMet(c, recs),
      ImportsMet(c, recs),
              Replacing(Firsts(c, recs)) + known, Unresolved(c, RecSet(recs)))
  }

  // ---- One record more ----

  lemma OneMore(recs: seq<Rec>, r: Rec)
    ensures (recs + [r])[..|recs|] == recs && RecSet(recs + [r]) == RecSet(recs) + {r}
    ensures forall x :: x in recs + [r] <==> x in recs || x == r
  {
  }

  lemma FirstNext(c: Context, k: Kind, recs: seq<Rec>, r: Rec, p: string)
    ensures First(c, k, recs + [r], p)
      == if First(c, k, recs, p).Some? then First(c, k, recs, p) else if Joins(c, k, r, p) then Some(r) else None
  {
    OneMore(recs, r);
  }

  lemma LastNext(c: Context, k: Kind, recs: seq<Rec>, r: Rec, p: string)
    ensures Last(c, k, recs + [r], p) == if Joins(c, k, r, p) then Some(r) else Last(c, k, recs, p)
  {
    OneMore(recs, r);
  }

  ghost function At<K, V>(m: map<K, V>, k: K): Option<V> {
    if k in m then Some(m[k]) else None
  }

  /** One value more. */
  lemma TabledNext<K, V>(keys: set<K>, at: K -> Option<V>, m: map<K, V>, k: K, v: Option<V>)
    requires forall x :: at(x).Some? ==> x in keys
    requires forall x :: at(x) == if x == k && v.Some? then v else At(m, x)
    ensures Tabled(keys, at) == if v.Some? then m[k := v.value] else m
  {
    var n := Tabled(keys, at);
    assert forall x :: At(n, x) == at(x);
    assert forall x :: x in n <==> At(n, x).Some?;
    assert forall x :: x in m <==> At(m, x).Some?;
  }

  lemma PackagesNext(c: Context, recs: seq<Rec>, r: Rec)
    ensures PackagesMet(c, recs + [r]) == if IsNewThird(c, r) && Strip(r.path) !in PackagesMet(c, recs)
      then PackagesMet(c, recs)[Strip(r.path) := PkgOf(Normal(r), r.mod.value)] else PackagesMet(c, recs)
  {
    var added := if IsNewThird(c, r) && Strip(r.path) !in PackagesMet(c, recs) then
      Some(PkgOf(Normal(r), r.mod.value)) else None;
    forall p
      ensures PackageAt(c, recs + [r], p) == if p == Strip(r.path) && added.Some? then added
        else At(PackagesMet(c, recs), p)
    {
      FirstNext(c, NewThird, recs, r, p);
    }
    TabledNext(PathsOf(c, NewThird, recs + [r]), p => PackageAt(c, recs + [r], p), PackagesMet(c, recs),
      Strip(r.path), added);
  }

  lemma RawsNext(c: Context, recs: seq<Rec>, r: Rec)
    ensures RawsMet(c, recs + [r]) == if IsNewLocal(c, r) && Strip(r.path) !in LocalPaths(c, RecSet(recs))
      && !NoFiles(r.files)
      then RawsMet(c, recs)[Strip(r.path) := RawOf(Normal(r), r.mod.value)] else RawsMet(c, recs)
  {
    var added := if IsNewLocal(c, r) && Strip(r.path) !in LocalPaths(c, RecSet(recs)) && !NoFiles(r.files)
      then Some(RawOf(Normal(r), r.mod.value)) else None;
    forall p
      ensures RawAt(c, recs + [r], p) == if p == Strip(r.path) && added.Some? then added else At(RawsMet(c, recs), p)
    {
      FirstNext(c, NewLocal, recs, r, p);
    }
    TabledNext(PathsOf(c, NewLocal, recs + [r]), p => RawAt(c, recs + [r], p), RawsMet(c, recs), Strip(r.path), added);
  }

  lemma EmbedsNext(c: Context, recs: seq<Rec>, r: Rec)
    ensures EmbedsMet(c, recs + [r]) == if IsEmbedder(c, r)
      then EmbedsMet(c, recs)[Strip(r.path) := r.testEmbeds + r.xtestEmbeds] else EmbedsMet(c, recs)
  {
    var added := if IsEmbedder(c, r) then Some(r.testEmbeds + r.xtestEmbeds) else None;
    forall p
      ensures EmbedsAt(c, recs + [r], p) == if p == Strip(r.path) && added.Some? then added
        else At(EmbedsMet(c, recs), p)
    {
      LastNext(c, Embedder, recs, r, p);
    }
    TabledNext(PathsOf(c, Embedder, recs + [r]), p => EmbedsAt(c, recs + [r], p), EmbedsMet(c, recs), Strip(r.path),
      added);
  }

  lemma ImportsNext(c: Context, recs: seq<Rec>, r: Rec)
    ensures ImportsMet(c, recs + [r]) == if IsImporter(c, r)
      then ImportsMet(c, recs)[Strip(r.path) := StripAll(r.testImports + r.xtestImports)] else ImportsMet(c, recs)
  {
    var added := if IsImporter(c, r) then Some(StripAll(r.testImports + r.xtestImports)) else None;
    forall p
      ensures ImportsAt(c, recs + [r], p) == if p == Strip(r.path) && added.Some? then added
        else At(ImportsMet(c, recs), p)
    {
      LastNext(c, Importer, recs, r, p);
    }
    TabledNext(PathsOf(c, Importer, recs + [r]), p => ImportsAt(c, recs + [r], p), ImportsMet(c, recs),
      Strip(r.path), added);
  }

  lemma FirstsNext(c: Context, recs: seq<Rec>, r: Rec)
    ensures Firsts(c, recs + [r])
      == if IsNewThird(c, r) && Strip(r.path) !in PackagesMet(c, recs) then Firsts(c, recs) + [r] else Firsts(c, recs)
  {
    OneMore(recs, r);
    assert First(c, NewThird, recs, Strip(r.path)).Some? ==> Strip(r.path) in PathsOf(c, NewThird, recs);
  }

  lemma TargetNext(recs: seq<Rec>, r: Rec, k: ModKey)
    ensures TargetAt(recs + [r], k)
      == if TargetAt(recs, k).Some? then TargetAt(recs, k) else if Replaces(r, k) then Some(TargetOf(r.mod.value))
        else None
  {
    OneMore(recs, r);
  }

  lemma ReplacingNext(recs: seq<Rec>, r: Rec)
    requires r.mod.Some?
    ensures Replacing(recs + [r]) == if IsReplaced(r.mod.value) && KeyOf(r.mod.value) !in Replacing(recs)
      then Replacing(recs)[KeyOf(r.mod.value) := TargetOf(r.mod.value)] else Replacing(recs)
  {
    var k := KeyOf(r.mod.value);
    var added := if IsReplaced(r.mod.value) && k !in Replacing(recs) then Some(TargetOf(r.mod.value)) else None;
    OneMore(recs, r);
    forall x
      ensures TargetAt(recs + [r], x) == if x == k && added.Some? then added else At(Replacing(recs), x)
    {
      TargetNext(recs, r, x);
    }
    TabledNext(KeysOf(recs + [r]), x => TargetAt(recs + [r], x), Replacing(recs), k, added);
  }

  /** A replacement noted in the map that already holds those of the build pass. */
  lemma KnownNext(recs: seq<Rec>, known: map<ModKey, Target>, r: Rec)
    requires r.mod.Some?
    ensures var before, m := Replacing(recs) + known, r.mod.value;
      Replacing(recs + [r]) + known
      == if IsReplaced(m) && KeyOf(m) !in before then before[KeyOf(m) := TargetOf(m)] else before
  {
    ReplacingNext(recs, r);
    ReplacementsKept(Replacing(recs), known, KeyOf(r.mod.value), TargetOf(r.mod.value));
  }

  lemma ReplacementsKept(found: map<ModKey, Target>, known: map<ModKey, Target>, k: ModKey, t: Target)
    ensures k in known ==> found[k := t] + known == found + known
    ensures k !in known ==> found[k := t] + known == (found + known)[k := t]
  {
  }

  lemma ErrorNext(c: Context, s: set<Rec>, r: Rec)
    ensures Unresolved(c, s + {r}) == if IsExcused(c, r) then Unresolved(c, s) + {Owner(r)} else Unresolved(c, s)
    ensures Fatal(c, s + {r}) == if IsFatal(c, r) then Fatal(c, s) + {r.path} else Fatal(c, s)
    ensures LocalPaths(c, s + {r}) == if IsNewLocal(c, r) then LocalPaths(c, s) + {Strip(r.path)} else LocalPaths(c, s)
  {
  }

  /** The sets after one record more. */
  lemma SetsNext(c: Context, recs: seq<Rec>, r: Rec)
    ensures Unresolved(c, RecSet(recs + [r]))
      == if IsExcused(c, r) then Unresolved(c, RecSet(recs)) + {Owner(r)} else Unresolved(c, RecSet(recs))
    ensures LocalPaths(c, RecSet(recs + [r]))
      == if IsNewLocal(c, r) then LocalPaths(c, RecSet(recs)) + {Strip(r.path)} else LocalPaths(c, RecSet(recs))
  {
    OneMore(recs, r);
    ErrorNext(c, RecSet(recs), r);
  }

  // ---- The loop over the records ----

  /** The state in which a record's collections are noted: its excused error already is. */
  ghost predicate ErrorNoted(c: Context, before: seq<Rec>, known: map<ModKey, Target>, r: Rec, st: TestState) {
    st == CollectedFrom(c, before, known).(unresolved := Unresolved(c, RecSet(before + [r])))
  }

  lemma SkippedNext(c: Context, before: seq<Rec>, known: map<ModKey, Target>, r: Rec, st: TestState)
    requires !IsRead(c, r) && ErrorNoted(c, before, known, r, st)
    ensures st == CollectedFrom(c, before + [r], known)
  {
    SetsNext(c, before, r);
    PackagesNext(c, before, r);
    RawsNext(c, before, r);
    EmbedsNext(c, before, r);
    ImportsNext(c, before, r);
    FirstsNext(c, before, r);
  }

  lemma LocalNext(c: Context, before: seq<Rec>, known: map<ModKey, Target>, r: Rec)
    requires IsLocalRead(c, r)
    ensures var st, path := CollectedFrom(c, before, known), Strip(r.path);
      CollectedFrom(c, before + [r], known) == TestState(
        st.packages,
        if path in c.local then st.localPaths else st.localPaths + {path},
        if path in c.local || path in st.localPaths || NoFiles(r.files) then st.raws
        else st.raws[path := RawOf(Normal(r), r.mod.value)],
        if path in c.local && HasTestEmbeds(r) then st.embedFiles[path := r.testEmbeds + r.xtestEmbeds]
          else st.embedFiles,
        if HasTestImports(r) then st.testImports[path := StripAll(r.testImports + r.xtestImports)] else st.testImports,
        st.replacements,
        Unresolved(c, RecSet(before + [r])))
  {
    SetsNext(c, before, r);
    PackagesNext(c, before, r);
    RawsNext(c, before, r);
    EmbedsNext(c, before, r);
    ImportsNext(c, before, r);
    FirstsNext(c, before, r);
  }

  /** A local record: its test imports and embeds noted, and a new test-only package unless it has no files. */
  method ReadLocal(c: Context, st: TestState, r: Rec, ghost before: seq<Rec>, ghost known: map<ModKey, Target>)
    returns (after: TestState)
    requires IsLocalRead(c, r) && ErrorNoted(c, before, known, r, st)
    ensures after == CollectedFrom(c, before + [r], known)
  {
    LocalNext(c, before, known, r);
    var importPath := Strip(r.path);
    var testImports := st.testImports;
    if r.forTest == "" && (r.testImports != [] || r.xtestImports != []) {
      testImports := testImports[importPath := StripAll(r.testImports + r.xtestImports)];
    }
    if importPath in c.local {
      var embedFiles := st.embedFiles;
      if r.testEmbeds != [] || r.xtestEmbeds != [] {
        embedFiles := embedFiles[importPath := r.testEmbeds + r.xtestEmbeds];
      }
      return st.(testImports := testImports, embedFiles := embedFiles);
    }
    if importPath in st.localPaths {
      assert st.localPaths + {importPath} == st.localPaths;
      return st.(testImports := testImports);
    }
    var localPaths, raws := st.localPaths + {importPath}, st.raws;
    if !NoFiles(r.files) {
      raws := raws[importPath := RawOf(Normal(r), r.mod.value)];
    }
    return st.(testImports := testImports, localPaths := localPaths, raws := raws);
  }

  /** A record of a module: a test-only package unless the build graph has it. */
  method ReadThird(c: Context, st: TestState, r: Rec, ghost before: seq<Rec>, ghost known: map<ModKey, Target>)
    returns (after: TestState)
    requires IsRead(c, r) && !IsLocal(r.mod.value) && ErrorNoted(c, before, known, r, st)
    ensures after == CollectedFrom(c, before + [r], known)
  {
    SetsNext(c, before, r);
    PackagesNext(c, before, r);
    RawsNext(c, before, r);
    EmbedsNext(c, before, r);
    ImportsNext(c, before, r);
    FirstsNext(c, before, r);
    KnownNext(Firsts(c, before), known, r);
    var importPath := Strip(r.path);
    after := st;
    if importPath in c.third || importPath in after.packages {
      return;
    }
    var m := r.mod.value;
    if ReplacePath(m) != "" && KeyOf(m) !in after.replacements {
      after := after.(replacements := after.replacements[KeyOf(m) := TargetOf(m)]);
    }
    after := after.(packages := after.packages[importPath := PkgOf(Normal(r), m)]);
  }

  /** The body of that loop. */
  method ReadTestRecord(c: Context, st: TestState, r: Rec, ghost before: seq<Rec>, ghost known: map<ModKey, Target>)
    returns (after: TestState, fatal: bool)
    requires st == CollectedFrom(c, before, known)
    ensures after == CollectedFrom(c, before + [r], known) && fatal == IsFatal(c, r)
  {
    after, fatal := st, false;
    SetsNext(c, before, r);
    if r.error != NoError {
      if IsExcused(c, r) {
        after := after.(unresolved := after.unresolved + {Owner(r)});
      } else {
        SkippedNext(c, before, known, r, after);
        fatal := IsFatal(c, r);
        return;
      }
    }
    if LooksLikeMain(r) || IsSelfTest(r) || r.mod.None? {
      SkippedNext(c, before, known, r, after);
    } else if IsLocal(r.mod.value) {
      after := ReadLocal(c, after, r, before, known);
    } else {
      after := ReadThird(c, after, r, before, known);
    }
  }

  /** The first loop of classify_test_packages, and the packages whose errors it reports. */
  method ReadTestRecords(c: Context, recs: seq<Rec>, known: map<ModKey, Target>)
    returns (st: TestState, errors: set<string>)
    ensures st == CollectedFrom(c, recs, known) && errors == Fatal(c, RecSet(recs))
  {
    st, errors := TestState(map[], {}, map[], map[], map[], known, {}), {};
    NothingCollected(c, known);
    for i := 0 to |recs|
      invariant st == CollectedFrom(c, recs[..i], known) && errors == Fatal(c, RecSet(recs[..i]))
    {
      RecSetNext(recs, i);
      ErrorNext(c, RecSet(recs[..i]), recs[i]);
      assert recs[..i + 1] == recs[..i] + [recs[i]];
      var fatal;
      st, fatal := ReadTestRecord(c, st, recs[i], recs[..i], known);
      if fatal {
        errors := errors + {recs[i].path};
      }
    }
    assert recs[..|recs|] == recs;
  }

  lemma NothingCollected(c: Context, known: map<ModKey, Target>)
    ensures CollectedFrom(c, [], known) == TestState(map[], {}, map[], map[], map[], known, {})
  {
    assert PackagesMet(c, []) == map[] && RawsMet(c, []) == map[];
    assert EmbedsMet(c, []) == map[] && ImportsMet(c, []) == map[];
    assert Replacing([]) == map[];
    assert Replacing([]) + known == known;
  }
}
