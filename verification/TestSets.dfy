/**
  What the test classifier collects from the records go list prints of one module: a function of the
  set of records, since the copies of a package agree with it, and it is met before copies that
  lack its test embeds (classify_test_packages, packages/go2nix-nix-plugin/rust/src/resolve.rs).
 */
module TestSets {
  import opened Wrappers
  import opened GoListing
  import opened Maps
  import opened Classify
  import opened ClassifyTests

  // ---- The collections, as functions of the set of records ----

  /** A test-only package of a module, under the name without that of the copy. */
  ghost function PackagePairs(c: Context, s: set<Rec>): set<(string, PkgData)> {
    set r | r in s && IsNewThird(c, r) :: (Strip(r.path), PkgOf(Normal(r), r.mod.value))
  }

  /** A new local package itself, or a copy of it where the package is not among the records. */
  ghost predicate Stands(c: Context, s: set<Rec>, r: Rec) {
    && r in s && IsNewLocal(c, r)
    && (r.forTest == "" || forall q :: q in s && IsNewLocal(c, q) && Strip(q.path) == Strip(r.path) ==> q.forTest != "")
  }

  ghost function RawPairs(c: Context, s: set<Rec>): set<(string, RawLocal)> {
    set r | r in s && Stands(c, s, r) && !NoFiles(r.files) :: (Strip(r.path), RawOf(Normal(r), r.mod.value))
  }

  ghost function EmbedPairs(c: Context, s: set<Rec>): set<(string, seq<string>)> {
    set r | r in s && IsEmbedder(c, r) :: (Strip(r.path), r.testEmbeds + r.xtestEmbeds)
  }

  ghost function ImportPairs(c: Context, s: set<Rec>): set<(string, seq<string>)> {
    set r | r in s && IsImporter(c, r) :: (Strip(r.path), StripAll(r.testImports + r.xtestImports))
  }

  ghost function ReplacementPairs(c: Context, s: set<Rec>): set<(ModKey, Target)> {
    set r | r in s && IsNewThird(c, r) && IsReplaced(r.mod.value) :: (KeyOf(r.mod.value), TargetOf(r.mod.value))
  }

  ghost function StateOf(c: Context, s: set<Rec>, known: map<ModKey, Target>): TestState {
    TestState(MapOf(PackagePairs(c, s)), LocalPaths(c, s), MapOf(RawPairs(c, s)), MapOf(EmbedPairs(c, s)),
      MapOf(ImportPairs(c, s)),
              MapOf(ReplacementPairs(c, s)) + known, Unresolved(c, s))
  }

  // ---- What go list promises of its records ----

  /** A path, without the name of the copy, has one package, a module one version. */
  ghost predicate OnePackage(c: Context, s: set<Rec>) {
    forall q, r :: q in s && r in s && IsRead(c, q) && IsRead(c, r) ==>
      && (Strip(q.path) == Strip(r.path) ==> SamePackage(q, r))
      && (q.mod.value.path == r.mod.value.path ==> q.mod == r.mod)
  }

  /** Two bare records of a path are one, where their test imports are concerned. */
  ghost predicate OneImporter(c: Context, s: set<Rec>) {
    forall q, r :: q in s && r in s && IsImporter(c, q) && IsImporter(c, r) && Strip(q.path) == Strip(r.path) ==>
      q.testImports + q.xtestImports == r.testImports + r.xtestImports
  }

  /** Test embeds of a path are those of its package, where a record shows any. */
  ghost predicate OneEmbedder(c: Context, s: set<Rec>) {
    && (forall q, r :: q in s && r in s && IsEmbedder(c, q) && IsEmbedder(c, r) && Strip(q.path) == Strip(r.path) ==>
      SameTestEmbeds(q, r))
    && (forall q, r :: q in s && r in s && Stands(c, s, q) && Stands(c, s, r) && Strip(q.path) == Strip(r.path) ==>
      SameTestEmbeds(q, r))
  }

  ghost predicate Coherent(c: Context, s: set<Rec>) {
    OnePackage(c, s) && OneImporter(c, s) && OneEmbedder(c, s)
  }

  ghost predicate PackageMet(c: Context, recs: seq<Rec>, i: nat, path: string) {
    exists k :: 0 <= k <= i < |recs| && IsNewLocal(c, recs[k]) && Strip(recs[k].path) == path && recs[k].forTest == ""
  }

  /** Where two records of a path differ in test embeds the package itself is met before both, or is the first. */
  ghost predicate PackageFirst(c: Context, recs: seq<Rec>) {
    forall i, j :: 0 <= i < j < |recs| && IsNewLocal(c, recs[i]) && IsNewLocal(c, recs[j]) ==>
      Strip(recs[i].path) == Strip(recs[j].path) ==>
      SameTestEmbeds(recs[i], recs[j]) || PackageMet(c, recs, i, Strip(recs[i].path))
  }

  ghost predicate CoherentList(c: Context, recs: seq<Rec>) {
    Coherent(c, RecSet(recs)) && PackageFirst(c, recs)
  }

  // ---- Copies of one package say the same of it ----

  lemma SameParts(q: Rec, r: Rec)
    requires SamePackage(q, r)
    ensures q.mod == r.mod && q.files == r.files
    ensures q.mod.Some? ==> PkgOf(Normal(q), q.mod.value) == PkgOf(Normal(r), r.mod.value)
    ensures q.mod.Some? && SameTestEmbeds(q, r) ==> RawOf(Normal(q), q.mod.value) == RawOf(Normal(r), r.mod.value)
  {
    var a, b := WithoutTestEmbeds(Normal(q)), WithoutTestEmbeds(Normal(r));
    assert a.mod == q.mod && b.mod == r.mod && a.files == q.files && b.files == r.files;
    assert SameTestEmbeds(q, r) ==> Normal(q) == Normal(r) by {
      assert Normal(q) == a.(testEmbeds := q.testEmbeds, xtestEmbeds := q.xtestEmbeds);
      assert Normal(r) == b.(testEmbeds := r.testEmbeds, xtestEmbeds := r.xtestEmbeds);
    }
    if q.mod.Some? {
      assert PkgOf(Normal(q), q.mod.value) == PkgOf(a, q.mod.value);
      assert PkgOf(Normal(r), r.mod.value) == PkgOf(b, r.mod.value);
    }
  }

  lemma PackagesFunctional(c: Context, s: set<Rec>)
    requires OnePackage(c, s)
    ensures Functional(PackagePairs(c, s))
  {
    forall q, r | q in s && r in s && IsNewThird(c, q) && IsNewThird(c, r) && Strip(q.path) == Strip(r.path)
      ensures PkgOf(Normal(q), q.mod.value) == PkgOf(Normal(r), r.mod.value)
    {
      SameParts(q, r);
    }
  }

  lemma RawsFunctional(c: Context, s: set<Rec>)
    requires OnePackage(c, s) && OneEmbedder(c, s)
    ensures Functional(RawPairs(c, s))
  {
    forall q, r | q in s && r in s && Stands(c, s, q) && Stands(c, s, r) && Strip(q.path) == Strip(r.path)
      ensures RawOf(Normal(q), q.mod.value) == RawOf(Normal(r), r.mod.value)
    {
      SameParts(q, r);
    }
  }

  lemma EmbedsFunctional(c: Context, s: set<Rec>)
    requires OneEmbedder(c, s)
    ensures Functional(EmbedPairs(c, s))
  {
  }

  lemma ImportsFunctional(c: Context, s: set<Rec>)
    requires OneImporter(c, s)
    ensures Functional(ImportPairs(c, s))
  {
  }

  lemma ReplacementsFunctional(c: Context, s: set<Rec>)
    requires OnePackage(c, s)
    ensures Functional(ReplacementPairs(c, s))
  {
  }

  // ---- So the order of the records does not matter ----

  /** A map tabled from a function that agrees with another map. */
  lemma TabledIs<K, V>(keys: set<K>, at: K -> Option<V>, m: map<K, V>)
    requires forall k :: at(k) == At(m, k)
    requires forall k :: at(k).Some? ==> k in keys
    ensures Tabled(keys, at) == m
  {
    assert forall k :: k in m <==> At(m, k).Some?;
  }

  lemma PackageOfSet(c: Context, recs: seq<Rec>, p: string)
    requires OnePackage(c, RecSet(recs))
    ensures PackageAt(c, recs, p) == At(MapOf(PackagePairs(c, RecSet(recs))), p)
  {
    PackagesFunctional(c, RecSet(recs));
    if First(c, NewThird, recs, p).Some? {
      var r := First(c, NewThird, recs, p).value;
      MapHolds(PackagePairs(c, RecSet(recs)), (p, PkgOf(Normal(r), r.mod.value)));
    }
  }

  lemma PackagesOfSet(c: Context, recs: seq<Rec>)
    requires OnePackage(c, RecSet(recs))
    ensures PackagesMet(c, recs) == MapOf(PackagePairs(c, RecSet(recs)))
  {
    forall p
      ensures PackageAt(c, recs, p) == At(MapOf(PackagePairs(c, RecSet(recs))), p)
    {
      PackageOfSet(c, recs, p);
    }
    TabledIs(PathsOf(c, NewThird, recs), p => PackageAt(c, recs, p), MapOf(PackagePairs(c, RecSet(recs))));
  }

  lemma EmbedOfSet(c: Context, recs: seq<Rec>, p: string)
    requires OneEmbedder(c, RecSet(recs))
    ensures EmbedsAt(c, recs, p) == At(MapOf(EmbedPairs(c, RecSet(recs))), p)
  {
    EmbedsFunctional(c, RecSet(recs));
    if Last(c, Embedder, recs, p).Some? {
      var r := Last(c, Embedder, recs, p).value;
      MapHolds(EmbedPairs(c, RecSet(recs)), (p, r.testEmbeds + r.xtestEmbeds));
    }
  }

  lemma EmbedsOfSet(c: Context, recs: seq<Rec>)
    requires OneEmbedder(c, RecSet(recs))
    ensures EmbedsMet(c, recs) == MapOf(EmbedPairs(c, RecSet(recs)))
  {
    forall p
      ensures EmbedsAt(c, recs, p) == At(MapOf(EmbedPairs(c, RecSet(recs))), p)
    {
      EmbedOfSet(c, recs, p);
    }
    TabledIs(PathsOf(c, Embedder, recs), p => EmbedsAt(c, recs, p), MapOf(EmbedPairs(c, RecSet(recs))));
  }

  lemma ImportOfSet(c: Context, recs: seq<Rec>, p: string)
    requires OneImporter(c, RecSet(recs))
    ensures ImportsAt(c, recs, p) == At(MapOf(ImportPairs(c, RecSet(recs))), p)
  {
    ImportsFunctional(c, RecSet(recs));
    if Last(c, Importer, recs, p).Some? {
      var r := Last(c, Importer, recs, p).value;
      MapHolds(ImportPairs(c, RecSet(recs)), (p, StripAll(r.testImports + r.xtestImports)));
    }
  }

  lemma ImportsOfSet(c: Context, recs: seq<Rec>)
    requires OneImporter(c, RecSet(recs))
    ensures ImportsMet(c, recs) == MapOf(ImportPairs(c, RecSet(recs)))
  {
    forall p
      ensures ImportsAt(c, recs, p) == At(MapOf(ImportPairs(c, RecSet(recs))), p)
    {
      ImportOfSet(c, recs, p);
    }
    TabledIs(PathsOf(c, Importer, recs), p => ImportsAt(c, recs, p), MapOf(ImportPairs(c, RecSet(recs))));
  }

  /** Nothing of the path is met before its first record. */
  lemma {:induction false} FirstIs(c: Context, k: Kind, recs: seq<Rec>, p: string) returns (i: nat)
    requires First(c, k, recs, p).Some?
    ensures i < |recs| && recs[i] == First(c, k, recs, p).value && forall j :: 0 <= j < i ==> !Joins(c, k, recs[j], p)
  {
    var init := recs[..|recs| - 1];
    if First(c, k, init, p).Some? {
      i := FirstIs(c, k, init, p);
    } else {
      i := |recs| - 1;
      assert forall j :: 0 <= j < i ==> recs[j] in init;
    }
  }

  /** The first record of a path shows the test embeds of the one that stands for it. */
  lemma FirstShowsEmbeds(c: Context, recs: seq<Rec>, p: string, r: Rec)
    requires CoherentList(c, recs) && First(c, NewLocal, recs, p).Some? && Stands(c, RecSet(recs), r)
      && Strip(r.path) == p
    ensures SameTestEmbeds(First(c, NewLocal, recs, p).value, r)
  {
    var i := FirstIs(c, NewLocal, recs, p);
    var j: nat :| j < |recs| && recs[j] == r;
    assert Joins(c, NewLocal, r, p);
    if !SameTestEmbeds(recs[i], r) {
      assert i < j;
      MetFirstStands(c, recs, p, i);
    }
  }

  /** If the package itself is met as early as the first record of its path, it is that record. */
  lemma MetFirstStands(c: Context, recs: seq<Rec>, p: string, i: nat)
    requires i < |recs| && PackageMet(c, recs, i, p) && forall j :: 0 <= j < i ==> !Joins(c, NewLocal, recs[j], p)
    ensures Stands(c, RecSet(recs), recs[i])
  {
    var k :| 0 <= k <= i && IsNewLocal(c, recs[k]) && Strip(recs[k].path) == p && recs[k].forTest == "";
    assert Joins(c, NewLocal, recs[k], p);
    assert k == i;
  }

  lemma StandingFor(c: Context, s: set<Rec>, q: Rec) returns (r: Rec)
    requires q in s && IsNewLocal(c, q)
    ensures Stands(c, s, r) && Strip(r.path) == Strip(q.path)
  {
    if x :| x in s && IsNewLocal(c, x) && Strip(x.path) == Strip(q.path) && x.forTest == "" {
      r := x;
    } else {
      r := q;
    }
  }

  lemma RawOfSet(c: Context, recs: seq<Rec>, p: string)
    requires CoherentList(c, recs)
    ensures RawAt(c, recs, p) == At(MapOf(RawPairs(c, RecSet(recs))), p)
  {
    var s, first := RecSet(recs), First(c, NewLocal, recs, p);
    RawsFunctional(c, s);
    if first.Some? {
      var r := StandingFor(c, s, first.value);
      FirstShowsEmbeds(c, recs, p, r);
      SameParts(first.value, r);
      if !NoFiles(r.files) {
        MapHolds(RawPairs(c, s), (p, RawOf(Normal(r), r.mod.value)));
      } else {
        RawsNeedFiles(c, s, p, r);
      }
    }
  }

  lemma RawsNeedFiles(c: Context, s: set<Rec>, p: string, r: Rec)
    requires OnePackage(c, s) && r in s && IsNewLocal(c, r) && Strip(r.path) == p && NoFiles(r.files)
    ensures p !in MapOf(RawPairs(c, s))
  {
    forall q | q in s && IsNewLocal(c, q) && Strip(q.path) == p
      ensures NoFiles(q.files)
    {
      SameParts(q, r);
    }
  }

  lemma RawsOfSet(c: Context, recs: seq<Rec>)
    requires CoherentList(c, recs)
    ensures RawsMet(c, recs) == MapOf(RawPairs(c, RecSet(recs)))
  {
    forall p
      ensures RawAt(c, recs, p) == At(MapOf(RawPairs(c, RecSet(recs))), p)
    {
      RawOfSet(c, recs, p);
    }
    TabledIs(PathsOf(c, NewLocal, recs), p => RawAt(c, recs, p), MapOf(RawPairs(c, RecSet(recs))));
  }

  lemma {:induction false} FirstInFirsts(c: Context, recs: seq<Rec>, p: string)
    requires First(c, NewThird, recs, p).Some?
    ensures First(c, NewThird, recs, p).value in Firsts(c, recs)
  {
    var init := recs[..|recs| - 1];
    if First(c, NewThird, init, p).Some? {
      FirstInFirsts(c, init, p);
    }
  }

  lemma TargetOfSet(c: Context, recs: seq<Rec>, k: ModKey)
    requires OnePackage(c, RecSet(recs))
    ensures TargetAt(Firsts(c, recs), k) == At(MapOf(ReplacementPairs(c, RecSet(recs))), k)
  {
    var s, firsts := RecSet(recs), Firsts(c, recs);
    ReplacementsFunctional(c, s);
    if TargetAt(firsts, k).Some? {
      var r := FirstReplaced(firsts, k).value;
      MapHolds(ReplacementPairs(c, s), (k, TargetOf(r.mod.value)));
    } else {
      forall r | r in s && IsNewThird(c, r)
        ensures !Replaces(r, k)
      {
        FirstInFirsts(c, recs, Strip(r.path));
        SameParts(First(c, NewThird, recs, Strip(r.path)).value, r);
      }
    }
  }

  lemma ReplacingOfSet(c: Context, recs: seq<Rec>)
    requires OnePackage(c, RecSet(recs))
    ensures Replacing(Firsts(c, recs)) == MapOf(ReplacementPairs(c, RecSet(recs)))
  {
    var firsts := Firsts(c, recs);
    forall k
      ensures TargetAt(firsts, k) == At(MapOf(ReplacementPairs(c, RecSet(recs))), k)
    {
      TargetOfSet(c, recs, k);
    }
    TabledIs(KeysOf(firsts), k => TargetAt(firsts, k), MapOf(ReplacementPairs(c, RecSet(recs))));
  }

  /** What is collected from such records is a function of their set: copies and order do not matter. */
  lemma CollectedOfSet(c: Context, recs: seq<Rec>, known: map<ModKey, Target>)
    requires CoherentList(c, recs)
    ensures CollectedFrom(c, recs, known) == StateOf(c, RecSet(recs), known)
  {
    PackagesOfSet(c, recs);
    RawsOfSet(c, recs);
    EmbedsOfSet(c, recs);
    ImportsOfSet(c, recs);
    ReplacingOfSet(c, recs);
  }
}
