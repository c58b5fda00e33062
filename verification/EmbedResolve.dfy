/** The loops of ResolveEmbedCfg, with its caches, and the walk of embed_candidates. */
module EmbedResolve {
  import opened Wrappers
  import opened EmbedTree
  import opened Embed
  import opened EmbedSelected
  import opened EmbedWalk
  import opened Ordering

  // ---- embed_candidates ----

  method WalkInto(lossy: Lossy, n: Node, rel: Path, before: set<Path>) returns (out: set<Path>)
    ensures out == before + Walk(lossy, n, rel)
    decreases n
  {
    out := before;
    if !n.Dir? {
      return before + {rel};
    }
    if rel != [] && HasGoMod(n.entries) {
      return;
    }
    for i := 0 to |n.entries|
      invariant out == before + WalkEntries(lossy, n, i, rel)
    {
      WalkEntriesNext(lossy, n, i, rel);
      var name := lossy(n.entries[i].name);
      var child := Child(n, name);
      if child.Some? {
        out := WalkInto(lossy, child.value, rel + [name], out);
      }
    }
    WalkIsOfEntries(lossy, n, rel);
  }

  method EmbedCandidates(lossy: Lossy, root: Node, patterns: seq<Pattern>) returns (result: Option<set<Path>>)
    ensures result.None? <==> exists p :: p in patterns && IsBlocked(root, p)
    ensures result.Some? ==> forall f :: f in result.value <==>
      exists p :: p in patterns && IsListed(lossy, root, p, f)
    ensures result == Candidates(lossy, root, patterns)
  {
    CandidatesAre(lossy, root, patterns);
    var out: set<Path> := {};
    for i := 0 to |patterns|
      invariant out == WalkPatterns(lossy, root, patterns[..i])
      invariant forall p :: p in patterns[..i] ==> !BelowFile(root, p)
    {
      var fixed := FixedElems(patterns[i].elems);
      CandidatesNext(lossy, root, patterns, i);
      match Probe(root, fixed)
      case NotADirectory =>
        assert patterns[i] in patterns && BelowFile(root, patterns[i]);
        return None;
      case NotFound =>
      case Found(n) =>
        out := WalkInto(lossy, n, fixed, out);
    }
    assert patterns[..|patterns|] == patterns;
    return Some(out);
  }

  lemma CandidatesNext(lossy: Lossy, root: Node, patterns: seq<Pattern>, i: nat)
    requires i < |patterns|
    ensures WalkPatterns(lossy, root, patterns[..i + 1])
      == WalkPatterns(lossy, root, patterns[..i]) + WalkAt(lossy, root, FixedElems(patterns[i].elems))
    ensures forall p :: p in patterns[..i + 1] <==> p in patterns[..i] || p == patterns[i]
  {
    assert patterns[..i + 1] == patterns[..i] + [patterns[i]];
    assert forall p :: p in patterns[..i + 1] <==> p in patterns[..i] || p == patterns[i];
  }

  // ---- The dirOK cache ----

  /** What being in dirOK stands for; a matched symlink to a directory is never kept in it. */
  ghost predicate IsChecked(env: Env, d: Path) {
    && |d| > 0 && !IsModuleRoot(env.root, d) && !env.bad(d[|d| - 1])
    && (Lstat(env.root, d).Some? ==> IsSafe(Lstat(env.root, d).value))
  }

  ghost predicate IsSafe(n: Node) {
    n.Dir? || Stat(n).None? || !Stat(n).value.Dir?
  }

  ghost predicate CacheOk(env: Env, dirOK: set<Path>) {
    forall d :: d in dirOK ==> IsChecked(env, d) && forall k :: 0 < k < |d| ==> d[..k] in dirOK
  }

  lemma HasChild(root: Node, m: Path, k: nat)
    requires Lstat(root, m).Some? && k < |m|
    ensures Lstat(root, m[..k]).Some? && Stat(Lstat(root, m[..k]).value).Some?
      && Stat(Lstat(root, m[..k]).value).value.Dir?
  {
    LstatPrefix(root, m, k);
    assert m == m[..k] + m[k..];
    LstatConcat(root, m[..k], m[k..]);
  }

  /** A directory on the way to something that exists is one, and safe means it is no symlink to one. */
  lemma ParentIsDir(env: Env, m: Path, k: nat, d: Path)
    requires Lstat(env.root, m).Some? && 0 < k < |m| && d == m[..k] && IsChecked(env, d)
    ensures IsDir(env, d)
  {
    HasChild(env.root, m, k);
  }

  ghost function Above(m: Path, k: nat): set<Path>
    requires k <= |m|
  {
    set j | k < j <= |m| :: m[..j]
  }

  lemma AboveNext(m: Path, k: nat)
    requires 0 < k <= |m|
    ensures Above(m, k - 1) == Above(m, k) + {m[..k]}
  {
    forall p | p in Above(m, k - 1)
      ensures p in Above(m, k) + {m[..k]}
    {
      var j :| k - 1 < j <= |m| && m[..j] == p;
      assert j == k || m[..j] in Above(m, k);
    }
    forall p | p in Above(m, k) + {m[..k]}
      ensures p in Above(m, k - 1)
    {
      if p != m[..k] {
        var j :| k < j <= |m| && m[..j] == p;
      }
    }
  }

  lemma MarkNext(before: set<Path>, m: Path, k: nat)
    requires 0 < k <= |m|
    ensures before + Above(m, k) + {m[..k]} == before + Above(m, k - 1)
  {
    AboveNext(m, k);
  }

  ghost predicate LegalAbove(env: Env, m: Path, k: nat) {
    forall j :: k < j <= |m| ==> StepOk(env, m, j)
  }

  /** The checks on one of them; a failure is an error. */
  method CheckStep(env: Env, m: Path, k: nat) returns (ok: bool)
    requires 0 < k <= |m| && Lstat(env.root, m).Some?
    ensures ok <==> StepOk(env, m, k)
  {
    var d := m[..k];
    if IsModuleRoot(env.root, d) {
      return false;
    }
    if k < |m| {
      LstatPrefix(env.root, m, k);
      if !Lstat(env.root, d).value.Dir? {
        return false;
      }
    }
    return !env.bad(m[k - 1]);
  }

  /** The loop over a match and the directories above it. */
  method CheckParents(env: Env, m: Path, before: set<Path>) returns (ok: bool, dirOK: set<Path>)
    requires |m| > 0 && Lstat(env.root, m).Some? && CacheOk(env, before)
    ensures ok <==> IsLegal(env, m)
    ensures ok ==> dirOK == before + Above(m, 0)
  {
    dirOK := before;
    var k: nat := |m|;
    assert Above(m, |m|) == {};
    while k > 0 && m[..k] !in dirOK
      invariant k <= |m| && dirOK == before + Above(m, k) && LegalAbove(env, m, k)
    {
      var good := CheckStep(env, m, k);
      if !good {
        return false, dirOK;
      }
      MarkNext(before, m, k);
      dirOK := dirOK + {m[..k]};
      k := k - 1;
    }
    RestChecked(env, m, before, k, dirOK);
    return true, dirOK;
  }

  lemma RestChecked(env: Env, m: Path, before: set<Path>, k: nat, dirOK: set<Path>)
    requires |m| > 0 && Lstat(env.root, m).Some? && CacheOk(env, before) && k <= |m|
    requires dirOK == before + Above(m, k) && (k == 0 || m[..k] in dirOK)
    requires LegalAbove(env, m, k)
    ensures IsLegal(env, m) && dirOK == before + Above(m, 0)
  {
    if k > 0 {
      forall p | p in Above(m, k)
        ensures p != m[..k]
      {
        var j :| k < j <= |m| && m[..j] == p;
        assert |m[..j]| == j;
      }
      assert m[..k] in before;
      forall j | 0 < j <= k
        ensures m[..j] in before && StepOk(env, m, j)
      {
        MarkedBelow(env, m, before, k, j);
      }
      forall p | p in Above(m, 0)
        ensures p in dirOK
      {
        var j :| 0 < j <= |m| && m[..j] == p;
        assert j > k ==> m[..j] in Above(m, k);
      }
    }
    forall p | p in Above(m, k)
      ensures p in Above(m, 0)
    {
      var j :| k < j <= |m| && m[..j] == p;
    }
  }

  lemma MarkedBelow(env: Env, m: Path, before: set<Path>, k: nat, j: nat)
    requires Lstat(env.root, m).Some? && CacheOk(env, before) && 0 < j <= k <= |m| && m[..k] in before
    ensures m[..j] in before && StepOk(env, m, j)
  {
    var d := m[..j];
    assert m[..k][..j] == d;
    assert j == k ==> m[..k] == d;
    assert IsChecked(env, d);
    assert d[|d| - 1] == m[j - 1];
    if j < |m| {
      ParentIsDir(env, m, j, d);
    }
  }

  /** After a match that contributes files, what was marked on the way stays true of later matches. */
  lemma CacheGrows(env: Env, m: Path, all: bool, before: set<Path>)
    requires CacheOk(env, before) && MatchOk(env, m, all)
    ensures CacheOk(env, before + Above(m, 0))
  {
    var dirOK := before + Above(m, 0);
    forall d | d in Above(m, 0)
      ensures IsChecked(env, d) && forall j :: 0 < j < |d| ==> d[..j] in dirOK
    {
      var k :| 0 < k <= |m| && m[..k] == d;
      assert StepOk(env, m, k);
      assert m[..|m|] == m;
      forall j | 0 < j < |d|
        ensures d[..j] in dirOK
      {
        assert d[..j] == m[..j];
      }
    }
  }

  // ---- The files of a pattern, each once ----

  /** have: under the number of the last pattern that selected a file. */
  ghost predicate Having(have: map<Path, nat>, earlier: set<Path>, pid: nat, list: seq<Path>) {
    && have.Keys == earlier + (set f | f in list)
    && (forall f :: f in have ==> have[f] <= pid && (have[f] == pid <==> f in list))
    && PathsOnce(list)
  }

  method Collect(files: seq<Path>, pid: nat, have0: map<Path, nat>, list0: seq<Path>, ghost earlier: set<Path>)
    returns (have: map<Path, nat>, list: seq<Path>)
    requires Having(have0, earlier, pid, list0)
    ensures Having(have, earlier, pid, list)
    ensures forall f :: f in list <==> f in list0 || f in files
  {
    have, list := have0, list0;
    for i := 0 to |files|
      invariant Having(have, earlier, pid, list)
      invariant forall f :: f in list <==> f in list0 || f in files[..i]
    {
      var f := files[i];
      assert files[..i + 1] == files[..i] + [f];
      if f !in have || have[f] != pid {
        HavingNext(have, earlier, pid, list, f);
        have, list := have[f := pid], list + [f];
      }
    }
    assert files[..|files|] == files;
  }

  lemma HavingNext(have: map<Path, nat>, earlier: set<Path>, pid: nat, list: seq<Path>, f: Path)
    requires Having(have, earlier, pid, list) && (f !in have || have[f] != pid)
    ensures Having(have[f := pid], earlier, pid, list + [f])
  {
    assert forall g :: g in list + [f] <==> g in list || g == f;
    assert f !in list;
  }

  /** The files a pattern selects, each once, in the order of their names. */
  ghost predicate IsListOf(env: Env, p: Pattern, list: seq<Path>) {
    (forall f :: f in list <==> Selects(env, p, f)) && PathsOnce(list) && TextSorted(list)
  }

  // ---- sort.Strings ----

  /** A path as it is written. */
  function Text(p: Path): string {
    if |p| == 0 then "" else if |p| == 1 then p[0] else p[0] + "/" + Text(p[1..])
  }

  predicate PathsOnce(list: seq<Path>) {
    forall i, j :: 0 <= i < j < |list| ==> list[i] != list[j]
  }

  predicate TextSorted(list: seq<Path>) {
    forall i, j :: 0 <= i < j < |list| ==> !Less(Text(list[j]), Text(list[i]))
  }

  function InsertPath(f: Path, list: seq<Path>): (r: seq<Path>)
    ensures forall x :: x in r <==> x == f || x in list
  {
    if |list| == 0 then [f]
    else if Less(Text(list[0]), Text(f)) then
      var t := InsertPath(f, list[1..]);
      assert forall x :: x in list <==> x == list[0] || x in list[1..];
      [list[0]] + t
    else [f] + list
  }

  function SortPaths(list: seq<Path>): (r: seq<Path>)
    ensures forall x :: x in r <==> x in list
  {
    if |list| == 0 then [] else InsertPath(list[0], SortPaths(list[1..]))
  }

  lemma {:induction false} InsertOnce(f: Path, list: seq<Path>)
    requires PathsOnce(list) && f !in list
    ensures PathsOnce(InsertPath(f, list))
  {
    if |list| > 0 && Less(Text(list[0]), Text(f)) {
      InsertOnce(f, list[1..]);
      assert list[0] !in list[1..];
      var t := InsertPath(f, list[1..]);
      assert forall j :: 0 <= j < |t| ==> t[j] in t;
    }
  }

  lemma {:induction false} InsertSorted(f: Path, list: seq<Path>)
    requires TextSorted(list)
    ensures TextSorted(InsertPath(f, list))
  {
    if |list| > 0 {
      if Less(Text(list[0]), Text(f)) {
        InsertSorted(f, list[1..]);
        var t := InsertPath(f, list[1..]);
        forall j | 0 <= j < |t|
          ensures !Less(Text(t[j]), Text(list[0]))
        {
          assert t[j] in t;
          NotBoth(Text(list[0]), Text(f));
        }
      } else {
        forall j | 0 <= j < |list|
          ensures !Less(Text(list[j]), Text(f))
        {
          NotLessOver(Text(list[j]), Text(list[0]), Text(f));
        }
      }
    }
  }

  lemma NotBoth(a: string, b: string)
    ensures !(Less(a, b) && Less(b, a))
  {
    if Less(a, b) && Less(b, a) {
      LessTransitive(a, b, a);
      LessIrreflexive(a);
    }
  }

  /** The order is total, so not being less carries over. */
  lemma NotLessOver(a: string, b: string, c: string)
    requires (a == b || !Less(a, b)) && !Less(b, c)
    ensures !Less(a, c)
  {
    if Less(a, c) {
      LessTotal(a, b);
      if Less(b, a) {
        LessTransitive(b, a, c);
      }
    }
  }

  lemma {:induction false} SortSorts(list: seq<Path>)
    requires PathsOnce(list)
    ensures PathsOnce(SortPaths(list)) && TextSorted(SortPaths(list))
  {
    if |list| > 0 {
      SortSorts(list[1..]);
      InsertOnce(list[0], SortPaths(list[1..]));
      InsertSorted(list[0], SortPaths(list[1..]));
    }
  }

  lemma SortedHaving(have: map<Path, nat>, earlier: set<Path>, pid: nat, list: seq<Path>)
    requires Having(have, earlier, pid, list)
    ensures Having(have, earlier, pid, SortPaths(list)) && TextSorted(SortPaths(list))
  {
    SortSorts(list);
    assert (set f | f in SortPaths(list)) == (set f | f in list);
  }

  ghost predicate Contributes(env: Env, ms: seq<Path>, all: bool, f: Path) {
    exists m :: m in ms && MatchOk(env, m, all) && f in MatchFiles(env, m, all).value
  }

  lemma ContributesNext(env: Env, ms: seq<Path>, i: nat, all: bool, f: Path)
    requires i < |ms| && MatchOk(env, ms[i], all)
    ensures Contributes(env, ms[..i + 1], all, f)
      <==> Contributes(env, ms[..i], all, f) || f in MatchFiles(env, ms[i], all).value
  {
    assert ms[..i + 1] == ms[..i] + [ms[i]];
    assert ms[i] in ms[..i + 1];
    if Contributes(env, ms[..i], all, f) {
      var m :| m in ms[..i] && MatchOk(env, m, all) && f in MatchFiles(env, m, all).value;
      assert m in ms[..i + 1];
    }
  }

  /** The files collected from the first i matches of a pattern. */
  ghost predicate Collected(env: Env, ms: seq<Path>, i: nat, all: bool, list: seq<Path>) {
    && i <= |ms| && (forall j :: 0 <= j < i ==> MatchOk(env, ms[j], all))
    && forall f :: f in list <==> Contributes(env, ms[..i], all, f)
  }

  lemma CollectedNext(env: Env, ms: seq<Path>, i: nat, all: bool, list: seq<Path>, more: seq<Path>)
    requires Collected(env, ms, i, all, list) && i < |ms| && MatchOk(env, ms[i], all)
    requires forall f :: f in more <==> f in list || f in MatchFiles(env, ms[i], all).value
    ensures Collected(env, ms, i + 1, all, more)
  {
    forall f
      ensures f in more <==> Contributes(env, ms[..i + 1], all, f)
    {
      ContributesNext(env, ms, i, all, f);
    }
  }

  /** The body of the loop over a pattern's matches: the files of one, or an error. */
  method ResolveMatch(env: Env, m: Path, all: bool, dirOK0: set<Path>)
    returns (files: Option<seq<Path>>, dirOK: set<Path>)
    requires |m| > 0 && Lstat(env.root, m).Some? && CacheOk(env, dirOK0)
    ensures files.Some? <==> MatchOk(env, m, all)
    ensures files.Some? ==> files == MatchFiles(env, m, all) && CacheOk(env, dirOK)
  {
    var legal;
    legal, dirOK := CheckParents(env, m, dirOK0);
    if !legal {
      return None, dirOK;
    }
    files := MatchFiles(env, m, all);
    if files.Some? {
      CacheGrows(env, m, all, dirOK0);
    }
  }

  /** The body of the loop over the patterns. */
  method ResolvePattern(env: Env, p: Pattern, pid: nat, have0: map<Path, nat>, dirOK0: set<Path>)
    returns (ok: bool, list: seq<Path>, have: map<Path, nat>, dirOK: set<Path>)
    requires EnvOk(env) && CacheOk(env, dirOK0) && forall f :: f in have0 ==> have0[f] < pid
    ensures ok <==> PatternOk(env, p)
    ensures ok ==> CacheOk(env, dirOK) && Having(have, have0.Keys, pid, list) && IsListOf(env, p, list)
  {
    ok, list, have, dirOK := false, [], have0, dirOK0;
    if !env.valid(p.elems) {
      return;
    }
    var matches := env.glob(p.elems);
    for i := 0 to |matches|
      invariant CacheOk(env, dirOK) && Having(have, have0.Keys, pid, list)
      invariant Collected(env, matches, i, p.all, list)
    {
      assert matches[i] in matches;
      var files;
      files, dirOK := ResolveMatch(env, matches[i], p.all, dirOK);
      if files.None? {
        return;
      }
      ghost var before := list;
      have, list := Collect(files.value, pid, have, list, have0.Keys);
      CollectedNext(env, matches, i, p.all, before, list);
    }
    assert matches[..|matches|] == matches;
    ok := list != [];
    Selected(env, p, list);
    SortedHaving(have, have0.Keys, pid, list);
    list := SortPaths(list);
  }

  lemma Selected(env: Env, p: Pattern, list: seq<Path>)
    requires EnvOk(env) && env.valid(p.elems) && Collected(env, env.glob(p.elems), |env.glob(p.elems)|, p.all, list)
    ensures forall f :: f in list <==> Selects(env, p, f)
    ensures list != [] <==> PatternOk(env, p)
  {
    var matches := env.glob(p.elems);
    assert matches[..|matches|] == matches;
    if list != [] {
      assert list[0] in list;
    } else {
      NothingSelected(env, p);
    }
  }

  lemma NothingSelected(env: Env, p: Pattern)
    requires forall f :: !Contributes(env, env.glob(p.elems), p.all, f)
    ensures !PatternOk(env, p)
  {
    if PatternOk(env, p) {
      var m := env.glob(p.elems)[0];
      assert m in env.glob(p.elems);
      var files := MatchFiles(env, m, p.all).value;
      assert files != [];
      assert Contributes(env, env.glob(p.elems), p.all, files[0]);
    }
  }

  // ---- ResolveEmbedCfg ----

  datatype EmbedCfg = EmbedCfg(patterns: map<Pattern, seq<Path>>, files: set<Path>)

  ghost predicate IsCfg(env: Env, patterns: seq<Pattern>, lists: map<Pattern, seq<Path>>, files: set<Path>) {
    && (forall p :: p in patterns <==> p in lists)
    && (forall p :: p in patterns ==> IsListOf(env, p, lists[p]))
    && (forall f :: f in files <==> exists p :: p in patterns && Selects(env, p, f))
  }

  lemma CfgFiles(env: Env, patterns: seq<Pattern>, i: nat, lists: map<Pattern, seq<Path>>, files: set<Path>,
                 list: seq<Path>, f: Path)
    requires i < |patterns| && IsCfg(env, patterns[..i], lists, files) && IsListOf(env, patterns[i], list)
    ensures f in files || f in list <==> exists p :: p in patterns[..i + 1] && Selects(env, p, f)
  {
    assert patterns[..i + 1] == patterns[..i] + [patterns[i]];
    assert patterns[i] in patterns[..i + 1];
    if f in files {
      var p :| p in patterns[..i] && Selects(env, p, f);
      assert p in patterns[..i + 1];
    }
  }

  lemma CfgNext(env: Env, patterns: seq<Pattern>, i: nat, lists: map<Pattern, seq<Path>>, files: set<Path>,
                list: seq<Path>, more: set<Path>)
    requires i < |patterns| && IsCfg(env, patterns[..i], lists, files) && IsListOf(env, patterns[i], list)
    requires forall f :: f in more <==> f in files || f in list
    ensures IsCfg(env, patterns[..i + 1], lists[patterns[i] := list], more)
  {
    forall f
      ensures f in more <==> exists p :: p in patterns[..i + 1] && Selects(env, p, f)
    {
      CfgFiles(env, patterns, i, lists, files, list, f);
    }
    assert forall p :: p in patterns[..i + 1] <==> p in patterns[..i] || p == patterns[i];
  }

  ghost predicate Resolving(env: Env, patterns: seq<Pattern>, i: nat, lists: map<Pattern, seq<Path>>,
                            have: map<Path, nat>, dirOK: set<Path>) {
    && i <= |patterns| && CacheOk(env, dirOK) && (forall f :: f in have ==> have[f] <= i)
    && (forall j :: 0 <= j < i ==> PatternOk(env, patterns[j]))
    && IsCfg(env, patterns[..i], lists, have.Keys)
  }

  lemma ResolvingNext(env: Env, patterns: seq<Pattern>, i: nat, lists: map<Pattern, seq<Path>>, have: map<Path, nat>,
                      dirOK: set<Path>,
                      list: seq<Path>, more: map<Path, nat>, marked: set<Path>)
    requires i < |patterns| && Resolving(env, patterns, i, lists, have, dirOK)
    requires PatternOk(env, patterns[i]) && IsListOf(env, patterns[i], list) && Having(more, have.Keys, i + 1, list)
      && CacheOk(env, marked)
    ensures Resolving(env, patterns, i + 1, lists[patterns[i] := list], more, marked)
  {
    CfgNext(env, patterns, i, lists, have.Keys, list, more.Keys);
  }

  lemma PatternsAre(env: Env, patterns: seq<Pattern>)
    requires EnvOk(env) && forall p :: p in patterns ==> PatternOk(env, p)
    ensures forall p :: p in patterns ==> Resolves(env, p)
    ensures forall p, f :: p in patterns ==> (Selects(env, p, f) <==> TakenBy(env, p, f))
  {
    forall p | p in patterns
      ensures Resolves(env, p) && forall f :: Selects(env, p, f) <==> TakenBy(env, p, f)
    {
      PatternIs(env, p);
    }
  }

  /** ResolveEmbedCfg: the files of each pattern, or None when one of them does not resolve. */
  method ResolveEmbedCfg(env: Env, patterns: seq<Pattern>) returns (cfg: Option<EmbedCfg>)
    requires EnvOk(env)
    ensures cfg.Some? <==> forall p :: p in patterns ==> Resolves(env, p)
    ensures cfg.Some? ==> forall p :: p in patterns ==>
      p in cfg.value.patterns && PathsOnce(cfg.value.patterns[p]) && TextSorted(cfg.value.patterns[p])
        && forall f :: f in cfg.value.patterns[p] <==> TakenBy(env, p, f)
    ensures cfg.Some? ==> forall f :: f in cfg.value.files <==> exists p :: p in patterns && TakenBy(env, p, f)
    ensures cfg.Some? <==> forall p :: p in patterns ==> PatternOk(env, p)
    ensures cfg.Some? ==> IsCfg(env, patterns, cfg.value.patterns, cfg.value.files)
  {
    var lists: map<Pattern, seq<Path>> := map[];
    var have: map<Path, nat> := map[];
    var dirOK: set<Path> := {};
    for i := 0 to |patterns|
      invariant Resolving(env, patterns, i, lists, have, dirOK)
    {
      var ok, list, more, marked := ResolvePattern(env, patterns[i], i + 1, have, dirOK);
      if !ok {
        assert patterns[i] in patterns;
        PatternIs(env, patterns[i]);
        return None;
      }
      ResolvingNext(env, patterns, i, lists, have, dirOK, list, more, marked);
      lists, have, dirOK := lists[patterns[i] := list], more, marked;
    }
    assert patterns[..|patterns|] == patterns;
    PatternsAre(env, patterns);
    return Some(EmbedCfg(lists, have.Keys));
  }

  /** Whatever sub-list of a package's patterns resolves, its files are among the candidates of all of them. */
  lemma ResolvedAreCandidates(env: Env, patterns: seq<Pattern>, sub: seq<Pattern>, cfg: EmbedCfg)
    requires EnvOk(env) && IsCfg(env, sub, cfg.patterns, cfg.files)
    requires forall p :: p in sub ==> p in patterns && PatternOk(env, p)
    ensures var out := Candidates(env.lossy, env.root, patterns);
      if out.Some? then cfg.files <= out.value else exists p :: p in patterns && p !in sub && BelowFile(env.root, p)
  {
    forall f | f in cfg.files
      ensures Candidates(env.lossy, env.root, patterns).Some? ==> f in Candidates(env.lossy, env.root, patterns).value
    {
      var p :| p in sub && Selects(env, p, f);
      CandidatesCover(env, patterns, p, f);
    }
    forall p | p in sub
      ensures !BelowFile(env.root, p)
    {
      ResolvingNotBelow(env, p);
    }
  }

  lemma ResolvingNotBelow(env: Env, p: Pattern)
    requires EnvOk(env) && PatternOk(env, p)
    ensures !BelowFile(env.root, p)
  {
    var m := env.glob(p.elems)[0];
    assert m in env.glob(p.elems);
    MatchBelowRoot(env, p.elems, m);
    LstatPrefix(env.root, m, |FixedElems(p.elems)|);
  }

  /** One pattern that goes below a file leaves no candidates at all, whatever the other patterns match. */
  lemma BelowFileFails(lossy: Lossy, file: string, name: string)
    requires !HasMeta(file) && !HasMeta(name)
    ensures var root, p, q := Dir([Entry(file, File)]), Pattern(false, [file]), Pattern(false, [file, name]);
      Candidates(lossy, root, [p]) == Some({[file]}) && Candidates(lossy, root, [p, q]) == None
  {
    var root, p, q := Dir([Entry(file, File)]), Pattern(false, [file]), Pattern(false, [file, name]);
    assert FixedElems([name]) == [name] by {
      assert [name][1..] == [];
    }
    assert FixedElems([file]) == [file] by {
      assert [file][1..] == [];
    }
    assert FixedElems([file, name]) == [file, name] by {
      assert [file, name][1..] == [name];
    }
    assert [file][1..] == [] && [file, name][1..] == [name];
    assert Lstat(root, [file]) == Some(File) && WalkAt(lossy, root, [file]) == {[file]};
    assert p in [p] && WalkPatterns(lossy, root, [p]) == {[file]};
    assert q in [p, q] && BelowFile(root, q) && !BelowFile(root, p);
  }
}
