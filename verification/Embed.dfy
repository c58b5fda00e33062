/**
  ResolveEmbedCfg (go/go2nix/pkg/gofiles/gofiles.go), which picks the files of //go:embed patterns,
  and embed_candidates (packages/go2nix-nix-plugin/rust/src/resolve.rs), which stands in for it
  when some pattern has no match yet: what any patterns that do resolve select is among its files.
 */
module Embed {
  import opened Wrappers
  import opened EmbedTree

  /** A pattern without its `all:`, split at the slashes. */
  datatype Pattern = Pattern(all: bool, elems: seq<string>)

  predicate HasMeta(elem: string) {
    '*' in elem || '?' in elem || '[' in elem || '\\' in elem
  }

  /**
    The package directory, filepath.Glob below it, whether a pattern's syntax is valid,
    isBadEmbedName, and the text of a name.
   */
  datatype Env = Env(root: Node, glob: seq<string> -> seq<Path>, valid: seq<string> -> bool, bad: string -> bool,
                     lossy: Lossy)

  /** What the model relies on of filepath.Glob: an element without a meta character matches itself only. */
  ghost predicate IsGlob(root: Node, glob: seq<string> -> seq<Path>) {
    forall elems, m :: m in glob(elems) ==>
      && |m| == |elems| > 0 && Lstat(root, m).Some?
      && forall i :: 0 <= i < |m| && !HasMeta(elems[i]) ==> m[i] == elems[i]
  }

  /** isBadEmbedName refuses, with module.CheckFilePath, every name that is not UTF-8. */
  ghost predicate TextNamesOnly(env: Env) {
    forall name :: env.lossy(name) != name ==> env.bad(name)
  }

  ghost predicate EnvOk(env: Env) {
    env.root.Dir? && NamesOnce(env.root) && IsGlob(env.root, env.glob) && TextNamesOnly(env)
  }

  // ---- The files below a directory a pattern matches ----

  predicate IsHidden(name: string) {
    |name| > 0 && (name[0] == '.' || name[0] == '_')
  }

  /** The callback of WalkDir on one entry, and on what is below it; None is an error. */
  function EntryFiles(bad: string -> bool, ghost parent: Node, e: Entry, rel: Path, all: bool): Option<seq<Path>>
    requires parent.Dir? && e in parent.entries
    decreases parent, 0, 0
  {
    if bad(e.name) || (IsHidden(e.name) && !all) then
      if e.node.Dir? || IsHidden(e.name) then Some([]) else None
    else
      match e.node
      case Dir(entries) =>
        if HasGoMod(entries) then Some([])
        else
          ChildIsSmaller(parent, e);
          EntriesFiles(bad, e.node, entries, rel + [e.name], all)
      case File => Some([rel + [e.name]])
      case _ => Some([])
  }

  function EntriesFiles(bad: string -> bool, ghost parent: Node, entries: seq<Entry>, rel: Path,
                        all: bool): Option<seq<Path>>
    requires parent.Dir? && forall e :: e in entries ==> e in parent.entries
    decreases parent, 1, |entries|
  {
    if |entries| == 0 then Some([])
    else
      var first := EntryFiles(bad, parent, entries[0], rel, all);
      var rest := EntriesFiles(bad, parent, entries[1..], rel, all);
      if first.None? || rest.None? then None else Some(first.value + rest.value)
  }

  /** What a match contributes: itself, if it is a file or leads to one, or the files below it; None is an error. */
  function MatchFiles(env: Env, m: Path, all: bool): Option<seq<Path>>
    requires Lstat(env.root, m).Some?
  {
    var n := Lstat(env.root, m).value;
    match n
    case File => Some([m])
    case Link(_) => if Stat(n) == Some(File) then Some([m]) else None
    case Dir(entries) =>
      var files := if HasGoMod(entries) then Some([]) else EntriesFiles(env.bad, n, entries, m, all);
      if files == Some([]) then None else files
    case Special => None
  }

  // ---- What a list of patterns selects ----

  /** The checks on a match and the directories above it. */
  ghost predicate StepOk(env: Env, m: Path, k: nat)
    requires 0 < k <= |m|
  {
    && IsOutside(env, m[..k]) && !env.bad(m[k - 1])
    && (k < |m| ==> IsDir(env, m[..k]))
  }

  ghost predicate IsOutside(env: Env, d: Path) {
    !IsModuleRoot(env.root, d)
  }

  predicate IsDir(env: Env, d: Path) {
    Lstat(env.root, d).Some? && Lstat(env.root, d).value.Dir?
  }

  ghost predicate IsLegal(env: Env, m: Path) {
    forall k :: 0 < k <= |m| ==> StepOk(env, m, k)
  }

  ghost predicate MatchOk(env: Env, m: Path, all: bool) {
    Lstat(env.root, m).Some? && IsLegal(env, m) && MatchFiles(env, m, all).Some?
  }

  ghost predicate PatternOk(env: Env, p: Pattern) {
    env.valid(p.elems) && env.glob(p.elems) != [] && forall m :: m in env.glob(p.elems) ==> MatchOk(env, m, p.all)
  }

  ghost predicate Selects(env: Env, p: Pattern, f: Path) {
    exists m :: m in env.glob(p.elems) && MatchOk(env, m, p.all) && f in MatchFiles(env, m, p.all).value
  }

  /** The leading elements of a pattern that have no meta character. */
  function FixedElems(elems: seq<string>): (r: seq<string>)
    ensures |r| <= |elems| && r == elems[..|r|] && forall i :: 0 <= i < |r| ==> !HasMeta(r[i])
  {
    if |elems| == 0 || HasMeta(elems[0]) then [] else [elems[0]] + FixedElems(elems[1..])
  }

  /** A pattern whose leading elements go below something that is no directory: embed_candidates fails. */
  predicate BelowFile(root: Node, p: Pattern) {
    Probe(root, FixedElems(p.elems)).NotADirectory?
  }

  ghost function WalkPatterns(lossy: Lossy, root: Node, patterns: seq<Pattern>): set<Path> {
    set p, f | p in patterns && f in WalkAt(lossy, root, FixedElems(p.elems)) :: f
  }

  /** embed_candidates; None is an error. */
  ghost function Candidates(lossy: Lossy, root: Node, patterns: seq<Pattern>): Option<set<Path>> {
    if exists p :: p in patterns && BelowFile(root, p) then None else Some(WalkPatterns(lossy, root, patterns))
  }

  // ---- Candidates cover what resolves ----

  lemma {:induction false} EntriesWalked(env: Env, parent: Node, entries: seq<Entry>, rel: Path, all: bool, f: Path)
    requires parent.Dir? && (forall e :: e in entries ==> e in parent.entries)
      && (rel == [] || !HasGoMod(parent.entries))
    requires NamesOnce(parent) && TextNamesOnly(env)
    requires EntriesFiles(env.bad, parent, entries, rel, all).Some?
      && f in EntriesFiles(env.bad, parent, entries, rel, all).value
    ensures f in Walk(env.lossy, parent, rel)
    decreases parent, 1, |entries|
  {
    var first := EntryFiles(env.bad, parent, entries[0], rel, all);
    if f in first.value {
      EntryWalked(env, parent, entries[0], rel, all, f);
    } else {
      EntriesWalked(env, parent, entries[1..], rel, all, f);
    }
  }

  lemma {:induction false} EntryWalked(env: Env, parent: Node, e: Entry, rel: Path, all: bool, f: Path)
    requires parent.Dir? && e in parent.entries && (rel == [] || !HasGoMod(parent.entries))
    requires NamesOnce(parent) && TextNamesOnly(env)
    requires EntryFiles(env.bad, parent, e, rel, all).Some? && f in EntryFiles(env.bad, parent, e, rel, all).value
    ensures f in Walk(env.lossy, parent, rel)
    decreases parent, 0, 0
  {
    FindsEntry(parent, e);
    assert env.lossy(e.name) == e.name;
    if e.node.Dir? {
      ChildIsSmaller(parent, e);
      EntriesWalked(env, e.node, e.node.entries, rel + [e.name], all, f);
    }
    assert f in Walk(env.lossy, e.node, rel + [e.name]);
    WalkEntry(env.lossy, parent, rel, e.name);
  }

  lemma MatchWalked(env: Env, m: Path, all: bool, f: Path)
    requires EnvOk(env) && MatchOk(env, m, all) && |m| > 0 && f in MatchFiles(env, m, all).value
    ensures f in WalkAt(env.lossy, env.root, m)
  {
    var n := Lstat(env.root, m).value;
    if n.Dir? {
      LstatNamesOnce(env.root, m);
      EntriesWalked(env, n, n.entries, m, all, f);
    }
  }

  lemma MatchBelowRoot(env: Env, elems: seq<string>, m: Path)
    requires EnvOk(env) && m in env.glob(elems)
    ensures |FixedElems(elems)| <= |m| && m[..|FixedElems(elems)|] == FixedElems(elems)
  {
    var fixed := FixedElems(elems);
    forall i | 0 <= i < |fixed|
      ensures m[i] == fixed[i]
    {
      assert elems[i] == fixed[i];
    }
  }

  lemma LegalIsOpen(env: Env, m: Path, k: nat)
    requires EnvOk(env) && IsLegal(env, m) && k <= |m|
    ensures OpenDirs(env.root, m, k)
    ensures forall j :: 0 <= j < |m| ==> env.lossy(m[j]) == m[j]
  {
    forall j | k <= j < |m|
      ensures Lstat(env.root, m[..j]).Some? && Lstat(env.root, m[..j]).value.Dir?
      ensures j > 0 ==> !IsModuleRoot(env.root, m[..j])
    {
      if j > 0 {
        assert StepOk(env, m, j);
      }
    }
    forall j | 0 <= j < |m|
      ensures env.lossy(m[j]) == m[j]
    {
      assert StepOk(env, m, j + 1);
    }
  }

  /** What any sub-list of patterns that resolves selects is walked for the whole list. */
  lemma CandidatesCover(env: Env, patterns: seq<Pattern>, p: Pattern, f: Path)
    requires EnvOk(env) && p in patterns && Selects(env, p, f)
    ensures Candidates(env.lossy, env.root, patterns).Some? ==> f in Candidates(env.lossy, env.root, patterns).value
    ensures !BelowFile(env.root, p)
  {
    var m :| m in env.glob(p.elems) && MatchOk(env, m, p.all) && f in MatchFiles(env, m, p.all).value;
    var k := |FixedElems(p.elems)|;
    MatchBelowRoot(env, p.elems, m);
    MatchWalked(env, m, p.all, f);
    LegalIsOpen(env, m, k);
    WalkReaches(env.lossy, env.root, m, k);
    LstatPrefix(env.root, m, k);
  }
}
