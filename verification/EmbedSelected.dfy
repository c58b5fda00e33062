/**
  Which files the patterns of //go:embed select, path by path: what ResolveEmbedCfg
  (go/go2nix/pkg/gofiles/gofiles.go) accepts and what it takes, without the walk that finds it.
 */
module EmbedSelected {
  import opened Wrappers
  import opened EmbedTree
  import opened Embed

  // ---- Names and directories ----

  /** A name a walk leaves out: a bad one, and without `all:` one that starts with a dot or an underscore. */
  predicate LeftOut(env: Env, name: string, all: bool) {
    env.bad(name) || (!all && StartsHidden(name))
  }

  predicate StartsHidden(name: string) {
    |name| > 0 && name[0] in {'.', '_'}
  }

  /** Nothing is found at go.mod in a directory. */
  predicate NoGoMod(root: Node, d: Path) {
    var found := Lstat(root, d + ["go.mod"]);
    found.None? || Stat(found.value).None?
  }

  predicate OpenDir(root: Node, d: Path) {
    Lstat(root, d).Some? && Lstat(root, d).value.Dir? && NoGoMod(root, d)
  }

  // ---- What a match gives ----

  /** A walk from the directory m comes to m + rel: the directories between are open and not left out. */
  ghost predicate WalkedTo(env: Env, m: Path, rel: Path, all: bool) {
    && |rel| > 0 && Lstat(env.root, m + rel).Some?
    && forall k: nat :: 0 < k < |rel| ==> PassesAt(env, m, rel, k, all)
  }

  predicate PassesAt(env: Env, m: Path, rel: Path, k: nat, all: bool)
    requires 0 < k < |rel|
  {
    !LeftOut(env, rel[k - 1], all) && OpenDir(env.root, m + rel[..k])
  }

  /** And takes it: a regular file that is not left out. */
  ghost predicate Takes(env: Env, m: Path, rel: Path, all: bool) {
    && WalkedTo(env, m, rel, all) && Lstat(env.root, m + rel) == Some(File)
    && !LeftOut(env, rel[|rel| - 1], all)
  }

  /** And refuses it: a bad name that does not start like a hidden one, on anything but a directory. */
  ghost predicate Refuses(env: Env, m: Path, rel: Path, all: bool) {
    && WalkedTo(env, m, rel, all) && !Lstat(env.root, m + rel).value.Dir?
    && env.bad(rel[|rel| - 1]) && !StartsHidden(rel[|rel| - 1])
  }

  /** Each element of the path of a match has a good name; those above the last are directories; none has a go.mod. */
  ghost predicate IsAdmitted(env: Env, m: Path) {
    forall k :: 0 < k <= |m| ==> AdmittedAt(env, m, k)
  }

  predicate AdmittedAt(env: Env, m: Path, k: nat)
    requires 0 < k <= |m|
  {
    && !env.bad(m[k - 1]) && NoGoMod(env.root, m[..k])
    && (k < |m| ==> Lstat(env.root, m[..k]).Some? && Lstat(env.root, m[..k]).value.Dir?)
  }

  /**
    What a match has to be: a regular file, a symlink to one, or a directory with something to take and
    nothing to refuse.
   */
  ghost predicate IsUsable(env: Env, m: Path, all: bool)
    requires Lstat(env.root, m).Some?
  {
    match Lstat(env.root, m).value
    case File => true
    case Link(t) => Stat(Link(t)) == Some(File)
    case Dir(_) => (exists rel :: Takes(env, m, rel, all)) && forall rel :: !Refuses(env, m, rel, all)
    case Special => false
  }

  ghost predicate IsTaken(env: Env, m: Path, all: bool, f: Path) {
    if Lstat(env.root, m).Some? && Lstat(env.root, m).value.Dir? then
      exists rel :: f == m + rel && Takes(env, m, rel, all)
    else f == m
  }

  // ---- The same below a node ----

  predicate ChosenIn(env: Env, n: Node, rel: Path, all: bool)
    decreases |rel|
  {
    && n.Dir? && |rel| > 0 && Find(n.entries, rel[0]).Some? && !LeftOut(env, rel[0], all)
    && var c := Find(n.entries, rel[0]).value;
       if |rel| == 1 then c == File else c.Dir? && !HasGoMod(c.entries) && ChosenIn(env, c, rel[1..], all)
  }

  predicate RefusedIn(env: Env, n: Node, rel: Path, all: bool)
    decreases |rel|
  {
    && n.Dir? && |rel| > 0 && Find(n.entries, rel[0]).Some?
    && var c := Find(n.entries, rel[0]).value;
       if |rel| == 1 then env.bad(rel[0]) && !StartsHidden(rel[0]) && !c.Dir?
       else !LeftOut(env, rel[0], all) && c.Dir? && !HasGoMod(c.entries) && RefusedIn(env, c, rel[1..], all)
  }

  predicate IsBelow(above: Path, f: Path) {
    |f| > |above| && f[..|above|] == above
  }

  lemma BelowNext(above: Path, name: string, f: Path)
    ensures IsBelow(above + [name], f) <==> IsBelow(above, f) && |f| > |above| + 1 && f[|above|] == name
    ensures IsBelow(above, f) && |f| > |above| + 1 ==> f[|above|..][1..] == f[|above| + 1..]
  {
    if |f| > |above| + 1 {
      assert f[..|above| + 1] == f[..|above|] + [f[|above|]];
      assert (above + [name])[..|above|] == above && (above + [name])[|above|] == name;
    }
  }

  lemma JustBelow(above: Path, name: string, f: Path)
    ensures f == above + [name] <==> IsBelow(above, f) && f[|above|..] == [name]
    ensures f == above + [name] ==> f[|above|] == name
  {
    if IsBelow(above, f) {
      assert f == f[..|above|] + f[|above|..];
    }
  }

  lemma {:induction false} EntryGives(env: Env, parent: Node, e: Entry, above: Path, all: bool, f: Path)
    requires parent.Dir? && e in parent.entries && NamesOnce(parent)
    requires EntryFiles(env.bad, parent, e, above, all).Some?
    ensures f in EntryFiles(env.bad, parent, e, above, all).value <==>
      IsBelow(above, f) && f[|above|] == e.name && ChosenIn(env, parent, f[|above|..], all)
    decreases parent, 0, 0
  {
    FindsEntry(parent, e);
    if e.node.Dir? && !LeftOut(env, e.name, all) && !HasGoMod(e.node.entries) {
      ChildIsSmaller(parent, e);
      EntriesGive(env, e.node, e.node.entries, above + [e.name], all, f);
      BelowNext(above, e.name, f);
      if IsBelow(above, f) && |f| > |above| + 1 {
        assert ChosenIn(env, e.node, f[|above| + 1..], all) ==> Find(e.node.entries, f[|above| + 1]).Some?;
      }
    } else {
      JustBelow(above, e.name, f);
    }
  }

  lemma {:induction false} EntriesGive(env: Env, parent: Node, entries: seq<Entry>, above: Path, all: bool, f: Path)
    requires parent.Dir? && (forall e :: e in entries ==> e in parent.entries) && NamesOnce(parent)
    requires EntriesFiles(env.bad, parent, entries, above, all).Some?
    ensures f in EntriesFiles(env.bad, parent, entries, above, all).value <==>
      IsBelow(above, f) && (exists e :: e in entries && e.name == f[|above|])
      && ChosenIn(env, parent, f[|above|..], all)
    decreases parent, 1, |entries|
  {
    if |entries| > 0 {
      EntryGives(env, parent, entries[0], above, all, f);
      EntriesGive(env, parent, entries[1..], above, all, f);
      assert forall e :: e in entries <==> e == entries[0] || e in entries[1..];
    }
  }

  /** A walk that gives nothing has come to something it refuses. */
  lemma {:induction false} EntryFails(env: Env, parent: Node, e: Entry, above: Path, all: bool) returns (rel: Path)
    requires parent.Dir? && e in parent.entries && NamesOnce(parent)
    requires EntryFiles(env.bad, parent, e, above, all).None?
    ensures RefusedIn(env, parent, rel, all)
    decreases parent, 0, 0
  {
    FindsEntry(parent, e);
    if e.node.Dir? && !LeftOut(env, e.name, all) {
      ChildIsSmaller(parent, e);
      var below := EntriesFail(env, e.node, e.node.entries, above + [e.name], all);
      rel := [e.name] + below;
      assert rel[1..] == below;
    } else {
      rel := [e.name];
    }
  }

  lemma {:induction false} EntriesFail(env: Env, parent: Node, entries: seq<Entry>, above: Path, all: bool)
    returns (rel: Path)
    requires parent.Dir? && (forall e :: e in entries ==> e in parent.entries) && NamesOnce(parent)
    requires EntriesFiles(env.bad, parent, entries, above, all).None?
    ensures RefusedIn(env, parent, rel, all)
    decreases parent, 1, |entries|
  {
    if EntryFiles(env.bad, parent, entries[0], above, all).None? {
      rel := EntryFails(env, parent, entries[0], above, all);
    } else {
      rel := EntriesFail(env, parent, entries[1..], above, all);
    }
  }

  /** And one that comes to something it refuses gives nothing. */
  lemma {:induction false} RefusalFails(env: Env, parent: Node, above: Path, all: bool, rel: Path)
    requires parent.Dir? && NamesOnce(parent) && RefusedIn(env, parent, rel, all)
    ensures EntriesFiles(env.bad, parent, parent.entries, above, all).None?
    decreases |rel|
  {
    var e := Entry(rel[0], Find(parent.entries, rel[0]).value);
    FindsEntry(parent, e);
    if |rel| > 1 {
      RefusalFails(env, e.node, above + [e.name], all, rel[1..]);
    }
    OneFails(env, parent, parent.entries, e, above, all);
  }

  lemma {:induction false} OneFails(env: Env, parent: Node, entries: seq<Entry>, e: Entry, above: Path, all: bool)
    requires parent.Dir? && (forall x :: x in entries ==> x in parent.entries) && e in entries
    requires EntryFiles(env.bad, parent, e, above, all).None?
    ensures EntriesFiles(env.bad, parent, entries, above, all).None?
  {
    if entries[0] != e {
      OneFails(env, parent, entries[1..], e, above, all);
    }
  }

  // ---- From the node to the paths ----

  lemma ChildAt(root: Node, d: Path, name: string)
    requires Lstat(root, d).Some? && Lstat(root, d).value.Dir?
    ensures Lstat(root, d + [name]) == Find(Lstat(root, d).value.entries, name)
  {
    LstatConcat(root, d, [name]);
    assert [name][1..] == [];
  }

  lemma OpenDirIs(root: Node, d: Path)
    requires Lstat(root, d).Some? && Lstat(root, d).value.Dir?
    ensures NoGoMod(root, d) <==> !HasGoMod(Lstat(root, d).value.entries)
  {
    ChildAt(root, d, "go.mod");
  }

  /** One step down, the path to the rest is the same. */
  lemma OneDown(m: Path, rel: Path)
    requires |rel| > 0
    ensures m + [rel[0]] + rel[1..] == m + rel
  {
    assert rel == [rel[0]] + rel[1..];
  }

  lemma PassesNext(env: Env, m: Path, rel: Path, k: nat, all: bool)
    requires 1 < k < |rel|
    ensures PassesAt(env, m + [rel[0]], rel[1..], k - 1, all) <==> PassesAt(env, m, rel, k, all)
  {
    OneDown(m, rel[..k]);
    assert rel[..k][1..] == rel[1..][..k - 1] && rel[..k][0] == rel[0];
    assert rel[1..][k - 2] == rel[k - 1];
  }

  lemma PassesFirst(env: Env, m: Path, rel: Path, all: bool)
    requires |rel| > 1
    ensures PassesAt(env, m, rel, 1, all) <==> !LeftOut(env, rel[0], all) && OpenDir(env.root, m + [rel[0]])
  {
    assert rel[..1] == [rel[0]];
  }

  /** Nothing but what passes the first step is walked to. */
  lemma WalkedNext(env: Env, m: Path, rel: Path, all: bool)
    requires |rel| > 1
    ensures var next := m + [rel[0]];
      WalkedTo(env, m, rel, all) <==>
        !LeftOut(env, rel[0], all) && OpenDir(env.root, next) && WalkedTo(env, next, rel[1..], all)
    ensures m + [rel[0]] + rel[1..] == m + rel
  {
    var next, tail := m + [rel[0]], rel[1..];
    OneDown(m, rel);
    PassesFirst(env, m, rel, all);
    forall k: nat | 1 < k < |rel|
      ensures PassesAt(env, next, tail, k - 1, all) <==> PassesAt(env, m, rel, k, all)
    {
      PassesNext(env, m, rel, k, all);
    }
    if WalkedTo(env, m, rel, all) {
      forall j: nat | 0 < j < |tail|
        ensures PassesAt(env, next, tail, j, all)
      {
        assert PassesAt(env, m, rel, j + 1, all);
      }
    }
  }

  lemma {:induction false} ChosenIff(env: Env, m: Path, rel: Path, all: bool)
    requires Lstat(env.root, m).Some? && Lstat(env.root, m).value.Dir?
    ensures ChosenIn(env, Lstat(env.root, m).value, rel, all) <==> Takes(env, m, rel, all)
    decreases |rel|
  {
    if |rel| > 0 {
      var next := m + [rel[0]];
      ChildAt(env.root, m, rel[0]);
      if |rel| == 1 {
        assert rel == [rel[0]];
      } else {
        WalkedNext(env, m, rel, all);
        if Lstat(env.root, next).Some? && Lstat(env.root, next).value.Dir? {
          OpenDirIs(env.root, next);
          ChosenIff(env, next, rel[1..], all);
        }
      }
    }
  }

  lemma {:induction false} RefusedIff(env: Env, m: Path, rel: Path, all: bool)
    requires Lstat(env.root, m).Some? && Lstat(env.root, m).value.Dir?
    ensures RefusedIn(env, Lstat(env.root, m).value, rel, all) <==> Refuses(env, m, rel, all)
    decreases |rel|
  {
    if |rel| > 0 {
      var next := m + [rel[0]];
      ChildAt(env.root, m, rel[0]);
      if |rel| == 1 {
        assert rel == [rel[0]];
      } else {
        WalkedNext(env, m, rel, all);
        if Lstat(env.root, next).Some? && Lstat(env.root, next).value.Dir? {
          OpenDirIs(env.root, next);
          RefusedIff(env, next, rel[1..], all);
        }
      }
    }
  }

  lemma DirectoryTakes(env: Env, m: Path, all: bool, f: Path)
    requires NamesOnce(env.root) && OpenDir(env.root, m)
    requires EntriesFiles(env.bad, Lstat(env.root, m).value, Lstat(env.root, m).value.entries, m, all).Some?
    ensures f in EntriesFiles(env.bad, Lstat(env.root, m).value, Lstat(env.root, m).value.entries, m, all).value
      <==> exists rel :: f == m + rel && Takes(env, m, rel, all)
  {
    var n := Lstat(env.root, m).value;
    LstatNamesOnce(env.root, m);
    EntriesGive(env, n, n.entries, m, all, f);
    if IsBelow(m, f) {
      assert f == m + f[|m|..];
      ChosenIff(env, m, f[|m|..], all);
      if ChosenIn(env, n, f[|m|..], all) {
        assert Find(n.entries, f[|m|]).Some?;
      }
    }
    if rel :| f == m + rel && Takes(env, m, rel, all) {
      assert f[..|m|] == m && f[|m|..] == rel;
    }
  }

  lemma DirectoryFails(env: Env, m: Path, all: bool)
    requires NamesOnce(env.root) && OpenDir(env.root, m)
    ensures EntriesFiles(env.bad, Lstat(env.root, m).value, Lstat(env.root, m).value.entries, m, all).None?
      <==> exists rel :: Refuses(env, m, rel, all)
  {
    var n := Lstat(env.root, m).value;
    LstatNamesOnce(env.root, m);
    if EntriesFiles(env.bad, n, n.entries, m, all).None? {
      var rel := EntriesFail(env, n, n.entries, m, all);
      RefusedIff(env, m, rel, all);
    }
    if rel :| Refuses(env, m, rel, all) {
      RefusedIff(env, m, rel, all);
      RefusalFails(env, n, m, all, rel);
    }
  }

  /** What a directory without a go.mod gives: the files it takes, unless there is none or it refuses one. */
  lemma DirectoryGives(env: Env, m: Path, all: bool)
    requires NamesOnce(env.root) && OpenDir(env.root, m)
    ensures MatchFiles(env, m, all).Some? <==> IsUsable(env, m, all)
    ensures MatchFiles(env, m, all).Some? ==>
      forall f :: f in MatchFiles(env, m, all).value <==> IsTaken(env, m, all, f)
  {
    OpenDirIs(env.root, m);
    DirectoryFails(env, m, all);
    var n := Lstat(env.root, m).value;
    var files := EntriesFiles(env.bad, n, n.entries, m, all);
    if files.Some? {
      forall f
        ensures f in files.value <==> exists rel :: f == m + rel && Takes(env, m, rel, all)
      {
        DirectoryTakes(env, m, all, f);
      }
      if files.value != [] {
        assert files.value[0] in files.value;
      }
      if rel :| Takes(env, m, rel, all) {
        assert m + rel in files.value;
      }
    }
  }

  // ---- What patterns give ----

  lemma AdmittedIsLegal(env: Env, m: Path)
    ensures IsAdmitted(env, m) <==> IsLegal(env, m)
  {
    forall k | 0 < k <= |m|
      ensures AdmittedAt(env, m, k) <==> StepOk(env, m, k)
    {
      ModuleRootIs(env.root, m[..k]);
    }
  }

  lemma ModuleRootIs(root: Node, d: Path)
    ensures NoGoMod(root, d) <==> !IsModuleRoot(root, d)
  {
    var file := d + ["go.mod"];
    assert file[..|d|] == d && ["go.mod"][1..] == [];
    if Lstat(root, d).Some? {
      LstatConcat(root, d, ["go.mod"]);
    } else if Lstat(root, file).Some? {
      LstatPrefix(root, file, |d|);
    }
  }

  /** A match that exists gives files exactly when it is admitted and usable, and then those it takes. */
  lemma MatchIs(env: Env, m: Path, all: bool)
    requires EnvOk(env) && |m| > 0 && Lstat(env.root, m).Some?
    ensures MatchOk(env, m, all) <==> IsAdmitted(env, m) && IsUsable(env, m, all)
    ensures MatchOk(env, m, all) ==> forall f :: f in MatchFiles(env, m, all).value <==> IsTaken(env, m, all, f)
  {
    AdmittedIsLegal(env, m);
    if Lstat(env.root, m).value.Dir? && IsAdmitted(env, m) {
      assert AdmittedAt(env, m, |m|) && m[..|m|] == m;
      DirectoryGives(env, m, all);
    }
  }

  /** The syntax is valid, something matches, and whatever matches is admitted and usable. */
  ghost predicate Resolves(env: Env, p: Pattern) {
    && env.valid(p.elems) && env.glob(p.elems) != []
    && forall m :: m in env.glob(p.elems) ==>
         Lstat(env.root, m).Some? && IsAdmitted(env, m) && IsUsable(env, m, p.all)
  }

  ghost predicate TakenBy(env: Env, p: Pattern, f: Path) {
    exists m :: m in env.glob(p.elems) && IsTaken(env, m, p.all, f)
  }

  lemma PatternIs(env: Env, p: Pattern)
    requires EnvOk(env)
    ensures PatternOk(env, p) <==> Resolves(env, p)
    ensures PatternOk(env, p) ==> forall f :: Selects(env, p, f) <==> TakenBy(env, p, f)
  {
    forall m | m in env.glob(p.elems)
      ensures Lstat(env.root, m).Some?
      ensures MatchOk(env, m, p.all) <==> IsAdmitted(env, m) && IsUsable(env, m, p.all)
      ensures MatchOk(env, m, p.all) ==>
        forall f :: f in MatchFiles(env, m, p.all).value <==> IsTaken(env, m, p.all, f)
    {
      MatchIs(env, m, p.all);
    }
  }
}
