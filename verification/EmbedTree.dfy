/**
  The directory of a package as //go:embed resolution sees it (go/go2nix/pkg/gofiles/gofiles.go),
  and the files embed_candidates lists (packages/go2nix-nix-plugin/rust/src/resolve.rs).
 */
module EmbedTree {
  import opened Wrappers

  /** What lstat finds; a link holds what stat finds behind it, if anything. */
  datatype Node = File | Dir(entries: seq<Entry>) | Link(target: Option<Node>) | Special

  datatype Entry = Entry(name: string, node: Node)

  /** Path elements below the package directory. */
  type Path = seq<string>

  function Stat(n: Node): Option<Node> {
    match n
    case Link(None) => None
    case Link(Some(t)) => Stat(t)
    case _ => Some(n)
  }

  function Find(entries: seq<Entry>, name: string): (r: Option<Node>)
    ensures r.Some? ==> Entry(name, r.value) in entries
    ensures r.None? ==> forall e :: e in entries ==> e.name != name
  {
    if |entries| == 0 then None
    else if entries[0].name == name then Some(entries[0].node)
    else Find(entries[1..], name)
  }

  /** lstat of a path: links on the way are followed, the last element is not. */
  function Lstat(n: Node, path: Path): Option<Node>
    decreases |path|
  {
    if |path| == 0 then Some(n)
    else
      var d := Stat(n);
      if d.None? || !d.value.Dir? then None
      else
        var child := Find(d.value.entries, path[0]);
        if child.None? then None else Lstat(child.value, path[1..])
  }

  predicate HasGoMod(entries: seq<Entry>) {
    Find(entries, "go.mod").Some? && Stat(Find(entries, "go.mod").value).Some?
  }

  /** A path has a go.mod below it, whatever it is. */
  predicate IsModuleRoot(root: Node, path: Path) {
    var n := Lstat(root, path);
    n.Some? && Stat(n.value).Some? && Stat(n.value).value.Dir? && HasGoMod(Stat(n.value).value.entries)
  }

  lemma {:induction false} LstatConcat(n: Node, a: Path, b: Path)
    requires Lstat(n, a).Some?
    ensures Lstat(n, a + b) == Lstat(Lstat(n, a).value, b)
    decreases |a|
  {
    if |a| == 0 {
      assert a + b == b;
    } else {
      assert (a + b)[0] == a[0] && (a + b)[1..] == a[1..] + b;
      LstatConcat(Find(Stat(n).value.entries, a[0]).value, a[1..], b);
    }
  }

  lemma {:induction false} LstatPrefix(n: Node, path: Path, k: nat)
    requires Lstat(n, path).Some? && k <= |path|
    ensures Lstat(n, path[..k]).Some?
    decreases k
  {
    if k > 0 {
      assert path[..k][0] == path[0] && path[..k][1..] == path[1..][..k - 1];
      LstatPrefix(Find(Stat(n).value.entries, path[0]).value, path[1..], k - 1);
    }
  }

  /** What symlink_metadata answers: an element below something that is no directory is another error. */
  datatype Probed = Found(node: Node) | NotFound | NotADirectory

  function Probe(n: Node, path: Path): (r: Probed)
    ensures Lstat(n, path) == if r.Found? then Some(r.node) else None
    decreases |path|
  {
    if |path| == 0 then Found(n)
    else
      var d := Stat(n);
      if d.None? then NotFound
      else if !d.value.Dir? then NotADirectory
      else
        var child := Find(d.value.entries, path[0]);
        if child.None? then NotFound else Probe(child.value, path[1..])
  }

  // ---- Names ----

  /** No directory has two entries of one name. */
  ghost predicate NamesOnce(n: Node)
    decreases n
  {
    match n
    case Dir(entries) =>
      && (forall i, j :: 0 <= i < j < |entries| ==> entries[i].name != entries[j].name)
      && forall i :: 0 <= i < |entries| ==> NamesOnce(entries[i].node)
    case Link(Some(t)) => NamesOnce(t)
    case _ => true
  }

  lemma FindsEntry(n: Node, e: Entry)
    requires n.Dir? && NamesOnce(n) && e in n.entries
    ensures Find(n.entries, e.name) == Some(e.node) && NamesOnce(e.node)
  {
    var found := Entry(e.name, Find(n.entries, e.name).value);
    var i :| 0 <= i < |n.entries| && n.entries[i] == e;
    var j :| 0 <= j < |n.entries| && n.entries[j] == found;
    assert i == j;
  }

  lemma {:induction false} StatNamesOnce(n: Node)
    requires NamesOnce(n) && Stat(n).Some?
    ensures NamesOnce(Stat(n).value)
    decreases n
  {
    if n.Link? {
      StatNamesOnce(n.target.value);
    }
  }

  lemma {:induction false} LstatNamesOnce(n: Node, path: Path)
    requires NamesOnce(n) && Lstat(n, path).Some?
    ensures NamesOnce(Lstat(n, path).value)
    decreases |path|
  {
    if |path| > 0 {
      StatNamesOnce(n);
      var d := Stat(n).value;
      FindsEntry(d, Entry(path[0], Find(d.entries, path[0]).value));
      LstatNamesOnce(Find(d.entries, path[0]).value, path[1..]);
    }
  }

  /** to_string_lossy: the identity on UTF-8, which is all the model knows of it. */
  type Lossy = string -> string

  lemma ChildIsSmaller(parent: Node, e: Entry)
    requires parent.Dir? && e in parent.entries
    ensures e.node < parent
  {
    var k :| 0 <= k < |parent.entries| && parent.entries[k] == e;
    assert parent.entries[k].node < parent;
  }

  /** What a directory has under a name. */
  function Child(n: Node, name: string): (r: Option<Node>)
    requires n.Dir?
    ensures r.Some? ==> r.value < n
  {
    var r := Find(n.entries, name);
    if r.Some? then ChildIsSmaller(n, Entry(name, r.value)); r else r
  }

  // ---- embed_candidates ----

  /**
    Everything below a node that is not in another module, the node itself if it is no directory.
    An entry is looked up under its text, where nothing need be.
   */
  ghost function Walk(lossy: Lossy, n: Node, rel: Path): set<Path>
    decreases n
  {
    if !n.Dir? then {rel}
    else if rel != [] && HasGoMod(n.entries) then {}
    else
      set e, p | e in n.entries && Child(n, lossy(e.name)).Some?
                 && p in Walk(lossy, Child(n, lossy(e.name)).value, rel + [lossy(e.name)]) :: p
  }

  ghost function WalkAt(lossy: Lossy, root: Node, rel: Path): set<Path> {
    var n := Lstat(root, rel);
    if n.None? then {} else Walk(lossy, n.value, rel)
  }

  /** A directory's walk holds the walks of its entries whose names are UTF-8. */
  lemma WalkEntry(lossy: Lossy, n: Node, rel: Path, name: string)
    requires n.Dir? && (rel == [] || !HasGoMod(n.entries)) && Find(n.entries, name).Some? && lossy(name) == name
    ensures Walk(lossy, Find(n.entries, name).value, rel + [name]) <= Walk(lossy, n, rel)
  {
    var e := Entry(name, Find(n.entries, name).value);
    assert e in n.entries && Child(n, lossy(e.name)) == Some(e.node);
  }

  /** Directories, of no other module, down to a path: the walk from above holds the walk at it. */
  ghost predicate OpenDirs(root: Node, path: Path, k: nat) {
    forall j :: k <= j < |path| ==>
      && Lstat(root, path[..j]).Some? && Lstat(root, path[..j]).value.Dir?
      && (j > 0 ==> !IsModuleRoot(root, path[..j]))
  }

  lemma {:induction false} WalkReaches(lossy: Lossy, root: Node, path: Path, k: nat)
    requires k <= |path| && Lstat(root, path).Some? && OpenDirs(root, path, k)
    requires forall j :: k <= j < |path| ==> lossy(path[j]) == path[j]
    ensures WalkAt(lossy, root, path) <= WalkAt(lossy, root, path[..k])
    decreases |path| - k
  {
    if k == |path| {
      assert path[..k] == path;
    } else {
      LstatPrefix(root, path, k);
      LstatPrefix(root, path, k + 1);
      WalkReaches(lossy, root, path, k + 1);
      WalkStep(lossy, root, path, k);
    }
  }

  lemma WalkStep(lossy: Lossy, root: Node, path: Path, k: nat)
    requires k < |path| && Lstat(root, path[..k]).Some? && Lstat(root, path[..k + 1]).Some?
    requires Lstat(root, path[..k]).value.Dir? && (k > 0 ==> !IsModuleRoot(root, path[..k]))
      && lossy(path[k]) == path[k]
    ensures WalkAt(lossy, root, path[..k + 1]) <= WalkAt(lossy, root, path[..k])
  {
    var n := Lstat(root, path[..k]).value;
    assert path[..k + 1] == path[..k] + [path[k]];
    LstatConcat(root, path[..k], [path[k]]);
    var child := Find(n.entries, path[k]);
    assert [path[k]][1..] == [];
    WalkEntry(lossy, n, path[..k], path[k]);
  }

  /** The walk of one entry. */
  ghost function WalkChild(lossy: Lossy, n: Node, e: Entry, rel: Path): set<Path>
    requires n.Dir?
  {
    var child := Child(n, lossy(e.name));
    if child.None? then {} else Walk(lossy, child.value, rel + [lossy(e.name)])
  }

  /** The walks of the first i entries of a directory. */
  ghost function WalkEntries(lossy: Lossy, n: Node, i: nat, rel: Path): set<Path>
    requires n.Dir? && i <= |n.entries|
  {
    set e, p | e in n.entries[..i] && p in WalkChild(lossy, n, e, rel) :: p
  }

  lemma WalkIsOfEntries(lossy: Lossy, n: Node, rel: Path)
    requires n.Dir? && (rel == [] || !HasGoMod(n.entries))
    ensures Walk(lossy, n, rel) == WalkEntries(lossy, n, |n.entries|, rel)
  {
    assert n.entries[..|n.entries|] == n.entries;
    forall p | p in Walk(lossy, n, rel)
      ensures p in WalkEntries(lossy, n, |n.entries|, rel)
    {
      var e :| e in n.entries && Child(n, lossy(e.name)).Some?
        && p in Walk(lossy, Child(n, lossy(e.name)).value, rel + [lossy(e.name)]);
      assert p in WalkChild(lossy, n, e, rel);
    }
    forall p | p in WalkEntries(lossy, n, |n.entries|, rel)
      ensures p in Walk(lossy, n, rel)
    {
      var e :| e in n.entries && p in WalkChild(lossy, n, e, rel);
      assert Child(n, lossy(e.name)).Some?;
    }
  }

  lemma WalkEntriesNext(lossy: Lossy, n: Node, i: nat, rel: Path)
    requires n.Dir? && i < |n.entries|
    ensures WalkEntries(lossy, n, i + 1, rel) == WalkEntries(lossy, n, i, rel) + WalkChild(lossy, n, n.entries[i], rel)
  {
    assert n.entries[..i + 1] == n.entries[..i] + [n.entries[i]];
    assert forall x :: x in n.entries[..i + 1] <==> x in n.entries[..i] || x == n.entries[i];
  }
}
