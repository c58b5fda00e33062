/** From trees on disk to archives: what the dump determines, and the writer in place. */
module NarTrees {
  import opened Wrappers
  import Seqs
  import opened NarFraming
  import opened Nar
  import opened NarProofs

  /** Supported file types, UTF-8 targets and distinct UTF-8 names, no length that a u64 cannot hold. */
  ghost predicate WellFormed(lossy: Lossy, node: FsNode) {
    match node
    case Regular(_, contents) => |contents| < MAX_LEN
    case Symlink(target) => lossy(target) == target && |target| < MAX_LEN
    case Directory(entries) =>
      && NamesDistinct(entries)
      && forall i :: 0 <= i < |entries| ==>
           lossy(entries[i].name) == entries[i].name && |entries[i].name| < MAX_LEN
             && WellFormed(lossy, entries[i].node)
    case Special => false
  }

  /** The owner, the group or others may execute. */
  predicate AnyMayExecute(mode: bv32) {
    mode & 0x40 != 0 || mode & 0x08 != 0 || mode & 0x01 != 0
  }

  /** One tree, whatever order readdir gives: of the mode bits only whether any of the three x is set. */
  ghost predicate SameTree(a: FsNode, b: FsNode)
    decreases a
  {
    match (a, b)
    case (Regular(m, c), Regular(n, d)) => AnyMayExecute(m) == AnyMayExecute(n) && c == d
    case (Symlink(s), Symlink(t)) => s == t
    case (Directory(es), Directory(fs)) =>
      && Names(es) == Names(fs)
      && forall i, j :: 0 <= i < |es| && 0 <= j < |fs| && es[i].name == fs[j].name ==> SameTree(es[i].node, fs[j].node)
    case _ => false
  }

  function Names(entries: seq<FsEntry>): set<Bytes> {
    set e | e in entries :: e.name
  }

  lemma ExecutableIs(mode: bv32)
    ensures IsExecutable(mode) <==> AnyMayExecute(mode)
  {
    assert 0x49 as bv32 == 0x40 | 0x08 | 0x01;
  }

  /**
    What an archive says of a tree: contents and executable bit of a file, the target of a link, and of
    a directory each entry once, in ascending order of the names.
   */
  ghost predicate Shows(o: Object, node: FsNode)
    decreases node
  {
    match node
    case Regular(mode, contents) => o == File(AnyMayExecute(mode), contents)
    case Symlink(target) => o == Link(target)
    case Directory(entries) =>
      && o.Dir? && Ascending(o.entries) && (set x | x in o.entries :: x.name) == Names(entries)
      && forall i, k :: 0 <= i < |entries| && 0 <= k < |o.entries| && entries[i].name == o.entries[k].name ==>
           Shows(o.entries[k].obj, entries[i].node)
    case Special => false
  }

  /** Something that is no file, directory or link, at any depth. */
  ghost predicate HasSpecial(node: FsNode) {
    match node
    case Special => true
    case Directory(entries) => exists i :: 0 <= i < |entries| && HasSpecial(entries[i].node)
    case _ => false
  }

  // ---- The image of a well-formed tree ----

  /** The images of a list of entries, entry by entry. */
  lemma {:induction false} ImagesAt(lossy: Lossy, parent: FsNode, entries: seq<FsEntry>)
    requires parent.Directory? && forall e :: e in entries ==> e in parent.entries
    requires forall e :: e in entries ==> Image(lossy, e.node).Some?
    ensures var r := EntryImages(lossy, parent, entries);
      && r.Some? && |r.value| == |entries|
      && forall k :: 0 <= k < |entries| ==>
        r.value[k] == Entry(lossy(entries[k].name), Image(lossy, entries[k].node).value)
  {
    if |entries| > 0 {
      ImagesAt(lossy, parent, entries[1..]);
    }
  }

  lemma {:induction false} TokensWritable(entries: seq<Entry>)
    requires forall k :: 0 <= k < |entries| ==> |entries[k].name| < MAX_LEN && Writable(ObjectTokens(entries[k].obj))
    ensures Writable(ObjectEntryTokens(entries))
  {
    if |entries| > 0 {
      TokensWritable(entries[1..]);
    }
  }

  lemma {:induction false} ImageIsOrdered(lossy: Lossy, node: FsNode)
    requires WellFormed(lossy, node)
    ensures Image(lossy, node).Some?
    ensures Ordered(Image(lossy, node).value) && Writable(ObjectTokens(Image(lossy, node).value))
    decreases node
  {
    if node.Directory? {
      var sorted := SortEntries(node.entries);
      forall e | e in sorted
        ensures Image(lossy, e.node).Some? && Ordered(Image(lossy, e.node).value)
        ensures Writable(ObjectTokens(Image(lossy, e.node).value)) && lossy(e.name) == e.name && |e.name| < MAX_LEN
      {
        ChildIsSmaller(node, e);
        ImageIsOrdered(lossy, e.node);
      }
      ImagesAt(lossy, node, sorted);
      SortAscends(node.entries);
      ImagesAreOrdered(lossy, sorted, EntryImages(lossy, node, sorted).value);
    }
  }

  ghost predicate IsImageOf(lossy: Lossy, e: FsEntry, image: Entry) {
    lossy(e.name) == e.name && Image(lossy, e.node).Some? && image == Entry(e.name, Image(lossy, e.node).value)
  }

  /** The images of sorted entries make an ordered directory, writable when its members are. */
  lemma ImagesAreOrdered(lossy: Lossy, sorted: seq<FsEntry>, images: seq<Entry>)
    requires NamesAscend(sorted) && |images| == |sorted| && forall k :: 0 <= k < |sorted| ==>
      IsImageOf(lossy, sorted[k], images[k])
    requires forall k :: 0 <= k < |images| ==>
      |images[k].name| < MAX_LEN && Ordered(images[k].obj) && Writable(ObjectTokens(images[k].obj))
    ensures Ordered(Dir(images)) && Writable(ObjectTokens(Dir(images)))
  {
    assert forall k :: 0 <= k < |images| ==> IsImageOf(lossy, sorted[k], images[k]) && images[k].name == sorted[k].name;
    TokensWritable(images);
  }

  lemma {:induction false} EntriesUnique(a: seq<Entry>, b: seq<Entry>)
    requires Ascending(a) && Ascending(b) && forall x :: x in a <==> x in b
    ensures a == b
  {
    assert |b| > 0 ==> b[0] in a;
    if |a| > 0 {
      assert a[0] in b;
      var i :| 0 <= i < |b| && b[i] == a[0];
      assert b[0] in a;
      var j :| 0 <= j < |a| && a[j] == b[0];
      if i > 0 {
        assert Less(b[0].name, a[0].name);
        if j > 0 {
          LessTransitive(a[0].name, b[0].name, a[0].name);
        }
        LessIrreflexive(a[0].name);
        assert false;
      }
      EntriesTail(a);
      EntriesTail(b);
      EntriesUnique(a[1..], b[1..]);
      assert a == [a[0]] + a[1..] && b == [b[0]] + b[1..];
    }
  }

  lemma EntriesTail(a: seq<Entry>)
    requires Ascending(a) && |a| > 0
    ensures Ascending(a[1..]) && forall x :: x in a[1..] <==> x in a && x != a[0]
  {
    forall x | x in a[1..]
      ensures x in a && x != a[0]
    {
      LessIrreflexive(a[0].name);
    }
    forall x | x in a && x != a[0]
      ensures x in a[1..]
    {
      var i :| 0 <= i < |a| && a[i] == x;
      assert a[1..][i - 1] == x;
    }
  }

  /** An entry of a well-formed directory and its image, where the sorted list has them. */
  lemma EntryPlace(lossy: Lossy, dir: FsNode, i: nat) returns (k: nat)
    requires dir.Directory? && WellFormed(lossy, dir) && i < |dir.entries|
    ensures Image(lossy, dir).Some? && Image(lossy, dir.entries[i].node).Some?
    ensures var images := Image(lossy, dir).value.entries;
      k < |images| && images[k] == Entry(dir.entries[i].name, Image(lossy, dir.entries[i].node).value)
  {
    var sorted := SortEntries(dir.entries);
    forall e | e in sorted
      ensures Image(lossy, e.node).Some?
    {
      ImageIsOrdered(lossy, e.node);
    }
    ImagesAt(lossy, dir, sorted);
    assert dir.entries[i] in sorted;
    k :| 0 <= k < |sorted| && sorted[k] == dir.entries[i];
  }

  /** And back: the entry an image comes from. */
  lemma ImagePlace(lossy: Lossy, dir: FsNode, k: nat) returns (i: nat)
    requires dir.Directory? && WellFormed(lossy, dir) && Image(lossy, dir).Some?
      && k < |Image(lossy, dir).value.entries|
    ensures i < |dir.entries| && Image(lossy, dir.entries[i].node).Some?
    ensures Image(lossy, dir).value.entries[k] == Entry(dir.entries[i].name, Image(lossy, dir.entries[i].node).value)
  {
    var sorted := SortEntries(dir.entries);
    forall e | e in sorted
      ensures Image(lossy, e.node).Some?
    {
      ImageIsOrdered(lossy, e.node);
    }
    ImagesAt(lossy, dir, sorted);
    assert sorted[k] in dir.entries;
    i :| 0 <= i < |dir.entries| && dir.entries[i] == sorted[k];
  }

  /** The entry of an image with a given name is the image of the entry with that name. */
  lemma EntryShown(lossy: Lossy, dir: FsNode, i: nat, k: nat)
    requires dir.Directory? && WellFormed(lossy, dir) && Image(lossy, dir).Some? && i < |dir.entries|
    requires k < |Image(lossy, dir).value.entries| && Image(lossy, dir).value.entries[k].name == dir.entries[i].name
    ensures Image(lossy, dir.entries[i].node) == Some(Image(lossy, dir).value.entries[k].obj)
  {
    var j := ImagePlace(lossy, dir, k);
    assert i == j;
  }

  lemma {:induction false} ImageShows(lossy: Lossy, node: FsNode)
    requires WellFormed(lossy, node) && Image(lossy, node).Some?
    ensures Shows(Image(lossy, node).value, node)
    decreases node
  {
    match node
    case Regular(mode, _) => ExecutableIs(mode);
    case Symlink(_) =>
    case Directory(entries) =>
      ImageIsOrdered(lossy, node);
      var images := Image(lossy, node).value.entries;
      forall i, k | 0 <= i < |entries| && 0 <= k < |images| && entries[i].name == images[k].name
        ensures Shows(images[k].obj, entries[i].node)
      {
        EntryShown(lossy, node, i, k);
        ImageShows(lossy, entries[i].node);
      }
      ImageNames(lossy, node);
  }

  lemma ImageNames(lossy: Lossy, dir: FsNode)
    requires dir.Directory? && WellFormed(lossy, dir) && Image(lossy, dir).Some?
    ensures (set x | x in Image(lossy, dir).value.entries :: x.name) == Names(dir.entries)
  {
    var images := Image(lossy, dir).value.entries;
    forall x | x in images
      ensures x.name in Names(dir.entries)
    {
      var k :| 0 <= k < |images| && images[k] == x;
      var i := ImagePlace(lossy, dir, k);
      assert dir.entries[i] in dir.entries;
    }
    forall e | e in dir.entries
      ensures exists x :: x in images && x.name == e.name
    {
      var i :| 0 <= i < |dir.entries| && dir.entries[i] == e;
      var k := EntryPlace(lossy, dir, i);
      assert images[k] in images;
    }
  }

  lemma {:induction false} SameTreeSameImage(lossy: Lossy, a: FsNode, b: FsNode)
    requires WellFormed(lossy, a) && WellFormed(lossy, b) && SameTree(a, b)
    ensures Image(lossy, a) == Image(lossy, b)
    decreases a, 1
  {
    if a.Regular? {
      ExecutableIs(a.mode);
      ExecutableIs(b.mode);
    } else if a.Directory? {
      ImageIsOrdered(lossy, a);
      ImageIsOrdered(lossy, b);
      var x, y := Image(lossy, a).value.entries, Image(lossy, b).value.entries;
      forall k | 0 <= k < |x|
        ensures x[k] in y
      {
        ImageEntryThere(lossy, a, b, k);
      }
      forall k | 0 <= k < |y|
        ensures y[k] in x
      {
        ImageEntryHere(lossy, a, b, k);
      }
      EntriesUnique(x, y);
    }
  }

  lemma {:induction false} ImageEntryThere(lossy: Lossy, a: FsNode, b: FsNode, k: nat)
    requires a.Directory? && WellFormed(lossy, a) && WellFormed(lossy, b) && SameTree(a, b)
    requires Image(lossy, a).Some? && Image(lossy, b).Some? && k < |Image(lossy, a).value.entries|
    ensures Image(lossy, a).value.entries[k] in Image(lossy, b).value.entries
    decreases a, 0
  {
    var i := ImagePlace(lossy, a, k);
    assert a.entries[i].name in Names(b.entries);
    var j :| 0 <= j < |b.entries| && a.entries[i].name == b.entries[j].name;
    ChildIsSmaller(a, a.entries[i]);
    SameTreeSameImage(lossy, a.entries[i].node, b.entries[j].node);
    var m := EntryPlace(lossy, b, j);
  }

  lemma {:induction false} ImageEntryHere(lossy: Lossy, a: FsNode, b: FsNode, k: nat)
    requires a.Directory? && WellFormed(lossy, a) && WellFormed(lossy, b) && SameTree(a, b)
    requires Image(lossy, a).Some? && Image(lossy, b).Some? && k < |Image(lossy, b).value.entries|
    ensures Image(lossy, b).value.entries[k] in Image(lossy, a).value.entries
    decreases a, 0
  {
    var j := ImagePlace(lossy, b, k);
    assert b.entries[j].name in Names(a.entries);
    var i :| 0 <= i < |a.entries| && a.entries[i].name == b.entries[j].name;
    ChildIsSmaller(a, a.entries[i]);
    SameTreeSameImage(lossy, a.entries[i].node, b.entries[j].node);
    var m := EntryPlace(lossy, a, i);
  }

  lemma {:induction false} SameImageSameTree(lossy: Lossy, a: FsNode, b: FsNode)
    requires WellFormed(lossy, a) && WellFormed(lossy, b) && Image(lossy, a) == Image(lossy, b)
    ensures SameTree(a, b)
    decreases a
  {
    if a.Regular? {
      ExecutableIs(a.mode);
      ExecutableIs(b.mode);
    } else if a.Directory? {
      ImageIsOrdered(lossy, a);
      forall i, j | 0 <= i < |a.entries| && 0 <= j < |b.entries| && a.entries[i].name == b.entries[j].name
        ensures SameTree(a.entries[i].node, b.entries[j].node)
      {
        ChildIsSmaller(a, a.entries[i]);
        OneImagePerName(lossy, a, b, i, j);
        SameImageSameTree(lossy, a.entries[i].node, b.entries[j].node);
      }
      SameImageNames(lossy, a, b);
      SameImageNames(lossy, b, a);
    }
  }

  lemma OneImagePerName(lossy: Lossy, a: FsNode, b: FsNode, i: nat, j: nat)
    requires a.Directory? && b.Directory? && WellFormed(lossy, a) && WellFormed(lossy, b)
    requires Image(lossy, a) == Image(lossy, b) && i < |a.entries| && j < |b.entries|
      && a.entries[i].name == b.entries[j].name
    ensures Image(lossy, a.entries[i].node) == Image(lossy, b.entries[j].node)
  {
    ImageIsOrdered(lossy, a);
    var k := EntryPlace(lossy, a, i);
    var m := EntryPlace(lossy, b, j);
    LessIrreflexive(a.entries[i].name);
  }

  lemma SameImageNames(lossy: Lossy, a: FsNode, b: FsNode)
    requires a.Directory? && b.Directory? && WellFormed(lossy, a) && WellFormed(lossy, b)
    requires Image(lossy, a) == Image(lossy, b)
    ensures Names(a.entries) <= Names(b.entries)
  {
    forall e | e in a.entries
      ensures e.name in Names(b.entries)
    {
      var i :| 0 <= i < |a.entries| && a.entries[i] == e;
      var k := EntryPlace(lossy, a, i);
      var j := ImagePlace(lossy, b, k);
    }
  }

  // ---- What dump_path promises ----

  lemma DumpIsArchive(lossy: Lossy, node: FsNode)
    ensures Dump(lossy, node).Some? <==> Image(lossy, node).Some?
    ensures Image(lossy, node).Some? ==> Dump(lossy, node) == Some(Archive(Image(lossy, node).value))
  {
    TokensOfImage(lossy, node);
  }

  /** Every dump is a multiple of 8 bytes long, and what is read back shows the tree. */
  lemma DumpReadsBack(lossy: Lossy, node: FsNode)
    requires WellFormed(lossy, node)
    ensures Dump(lossy, node).Some? && |Dump(lossy, node).value| % 8 == 0
    ensures Read(Dump(lossy, node).value).Some? && Shows(Read(Dump(lossy, node).value).value, node)
    ensures Read(Dump(lossy, node).value) == Image(lossy, node)
  {
    DumpIsArchive(lossy, node);
    ImageIsOrdered(lossy, node);
    ReadsArchive(Image(lossy, node).value);
    ImageShows(lossy, node);
  }

  /** A file read back is executable exactly when one of the three bits is set, and has its contents. */
  lemma FileReadsBack(lossy: Lossy, mode: bv32, contents: Bytes)
    requires |contents| < MAX_LEN
    ensures Dump(lossy, Regular(mode, contents)).Some?
    ensures Read(Dump(lossy, Regular(mode, contents)).value)
      == Some(File(mode & 0x40 != 0 || mode & 0x08 != 0 || mode & 0x01 != 0, contents))
  {
    DumpReadsBack(lossy, Regular(mode, contents));
  }

  /** A tree has no dump exactly when something in it has an unsupported file type. */
  lemma {:induction false} NoDumpIffSpecial(lossy: Lossy, node: FsNode)
    ensures Tokens(lossy, node).None? <==> HasSpecial(node)
    decreases node, 1
  {
    if node.Directory? {
      forall e | e in node.entries
        ensures Tokens(lossy, e.node).None? <==> HasSpecial(e.node)
      {
        ChildIsSmaller(node, e);
        NoDumpIffSpecial(lossy, e.node);
      }
      SomeEntryIffNone(lossy, node, SortEntries(node.entries));
      if e :| e in node.entries && HasSpecial(e.node) {
        var i :| 0 <= i < |node.entries| && node.entries[i] == e;
      }
    }
  }

  lemma {:induction false} SomeEntryIffNone(lossy: Lossy, parent: FsNode, entries: seq<FsEntry>)
    requires parent.Directory? && forall e :: e in entries ==> e in parent.entries
    ensures EntryTokens(lossy, parent, entries).None? <==> exists e :: e in entries && Tokens(lossy, e.node).None?
  {
    if |entries| > 0 {
      SomeEntryIffNone(lossy, parent, entries[1..]);
      assert forall e :: e in entries <==> e == entries[0] || e in entries[1..];
    }
  }

  /** Two trees have one dump, and so one hash, exactly when they are the same tree. */
  lemma DumpEqualIffSameTree(lossy: Lossy, a: FsNode, b: FsNode)
    requires WellFormed(lossy, a) && WellFormed(lossy, b)
    ensures Dump(lossy, a) == Dump(lossy, b) <==> SameTree(a, b)
  {
    DumpReadsBack(lossy, a);
    DumpReadsBack(lossy, b);
    DumpIsArchive(lossy, a);
    DumpIsArchive(lossy, b);
    if SameTree(a, b) {
      SameTreeSameImage(lossy, a, b);
    }
    if Dump(lossy, a) == Dump(lossy, b) {
      SameImageSameTree(lossy, a, b);
    }
  }

  // ---- The order of readdir ----

  /** One tree on disk listed twice: in every directory the same names in any order, and the same below each name. */
  ghost predicate Relisted(a: FsNode, b: FsNode)
    decreases a
  {
    a == b
    || (a.Directory? && b.Directory? && NamesDistinct(a.entries) && NamesDistinct(b.entries)
      && Names(a.entries) == Names(b.entries)
        && forall i, j :: 0 <= i < |a.entries| && 0 <= j < |b.entries| && a.entries[i].name == b.entries[j].name ==>
             Relisted(a.entries[i].node, b.entries[j].node))
  }

  lemma {:induction false} NamesUnique(s: seq<FsEntry>, t: seq<FsEntry>)
    requires NamesAscend(s) && NamesAscend(t) && Names(s) == Names(t)
    ensures |s| == |t| && forall k :: 0 <= k < |s| ==> s[k].name == t[k].name
  {
    if |s| == 0 || |t| == 0 {
      assert |s| > 0 ==> s[0].name in Names(t);
      assert |t| > 0 ==> t[0].name in Names(s);
    } else {
      LeastName(s, t);
      LeastName(t, s);
      LessAsymmetric(s[0].name, t[0].name);
      NamesTail(s);
      NamesTail(t);
      NamesUnique(s[1..], t[1..]);
      forall k | 0 <= k < |s|
        ensures s[k].name == t[k].name
      {
        assert k > 0 ==> s[1..][k - 1] == s[k] && t[1..][k - 1] == t[k];
      }
    }
  }

  lemma LessAsymmetric(a: Bytes, b: Bytes)
    ensures !(Less(a, b) && Less(b, a))
  {
    if Less(a, b) && Less(b, a) {
      LessTransitive(a, b, a);
      LessIrreflexive(a);
    }
  }

  lemma LeastName(s: seq<FsEntry>, t: seq<FsEntry>)
    requires NamesAscend(s) && |s| > 0 && |t| > 0 && Names(t) <= Names(s)
    ensures s[0].name == t[0].name || Less(s[0].name, t[0].name)
  {
    assert t[0].name in Names(s);
    var i :| 0 <= i < |s| && s[i].name == t[0].name;
  }

  lemma NamesTail(s: seq<FsEntry>)
    requires NamesAscend(s) && |s| > 0
    ensures NamesAscend(s[1..]) && Names(s[1..]) == Names(s) - {s[0].name}
  {
    forall e | e in s[1..]
      ensures e in s && e.name != s[0].name
    {
      LessIrreflexive(s[0].name);
    }
    forall e | e in s && e.name != s[0].name
      ensures e in s[1..]
    {
      var i :| 0 <= i < |s| && s[i] == e;
      assert s[1..][i - 1] == e;
    }
  }

  lemma SortNames(s: seq<FsEntry>)
    ensures Names(SortEntries(s)) == Names(s)
  {
  }

  /** Directories listed twice, sorted: name by name the same entries. */
  ghost predicate SameSorted(s: seq<FsEntry>, t: seq<FsEntry>) {
    |s| == |t| && forall k :: 0 <= k < |s| ==> s[k].name == t[k].name && Relisted(s[k].node, t[k].node)
  }

  lemma SortedAlike(a: FsNode, b: FsNode)
    requires a.Directory? && b.Directory? && a != b && Relisted(a, b)
    ensures SameSorted(SortEntries(a.entries), SortEntries(b.entries))
  {
    var s, t := SortEntries(a.entries), SortEntries(b.entries);
    SortAscends(a.entries);
    SortAscends(b.entries);
    SortNames(a.entries);
    SortNames(b.entries);
    NamesUnique(s, t);
    forall k | 0 <= k < |s|
      ensures Relisted(s[k].node, t[k].node)
    {
      assert s[k] in a.entries && t[k] in b.entries;
      var i :| 0 <= i < |a.entries| && a.entries[i] == s[k];
      var j :| 0 <= j < |b.entries| && b.entries[j] == t[k];
    }
  }

  lemma {:induction false} RelistedTokens(lossy: Lossy, a: FsNode, b: FsNode)
    requires Relisted(a, b)
    ensures Tokens(lossy, a) == Tokens(lossy, b)
    decreases a, 1
  {
    if a != b {
      SortedAlike(a, b);
      RelistedEntries(lossy, a, SortEntries(a.entries), b, SortEntries(b.entries));
    }
  }

  lemma {:induction false} RelistedEntries(lossy: Lossy, a: FsNode, s: seq<FsEntry>, b: FsNode, t: seq<FsEntry>)
    requires a.Directory? && b.Directory? && (forall e :: e in s ==> e in a.entries)
      && (forall e :: e in t ==> e in b.entries)
    requires SameSorted(s, t)
    ensures EntryTokens(lossy, a, s) == EntryTokens(lossy, b, t)
    decreases a, 0, |s|
  {
    if |s| > 0 {
      ChildIsSmaller(a, s[0]);
      RelistedTokens(lossy, s[0].node, t[0].node);
      RelistedEntries(lossy, a, s[1..], b, t[1..]);
    }
  }

  /** The order readdir returns entries in reaches no dump, at any depth, whatever the names, targets and file types. */
  lemma ReaddirOrderIrrelevant(lossy: Lossy, a: FsNode, b: FsNode)
    requires Relisted(a, b)
    ensures Dump(lossy, a) == Dump(lossy, b)
  {
    RelistedTokens(lossy, a, b);
  }

  /** Two orders of the entries of one directory. */
  lemma EntriesInAnyOrder(lossy: Lossy, es: seq<FsEntry>, fs: seq<FsEntry>)
    requires NamesDistinct(es) && NamesDistinct(fs) && forall e :: e in es <==> e in fs
    ensures Dump(lossy, Directory(es)) == Dump(lossy, Directory(fs))
  {
    forall i, j | 0 <= i < |es| && 0 <= j < |fs| && es[i].name == fs[j].name
      ensures es[i] == fs[j]
    {
      assert fs[j] in es;
      var k :| 0 <= k < |es| && es[k] == fs[j];
      assert k == i;
    }
    assert Names(es) == Names(fs);
    ReaddirOrderIrrelevant(lossy, Directory(es), Directory(fs));
  }

  /** Outside UTF-8 the text stands in for the bytes: targets are told apart exactly as far as their texts are. */
  lemma TargetsByText(lossy: Lossy, s: Bytes, t: Bytes)
    requires |lossy(s)| < MAX_LEN && |lossy(t)| < MAX_LEN
    ensures Dump(lossy, Symlink(s)) == Dump(lossy, Symlink(t)) <==> lossy(s) == lossy(t)
    ensures SameTree(Symlink(s), Symlink(t)) <==> s == t
  {
    DumpIsArchive(lossy, Symlink(s));
    DumpIsArchive(lossy, Symlink(t));
    ReadsArchive(Link(lossy(s)));
    ReadsArchive(Link(lossy(t)));
  }

  // ---- The writer in place ----

  /** The writer dump_path fills: the bytes are at every moment those of the strings written so far. */
  class Writer {
    var out: Bytes
    ghost var tokens: seq<Bytes>

    ghost predicate Valid()
      reads this
    {
      out == FramedAll(tokens)
    }

    constructor ()
      ensures Valid() && tokens == []
    {
      out, tokens := [], [];
    }

    method WriteBytes(data: Bytes)
      requires Valid()
      modifies this
      ensures Valid() && tokens == old(tokens) + [data]
    {
      FramedNext(tokens, data);
      out := out + LittleEndian(|data| % MAX_LEN, WORD);
      out := out + data;
      var pad := (8 - (|data| % 8)) % 8;
      if pad > 0 {
        out := out + Zeros(pad);
      }
      tokens := tokens + [data];
    }

    /** Several strings in a row. */
    method WriteAll(list: seq<Bytes>)
      requires Valid()
      modifies this
      ensures Valid() && tokens == old(tokens) + list
    {
      for i := 0 to |list|
        invariant Valid() && tokens == old(tokens) + list[..i]
      {
        WriteBytes(list[i]);
        assert list[..i + 1] == list[..i] + [list[i]];
      }
      assert list[..|list|] == list;
    }

    /** dump_entry; false where it bails out on an unsupported file type. */
    method DumpEntry(lossy: Lossy, node: FsNode) returns (ok: bool)
      requires Valid()
      modifies this
      ensures Valid() && ok == Tokens(lossy, node).Some?
      ensures ok ==> tokens == old(tokens) + Tokens(lossy, node).value
      decreases node, 1
    {
      match node
      case Symlink(target) =>
        WriteAll([Ascii("("), Ascii("type"), Ascii("symlink"), Ascii("target"), lossy(target), Ascii(")")]);
        ok := true;
      case Directory(entries) =>
        ok := DumpDirectory(lossy, node);
      case Regular(mode, contents) =>
        var x := if IsExecutable(mode) then [Ascii("executable"), Ascii("")] else [];
        WriteAll([Ascii("("), Ascii("type"), Ascii("regular")] + x + [Ascii("contents"), contents, Ascii(")")]);
        ok := true;
      case Special =>
        ok := false;
    }

    method DumpDirectory(lossy: Lossy, node: FsNode) returns (ok: bool)
      requires Valid() && node.Directory?
      modifies this
      ensures Valid() && ok == Tokens(lossy, node).Some?
      ensures ok ==> tokens == old(tokens) + Tokens(lossy, node).value
      decreases node, 0, 2
    {
      var head, close := [Ascii("("), Ascii("type"), Ascii("directory")], Close();
      var sorted := SortEntries(node.entries);
      WriteAll(head);
      ok := DumpEntries(lossy, node, sorted);
      if ok {
        WriteAll(close);
        Group(old(tokens), head, EntryTokens(lossy, node, sorted).value, close);
      }
    }

    /** One entry of a directory. */
    method WriteEntry(lossy: Lossy, ghost parent: FsNode, e: FsEntry) returns (ok: bool)
      requires Valid() && parent.Directory? && e in parent.entries
      modifies this
      ensures Valid() && ok == Tokens(lossy, e.node).Some?
      ensures ok ==> tokens == old(tokens) + OneEntry(lossy, e)
      decreases parent, 0, 0
    {
      ChildIsSmaller(parent, e);
      var start, close := EntryStart(lossy(e.name)), Close();
      WriteAll(start);
      ok := DumpEntry(lossy, e.node);
      if ok {
        WriteAll(close);
        Group(old(tokens), start, Tokens(lossy, e.node).value, close);
      }
    }

    /** The loop over the sorted entries of a directory. */
    method DumpEntries(lossy: Lossy, ghost parent: FsNode, entries: seq<FsEntry>) returns (ok: bool)
      requires Valid() && parent.Directory? && forall e :: e in entries ==> e in parent.entries
      modifies this
      ensures Valid() && ok == EntryTokens(lossy, parent, entries).Some?
      ensures ok ==> tokens == old(tokens) + EntryTokens(lossy, parent, entries).value
      decreases parent, 0, 1
    {
      assert entries[0..] == entries;
      ghost var written: seq<Bytes> := [];
      AfterNothing(EntryTokens(lossy, parent, entries));
      for i := 0 to |entries|
        invariant Valid() && tokens == old(tokens) + written
        invariant EntryTokens(lossy, parent, entries) == After(written, EntryTokens(lossy, parent, entries[i..]))
      {
        var e := entries[i];
        EntryAfter(lossy, parent, entries, i, written);
        ok := WriteEntry(lossy, parent, e);
        if !ok {
          return;
        }
        Seqs.Associates(old(tokens), written, OneEntry(lossy, e));
        written := written + OneEntry(lossy, e);
      }
      assert entries[|entries|..] == [];
      ok := true;
    }
  }

  function OneEntry(lossy: Lossy, e: FsEntry): seq<Bytes>
    requires Tokens(lossy, e.node).Some?
  {
    EntryStart(lossy(e.name)) + Tokens(lossy, e.node).value + Close()
  }

  /** dump_path into a new writer. */
  method DumpPath(lossy: Lossy, node: FsNode) returns (r: Option<Bytes>)
    ensures r.None? <==> HasSpecial(node)
    ensures WellFormed(lossy, node) ==> r.Some? && Read(r.value).Some? && Shows(Read(r.value).value, node)
    ensures r == Dump(lossy, node)
  {
    NoDumpIffSpecial(lossy, node);
    if WellFormed(lossy, node) {
      DumpReadsBack(lossy, node);
    }
    var w := new Writer();
    w.WriteAll([Ascii("nix-archive-1")]);
    var ok := w.DumpEntry(lossy, node);
    r := if ok then Some(w.out) else None;
  }

  ghost function After(first: seq<Bytes>, rest: Option<seq<Bytes>>): Option<seq<Bytes>> {
    if rest.None? then None else Some(first + rest.value)
  }

  lemma AfterNothing(rest: Option<seq<Bytes>>)
    ensures After([], rest) == rest
  {
    assert rest.Some? ==> [] + rest.value == rest.value;
  }

  lemma FramedNext(tokens: seq<Bytes>, data: Bytes)
    ensures var written := FramedAll(tokens) + LittleEndian(|data| % MAX_LEN, WORD) + data;
      FramedAll(tokens + [data]) == if PadLength(|data|) == 0 then written else written + Zeros(PadLength(|data|))
  {
    FramedAllAppend(tokens, [data]);
    assert [data][1..] == [] && Framed(data) + [] == Framed(data);
    var header, zeros := LittleEndian(|data| % MAX_LEN, WORD), Zeros(PadLength(|data|));
    Group(FramedAll(tokens), header, data, zeros);
    assert PadLength(|data|) == 0 ==> FramedAll(tokens) + header + data + zeros == FramedAll(tokens) + header + data;
  }

  lemma EntryAfter(lossy: Lossy, parent: FsNode, entries: seq<FsEntry>, i: nat, written: seq<Bytes>)
    requires parent.Directory? && (forall e :: e in entries ==> e in parent.entries) && i < |entries|
    ensures After(written, EntryTokens(lossy, parent, entries[i..])) ==
      if Tokens(lossy, entries[i].node).None? then None
      else After(written + OneEntry(lossy, entries[i]), EntryTokens(lossy, parent, entries[i + 1..]))
  {
    assert entries[i..][0] == entries[i] && entries[i..][1..] == entries[i + 1..];
    var rest := EntryTokens(lossy, parent, entries[i + 1..]);
    if Tokens(lossy, entries[i].node).Some? && rest.Some? {
      Seqs.Associates(written, OneEntry(lossy, entries[i]), rest.value);
    }
  }
}
