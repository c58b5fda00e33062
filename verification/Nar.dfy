/**
  The NAR serialiser (packages/go2nix-nix-plugin/rust/src/nar.rs) over the file system objects
  it can meet, and a reader of the format in the Nix reference manual, "Nix Archive (NAR)
  Format", that gets every object back.
 */
module Nar {
  import opened Wrappers
  import opened NarFraming

  /** What lstat, readlink, readdir and read return at a path. The entries come in readdir order. */
  datatype FsNode =
    | Regular(mode: bv32, contents: Bytes)
    | Symlink(target: Bytes)
    | Directory(entries: seq<FsEntry>)
    | Special

  datatype FsEntry = FsEntry(name: Bytes, node: FsNode)

  /** A NAR object: the tree as the format sees it. */
  datatype Object =
    | File(executable: bool, contents: Bytes)
    | Link(target: Bytes)
    | Dir(entries: seq<Entry>)

  datatype Entry = Entry(name: Bytes, obj: Object)

  /** `to_string_lossy().as_bytes()`: the identity on UTF-8, which is all the model knows of it. */
  type Lossy = Bytes -> Bytes

  predicate IsExecutable(mode: bv32) {
    mode & 0x49 != 0  // 0o111
  }

  // ---- Byte order and sorting by name ----

  predicate Less(a: Bytes, b: Bytes) {
    |b| > 0 && (|a| == 0 || a[0] < b[0] || (a[0] == b[0] && Less(a[1..], b[1..])))
  }

  /** The two agree up to k, where a ends or has the smaller byte. */
  predicate LessAt(a: Bytes, b: Bytes, k: nat) {
    k <= |a| && k < |b| && a[..k] == b[..k] && (k == |a| || a[k] < b[k])
  }

  lemma {:induction false} LessIff(a: Bytes, b: Bytes)
    ensures Less(a, b) <==> exists k: nat :: LessAt(a, b, k)
  {
    if |b| == 0 || |a| == 0 || a[0] != b[0] {
      assert LessAt(a, b, 0) <==> |b| > 0 && (|a| == 0 || a[0] < b[0]);
      assert forall k: nat :: k > 0 && LessAt(a, b, k) ==> a[..k][0] == b[..k][0];
    } else {
      LessIff(a[1..], b[1..]);
      forall k: nat
        ensures LessAt(a[1..], b[1..], k) <==> LessAt(a, b, k + 1)
      {
        LessAtTail(a, b, k);
      }
      if k: nat :| LessAt(a, b, k) {
        assert LessAt(a[1..], b[1..], k - 1);
      }
    }
  }

  lemma LessAtTail(a: Bytes, b: Bytes, k: nat)
    requires |a| > 0 && |b| > 0 && a[0] == b[0]
    ensures LessAt(a[1..], b[1..], k) <==> LessAt(a, b, k + 1)
  {
    if k < |a| && k < |b| {
      assert a[..k + 1] == [a[0]] + a[1..][..k] && b[..k + 1] == [b[0]] + b[1..][..k];
      assert a[..k + 1][1..] == a[1..][..k] && b[..k + 1][1..] == b[1..][..k];
    }
  }

  lemma {:induction false} LessTransitive(a: Bytes, b: Bytes, c: Bytes)
    requires Less(a, b) && Less(b, c)
    ensures Less(a, c)
  {
    if |a| > 0 && a[0] == b[0] == c[0] {
      LessTransitive(a[1..], b[1..], c[1..]);
    }
  }

  lemma {:induction false} LessTotal(a: Bytes, b: Bytes)
    ensures Less(a, b) || a == b || Less(b, a)
  {
    if |a| > 0 && |b| > 0 && a[0] == b[0] {
      LessTotal(a[1..], b[1..]);
      assert a == [a[0]] + a[1..] && b == [b[0]] + b[1..];
    }
  }

  lemma {:induction false} LessIrreflexive(a: Bytes)
    ensures !Less(a, a)
  {
    if |a| > 0 {
      LessIrreflexive(a[1..]);
    }
  }

  function InsertEntry(e: FsEntry, s: seq<FsEntry>): (r: seq<FsEntry>)
    ensures |r| == |s| + 1
    ensures forall x :: x in r <==> x == e || x in s
  {
    if |s| == 0 then [e]
    else if Less(s[0].name, e.name) then
      var t := InsertEntry(e, s[1..]);
      assert forall x :: x in s <==> x == s[0] || x in s[1..];
      [s[0]] + t
    else [e] + s
  }

  /** `entries.sort_by_key(|e| e.file_name())`. */
  function SortEntries(s: seq<FsEntry>): (r: seq<FsEntry>)
    ensures |r| == |s|
    ensures forall x :: x in r <==> x in s
  {
    if |s| == 0 then [] else InsertEntry(s[0], SortEntries(s[1..]))
  }

  ghost predicate NamesAscend(s: seq<FsEntry>) {
    forall i, j :: 0 <= i < j < |s| ==> Less(s[i].name, s[j].name)
  }

  ghost predicate NamesDistinct(s: seq<FsEntry>) {
    forall i, j :: 0 <= i < j < |s| ==> s[i].name != s[j].name
  }

  lemma {:induction false} InsertAscends(e: FsEntry, s: seq<FsEntry>)
    requires NamesAscend(s) && forall x :: x in s ==> x.name != e.name
    ensures NamesAscend(InsertEntry(e, s))
  {
    if |s| > 0 {
      LessTotal(s[0].name, e.name);
      if Less(s[0].name, e.name) {
        InsertAscends(e, s[1..]);
        var t := InsertEntry(e, s[1..]);
        forall j | 0 <= j < |t|
          ensures Less(s[0].name, t[j].name)
        {
          assert t[j] in t;
        }
      } else {
        forall j | 0 <= j < |s|
          ensures Less(e.name, s[j].name)
        {
          if j > 0 {
            LessTransitive(e.name, s[0].name, s[j].name);
          }
        }
      }
    }
  }

  lemma {:induction false} SortAscends(s: seq<FsEntry>)
    requires NamesDistinct(s)
    ensures NamesAscend(SortEntries(s))
  {
    if |s| > 0 {
      SortAscends(s[1..]);
      InsertAscends(s[0], SortEntries(s[1..]));
    }
  }

  lemma ChildIsSmaller(parent: FsNode, e: FsEntry)
    requires parent.Directory? && e in parent.entries
    ensures e.node < parent
  {
    var k :| 0 <= k < |parent.entries| && parent.entries[k] == e;
    assert parent.entries[k].node < parent;
  }

  // ---- The tokens of an object ----

  function EntryStart(name: Bytes): seq<Bytes> {
    [Ascii("entry"), Ascii("("), Ascii("name"), name, Ascii("node")]
  }

  function Close(): seq<Bytes> {
    [Ascii(")")]
  }

  /** What dump_entry passes to write_str and write_bytes, in order. None: unsupported file type. */
  function Tokens(lossy: Lossy, node: FsNode): Option<seq<Bytes>>
    decreases node, 1
  {
    match node
    case Symlink(target) =>
      Some([Ascii("("), Ascii("type"), Ascii("symlink"), Ascii("target"), lossy(target), Ascii(")")])
    case Directory(entries) =>
      var inner := EntryTokens(lossy, node, SortEntries(entries));
      if inner.None? then None
      else Some([Ascii("("), Ascii("type"), Ascii("directory")] + inner.value + Close())
    case Regular(mode, contents) =>
      var x := if IsExecutable(mode) then [Ascii("executable"), Ascii("")] else [];
      Some([Ascii("("), Ascii("type"), Ascii("regular")] + x + [Ascii("contents"), contents, Ascii(")")])
    case Special => None
  }

  function EntryTokens(lossy: Lossy, ghost parent: FsNode, entries: seq<FsEntry>): Option<seq<Bytes>>
    requires parent.Directory? && forall e :: e in entries ==> e in parent.entries
    decreases parent, 0, |entries|
  {
    if |entries| == 0 then Some([])
    else
      var e := entries[0];
      ChildIsSmaller(parent, e);
      var first := Tokens(lossy, e.node);
      var rest := EntryTokens(lossy, parent, entries[1..]);
      if first.None? || rest.None? then None
      else
        Some(EntryStart(lossy(e.name)) + first.value + Close() + rest.value)
  }

  /** dump_path: what is hashed, or None where it fails. */
  function Dump(lossy: Lossy, node: FsNode): Option<Bytes> {
    var tokens := Tokens(lossy, node);
    if tokens.None? then None else Some(FramedAll([Ascii("nix-archive-1")] + tokens.value))
  }

  // ---- The object a tree stands for ----

  /** The tree as the format sees it: names as written, entries in the order of the raw names. */
  function Image(lossy: Lossy, node: FsNode): Option<Object>
    decreases node, 1
  {
    match node
    case Symlink(target) => Some(Link(lossy(target)))
    case Directory(entries) =>
      var inner := EntryImages(lossy, node, SortEntries(entries));
      if inner.None? then None else Some(Dir(inner.value))
    case Regular(mode, contents) => Some(File(IsExecutable(mode), contents))
    case Special => None
  }

  function EntryImages(lossy: Lossy, ghost parent: FsNode, entries: seq<FsEntry>): (r: Option<seq<Entry>>)
    requires parent.Directory? && forall e :: e in entries ==> e in parent.entries
    ensures r.Some? ==> |r.value| == |entries|
    decreases parent, 0, |entries|
  {
    if |entries| == 0 then Some([])
    else
      var e := entries[0];
      ChildIsSmaller(parent, e);
      var first := Image(lossy, e.node);
      var rest := EntryImages(lossy, parent, entries[1..]);
      if first.None? || rest.None? then None else Some([Entry(lossy(e.name), first.value)] + rest.value)
  }

  function ObjectTokens(obj: Object): seq<Bytes> {
    match obj
    case Link(target) => [Ascii("("), Ascii("type"), Ascii("symlink"), Ascii("target"), target, Ascii(")")]
    case Dir(entries) => [Ascii("("), Ascii("type"), Ascii("directory")] + ObjectEntryTokens(entries) + Close()
    case File(executable, contents) =>
      var x := if executable then [Ascii("executable"), Ascii("")] else [];
      [Ascii("("), Ascii("type"), Ascii("regular")] + x + [Ascii("contents"), contents, Ascii(")")]
  }

  function ObjectEntryTokens(entries: seq<Entry>): seq<Bytes> {
    if |entries| == 0 then []
    else
      EntryStart(entries[0].name) + ObjectTokens(entries[0].obj) + Close() + ObjectEntryTokens(entries[1..])
  }

  lemma {:induction false} TokensOfImage(lossy: Lossy, node: FsNode)
    ensures Tokens(lossy, node).Some? <==> Image(lossy, node).Some?
    ensures Image(lossy, node).Some? ==> Tokens(lossy, node) == Some(ObjectTokens(Image(lossy, node).value))
    decreases node, 1
  {
    if node.Directory? {
      EntryTokensOfImages(lossy, node, SortEntries(node.entries));
    }
  }

  lemma {:induction false} EntryTokensOfImages(lossy: Lossy, parent: FsNode, entries: seq<FsEntry>)
    requires parent.Directory? && forall e :: e in entries ==> e in parent.entries
    ensures EntryTokens(lossy, parent, entries).Some? <==> EntryImages(lossy, parent, entries).Some?
    ensures EntryImages(lossy, parent, entries).Some? ==>
              EntryTokens(lossy, parent, entries) == Some(ObjectEntryTokens(EntryImages(lossy, parent, entries).value))
    decreases parent, 0, |entries|
  {
    if |entries| > 0 {
      ChildIsSmaller(parent, entries[0]);
      TokensOfImage(lossy, entries[0].node);
      EntryTokensOfImages(lossy, parent, entries[1..]);
      var images := EntryImages(lossy, parent, entries);
      if images.Some? {
        assert images.value[1..] == EntryImages(lossy, parent, entries[1..]).value;
      }
    }
  }

  // ---- The reader ----

  /** One object off the front of the tokens. */
  function ReadObject(tokens: seq<Bytes>): (r: Option<(Object, seq<Bytes>)>)
    ensures r.Some? ==> |r.value.1| < |tokens|
    decreases |tokens|, 1
  {
    var regular := [Ascii("("), Ascii("type"), Ascii("regular")];
    var symlink := [Ascii("("), Ascii("type"), Ascii("symlink"), Ascii("target")];
    var directory := [Ascii("("), Ascii("type"), Ascii("directory")];
    if regular <= tokens then ReadContents(tokens[3..])
    else if symlink <= tokens && |tokens| >= 6 && tokens[5] == Ascii(")") then Some((Link(tokens[4]), tokens[6..]))
    else if directory <= tokens then
      var r := ReadEntries(tokens[3..], None);
      if r.None? then None else Some((Dir(r.value.0), r.value.1))
    else None
  }

  function ReadContents(tokens: seq<Bytes>): (r: Option<(Object, seq<Bytes>)>)
    ensures r.Some? ==> |r.value.1| < |tokens|
  {
    var executable := [Ascii("executable"), Ascii("")] <= tokens;
    var rest := if executable then tokens[2..] else tokens;
    if |rest| >= 3 && rest[0] == Ascii("contents") && rest[2] == Ascii(")") then
      Some((File(executable, rest[1]), rest[3..]))
    else None
  }

  /** Entries up to the closing parenthesis, with names in ascending order. */
  function ReadEntries(tokens: seq<Bytes>, last: Option<Bytes>): (r: Option<(seq<Entry>, seq<Bytes>)>)
    ensures r.Some? ==> |r.value.1| < |tokens|
    decreases |tokens|, 0
  {
    if |tokens| > 0 && tokens[0] == Ascii(")") then Some(([], tokens[1..]))
    else if |tokens| < 5 || tokens[..3] != [Ascii("entry"), Ascii("("), Ascii("name")]
      || tokens[4] != Ascii("node") then None
    else
      var name := tokens[3];
      var r := ReadObject(tokens[5..]);
      if r.None? || (last.Some? && !Less(last.value, name)) then None
      else
        var rest := r.value.1;
        if |rest| == 0 || rest[0] != Ascii(")") then None
        else
          var more := ReadEntries(rest[1..], Some(name));
          if more.None? then None
          else Some(([Entry(name, r.value.0)] + more.value.0, more.value.1))
  }

  function Read(archive: Bytes): Option<Object> {
    var tokens := UnframeAll(archive);
    if tokens.None? || |tokens.value| == 0 || tokens.value[0] != Ascii("nix-archive-1") then None
    else
      var r := ReadObject(tokens.value[1..]);
      if r.None? || r.value.1 != [] then None else Some(r.value.0)
  }
}
