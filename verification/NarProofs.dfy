/** A NAR is uniquely decodable, and depends on the tree alone. */
module NarProofs {
  import opened Wrappers
  import opened NarFraming
  import opened Nar

  // ---- The reader and the tokens of an object ----

  ghost predicate Ascending(entries: seq<Entry>) {
    forall i, j :: 0 <= i < j < |entries| ==> Less(entries[i].name, entries[j].name)
  }

  /** Names ascend in every directory: the objects the format knows. */
  ghost predicate Ordered(o: Object) {
    o.Dir? ==> Ascending(o.entries) && forall i :: 0 <= i < |o.entries| ==> Ordered(o.entries[i].obj)
  }

  lemma Keywords()
    ensures Ascii("regular") != Ascii("symlink") && Ascii("regular") != Ascii("directory")
    ensures Ascii("symlink") != Ascii("directory")
    ensures Ascii("executable") != Ascii("contents")
    ensures Ascii("entry") != Ascii(")")
  {
    assert Ascii("regular")[0] == 114 && Ascii("symlink")[0] == 115 && Ascii("directory")[0] == 100;
    assert Ascii("executable")[0] == 101 && Ascii("contents")[0] == 99;
    assert Ascii("entry")[0] == 101 && Ascii(")")[0] == 41;
  }

  /** The three tokens every object starts with decide how it is read. */
  lemma ReadsByKind(kind: Bytes, rest: seq<Bytes>)
    requires kind == Ascii("regular") || kind == Ascii("directory") || kind == Ascii("symlink")
    ensures var tokens := [Ascii("("), Ascii("type"), kind] + rest;
      && tokens[3..] == rest
      && (kind == Ascii("regular") ==> ReadObject(tokens) == ReadContents(rest))
      && (kind == Ascii("directory") ==>
            ReadObject(tokens) ==
            match ReadEntries(rest, None)
            case Some((es, more)) => Some((Dir(es), more))
            case None => None)
  {
    Keywords();
    var tokens := [Ascii("("), Ascii("type"), kind] + rest;
    assert tokens[..3] == [Ascii("("), Ascii("type"), kind];
    assert tokens[2] == kind;
  }

  lemma {:induction false} ReadsObject(o: Object, rest: seq<Bytes>)
    requires Ordered(o)
    ensures ReadObject(ObjectTokens(o) + rest) == Some((o, rest))
    decreases o, 1
  {
    match o
    case Link(target) => ReadsLink(target, rest);
    case Dir(entries) =>
      ReadsEntries(o, entries, None, rest);
      ReadsDir(entries, rest);
    case File(executable, contents) => ReadsFile(executable, contents, rest);
  }

  lemma ReadsDir(entries: seq<Entry>, rest: seq<Bytes>)
    requires ReadEntries(ObjectEntryTokens(entries) + Close() + rest, None) == Some((entries, rest))
    ensures ReadObject(ObjectTokens(Dir(entries)) + rest) == Some((Dir(entries), rest))
  {
    var head := [Ascii("("), Ascii("type"), Ascii("directory")];
    Group(head, ObjectEntryTokens(entries), Close(), rest);
    ReadsByKind(Ascii("directory"), ObjectEntryTokens(entries) + Close() + rest);
  }

  lemma ReadsFile(executable: bool, contents: Bytes, rest: seq<Bytes>)
    ensures ReadObject(ObjectTokens(File(executable, contents)) + rest) == Some((File(executable, contents), rest))
  {
    var head := [Ascii("("), Ascii("type"), Ascii("regular")];
    var x := if executable then [Ascii("executable"), Ascii("")] else [];
    Group(head, x, [Ascii("contents"), contents, Ascii(")")], rest);
    ReadsByKind(Ascii("regular"), x + [Ascii("contents"), contents, Ascii(")")] + rest);
    ReadsContents(executable, contents, rest);
  }

  lemma Group<T>(head: seq<T>, body: seq<T>, close: seq<T>, rest: seq<T>)
    ensures head + body + close + rest == head + (body + close + rest)
  {
  }

  lemma Behind<T>(head: seq<T>, body: seq<T>, rest: seq<T>)
    ensures (head + body + rest)[|head|..] == body + rest
  {
  }

  lemma ReadsLink(target: Bytes, rest: seq<Bytes>)
    ensures ReadObject(ObjectTokens(Link(target)) + rest) == Some((Link(target), rest))
  {
    Keywords();
    var tokens := ObjectTokens(Link(target)) + rest;
    assert tokens[2] == Ascii("symlink");
    assert tokens[..4] == [Ascii("("), Ascii("type"), Ascii("symlink"), Ascii("target")];
  }

  lemma ReadsContents(executable: bool, contents: Bytes, rest: seq<Bytes>)
    ensures var x := if executable then [Ascii("executable"), Ascii("")] else [];
      ReadContents(x + [Ascii("contents"), contents, Ascii(")")] + rest) == Some((File(executable, contents), rest))
  {
    Keywords();
    var x := if executable then [Ascii("executable"), Ascii("")] else [];
    var file := [Ascii("contents"), contents, Ascii(")")];
    var tokens := x + file + rest;
    Behind(x, file, rest);
    assert (file + rest)[..3] == file && (file + rest)[3..] == rest;
    if executable {
      assert tokens[..2] == x;
    } else {
      assert tokens[0] == file[0];
    }
  }

  lemma {:induction false} ReadsEntries(parent: Object, entries: seq<Entry>, last: Option<Bytes>, rest: seq<Bytes>)
    requires parent.Dir? && forall e :: e in entries ==> e in parent.entries
    requires Ordered(parent) && Ascending(entries)
    requires last.Some? ==> forall e :: e in entries ==> Less(last.value, e.name)
    ensures ReadEntries(ObjectEntryTokens(entries) + Close() + rest, last) == Some((entries, rest))
    decreases parent, 0, |entries|
  {
    var tokens := ObjectEntryTokens(entries) + Close() + rest;
    if |entries| == 0 {
      assert tokens == Close() + rest;
    } else {
      var e := entries[0];
      assert e in parent.entries;
      var tail := ObjectEntryTokens(entries[1..]) + Close() + rest;
      var body := ObjectTokens(e.obj) + (Close() + tail);
      EntryLayout(entries, ObjectEntryTokens(entries), ObjectTokens(e.obj), ObjectEntryTokens(entries[1..]), rest);
      ReadsObject(e.obj, Close() + tail);
      ReadsEntries(parent, entries[1..], Some(e.name), rest);
      ReadsEntry(e.name, last, body, e.obj, tail);
      assert entries == [e] + entries[1..];
    }
  }

  /** The tokens of a list of entries, up to the closing parenthesis and what follows it. */
  lemma EntryLayout(entries: seq<Entry>, all: seq<Bytes>, body: seq<Bytes>, more: seq<Bytes>, rest: seq<Bytes>)
    requires |entries| > 0 && all == ObjectEntryTokens(entries)
    requires body == ObjectTokens(entries[0].obj) && more == ObjectEntryTokens(entries[1..])
    ensures all + Close() + rest ==
            EntryStart(entries[0].name)
            + (body + (Close() + (more + Close() + rest)))
  {
    var head, close := EntryStart(entries[0].name), Close();
    FirstEntry(entries, head, body, close, more);
    Regroup(all, head, body, close, more, rest);
  }

  /** One step of ObjectEntryTokens. */
  lemma FirstEntry(entries: seq<Entry>, head: seq<Bytes>, body: seq<Bytes>, close: seq<Bytes>, more: seq<Bytes>)
    requires |entries| > 0 && close == Close()
    requires head == EntryStart(entries[0].name)
    requires body == ObjectTokens(entries[0].obj) && more == ObjectEntryTokens(entries[1..])
    ensures ObjectEntryTokens(entries) == head + body + close + more
  {
  }

  lemma Regroup<T>(all: seq<T>, head: seq<T>, body: seq<T>, close: seq<T>, more: seq<T>, rest: seq<T>)
    requires all == head + body + close + more
    ensures all + close + rest == head + (body + (close + (more + close + rest)))
  {
    var tail := more + close + rest;
    assert all + close + rest == head + body + close + tail;
  }

  /** One step of ReadEntries over an entry whose object has been read. */
  lemma ReadsEntry(name: Bytes, last: Option<Bytes>, body: seq<Bytes>, o: Object, tail: seq<Bytes>)
    requires ReadObject(body) == Some((o, Close() + tail))
    requires last.Some? ==> Less(last.value, name)
    ensures ReadEntries(EntryStart(name) + body, last) ==
            match ReadEntries(tail, Some(name))
            case None => None
            case Some((more, rest)) => Some(([Entry(name, o)] + more, rest))
  {
    Keywords();
    var head := EntryStart(name);
    var tokens := head + body;
    assert tokens[0] == Ascii("entry") && tokens[3] == name && tokens[4] == Ascii("node");
    assert tokens[..3] == head[..3] == [Ascii("entry"), Ascii("("), Ascii("name")];
    assert tokens[5..] == body;
    assert (Close() + tail)[1..] == tail;
  }

  // ---- What the reader accepts is an object's tokens ----

  ghost predicate Above(last: Option<Bytes>, entries: seq<Entry>) {
    last.Some? ==> forall i :: 0 <= i < |entries| ==> Less(last.value, entries[i].name)
  }

  ghost predicate IsRead(tokens: seq<Bytes>, o: Object, rest: seq<Bytes>) {
    tokens == ObjectTokens(o) + rest && Ordered(o)
  }

  lemma {:induction false} ReadIsTokens(tokens: seq<Bytes>)
    requires ReadObject(tokens).Some?
    ensures IsRead(tokens, ReadObject(tokens).value.0, ReadObject(tokens).value.1)
    decreases |tokens|, 1
  {
    Keywords();
    if [Ascii("("), Ascii("type"), Ascii("regular")] <= tokens {
      FileIsTokens(tokens);
    } else if [Ascii("("), Ascii("type"), Ascii("symlink"), Ascii("target")] <= tokens && |tokens| >= 6
      && tokens[5] == Ascii(")") {
      LinkIsTokens(tokens);
    } else {
      ReadEntriesAreTokens(tokens[3..], None);
      var (entries, rest) := ReadEntries(tokens[3..], None).value;
      DirIsTokens(tokens, entries, rest);
    }
  }

  lemma FileIsTokens(tokens: seq<Bytes>)
    requires [Ascii("("), Ascii("type"), Ascii("regular")] <= tokens && ReadContents(tokens[3..]).Some?
    ensures IsRead(tokens, ReadContents(tokens[3..]).value.0, ReadContents(tokens[3..]).value.1)
  {
    var regular := [Ascii("("), Ascii("type"), Ascii("regular")];
    ContentsAreTokens(tokens[3..]);
    assert tokens == regular + tokens[3..];
    var (o, rest) := ReadContents(tokens[3..]).value;
    var x := if o.executable then [Ascii("executable"), Ascii("")] else [];
    Group(regular, x, [Ascii("contents"), o.contents, Ascii(")")], rest);
  }

  lemma LinkIsTokens(tokens: seq<Bytes>)
    requires [Ascii("("), Ascii("type"), Ascii("symlink"), Ascii("target")] <= tokens && |tokens| >= 6
      && tokens[5] == Ascii(")")
    ensures IsRead(tokens, Link(tokens[4]), tokens[6..])
  {
    var symlink := [Ascii("("), Ascii("type"), Ascii("symlink"), Ascii("target")];
    assert tokens == symlink + [tokens[4]] + Close() + tokens[6..];
  }

  lemma DirIsTokens(tokens: seq<Bytes>, entries: seq<Entry>, rest: seq<Bytes>)
    requires DirStart() <= tokens && tokens[|DirStart()|..] == ObjectEntryTokens(entries) + Close() + rest
    requires Ordered(Dir(entries))
    ensures IsRead(tokens, Dir(entries), rest)
  {
    HeadThen(tokens, DirStart(), ObjectEntryTokens(entries), Close(), rest);
  }

  function DirStart(): seq<Bytes> {
    [Ascii("("), Ascii("type"), Ascii("directory")]
  }

  lemma HeadThen<T>(tokens: seq<T>, head: seq<T>, body: seq<T>, close: seq<T>, rest: seq<T>)
    requires head <= tokens && tokens[|head|..] == body + close + rest
    ensures tokens == head + body + close + rest
  {
    assert tokens == head + tokens[|head|..];
    Group(head, body, close, rest);
  }

  lemma ContentsAreTokens(tokens: seq<Bytes>)
    requires ReadContents(tokens).Some?
    ensures var (o, rest) := ReadContents(tokens).value;
      && o.File?
      && var x := if o.executable then [Ascii("executable"), Ascii("")] else [];
         tokens == x + [Ascii("contents"), o.contents, Ascii(")")] + rest
  {
    var executable := [Ascii("executable"), Ascii("")] <= tokens;
    var rest := if executable then tokens[2..] else tokens;
    assert rest == [Ascii("contents"), rest[1], Ascii(")")] + rest[3..];
    if executable {
      assert tokens == [Ascii("executable"), Ascii("")] + rest;
    }
  }

  lemma {:induction false} ReadEntriesAreTokens(tokens: seq<Bytes>, last: Option<Bytes>)
    requires ReadEntries(tokens, last).Some?
    ensures var (entries, rest) := ReadEntries(tokens, last).value;
      && tokens == ObjectEntryTokens(entries) + Close() + rest
      && Ascending(entries) && Above(last, entries)
      && forall i :: 0 <= i < |entries| ==> Ordered(entries[i].obj)
    decreases |tokens|, 0
  {
    Keywords();
    if tokens[0] == Ascii(")") {
      assert tokens == Close() + tokens[1..];
    } else {
      var name := tokens[3];
      ReadIsTokens(tokens[5..]);
      var (o, rest) := ReadObject(tokens[5..]).value;
      ReadEntriesAreTokens(rest[1..], Some(name));
      var (more, after) := ReadEntries(rest[1..], Some(name)).value;
      EntryIsTokens(tokens, name, o, rest, more, after);
      FirstBelow(last, name, more);
    }
  }

  lemma EntryIsTokens(tokens: seq<Bytes>, name: Bytes, o: Object, rest: seq<Bytes>, more: seq<Entry>, after: seq<Bytes>)
    requires |tokens| > 5 && tokens[..3] == [Ascii("entry"), Ascii("("), Ascii("name")] && tokens[3] == name
      && tokens[4] == Ascii("node")
    requires tokens[5..] == ObjectTokens(o) + rest && |rest| > 0 && rest[0] == Ascii(")")
    requires rest[1..] == ObjectEntryTokens(more) + Close() + after
    ensures tokens == ObjectEntryTokens([Entry(name, o)] + more) + Close() + after
  {
    var entries := [Entry(name, o)] + more;
    assert entries[1..] == more;
    EntryLayout(entries, ObjectEntryTokens(entries), ObjectTokens(o), ObjectEntryTokens(more), after);
    assert rest == Close() + rest[1..];
    assert tokens == EntryStart(name) + tokens[5..];
  }

  lemma FirstBelow(last: Option<Bytes>, name: Bytes, more: seq<Entry>)
    requires Above(Some(name), more) && (last.Some? ==> Less(last.value, name))
    ensures last.Some? ==> forall i :: 0 <= i < |more| ==> Less(last.value, more[i].name)
  {
    if last.Some? {
      forall i | 0 <= i < |more|
        ensures Less(last.value, more[i].name)
      {
        LessTransitive(last.value, name, more[i].name);
      }
    }
  }

  // ---- Archives and objects ----

  function Archive(o: Object): (r: Bytes)
    ensures |r| % 8 == 0
  {
    FramedAll([Ascii("nix-archive-1")] + ObjectTokens(o))
  }

  /** The archive of an object can be read back, if no string in it is 2^64 bytes or longer. */
  lemma ReadsArchive(o: Object)
    requires Ordered(o) && Writable(ObjectTokens(o))
    ensures Read(Archive(o)) == Some(o)
  {
    var tokens := [Ascii("nix-archive-1")] + ObjectTokens(o);
    UnframeAllFramed(tokens);
    ReadsObject(o, []);
    assert tokens[1..] == ObjectTokens(o) + [];
  }

  /** The reader accepts nothing but the archive of what it returns: no two byte strings are one object. */
  lemma ReadsOnlyArchives(archive: Bytes)
    requires Read(archive).Some?
    ensures var o := Read(archive).value; archive == Archive(o) && Ordered(o)
  {
    FramedUnframeAll(archive);
    var tokens := UnframeAll(archive).value;
    ReadIsTokens(tokens[1..]);
    FirstThen(tokens, ObjectTokens(Read(archive).value));
  }

  lemma FirstThen<T>(tokens: seq<T>, body: seq<T>)
    requires |tokens| > 0 && tokens[1..] == body + []
    ensures tokens == [tokens[0]] + body
  {
  }
}
