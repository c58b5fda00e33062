/**
  Which files embed_candidates (packages/go2nix-nix-plugin/rust/src/resolve.rs) lists, path by
  path: the files below the leading elements of a pattern, without the walk that finds them.
 */
module EmbedWalk {
  import opened EmbedTree
  import opened Embed
  import opened EmbedSelected

  predicate HasName(lossy: Lossy, n: Node, name: string) {
    n.Dir? && exists e :: e in n.entries && lossy(e.name) == name
  }

  /** A directory that is walked: the package's own, or one without a go.mod. */
  predicate IsWalked(root: Node, d: Path) {
    Lstat(root, d).Some? && Lstat(root, d).value.Dir? && (d == [] || NoGoMod(root, d))
  }

  /** No directory is at top + rel, and each step to it is in a walked directory that lists the next name. */
  ghost predicate LeadsTo(lossy: Lossy, root: Node, top: Path, rel: Path) {
    && Lstat(root, top + rel).Some? && !Lstat(root, top + rel).value.Dir?
    && forall k :: 0 <= k < |rel| ==>
         IsWalked(root, top + rel[..k]) && HasName(lossy, Lstat(root, top + rel[..k]).value, rel[k])
  }

  // ---- The same below a node ----

  predicate FoundIn(lossy: Lossy, n: Node, above: Path, rel: Path)
    decreases |rel|
  {
    if |rel| == 0 then !n.Dir?
    else
      && n.Dir? && (above == [] || !HasGoMod(n.entries)) && HasName(lossy, n, rel[0])
      && Child(n, rel[0]).Some? && FoundIn(lossy, Child(n, rel[0]).value, above + [rel[0]], rel[1..])
  }

  predicate IsAtOrBelow(above: Path, f: Path) {
    |f| >= |above| && f[..|above|] == above
  }

  lemma {:induction false} WalkIs(lossy: Lossy, n: Node, above: Path, f: Path)
    ensures f in Walk(lossy, n, above) <==> IsAtOrBelow(above, f) && FoundIn(lossy, n, above, f[|above|..])
    decreases n
  {
    if !n.Dir? {
      assert IsAtOrBelow(above, f) && f[|above|..] == [] ==> f == above;
    } else if above == [] || !HasGoMod(n.entries) {
      if f in Walk(lossy, n, above) {
        var e :| e in n.entries && Child(n, lossy(e.name)).Some?
          && f in Walk(lossy, Child(n, lossy(e.name)).value, above + [lossy(e.name)]);
        WalkIs(lossy, Child(n, lossy(e.name)).value, above + [lossy(e.name)], f);
        StepBelow(above, lossy(e.name), f);
      }
      if IsBelow(above, f) && FoundIn(lossy, n, above, f[|above|..]) {
        var name := f[|above|];
        var e :| e in n.entries && lossy(e.name) == name;
        StepBelow(above, name, f);
        WalkIs(lossy, Child(n, name).value, above + [name], f);
      }
    }
  }

  lemma StepBelow(above: Path, name: string, f: Path)
    ensures IsAtOrBelow(above + [name], f) <==> IsBelow(above, f) && f[|above|] == name
    ensures IsBelow(above, f) ==> f[|above|..][0] == f[|above|] && f[|above|..][1..] == f[|above + [name]|..]
  {
    if |f| > |above| {
      assert f[..|above| + 1] == f[..|above|] + [f[|above|]];
      assert (above + [name])[..|above|] == above && (above + [name])[|above|] == name;
    }
  }

  // ---- From the node to the paths ----

  lemma LeadsNext(lossy: Lossy, root: Node, top: Path, rel: Path)
    requires |rel| > 0
    ensures LeadsTo(lossy, root, top, rel) <==>
      IsWalked(root, top) && HasName(lossy, Lstat(root, top).value, rel[0])
      && LeadsTo(lossy, root, top + [rel[0]], rel[1..])
  {
    var next, tail := top + [rel[0]], rel[1..];
    assert next + tail == top + rel && top + rel[..0] == top;
    forall k | 0 <= k < |tail|
      ensures next + tail[..k] == top + rel[..k + 1] && tail[k] == rel[k + 1]
    {
      assert rel[..k + 1] == [rel[0]] + tail[..k];
    }
    if LeadsTo(lossy, root, top, rel) {
      forall k | 0 <= k < |tail|
        ensures IsWalked(root, next + tail[..k]) && HasName(lossy, Lstat(root, next + tail[..k]).value, tail[k])
      {
        assert IsWalked(root, top + rel[..k + 1]);
      }
      assert IsWalked(root, top + rel[..0]);
    } else if IsWalked(root, top) && HasName(lossy, Lstat(root, top).value, rel[0])
      && LeadsTo(lossy, root, next, tail) {
      forall k | 0 <= k < |rel|
        ensures IsWalked(root, top + rel[..k]) && HasName(lossy, Lstat(root, top + rel[..k]).value, rel[k])
      {
        if k > 0 {
          assert IsWalked(root, next + tail[..k - 1]);
        }
      }
    }
  }

  lemma {:induction false} FoundIff(lossy: Lossy, root: Node, top: Path, rel: Path)
    requires Lstat(root, top).Some?
    ensures FoundIn(lossy, Lstat(root, top).value, top, rel) <==> LeadsTo(lossy, root, top, rel)
    decreases |rel|
  {
    var n := Lstat(root, top).value;
    if |rel| == 0 {
      assert top + rel == top;
    } else {
      LeadsNext(lossy, root, top, rel);
      if n.Dir? {
        OpenDirIs(root, top);
        ChildAt(root, top, rel[0]);
        if Child(n, rel[0]).Some? {
          FoundIff(lossy, root, top + [rel[0]], rel[1..]);
        } else {
          NothingLeads(lossy, root, top + [rel[0]], rel[1..]);
        }
      }
    }
  }

  lemma NothingLeads(lossy: Lossy, root: Node, top: Path, rel: Path)
    requires Lstat(root, top).None?
    ensures !LeadsTo(lossy, root, top, rel)
  {
    assert (top + rel)[..|top|] == top;
    if Lstat(root, top + rel).Some? {
      LstatPrefix(root, top + rel, |top|);
    }
  }

  // ---- What patterns list ----

  /** None of the characters that make an element match more than itself. */
  predicate IsPlain(elem: string) {
    forall c :: c in elem ==> c !in {'*', '?', '[', '\\'}
  }

  /** The first k elements of a pattern are its plain ones, up to the first that is not. */
  predicate PlainUpTo(elems: seq<string>, k: nat) {
    k <= |elems| && (forall i :: 0 <= i < k ==> IsPlain(elems[i])) && (k < |elems| ==> !IsPlain(elems[k]))
  }

  ghost predicate IsListed(lossy: Lossy, root: Node, p: Pattern, f: Path) {
    exists k: nat, rel :: PlainUpTo(p.elems, k) && f == p.elems[..k] + rel && LeadsTo(lossy, root, p.elems[..k], rel)
  }

  lemma {:induction false} FixedArePlain(elems: seq<string>)
    ensures PlainUpTo(elems, |FixedElems(elems)|)
  {
    if |elems| > 0 && !HasMeta(elems[0]) {
      FixedArePlain(elems[1..]);
      var k := |FixedElems(elems[1..])|;
      forall i | 0 <= i < k + 1
        ensures IsPlain(elems[i])
      {
        assert i > 0 ==> elems[1..][i - 1] == elems[i];
      }
    }
  }

  lemma OnePlainPrefix(elems: seq<string>, j: nat, k: nat)
    requires PlainUpTo(elems, j) && PlainUpTo(elems, k)
    ensures j == k
  {
  }

  lemma ListedIff(lossy: Lossy, root: Node, p: Pattern, f: Path)
    ensures f in WalkAt(lossy, root, FixedElems(p.elems)) <==> IsListed(lossy, root, p, f)
  {
    var top := FixedElems(p.elems);
    FixedArePlain(p.elems);
    if Lstat(root, top).Some? {
      WalkIs(lossy, Lstat(root, top).value, top, f);
      if IsAtOrBelow(top, f) {
        assert f == top + f[|top|..];
        FoundIff(lossy, root, top, f[|top|..]);
      }
    }
    if k: nat, rel :| PlainUpTo(p.elems, k) && f == p.elems[..k] + rel && LeadsTo(lossy, root, p.elems[..k], rel) {
      OnePlainPrefix(p.elems, k, |top|);
      assert f[..|top|] == top && f[|top|..] == rel;
      if Lstat(root, top).None? {
        NothingLeads(lossy, root, top, rel);
      }
    }
  }

  /** Something above the last element that is there and leads to no directory. */
  ghost predicate StopsAt(n: Node, path: Path, j: nat) {
    j < |path| && Lstat(n, path[..j]).Some? && Stat(Lstat(n, path[..j]).value).Some?
    && !Stat(Lstat(n, path[..j]).value).value.Dir?
  }

  lemma {:induction false} ProbeIs(n: Node, path: Path)
    ensures Probe(n, path).NotADirectory? <==> exists j: nat :: StopsAt(n, path, j)
    decreases |path|
  {
    if |path| > 0 {
      assert path[..0] == [] && forall j :: 0 < j < |path| ==> path[..j][0] == path[0];
      var d := Stat(n);
      if d.Some? && d.value.Dir? && Find(d.value.entries, path[0]).Some? {
        var child := Find(d.value.entries, path[0]).value;
        ProbeIs(child, path[1..]);
        forall j: nat
          ensures StopsAt(child, path[1..], j) <==> StopsAt(n, path, j + 1)
        {
          if j < |path| - 1 {
            assert path[..j + 1][0] == path[0] && path[..j + 1][1..] == path[1..][..j];
          }
        }
        if j: nat :| StopsAt(n, path, j) {
          assert StopsAt(child, path[1..], j - 1);
        }
      } else {
        assert StopsAt(n, path, 0) <==> d.Some? && !d.value.Dir?;
        assert forall j: nat :: StopsAt(n, path, j) ==> StopsAt(n, path, 0);
      }
    }
  }

  /** A pattern whose plain elements go below something that is no directory. */
  ghost predicate IsBlocked(root: Node, p: Pattern) {
    exists k: nat, j: nat :: PlainUpTo(p.elems, k) && StopsAt(root, p.elems[..k], j)
  }

  lemma BlockedIff(root: Node, p: Pattern)
    ensures BelowFile(root, p) <==> IsBlocked(root, p)
  {
    FixedArePlain(p.elems);
    ProbeIs(root, FixedElems(p.elems));
    if k: nat, j: nat :| PlainUpTo(p.elems, k) && StopsAt(root, p.elems[..k], j) {
      OnePlainPrefix(p.elems, k, |FixedElems(p.elems)|);
    }
  }

  /** The candidates of a list of patterns are the files its patterns list. */
  lemma CandidatesAre(lossy: Lossy, root: Node, patterns: seq<Pattern>)
    ensures Candidates(lossy, root, patterns).None? <==> exists p :: p in patterns && IsBlocked(root, p)
    ensures Candidates(lossy, root, patterns).Some? ==> forall f ::
      f in Candidates(lossy, root, patterns).value <==> exists p :: p in patterns && IsListed(lossy, root, p, f)
  {
    forall p | p in patterns
      ensures BelowFile(root, p) <==> IsBlocked(root, p)
    {
      BlockedIff(root, p);
    }
    forall f
      ensures f in WalkPatterns(lossy, root, patterns) <==> exists p :: p in patterns && IsListed(lossy, root, p, f)
    {
      forall p | p in patterns
        ensures f in WalkAt(lossy, root, FixedElems(p.elems)) <==> IsListed(lossy, root, p, f)
      {
        ListedIff(lossy, root, p, f);
      }
    }
  }
}
