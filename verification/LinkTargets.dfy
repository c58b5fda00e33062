/**
  The targets of linkBinaryTo (go/go2nix/cmd/go2nix/linkbinary.go): what each subPackage is
  called in bin/, and which earlier binary with that name it has to wait for.
 */
module LinkTargets {

  function TrimDotSlash(path: string): string {
    if "./" <= path then path[2..] else path
  }

  function TrimSlashes(path: string): string {
    if |path| > 0 && path[|path| - 1] == '/' then TrimSlashes(path[..|path| - 1]) else path
  }

  function AfterLastSlash(path: string): string {
    if |path| == 0 || path[|path| - 1] == '/' then ""
    else AfterLastSlash(path[..|path| - 1]) + [path[|path| - 1]]
  }

  /** filepath.Base on a system whose separator is '/'. */
  function Base(path: string): string {
    if path == "" then "."
    else if TrimSlashes(path) == "" then "/"
    else AfterLastSlash(TrimSlashes(path))
  }

  function BinName(path: string, modulePath: string, pname: string): string {
    var clean := TrimDotSlash(path);
    if path == "." || clean == "" then
      if pname == "" then Base(modulePath) else pname
    else Base(clean)
  }

  // ---- What the names are ----

  predicate AllSlashes(path: string) {
    forall c :: c in path ==> c == '/'
  }

  /** r stands from i to j, behind a slash or nothing, and behind it are slashes or nothing. */
  predicate IsElementAt(path: string, r: string, i: nat, j: nat) {
    && i < j <= |path| && r == path[i..j] && '/' !in r
    && (i > 0 ==> path[i - 1] == '/') && AllSlashes(path[j..])
  }

  /** The last element of a path; `.` of none, and `/` of a path of slashes. */
  ghost predicate IsLastElement(path: string, r: string) {
    if path == "" then r == "."
    else if AllSlashes(path) then r == "/"
    else exists i: nat, j: nat :: IsElementAt(path, r, i, j)
  }

  /** The module itself is called pname, if there is one; everything else after its directory. */
  ghost predicate IsBinName(path: string, modulePath: string, pname: string, r: string) {
    if path == "" || path == "." || path == "./" then
      if pname != "" then r == pname else IsLastElement(modulePath, r)
    else if |path| > 2 && path[..2] == "./" then IsLastElement(path[2..], r)
    else IsLastElement(path, r)
  }

  lemma {:induction false} SlashesTrimmed(path: string)
    ensures var t := TrimSlashes(path);
      t <= path && AllSlashes(path[|t|..]) && (t == "" || t[|t| - 1] != '/')
  {
    if |path| > 0 && path[|path| - 1] == '/' {
      var init := path[..|path| - 1];
      SlashesTrimmed(init);
      var t := TrimSlashes(init);
      assert path[|t|..] == init[|t|..] + ['/'];
    }
  }

  lemma {:induction false} BehindLastSlash(path: string) returns (i: nat)
    ensures i <= |path| && AfterLastSlash(path) == path[i..] && '/' !in path[i..] && (i > 0 ==> path[i - 1] == '/')
  {
    if |path| == 0 || path[|path| - 1] == '/' {
      i := |path|;
    } else {
      var n := |path| - 1;
      i := BehindLastSlash(path[..n]);
      assert path[i..] == path[..n][i..] + [path[n]];
    }
  }

  lemma BaseIs(path: string)
    ensures IsLastElement(path, Base(path))
  {
    SlashesTrimmed(path);
    var t := TrimSlashes(path);
    assert path == t + path[|t|..];
    if t != "" {
      var i := BehindLastSlash(t);
      assert t[|t| - 1] in path && i < |t|;
      assert path[i..|t|] == t[i..];
      assert IsElementAt(path, Base(path), i, |t|);
    }
  }

  lemma BinNameIs(path: string, modulePath: string, pname: string)
    ensures IsBinName(path, modulePath, pname, BinName(path, modulePath, pname))
  {
    BaseIs(modulePath);
    BaseIs(TrimDotSlash(path));
    if "./" <= path {
      assert path[..2] == "./" && (|path| == 2 ==> path == "./");
    }
  }

  /** The last of the first i names that is x, or -1. */
  function LastNamed(names: seq<string>, i: nat, x: string): int
    requires i <= |names|
  {
    if i == 0 then -1 else if names[i - 1] == x then i - 1 else LastNamed(names, i - 1, x)
  }

  lemma {:induction false} LastNamedIsLast(names: seq<string>, i: nat, x: string)
    requires i <= |names|
    ensures var j := LastNamed(names, i, x);
      && -1 <= j < i
      && (j >= 0 ==> names[j] == x)
      && (forall k :: j < k < i ==> names[k] != x)
  {
    if i > 0 && names[i - 1] != x {
      LastNamedIsLast(names, i - 1, x);
    }
  }

  ghost predicate AfterLastNamed(names: seq<string>, after: seq<int>) {
    |after| == |names| && forall i :: 0 <= i < |names| ==> after[i] == LastNamed(names, i, names[i])
  }

  ghost predicate Records(names: seq<string>, lastNamed: map<string, int>) {
    forall x :: LastNamed(names, |names|, x) == if x in lastNamed then lastNamed[x] else -1
  }

  ghost predicate Named(paths: seq<string>, names: seq<string>, modulePath: string, pname: string) {
    |names| <= |paths| && forall i :: 0 <= i < |names| ==> names[i] == BinName(paths[i], modulePath, pname)
  }

  /** What the loop knows of the targets of the first |names| subPackages. */
  ghost predicate Built(paths: seq<string>, modulePath: string, pname: string, names: seq<string>, after: seq<int>,
                        lastNamed: map<string, int>) {
    Named(paths, names, modulePath, pname) && AfterLastNamed(names, after) && Records(names, lastNamed)
  }

  /** The loop over m.SubPackages. */
  method BuildTargets(paths: seq<string>, modulePath: string, pname: string)
    returns (names: seq<string>, after: seq<int>)
    ensures |names| == |after| == |paths|
    ensures forall i :: 0 <= i < |paths| ==> IsBinName(paths[i], modulePath, pname, names[i])
    ensures forall i :: 0 <= i < |paths| ==>
      && -1 <= after[i] < i && (after[i] >= 0 ==> names[after[i]] == names[i])
      && forall k :: after[i] < k < i ==> names[k] != names[i]
    ensures Named(paths, names, modulePath, pname) && AfterLastNamed(names, after)
  {
    names, after := [], [];
    var lastNamed: map<string, int> := map[];
    for i := 0 to |paths|
      invariant |names| == i
      invariant Built(paths, modulePath, pname, names, after, lastNamed)
    {
      var binname := BinName(paths[i], modulePath, pname);
      var prev := if binname in lastNamed then lastNamed[binname] else -1;
      OneMore(paths, modulePath, pname, names, after, lastNamed, binname);
      lastNamed := lastNamed[binname := i];
      names, after := names + [binname], after + [prev];
    }
    forall i | 0 <= i < |paths|
      ensures IsBinName(paths[i], modulePath, pname, names[i])
      ensures -1 <= after[i] < i && (after[i] >= 0 ==> names[after[i]] == names[i])
      ensures forall k :: after[i] < k < i ==> names[k] != names[i]
    {
      BinNameIs(paths[i], modulePath, pname);
      LastNamedIsLast(names, i, names[i]);
    }
  }

  lemma OneMore(paths: seq<string>, modulePath: string, pname: string, names: seq<string>, after: seq<int>,
                lastNamed: map<string, int>, name: string)
    requires Built(paths, modulePath, pname, names, after, lastNamed) && |names| < |paths|
    requires name == BinName(paths[|names|], modulePath, pname)
    ensures Built(paths, modulePath, pname, names + [name], after + [if name in lastNamed then lastNamed[name] else -1],
                  lastNamed[name := |names|])
  {
    ExtendNames(paths, modulePath, pname, names, name);
    ExtendAfter(names, after, lastNamed, name);
  }

  lemma ExtendNames(paths: seq<string>, modulePath: string, pname: string, names: seq<string>, name: string)
    requires Named(paths, names, modulePath, pname) && |names| < |paths|
      && name == BinName(paths[|names|], modulePath, pname)
    ensures Named(paths, names + [name], modulePath, pname)
  {
  }

  lemma ExtendAfter(names: seq<string>, after: seq<int>, lastNamed: map<string, int>, name: string)
    requires AfterLastNamed(names, after) && Records(names, lastNamed)
    ensures AfterLastNamed(names + [name], after + [if name in lastNamed then lastNamed[name] else -1])
    ensures Records(names + [name], lastNamed[name := |names|])
  {
    var all := names + [name];
    forall i | 0 <= i < |all|
      ensures LastNamed(all, i, all[i]) == LastNamed(names, i, all[i])
    {
      Prefix(names, name, i, all[i]);
    }
    forall x
      ensures LastNamed(all, |all|, x) == if x == name then |names| else LastNamed(names, |names|, x)
    {
      Prefix(names, name, |names|, x);
    }
  }

  lemma {:induction false} Prefix(names: seq<string>, name: string, i: nat, x: string)
    requires i <= |names|
    ensures LastNamed(names + [name], i, x) == LastNamed(names, i, x)
  {
    if i > 0 {
      Prefix(names, name, i - 1, x);
    }
  }
}
