/**
  The line diff of scripts/check-cgo-flag-tables.go: a table of longest-common-subsequence
  lengths and the walk that prints the differing lines.
 */
module LineDiff {
  import opened Seqs

  /** An edit script over both line lists; `diff` prints its deletions and insertions. */
  datatype Edit = Keep(line: string) | Delete(line: string) | Insert(line: string)

  /** The lines a script starts from. */
  function Old(script: seq<Edit>): seq<string> {
    if |script| == 0 then []
    else Old(script[..|script| - 1]) + var e := script[|script| - 1]; if e.Insert? then [] else [e.line]
  }

  /** The lines it leads to. */
  function New(script: seq<Edit>): seq<string> {
    if |script| == 0 then []
    else New(script[..|script| - 1]) + var e := script[|script| - 1]; if e.Delete? then [] else [e.line]
  }

  function Kept(script: seq<Edit>): seq<string> {
    if |script| == 0 then []
    else Kept(script[..|script| - 1]) + var e := script[|script| - 1]; if e.Keep? then [e.line] else []
  }

  function Changes(script: seq<Edit>): nat {
    if |script| == 0 then 0
    else Changes(script[..|script| - 1]) + if script[|script| - 1].Keep? then 0 else 1
  }

  function Shown(e: Edit): string {
    match e
    case Keep(_) => ""
    case Delete(line) => "  - " + line + "\n"
    case Insert(line) => "  + " + line + "\n"
  }

  function Printed(script: seq<Edit>): string {
    if |script| == 0 then "" else Printed(script[..|script| - 1]) + Shown(script[|script| - 1])
  }

  // ---- Longest common subsequences ----

  ghost predicate IsCommon(s: seq<string>, a: seq<string>, b: seq<string>) {
    IsSubsequence(s, a) && IsSubsequence(s, b)
  }

  /** n is the length of the longest common subsequences of a and b. */
  ghost predicate LongestCommon(a: seq<string>, b: seq<string>, n: nat) {
    (exists s :: IsCommon(s, a, b) && |s| == n) && forall s :: IsCommon(s, a, b) ==> |s| <= n
  }

  /** The recurrence the table is filled by. */
  function Lcs(a: seq<string>, b: seq<string>): nat
    decreases |a| + |b|
  {
    if |a| == 0 || |b| == 0 then 0
    else if a[0] == b[0] then Lcs(a[1..], b[1..]) + 1
    else
      var x, y := Lcs(a[1..], b), Lcs(a, b[1..]);
      if x >= y then x else y
  }

  lemma {:induction false} SubsequenceTail(s: seq<string>, a: seq<string>)
    requires |s| > 0 && |a| > 0 && IsSubsequence(s, a)
    ensures IsSubsequence(s[1..], a[1..])
    decreases |a|
  {
    if !(s[0] == a[0] && IsSubsequence(s[1..], a[1..])) {
      SubsequenceTail(s, a[1..]);
      SubsequenceLonger(s[1..], a[1..]);
    }
  }

  lemma SubsequenceLonger(s: seq<string>, a: seq<string>)
    requires |a| > 0 && IsSubsequence(s, a[1..])
    ensures IsSubsequence(s, a)
  {
  }

  lemma {:induction false} LcsBounds(a: seq<string>, b: seq<string>, s: seq<string>)
    requires IsCommon(s, a, b)
    ensures |s| <= Lcs(a, b)
    decreases |a| + |b|
  {
    if |s| > 0 {
      assert |a| > 0 && |b| > 0;
      if a[0] == b[0] {
        SubsequenceTail(s, a);
        SubsequenceTail(s, b);
        LcsBounds(a[1..], b[1..], s[1..]);
      } else if s[0] != a[0] {
        LcsBounds(a[1..], b, s);
      } else {
        LcsBounds(a, b[1..], s);
      }
    }
  }

  lemma {:induction false} LcsReached(a: seq<string>, b: seq<string>) returns (s: seq<string>)
    ensures IsCommon(s, a, b) && |s| == Lcs(a, b)
    decreases |a| + |b|
  {
    if |a| == 0 || |b| == 0 {
      s := [];
    } else if a[0] == b[0] {
      var t := LcsReached(a[1..], b[1..]);
      s := [a[0]] + t;
      assert s[1..] == t;
    } else if Lcs(a[1..], b) >= Lcs(a, b[1..]) {
      s := LcsReached(a[1..], b);
    } else {
      s := LcsReached(a, b[1..]);
    }
  }

  lemma {:induction false} LcsOfItself(a: seq<string>)
    ensures Lcs(a, a) == |a|
  {
    if |a| > 0 {
      LcsOfItself(a[1..]);
    }
  }

  /** The recurrence computes the true length. */
  lemma LcsIsLongest(a: seq<string>, b: seq<string>)
    ensures LongestCommon(a, b, Lcs(a, b))
  {
    var s := LcsReached(a, b);
    forall t | IsCommon(t, a, b)
      ensures |t| <= Lcs(a, b)
    {
      LcsBounds(a, b, t);
    }
  }

  // ---- Minimality ----

  /** What a script keeps is common to both sides, and the rest are its changes. */
  lemma {:induction false} KeptIsCommon(script: seq<Edit>)
    ensures IsCommon(Kept(script), Old(script), New(script))
    ensures Changes(script) == |Old(script)| + |New(script)| - 2 * |Kept(script)|
  {
    if |script| > 0 {
      var init, e := script[..|script| - 1], script[|script| - 1];
      KeptIsCommon(init);
      SubsequenceAppend(Kept(init), Old(init), e.line);
      SubsequenceAppend(Kept(init), New(init), e.line);
      match e
      case Keep(_) =>
      case Delete(_) => assert New(init) + [] == New(init) && Kept(init) + [] == Kept(init);
      case Insert(_) => assert Old(init) + [] == Old(init) && Kept(init) + [] == Kept(init);
    }
  }

  /** No script from a to b has fewer changes than |a| + |b| - 2 Lcs(a, b). */
  lemma NoShorterScript(a: seq<string>, b: seq<string>, script: seq<Edit>)
    requires Old(script) == a && New(script) == b
    ensures Changes(script) >= |a| + |b| - 2 * Lcs(a, b)
  {
    KeptIsCommon(script);
    LcsBounds(a, b, Kept(script));
  }

  /** Nothing is printed exactly when nothing is changed, and then both sides are one. */
  lemma {:induction false} PrintsNothing(script: seq<Edit>)
    ensures Printed(script) == "" <==> Changes(script) == 0
    ensures Changes(script) == 0 ==> Old(script) == New(script)
  {
    if |script| > 0 {
      PrintsNothing(script[..|script| - 1]);
    }
  }

  /** A deletion is printed with a minus sign and an insertion with a plus sign, each on a line of its own. */
  lemma PrintsSigns(script: seq<Edit>, line: string)
    ensures Printed(script + [Delete(line)]) == Printed(script) + ("  - " + line + "\n")
    ensures Printed(script + [Insert(line)]) == Printed(script) + ("  + " + line + "\n")
    ensures Printed(script + [Keep(line)]) == Printed(script)
  {
    forall e: Edit
      ensures (script + [e])[..|script|] == script
    {
    }
  }

  /** A script and one more edit. */
  function Step(script: seq<Edit>, e: Edit): (r: seq<Edit>)
    ensures Old(r) == if e.Insert? then Old(script) else Old(script) + [e.line]
    ensures New(r) == if e.Delete? then New(script) else New(script) + [e.line]
    ensures Changes(r) == Changes(script) + if e.Keep? then 0 else 1
    ensures Printed(r) == if e.Keep? then Printed(script) else Printed(script) + Shown(e)
  {
    assert (script + [e])[..|script|] == script;
    script + [e]
  }

  // ---- The table and the walk ----

  /** What entry (i, j) of the table is to hold. */
  ghost function Rest(a: seq<string>, b: seq<string>, i: nat, j: nat): nat
    requires i <= |a| && j <= |b|
  {
    Lcs(a[i..], b[j..])
  }

  lemma RestStep(a: seq<string>, b: seq<string>, i: nat, j: nat)
    requires i <= |a| && j <= |b|
    ensures i == |a| || j == |b| ==> Rest(a, b, i, j) == 0
    ensures i < |a| && j < |b| && a[i] == b[j] ==> Rest(a, b, i, j) == Rest(a, b, i + 1, j + 1) + 1
    ensures i < |a| && j < |b| && a[i] != b[j] ==>
              Rest(a, b, i, j) == if Rest(a, b, i + 1, j) >= Rest(a, b, i, j + 1) then Rest(a, b, i + 1, j)
                else Rest(a, b, i, j + 1)
  {
    if i < |a| {
      assert a[i..][1..] == a[i + 1..];
    }
    if j < |b| {
      assert b[j..][1..] == b[j + 1..];
    }
  }

  /** The rows from i on, and of row i - 1 the columns from j on. */
  ghost predicate Filled(lcs: array2<nat>, a: seq<string>, b: seq<string>, i: nat, j: nat)
    reads lcs
    requires lcs.Length0 == |a| + 1 && lcs.Length1 == |b| + 1
  {
    forall x: nat, y: nat :: x <= |a| && y <= |b| && (x >= i || (x + 1 == i && y >= j)) ==>
      lcs[x, y] == Rest(a, b, x, y)
  }

  method FillTable(a: seq<string>, b: seq<string>) returns (lcs: array2<nat>)
    ensures fresh(lcs) && lcs.Length0 == |a| + 1 && lcs.Length1 == |b| + 1
    ensures Filled(lcs, a, b, 0, 0)
  {
    lcs := new nat[|a| + 1, |b| + 1]((_, _) => 0);
    EdgeIsZero(a, b);
    var i := |a|;
    while i > 0
      invariant 0 <= i <= |a|
      invariant Filled(lcs, a, b, i, |b| + 1)
      invariant forall x: nat :: x <= |a| ==> lcs[x, |b|] == 0
    {
      var j := |b|;
      while j > 0
        invariant 0 <= j <= |b|
        invariant Filled(lcs, a, b, i, j)
        invariant forall x: nat :: x <= |a| ==> lcs[x, |b|] == 0
      {
        CellIsRest(lcs, a, b, i, j);
        lcs[i - 1, j - 1] :=
          if a[i - 1] == b[j - 1] then lcs[i, j] + 1
          else if lcs[i, j - 1] >= lcs[i - 1, j] then lcs[i, j - 1]
          else lcs[i - 1, j];
        j := j - 1;
      }
      i := i - 1;
    }
  }

  /** What the neighbours of a cell make of it. */
  lemma CellIsRest(lcs: array2<nat>, a: seq<string>, b: seq<string>, i: nat, j: nat)
    requires lcs.Length0 == |a| + 1 && lcs.Length1 == |b| + 1 && 0 < i <= |a| && 0 < j <= |b|
    requires Filled(lcs, a, b, i, j)
    ensures Rest(a, b, i - 1, j - 1) ==
            if a[i - 1] == b[j - 1] then lcs[i, j] + 1
            else if lcs[i, j - 1] >= lcs[i - 1, j] then lcs[i, j - 1]
            else lcs[i - 1, j]
  {
    RestStep(a, b, i - 1, j - 1);
  }

  lemma EdgeIsZero(a: seq<string>, b: seq<string>)
    ensures forall x: nat, y: nat :: x <= |a| && y <= |b| && (x == |a| || y == |b|) ==> Rest(a, b, x, y) == 0
  {
    forall x: nat, y: nat | x <= |a| && y <= |b| && (x == |a| || y == |b|)
      ensures Rest(a, b, x, y) == 0
    {
      RestStep(a, b, x, y);
    }
  }

  /** The walk stands before a[i] and b[j], with no more changes behind it than the table promised. */
  ghost predicate At(a: seq<string>, b: seq<string>, script: seq<Edit>, out: string, i: nat, j: nat) {
    && i <= |a| && j <= |b|
    && Old(script) == a[..i] && New(script) == b[..j] && out == Printed(script)
    && Changes(script) == i + j + 2 * Rest(a, b, i, j) - 2 * Rest(a, b, 0, 0)
  }

  lemma WalkKeeps(a: seq<string>, b: seq<string>, script: seq<Edit>, out: string, i: nat, j: nat)
    requires At(a, b, script, out, i, j) && i < |a| && j < |b| && a[i] == b[j]
    ensures At(a, b, Step(script, Keep(a[i])), out, i + 1, j + 1)
  {
    RestStep(a, b, i, j);
    assert a[..i + 1] == a[..i] + [a[i]] && b[..j + 1] == b[..j] + [b[j]];
  }

  lemma WalkDeletes(a: seq<string>, b: seq<string>, script: seq<Edit>, out: string, i: nat, j: nat)
    requires At(a, b, script, out, i, j) && i < |a|
    requires j == |b| || (a[i] != b[j] && Rest(a, b, i + 1, j) >= Rest(a, b, i, j + 1))
    ensures At(a, b, Step(script, Delete(a[i])), out + Shown(Delete(a[i])), i + 1, j)
  {
    RestStep(a, b, i, j);
    RestStep(a, b, i + 1, j);
    assert a[..i + 1] == a[..i] + [a[i]];
  }

  lemma WalkInserts(a: seq<string>, b: seq<string>, script: seq<Edit>, out: string, i: nat, j: nat)
    requires At(a, b, script, out, i, j) && j < |b|
    requires i == |a| || (a[i] != b[j] && Rest(a, b, i + 1, j) < Rest(a, b, i, j + 1))
    ensures At(a, b, Step(script, Insert(b[j])), out + Shown(Insert(b[j])), i, j + 1)
  {
    RestStep(a, b, i, j);
    RestStep(a, b, i, j + 1);
    assert b[..j + 1] == b[..j] + [b[j]];
  }

  /**
    diff: what it prints is the deletions and insertions of a script from a to b that no script
    is shorter than; nothing exactly when a and b are equal.
   */
  method Diff(a: seq<string>, b: seq<string>) returns (out: string, ghost script: seq<Edit>)
    ensures Old(script) == a && New(script) == b && out == Printed(script)
    ensures Changes(script) == |a| + |b| - 2 * Lcs(a, b)
    ensures out == "" <==> a == b
  {
    var lcs := FillTable(a, b);
    out, script := "", [];
    var i, j := 0, 0;
    while i < |a| || j < |b|
      invariant At(a, b, script, out, i, j) && Filled(lcs, a, b, 0, 0)
      decreases |a| - i + |b| - j
    {
      if i < |a| && j < |b| && a[i] == b[j] {
        WalkKeeps(a, b, script, out, i, j);
        script := Step(script, Keep(a[i]));
        i, j := i + 1, j + 1;
      } else if j == |b| || (i < |a| && lcs[i + 1, j] >= lcs[i, j + 1]) {
        WalkDeletes(a, b, script, out, i, j);
        out, script := out + Shown(Delete(a[i])), Step(script, Delete(a[i]));
        i := i + 1;
      } else {
        WalkInserts(a, b, script, out, i, j);
        out, script := out + Shown(Insert(b[j])), Step(script, Insert(b[j]));
        j := j + 1;
      }
    }
    WalkEnds(a, b, script, out);
  }

  lemma WalkEnds(a: seq<string>, b: seq<string>, script: seq<Edit>, out: string)
    requires At(a, b, script, out, |a|, |b|)
    ensures Old(script) == a && New(script) == b && out == Printed(script)
    ensures Changes(script) == |a| + |b| - 2 * Lcs(a, b)
    ensures out == "" <==> a == b
  {
    RestStep(a, b, |a|, |b|);
    assert a[0..] == a && b[0..] == b;
    PrintsNothing(script);
    if a == b {
      LcsOfItself(a);
    }
  }
}
