/** Directed graphs given by a successor function, paths in them, and reachability. */
module Graphs {
  import opened Seqs

  type Edges = string -> seq<string>

  ghost predicate IsPath(deps: Edges, p: seq<string>) {
    0 < |p| && forall i :: 0 < i < |p| ==> p[i] in deps(p[i - 1])
  }

  ghost predicate IsPathTo(deps: Edges, p: seq<string>, a: string, b: string) {
    IsPath(deps, p) && p[0] == a && p[|p| - 1] == b
  }

  /** b is a, or behind one or more edges from a. */
  ghost predicate Reaches(deps: Edges, a: string, b: string) {
    exists p :: IsPathTo(deps, p, a, b)
  }

  /** b is behind one or more edges from a. */
  ghost predicate Depends(deps: Edges, a: string, b: string) {
    exists d :: d in deps(a) && Reaches(deps, d, b)
  }

  ghost predicate ReachedFrom(deps: Edges, roots: set<string>, b: string) {
    exists r :: r in roots && Reaches(deps, r, b)
  }

  ghost predicate Closed(deps: Edges, s: set<string>) {
    forall k, d :: k in s && d in deps(k) ==> d in s
  }

  lemma ReachesSelf(deps: Edges, a: string)
    ensures Reaches(deps, a, a)
  {
    assert IsPathTo(deps, [a], a, a);
  }

  lemma ReachesFirst(deps: Edges, a: string, d: string, b: string)
    requires d in deps(a) && Reaches(deps, d, b)
    ensures Reaches(deps, a, b)
  {
    var p :| IsPathTo(deps, p, d, b);
    assert IsPathTo(deps, [a] + p, a, b);
  }

  lemma ReachesLast(deps: Edges, a: string, d: string, b: string)
    requires Reaches(deps, a, d) && b in deps(d)
    ensures Reaches(deps, a, b)
  {
    var p :| IsPathTo(deps, p, a, d);
    assert IsPathTo(deps, p + [b], a, b);
  }

  lemma ReachesTransitive(deps: Edges, a: string, b: string, c: string)
    requires Reaches(deps, a, b) && Reaches(deps, b, c)
    ensures Reaches(deps, a, c)
  {
    var p :| IsPathTo(deps, p, a, b);
    var q :| IsPathTo(deps, q, b, c);
    var r := p + q[1..];
    forall i | 0 < i < |r|
      ensures r[i] in deps(r[i - 1])
    {
      if i >= |p| {
        assert r[i] == q[i - |p| + 1] && r[i - 1] == q[i - |p|];
      }
    }
    assert IsPathTo(deps, r, a, c);
  }

  lemma ReachesUnfold(deps: Edges, a: string, b: string)
    requires Reaches(deps, a, b)
    ensures a == b || Depends(deps, a, b)
  {
    var p :| IsPathTo(deps, p, a, b);
    if |p| > 1 {
      var q := p[1..];
      assert p[1] in deps(p[0]);
      forall i | 0 < i < |q|
        ensures q[i] in deps(q[i - 1])
      {
        assert p[i + 1] in deps(p[i]);
      }
      assert IsPathTo(deps, q, p[1], b);
    }
  }

  lemma DependsReaches(deps: Edges, a: string, b: string)
    requires Depends(deps, a, b)
    ensures Reaches(deps, a, b)
  {
    var d :| d in deps(a) && Reaches(deps, d, b);
    ReachesFirst(deps, a, d, b);
  }

  lemma ReachesDepends(deps: Edges, a: string, b: string, c: string)
    requires Reaches(deps, a, b) && Depends(deps, b, c)
    ensures Depends(deps, a, c)
  {
    DependsReaches(deps, b, c);
    ReachesUnfold(deps, a, b);
    if a != b {
      var d :| d in deps(a) && Reaches(deps, d, b);
      ReachesTransitive(deps, d, b, c);
    }
  }

  lemma DependsTransitive(deps: Edges, a: string, b: string, c: string)
    requires Depends(deps, a, b) && Reaches(deps, b, c)
    ensures Depends(deps, a, c)
  {
    var d :| d in deps(a) && Reaches(deps, d, b);
    ReachesTransitive(deps, d, b, c);
  }

  /** A closed set holds everything its members reach: a worklist that ends closed has it all. */
  lemma {:induction false} ClosedHoldsPath(deps: Edges, s: set<string>, p: seq<string>)
    requires Closed(deps, s) && IsPath(deps, p) && p[0] in s
    ensures p[|p| - 1] in s
    decreases |p|
  {
    if |p| > 1 {
      var q := p[..|p| - 1];
      assert forall i :: 0 < i < |q| ==> q[i] == p[i];
      ClosedHoldsPath(deps, s, q);
      assert p[|p| - 1] in deps(p[|p| - 2]);
    }
  }

  /** The same for a set that need not be finite. */
  lemma {:induction false} ClosedHoldsEnd(deps: Edges, s: iset<string>, p: seq<string>)
    requires (forall k, d :: k in s && d in deps(k) ==> d in s) && IsPath(deps, p) && p[0] in s
    ensures p[|p| - 1] in s
    decreases |p|
  {
    if |p| > 1 {
      var q := p[..|p| - 1];
      assert forall i :: 0 < i < |q| ==> q[i] == p[i];
      ClosedHoldsEnd(deps, s, q);
      assert p[|p| - 1] in deps(p[|p| - 2]);
    }
  }

  lemma ClosedHoldsReached(deps: Edges, s: set<string>, a: string, b: string)
    requires Closed(deps, s) && a in s && Reaches(deps, a, b)
    ensures b in s
  {
    var p :| IsPathTo(deps, p, a, b);
    ClosedHoldsPath(deps, s, p);
  }

  lemma ClosedHoldsAllReached(deps: Edges, s: set<string>, roots: set<string>, b: string)
    requires Closed(deps, s) && roots <= s && ReachedFrom(deps, roots, b)
    ensures b in s
  {
    var r :| r in roots && Reaches(deps, r, b);
    ClosedHoldsReached(deps, s, r, b);
  }

  lemma ReachedFromNext(deps: Edges, roots: set<string>, a: string, b: string)
    requires ReachedFrom(deps, roots, a) && b in deps(a)
    ensures ReachedFrom(deps, roots, b)
  {
    var r :| r in roots && Reaches(deps, r, a);
    ReachesLast(deps, r, a, b);
  }

  lemma RootReached(deps: Edges, roots: set<string>, r: string)
    requires r in roots
    ensures ReachedFrom(deps, roots, r)
  {
    ReachesSelf(deps, r);
  }

  /** Two graphs that agree on a set closed in one of them reach the same from roots in it. */
  lemma AgreeingEdgesReach(f: Edges, g: Edges, roots: set<string>, s: set<string>, b: string)
    requires roots <= s && Closed(f, s) && forall k, d :: k in s ==> (d in f(k) <==> d in g(k))
    ensures ReachedFrom(f, roots, b) <==> ReachedFrom(g, roots, b)
  {
    if ReachedFrom(f, roots, b) {
      AgreeingReach(f, g, roots, s, b);
    }
    if ReachedFrom(g, roots, b) {
      AgreeingReach(g, f, roots, s, b);
    }
  }

  lemma AgreeingReach(f: Edges, g: Edges, roots: set<string>, s: set<string>, b: string)
    requires roots <= s && Closed(f, s) && forall k, d :: k in s ==> (d in f(k) <==> d in g(k))
    requires ReachedFrom(f, roots, b)
    ensures ReachedFrom(g, roots, b)
  {
    var both := set k | k in s && ReachedFrom(g, roots, k);
    forall k, d | k in both && d in f(k)
      ensures d in both
    {
      ReachedFromNext(g, roots, k, d);
    }
    forall r | r in roots
      ensures r in both
    {
      RootReached(g, roots, r);
    }
    ClosedHoldsAllReached(f, both, roots, b);
  }

  function ToSet(s: seq<string>): set<string> {
    set x | x in s
  }

  /** The elements of list that are in keep, in order. */
  function Selected(list: seq<string>, keep: set<string>): (r: seq<string>)
    ensures forall d :: d in r <==> d in list && d in keep
  {
    if |list| == 0 then []
    else
      assert forall d :: d in list <==> d == list[0] || d in list[1..];
      (if list[0] in keep then [list[0]] else []) + Selected(list[1..], keep)
  }

  lemma {:induction false} SelectedInOrder(list: seq<string>, keep: set<string>)
    ensures IsSubsequence(Selected(list, keep), list)
  {
    if |list| > 0 {
      SelectedInOrder(list[1..], keep);
      var rest := Selected(list[1..], keep);
      if list[0] in keep {
        assert ([list[0]] + rest)[1..] == rest;
      } else {
        assert [] + rest == rest;
      }
    }
  }
}
