/**
  go/go2nix/pkg/toposort: a depth-first topological sort with cycle detection, over nodes
  whose dependencies may pass through keys that are not nodes.

  `Explore` and `ExploreAll` are the recursion on values: the keys being visited, and the keys
  finished so far in finishing order. `Sorter` is the same recursion on the `state` map and
  the `result` slice that the closure updates.
 */
module Toposort {
  import opened Wrappers
  import opened Graphs
  import Ordering

  /** Every key finished has its dependencies finished before it, once. */
  ghost predicate Ordered(deps: Edges, order: seq<string>) {
    && (forall i, j :: 0 <= i < j < |order| ==> order[i] != order[j])
    && (forall i, d :: 0 <= i < |order| && d in deps(order[i]) ==> d in order[..i])
  }

  /** Success: the finished keys, in finishing order. Failure: the key found again while it is being visited. */
  function Explore(deps: Edges, ghost universe: set<string>, visiting: set<string>, order: seq<string>, key: string)
    : (r: Result<seq<string>, string>)
    requires Closed(deps, universe) && key in universe
    ensures r.Success? ==> order <= r.value && key in r.value
    decreases |universe - visiting - ToSet(order)|, 0, 0
  {
    if key in order then Success(order)
    else if key in visiting then Failure(key)
    else
      Shrinks(universe, visiting, order, key);
      var r := ExploreAll(deps, universe, visiting + {key}, order, deps(key));
      if r.Failure? then r else Success(r.value + [key])
  }

  function ExploreAll(deps: Edges, ghost universe: set<string>, visiting: set<string>, order: seq<string>,
                      list: seq<string>)
    : (r: Result<seq<string>, string>)
    requires Closed(deps, universe) && forall k :: k in list ==> k in universe
    ensures r.Success? ==> order <= r.value && forall k :: k in list ==> k in r.value
    decreases |universe - visiting - ToSet(order)|, 1, |list|
  {
    if |list| == 0 then Success(order)
    else
      var r := Explore(deps, universe, visiting, order, list[0]);
      if r.Failure? then r
      else
        Grows(universe, visiting, order, r.value);
        ExploreAll(deps, universe, visiting, r.value, list[1..])
  }

  lemma SmallerSet<T>(a: set<T>, b: set<T>)
    requires a <= b
    ensures |a| <= |b|
    ensures a != b ==> |a| < |b|
  {
    assert b == a + (b - a);
    if a != b {
      var x :| x in b - a;
      assert |b - a| > 0;
    }
  }

  lemma Shrinks(universe: set<string>, visiting: set<string>, order: seq<string>, key: string)
    requires key in universe && key !in visiting && key !in order
    ensures |universe - (visiting + {key}) - ToSet(order)| < |universe - visiting - ToSet(order)|
  {
    var a, b := universe - (visiting + {key}) - ToSet(order), universe - visiting - ToSet(order);
    assert key in b && key !in a;
    SmallerSet(a, b);
  }

  lemma Grows(universe: set<string>, visiting: set<string>, order: seq<string>, more: seq<string>)
    requires order <= more
    ensures |universe - visiting - ToSet(more)| <= |universe - visiting - ToSet(order)|
  {
    SmallerSet(universe - visiting - ToSet(more), universe - visiting - ToSet(order));
  }

  // ---- What one visit does to the finishing order ----

  lemma {:induction false} ExploreKeepsOrder(deps: Edges, universe: set<string>, visiting: set<string>,
                                        order: seq<string>, key: string)
    requires Closed(deps, universe) && key in universe
    requires Ordered(deps, order) && visiting !! ToSet(order)
    requires Explore(deps, universe, visiting, order, key).Success?
    ensures var done := Explore(deps, universe, visiting, order, key).value;
      Ordered(deps, done) && visiting !! ToSet(done)
    decreases |universe - visiting - ToSet(order)|, 0, 0
  {
    if key !in order {
      Shrinks(universe, visiting, order, key);
      ExploreAllKeepsOrder(deps, universe, visiting + {key}, order, deps(key));
      var inner := ExploreAll(deps, universe, visiting + {key}, order, deps(key)).value;
      assert key in visiting + {key};
      assert key !in ToSet(inner);
      FinishedNext(deps, inner, key);
    }
  }

  /** A key whose dependencies are finished can be finished. */
  lemma FinishedNext(deps: Edges, order: seq<string>, key: string)
    requires Ordered(deps, order) && key !in order && forall d :: d in deps(key) ==> d in order
    ensures Ordered(deps, order + [key]) && ToSet(order + [key]) == ToSet(order) + {key}
  {
    var done := order + [key];
    forall i, d | 0 <= i < |done| && d in deps(done[i])
      ensures d in done[..i]
    {
      assert done[..i] == order[..i];
    }
  }

  lemma {:induction false} ExploreAllKeepsOrder(deps: Edges, universe: set<string>, visiting: set<string>,
                                        order: seq<string>, list: seq<string>)
    requires Closed(deps, universe) && forall k :: k in list ==> k in universe
    requires Ordered(deps, order) && visiting !! ToSet(order)
    requires ExploreAll(deps, universe, visiting, order, list).Success?
    ensures var done := ExploreAll(deps, universe, visiting, order, list).value;
      Ordered(deps, done) && visiting !! ToSet(done)
    decreases |universe - visiting - ToSet(order)|, 1, |list|
  {
    if |list| > 0 {
      ExploreKeepsOrder(deps, universe, visiting, order, list[0]);
      var more := Explore(deps, universe, visiting, order, list[0]).value;
      Grows(universe, visiting, order, more);
      ExploreAllKeepsOrder(deps, universe, visiting, more, list[1..]);
    }
  }

  /** The key a visit fails on lies on a cycle that the visited key reaches. */
  lemma {:induction false} ExploreFailsOnCycle(deps: Edges, universe: set<string>, visiting: set<string>,
                                        order: seq<string>, key: string)
    requires Closed(deps, universe) && key in universe
    requires forall v :: v in visiting ==> Depends(deps, v, key)
    requires Explore(deps, universe, visiting, order, key).Failure?
    ensures var c := Explore(deps, universe, visiting, order, key).error;
      Reaches(deps, key, c) && Depends(deps, c, c)
    decreases |universe - visiting - ToSet(order)|, 0, 0
  {
    ReachesSelf(deps, key);
    if key !in visiting {
      Shrinks(universe, visiting, order, key);
      forall v, d | v in visiting + {key} && d in deps(key)
        ensures Depends(deps, v, d)
      {
        ReachesSelf(deps, d);
        ReachesFirst(deps, key, d, d);
        if v != key {
          DependsTransitive(deps, v, key, d);
        }
      }
      var c := ExploreAllFailsOnCycle(deps, universe, visiting + {key}, order, deps(key));
    }
  }

  lemma {:induction false} ExploreAllFailsOnCycle(deps: Edges, universe: set<string>, visiting: set<string>,
                                        order: seq<string>, list: seq<string>)
    returns (from: string)
    requires Closed(deps, universe) && forall k :: k in list ==> k in universe
    requires forall v, k :: v in visiting && k in list ==> Depends(deps, v, k)
    requires ExploreAll(deps, universe, visiting, order, list).Failure?
    ensures var c := ExploreAll(deps, universe, visiting, order, list).error;
      from in list && Reaches(deps, from, c) && Depends(deps, c, c)
      && forall k :: from in deps(k) ==> Reaches(deps, k, c)
    decreases |universe - visiting - ToSet(order)|, 1, |list|
  {
    var r := Explore(deps, universe, visiting, order, list[0]);
    if r.Failure? {
      ExploreFailsOnCycle(deps, universe, visiting, order, list[0]);
      from := list[0];
    } else {
      Grows(universe, visiting, order, r.value);
      from := ExploreAllFailsOnCycle(deps, universe, visiting, r.value, list[1..]);
    }
    var c := ExploreAll(deps, universe, visiting, order, list).error;
    forall k | from in deps(k)
      ensures Reaches(deps, k, c)
    {
      ReachesFirst(deps, k, from, c);
    }
  }

  /** In an ordered sequence everything a key depends on, over any number of edges, is before it. */
  lemma OrderedDepends(deps: Edges, order: seq<string>, i: nat, b: string)
    requires Ordered(deps, order) && i < |order| && Depends(deps, order[i], b)
    ensures b in order[..i]
  {
    var d :| d in deps(order[i]) && Reaches(deps, d, b);
    var j :| 0 <= j < i && order[j] == d;
    var upTo := ToSet(order[..j + 1]);
    forall k, e | k in upTo && e in deps(k)
      ensures e in upTo
    {
      var m :| 0 <= m <= j && order[m] == k;
      assert e in order[..m];
    }
    ClosedHoldsReached(deps, upTo, d, b);
  }

  /** What an ordered sequence holds, it holds with all that is reached from it. */
  lemma OrderedReaches(deps: Edges, order: seq<string>, a: string, x: string)
    requires Ordered(deps, order) && a in order && Reaches(deps, a, x)
    ensures x in order
  {
    forall k, d | k in ToSet(order) && d in deps(k)
      ensures d in ToSet(order)
    {
      var i :| 0 <= i < |order| && order[i] == k;
      assert d in order[..i];
    }
    ClosedHoldsReached(deps, ToSet(order), a, x);
  }

  lemma {:induction false} ExploreIgnoresUniverse(deps: Edges, u: set<string>, w: set<string>, visiting: set<string>,
                                        order: seq<string>, key: string)
    requires Closed(deps, u) && key in u && Closed(deps, w) && key in w
    ensures Explore(deps, u, visiting, order, key) == Explore(deps, w, visiting, order, key)
    decreases |u - visiting - ToSet(order)|, 0, 0
  {
    if key !in order && key !in visiting {
      Shrinks(u, visiting, order, key);
      ExploreAllIgnoresUniverse(deps, u, w, visiting + {key}, order, deps(key));
    }
  }

  lemma {:induction false} ExploreAllIgnoresUniverse(deps: Edges, u: set<string>, w: set<string>,
                                        visiting: set<string>, order: seq<string>, list: seq<string>)
    requires Closed(deps, u) && Closed(deps, w) && forall k :: k in list ==> k in u && k in w
    ensures ExploreAll(deps, u, visiting, order, list) == ExploreAll(deps, w, visiting, order, list)
    decreases |u - visiting - ToSet(order)|, 1, |list|
  {
    if |list| > 0 {
      ExploreIgnoresUniverse(deps, u, w, visiting, order, list[0]);
      var r := Explore(deps, u, visiting, order, list[0]);
      if r.Success? {
        Grows(u, visiting, order, r.value);
        ExploreAllIgnoresUniverse(deps, u, w, visiting, r.value, list[1..]);
      }
    }
  }

  // ---- Sort ----

  function Filter(order: seq<string>, nodes: set<string>): seq<string> {
    if |order| == 0 then []
    else
      var last := order[|order| - 1];
      Filter(order[..|order| - 1], nodes) + if last in nodes then [last] else []
  }

  /** The node keys in the order Sort returns their nodes, or the key its error names. */
  ghost function SortedNodes(deps: Edges, universe: set<string>, nodes: set<string>): Result<seq<string>, string>
    requires Closed(deps, universe) && nodes <= universe
  {
    var r := ExploreAll(deps, universe, {}, [], Ordering.Sorted(nodes));
    if r.Failure? then r else Success(Filter(r.value, nodes))
  }

  /** Each key once, and none before a key it depends on over any number of edges. */
  ghost predicate InOrder(deps: Edges, keys: seq<string>) {
    && (forall i, j :: 0 <= i < j < |keys| ==> keys[i] != keys[j])
    && (forall i, j :: 0 <= i < |keys| && 0 <= j < |keys| && Depends(deps, keys[i], keys[j]) ==> j < i)
  }

  /** The nodes, each once, and each behind every node it depends on. */
  ghost predicate DependencyOrder(deps: Edges, nodes: set<string>, keys: seq<string>) {
    (forall k :: k in keys <==> k in nodes) && InOrder(deps, keys)
  }

  lemma {:induction false} FilterElements(order: seq<string>, nodes: set<string>)
    ensures forall k :: k in Filter(order, nodes) <==> k in order && k in nodes
  {
    if |order| > 0 {
      var n := |order| - 1;
      FilterElements(order[..n], nodes);
      assert order == order[..n] + [order[n]];
    }
  }

  lemma OrderedPrefix(deps: Edges, order: seq<string>, n: nat)
    requires Ordered(deps, order) && n <= |order|
    ensures Ordered(deps, order[..n])
  {
    forall i, d | 0 <= i < n && d in deps(order[..n][i])
      ensures d in order[..n][..i]
    {
      assert order[..n][..i] == order[..i];
    }
  }

  lemma {:induction false} FilterOrdered(deps: Edges, order: seq<string>, nodes: set<string>)
    requires Ordered(deps, order)
    ensures InOrder(deps, Filter(order, nodes))
    decreases |order|
  {
    if |order| > 0 {
      var n := |order| - 1;
      OrderedPrefix(deps, order, n);
      FilterOrdered(deps, order[..n], nodes);
      if order[n] in nodes {
        FilterLast(deps, order, Filter(order[..n], nodes), nodes);
      }
    }
  }

  /** The key finished last can be appended: nothing before it depends on it. */
  lemma FilterLast(deps: Edges, order: seq<string>, keys: seq<string>, nodes: set<string>)
    requires Ordered(deps, order) && |order| > 0
    requires keys == Filter(order[..|order| - 1], nodes) && InOrder(deps, keys)
    ensures InOrder(deps, keys + [order[|order| - 1]])
  {
    var n := |order| - 1;
    var all := keys + [order[n]];
    FilterElements(order[..n], nodes);
    assert order[n] !in order[..n];
    assert forall i :: 0 <= i < |keys| ==> keys[i] in order[..n];
    forall i | 0 <= i < |all| && Depends(deps, all[i], order[n])
      ensures false
    {
      assert all[i] in order;
      var m :| 0 <= m <= n && order[m] == all[i];
      OrderedDepends(deps, order, m, order[n]);
    }
  }

  /** Success: every node once, and after every node it reaches, also through keys that are not nodes. */
  lemma SortOrdersNodes(deps: Edges, universe: set<string>, nodes: set<string>)
    requires Closed(deps, universe) && nodes <= universe
    requires SortedNodes(deps, universe, nodes).Success?
    ensures DependencyOrder(deps, nodes, SortedNodes(deps, universe, nodes).value)
  {
    ExploreAllKeepsOrder(deps, universe, {}, [], Ordering.Sorted(nodes));
    var order := ExploreAll(deps, universe, {}, [], Ordering.Sorted(nodes)).value;
    FilterElements(order, nodes);
    FilterOrdered(deps, order, nodes);
  }

  ghost predicate CycleBehind(deps: Edges, nodes: set<string>) {
    exists n, c :: n in nodes && Reaches(deps, n, c) && Depends(deps, c, c)
  }

  /** Failure exactly when a node reaches a cycle; the error then names a key on one. */
  lemma SortFailsIffCycle(deps: Edges, universe: set<string>, nodes: set<string>)
    requires Closed(deps, universe) && nodes <= universe
    ensures SortedNodes(deps, universe, nodes).Failure? <==> CycleBehind(deps, nodes)
    ensures SortedNodes(deps, universe, nodes).Failure? ==>
      var c := SortedNodes(deps, universe, nodes).error;
      Depends(deps, c, c) && ReachedFrom(deps, nodes, c)
  {
    var keys := Ordering.Sorted(nodes);
    var r := ExploreAll(deps, universe, {}, [], keys);
    if r.Failure? {
      var from := ExploreAllFailsOnCycle(deps, universe, {}, [], keys);
    } else if CycleBehind(deps, nodes) {
      ExploreAllKeepsOrder(deps, universe, {}, [], keys);
      var order := r.value;
      var n, c :| n in nodes && Reaches(deps, n, c) && Depends(deps, c, c);
      OrderedReaches(deps, order, n, c);
      var i :| 0 <= i < |order| && order[i] == c;
      OrderedDepends(deps, order, i, c);
      assert false;
    }
  }

  /** The result depends on the node set and on `deps` alone. */
  lemma SortIgnoresUniverse(deps: Edges, u: set<string>, w: set<string>, nodes: set<string>)
    requires Closed(deps, u) && nodes <= u && Closed(deps, w) && nodes <= w
    ensures SortedNodes(deps, u, nodes) == SortedNodes(deps, w, nodes)
  {
    ExploreAllIgnoresUniverse(deps, u, w, {}, [], Ordering.Sorted(nodes));
  }

  // ---- Which of two unrelated nodes comes first ----

  /** A visit finishes nothing that the keys visited do not reach. */
  lemma {:induction false} ExploreAddsReached(deps: Edges, universe: set<string>, visiting: set<string>,
                                        order: seq<string>, key: string, k: string)
    requires Closed(deps, universe) && key in universe && Explore(deps, universe, visiting, order, key).Success?
    requires k in Explore(deps, universe, visiting, order, key).value && k !in order
    ensures Reaches(deps, key, k)
    decreases |universe - visiting - ToSet(order)|, 0, 0
  {
    ReachesSelf(deps, key);
    if key !in order && k != key {
      Shrinks(universe, visiting, order, key);
      var d := ExploreAllAddsReached(deps, universe, visiting + {key}, order, deps(key), k);
      ReachesFirst(deps, key, d, k);
    }
  }

  lemma {:induction false} ExploreAllAddsReached(deps: Edges, universe: set<string>, visiting: set<string>,
                                        order: seq<string>, list: seq<string>, k: string)
    returns (from: string)
    requires Closed(deps, universe) && forall x :: x in list ==> x in universe
    requires ExploreAll(deps, universe, visiting, order, list).Success?
    requires k in ExploreAll(deps, universe, visiting, order, list).value && k !in order
    ensures from in list && Reaches(deps, from, k)
    decreases |universe - visiting - ToSet(order)|, 1, |list|
  {
    var more := Explore(deps, universe, visiting, order, list[0]).value;
    if k in more {
      ExploreAddsReached(deps, universe, visiting, order, list[0], k);
      from := list[0];
    } else {
      Grows(universe, visiting, order, more);
      from := ExploreAllAddsReached(deps, universe, visiting, more, list[1..], k);
    }
  }

  /** The keys finished for the first n of a list are finished before all others. */
  lemma {:induction false} FirstKeysFirst(deps: Edges, universe: set<string>, visiting: set<string>,
                                        order: seq<string>, list: seq<string>, n: nat)
    requires Closed(deps, universe) && (forall x :: x in list ==> x in universe) && n <= |list|
    requires ExploreAll(deps, universe, visiting, order, list).Success?
    ensures ExploreAll(deps, universe, visiting, order, list[..n]).Success?
    ensures ExploreAll(deps, universe, visiting, order, list[..n]).value
      <= ExploreAll(deps, universe, visiting, order, list).value
    decreases n
  {
    if n > 0 {
      assert list[..n][0] == list[0] && list[..n][1..] == list[1..][..n - 1];
      FirstKeysFirst(deps, universe, visiting, Explore(deps, universe, visiting, order, list[0]).value, list[1..],
                     n - 1);
    }
  }

  lemma {:induction false} FilterPrefix(order: seq<string>, n: nat, nodes: set<string>)
    requires n <= |order|
    ensures Filter(order[..n], nodes) <= Filter(order, nodes)
    decreases |order|
  {
    if n == |order| {
      assert order[..n] == order;
    } else {
      FilterPrefix(order[..|order| - 1], n, nodes);
      assert order[..|order| - 1][..n] == order[..n];
    }
  }

  ghost predicate IsBefore(keys: seq<string>, x: string, y: string) {
    exists i, j :: 0 <= i < j < |keys| && keys[i] == x && keys[j] == y
  }

  lemma BeforeByPrefix(part: seq<string>, keys: seq<string>, x: string, y: string)
    requires part <= keys && x in part && y in keys && y !in part
    ensures IsBefore(keys, x, y)
  {
    assert forall k :: 0 <= k < |part| ==> keys[k] == part[k] && part[k] in part;
    var i :| 0 <= i < |part| && part[i] == x;
    var j :| 0 <= j < |keys| && keys[j] == y;
  }

  lemma UpToKey(keys: seq<string>, i: nat, k: string)
    requires Ordering.StrictlySorted(keys) && i < |keys| && k in keys[..i + 1]
    ensures k in keys && (k == keys[i] || Ordering.Less(k, keys[i]))
  {
    var j :| 0 <= j <= i && keys[j] == k;
  }

  /** No node less than a reaches y. */
  ghost predicate NoneBelow(deps: Edges, nodes: set<string>, a: string, y: string) {
    forall b :: b in nodes && Ordering.Less(b, a) ==> !Reaches(deps, b, y)
  }

  lemma KeyAt(nodes: set<string>, a: string) returns (i: nat)
    requires a in nodes
    ensures i < |Ordering.Sorted(nodes)| && Ordering.Sorted(nodes)[i] == a
  {
    assert a in Ordering.Sorted(nodes);
    i :| 0 <= i < |Ordering.Sorted(nodes)| && Ordering.Sorted(nodes)[i] == a;
  }

  /** After the visits up to a, what a reaches is finished, and nothing else than those keys reach. */
  lemma FinishedUpTo(deps: Edges, universe: set<string>, nodes: set<string>, keys: seq<string>, i: nat, x: string,
                     y: string)
    requires Closed(deps, universe) && nodes <= universe && keys == Ordering.Sorted(nodes) && i < |keys|
    requires ExploreAll(deps, universe, {}, [], keys[..i + 1]).Success?
    requires Reaches(deps, keys[i], x) && !Reaches(deps, keys[i], y) && NoneBelow(deps, nodes, keys[i], y)
    ensures var part := ExploreAll(deps, universe, {}, [], keys[..i + 1]).value; x in part && y !in part
  {
    var part := ExploreAll(deps, universe, {}, [], keys[..i + 1]).value;
    ExploreAllKeepsOrder(deps, universe, {}, [], keys[..i + 1]);
    assert keys[..i + 1][i] == keys[i];
    OrderedReaches(deps, part, keys[i], x);
    if y in part {
      var from := ExploreAllAddsReached(deps, universe, {}, [], keys[..i + 1], y);
      UpToKey(keys, i, from);
    }
  }

  lemma FilterMore(part: seq<string>, all: seq<string>, nodes: set<string>)
    requires part <= all
    ensures Filter(part, nodes) <= Filter(all, nodes)
    ensures forall k :: k in Filter(part, nodes) <==> k in part && k in nodes
    ensures forall k :: k in Filter(all, nodes) <==> k in all && k in nodes
  {
    assert part == all[..|part|];
    FilterPrefix(all, |part|, nodes);
    FilterElements(part, nodes);
    FilterElements(all, nodes);
  }

  /** What is finished at some moment comes before what is not. */
  lemma FinishedFirst(deps: Edges, universe: set<string>, nodes: set<string>, part: seq<string>, x: string, y: string)
    requires Closed(deps, universe) && nodes <= universe && SortedNodes(deps, universe, nodes).Success?
    requires part <= ExploreAll(deps, universe, {}, [], Ordering.Sorted(nodes)).value
    requires x in nodes && y in nodes && x in part && y !in part
    ensures IsBefore(SortedNodes(deps, universe, nodes).value, x, y)
  {
    var all := ExploreAll(deps, universe, {}, [], Ordering.Sorted(nodes)).value;
    assert y in Ordering.Sorted(nodes);
    FilterMore(part, all, nodes);
    BeforeByPrefix(Filter(part, nodes), Filter(all, nodes), x, y);
  }

  /** The keys are visited in string order: what a reaches comes before what neither a nor any lesser node does. */
  lemma LeastRootFirst(deps: Edges, universe: set<string>, nodes: set<string>, a: string, x: string, y: string)
    requires Closed(deps, universe) && nodes <= universe && SortedNodes(deps, universe, nodes).Success?
    requires a in nodes && x in nodes && y in nodes
    requires Reaches(deps, a, x) && !Reaches(deps, a, y) && NoneBelow(deps, nodes, a, y)
    ensures IsBefore(SortedNodes(deps, universe, nodes).value, x, y)
  {
    var keys := Ordering.Sorted(nodes);
    var i := KeyAt(nodes, a);
    FirstKeysFirst(deps, universe, {}, [], keys, i + 1);
    FinishedUpTo(deps, universe, nodes, keys, i, x, y);
    FinishedFirst(deps, universe, nodes, ExploreAll(deps, universe, {}, [], keys[..i + 1]).value, x, y);
  }

  /** None of the first n dependencies of a key reaches y. */
  ghost predicate NoneUpTo(deps: Edges, key: string, n: nat, y: string) {
    forall j :: 0 <= j < n && j < |deps(key)| ==> !Reaches(deps, deps(key)[j], y)
  }

  /** What the visit of a key has finished once the first n of its dependencies have been visited. */
  lemma VisitSplits(deps: Edges, universe: set<string>, order: seq<string>, key: string, n: nat, x: string, y: string)
    requires Closed(deps, universe) && key in universe && Ordered(deps, order) && key !in order
    requires Explore(deps, universe, {}, order, key).Success? && 0 < n <= |deps(key)|
    requires Reaches(deps, deps(key)[n - 1], x) && y !in order && NoneUpTo(deps, key, n, y)
    ensures var r := ExploreAll(deps, universe, {key}, order, deps(key)[..n]);
      r.Success? && r.value <= Explore(deps, universe, {}, order, key).value && x in r.value && y !in r.value
  {
    var list, first := deps(key), deps(key)[..n];
    assert {} + {key} == {key} && key !in ToSet(order);
    FirstKeysFirst(deps, universe, {key}, order, list, n);
    ExploreAllKeepsOrder(deps, universe, {key}, order, first);
    var part := ExploreAll(deps, universe, {key}, order, first).value;
    assert first[n - 1] == list[n - 1] && forall k :: k in first ==> exists j :: 0 <= j < n && list[j] == k;
    OrderedReaches(deps, part, list[n - 1], x);
    if y in part {
      var from := ExploreAllAddsReached(deps, universe, {key}, order, first, y);
    }
  }

  /** The visits before that of the i-th key. */
  lemma VisitsBefore(deps: Edges, universe: set<string>, keys: seq<string>, i: nat) returns (order: seq<string>)
    requires Closed(deps, universe) && (forall k :: k in keys ==> k in universe) && i < |keys|
    requires ExploreAll(deps, universe, {}, [], keys).Success?
    ensures Ordered(deps, order) && Explore(deps, universe, {}, order, keys[i]).Success?
    ensures Explore(deps, universe, {}, order, keys[i]).value <= ExploreAll(deps, universe, {}, [], keys).value
    ensures forall x :: x in order ==> exists j :: 0 <= j < i && Reaches(deps, keys[j], x)
  {
    FirstKeysFirst(deps, universe, {}, [], keys, i);
    FirstKeysFirst(deps, universe, {}, [], keys, i + 1);
    order := ExploreAll(deps, universe, {}, [], keys[..i]).value;
    ExploreAllKeepsOrder(deps, universe, {}, [], keys[..i]);
    assert keys[..i + 1] == keys[..i] + [keys[i]];
    OneVisitMore(deps, universe, {}, [], keys[..i], keys[i]);
    forall x | x in order
      ensures exists j :: 0 <= j < i && Reaches(deps, keys[j], x)
    {
      var from := ExploreAllAddsReached(deps, universe, {}, [], keys[..i], x);
      var j :| 0 <= j < i && keys[..i][j] == from;
      assert keys[j] == from;
    }
  }

  lemma {:induction false} OneVisitMore(deps: Edges, universe: set<string>, visiting: set<string>, order: seq<string>,
                                        list: seq<string>, key: string)
    requires Closed(deps, universe) && key in universe && forall k :: k in list ==> k in universe
    requires ExploreAll(deps, universe, visiting, order, list).Success?
    ensures ExploreAll(deps, universe, visiting, order, list + [key])
      == Explore(deps, universe, visiting, ExploreAll(deps, universe, visiting, order, list).value, key)
    decreases |list|
  {
    if |list| == 0 {
      assert [] + [key] == [key] && [key][1..] == [];
    } else {
      assert (list + [key])[0] == list[0] && (list + [key])[1..] == list[1..] + [key];
      OneVisitMore(deps, universe, visiting, Explore(deps, universe, visiting, order, list[0]).value, list[1..], key);
    }
  }

  /** Before the visit of k nothing is finished that no lesser node reaches. */
  lemma VisitsBeforeKey(deps: Edges, universe: set<string>, nodes: set<string>, k: string, y: string)
    returns (order: seq<string>)
    requires Closed(deps, universe) && nodes <= universe && SortedNodes(deps, universe, nodes).Success?
    requires k in nodes && NoneBelow(deps, nodes, k, k) && NoneBelow(deps, nodes, k, y)
    ensures Ordered(deps, order) && Explore(deps, universe, {}, order, k).Success? && k !in order && y !in order
    ensures Explore(deps, universe, {}, order, k).value
      <= ExploreAll(deps, universe, {}, [], Ordering.Sorted(nodes)).value
  {
    var keys := Ordering.Sorted(nodes);
    var i := KeyAt(nodes, k);
    order := VisitsBefore(deps, universe, keys, i);
    assert forall j :: 0 <= j < i ==> keys[j] in keys && Ordering.Less(keys[j], k);
  }

  /**
    The dependencies of a key are visited in the order listed: what the n-th dependency of k reaches comes
    before a node that none up to it reaches, if no node less than k reaches that node or k.
   */
  lemma ListedDepsFirst(deps: Edges, universe: set<string>, nodes: set<string>, k: string, n: nat, x: string, y: string)
    requires Closed(deps, universe) && nodes <= universe && SortedNodes(deps, universe, nodes).Success?
    requires k in nodes && x in nodes && y in nodes && NoneBelow(deps, nodes, k, k) && NoneBelow(deps, nodes, k, y)
    requires n < |deps(k)| && Reaches(deps, deps(k)[n], x) && NoneUpTo(deps, k, n + 1, y)
    ensures IsBefore(SortedNodes(deps, universe, nodes).value, x, y)
  {
    var order := VisitsBeforeKey(deps, universe, nodes, k, y);
    VisitSplits(deps, universe, order, k, n + 1, x, y);
    FinishedFirst(deps, universe, nodes, ExploreAll(deps, universe, {k}, order, deps(k)[..n + 1]).value, x, y);
  }

  // ---- The recursion in place ----

  datatype Mark = Visiting | Visited

  function Values<T>(nodes: map<string, T>, keys: seq<string>): seq<T>
    requires forall k :: k in keys ==> k in nodes
  {
    seq(|keys|, i requires 0 <= i < |keys| => nodes[keys[i]])
  }

  ghost predicate Marks(state: map<string, Mark>, visiting: set<string>, order: seq<string>) {
    && (forall k :: k in state <==> k in visiting || k in order)
    && (forall k :: k in visiting ==> k !in order && state[k] == Visiting)
    && (forall k :: k in order ==> state[k] == Visited)
  }

  ghost predicate Kept<T>(nodes: map<string, T>, order: seq<string>, result: seq<T>) {
    && (forall k :: k in Filter(order, nodes.Keys) ==> k in nodes)
    && result == Values(nodes, Filter(order, nodes.Keys))
  }

  lemma KeepsNext<T>(nodes: map<string, T>, order: seq<string>, result: seq<T>, key: string)
    requires Kept(nodes, order, result)
    ensures Kept(nodes, order + [key], if key in nodes then result + [nodes[key]] else result)
  {
    assert (order + [key])[..|order|] == order;
    FilterElements(order + [key], nodes.Keys);
  }

  lemma MarksNext(state: map<string, Mark>, outer: set<string>, order: seq<string>, key: string)
    requires Marks(state, outer + {key}, order) && key !in outer
    ensures Marks(state[key := Visited], outer, order + [key]) && key in state
  {
  }

  lemma ExploreNew(deps: Edges, universe: set<string>, visiting: set<string>, order: seq<string>, key: string)
    requires Closed(deps, universe) && key in universe && key !in order && key !in visiting
    ensures var r := ExploreAll(deps, universe, visiting + {key}, order, deps(key));
      Explore(deps, universe, visiting, order, key) == if r.Failure? then r else Success(r.value + [key])
  {
  }

  class Sorter<T> {
    const nodes: map<string, T>
    const deps: Edges
    ghost const universe: set<string>
    var state: map<string, Mark>
    var result: seq<T>
    ghost var visiting: set<string>
    ghost var order: seq<string>

    ghost predicate Valid()
      reads this
    {
      Closed(deps, universe) && nodes.Keys <= universe && Marked() && Collected()
    }

    ghost predicate Marked()
      reads this`state, this`visiting, this`order
    {
      Marks(state, visiting, order)
    }

    ghost predicate Collected()
      reads this`order, this`result
    {
      Kept(nodes, order, result)
    }

    /** The error reported is that of the recursion on values, and so are the keys finished when there is none. */
    ghost predicate Outcome(r: Result<seq<string>, string>, err: Option<string>)
      reads this
    {
      if r.Success? then err == None && order == r.value else err == Some(r.error)
    }

    constructor (nodes: map<string, T>, deps: Edges, ghost universe: set<string>)
      requires Closed(deps, universe) && nodes.Keys <= universe
      ensures Valid() && visiting == {} && order == []
      ensures this.nodes == nodes && this.deps == deps && this.universe == universe
    {
      this.nodes, this.deps, this.universe := nodes, deps, universe;
      state, result := map[], [];
      visiting, order := {}, [];
    }

    method Visit(key: string) returns (err: Option<string>)
      requires Valid() && key in universe
      modifies this
      ensures Outcome(Explore(deps, universe, old(visiting), old(order), key), err)
      ensures err == None ==> Valid() && visiting == old(visiting) && old(state.Keys) <= state.Keys
      decreases |universe - state.Keys|, 0
    {
      if key in state {
        err := if state[key] == Visited then None else Some(key);
        return;
      }
      ExploreNew(deps, universe, visiting, order, key);
      SmallerSet(universe - (state.Keys + {key}), universe - state.Keys);
      Enter(key);
      err := VisitEach(deps(key));
      if err == None {
        Leave(key, old(visiting));
      }
    }

    /** The loop over a list of keys, in `visit` and in Sort itself. */
    method VisitEach(list: seq<string>) returns (err: Option<string>)
      requires Valid() && forall k :: k in list ==> k in universe
      modifies this
      ensures Outcome(ExploreAll(deps, universe, old(visiting), old(order), list), err)
      ensures err == None ==> Valid() && visiting == old(visiting) && old(state.Keys) <= state.Keys
      decreases |universe - state.Keys|, 1
    {
      for i := 0 to |list|
        invariant Valid() && visiting == old(visiting) && old(state.Keys) <= state.Keys
        invariant Rest(deps, universe, visiting, old(order), list, 0) == Rest(deps, universe, visiting, order, list, i)
      {
        SmallerSet(universe - state.Keys, universe - old(state.Keys));
        RestStep(deps, universe, visiting, order, list, i);
        err := Visit(list[i]);
        if err.Some? {
          assert list[0..] == list;
          return;
        }
      }
      RestDone(deps, universe, visiting, old(order), order, list);
      err := None;
    }

    method Enter(key: string)
      requires Valid() && key !in state
      modifies this
      ensures Valid() && visiting == old(visiting) + {key} && order == old(order)
        && state.Keys == old(state.Keys) + {key}
    {
      state := state[key := Visiting];
      visiting := visiting + {key};
    }

    method Leave(key: string, ghost outer: set<string>)
      requires Valid() && visiting == outer + {key} && key !in outer
      modifies this
      ensures Valid() && visiting == outer && order == old(order) + [key] && state.Keys == old(state.Keys)
    {
      KeepsNext(nodes, order, result, key);
      MarksNext(state, outer, order, key);
      state := state[key := Visited];
      visiting := outer;
      order := order + [key];
      if key in nodes {
        result := result + [nodes[key]];
      }
    }
  }

  /** What is left to explore once the first i keys of a list are done. */
  ghost function Rest(deps: Edges, universe: set<string>, visiting: set<string>, order: seq<string>,
                      list: seq<string>, i: nat)
    : Result<seq<string>, string>
    requires i <= |list|
    requires Closed(deps, universe) && forall k :: k in list ==> k in universe
  {
    ExploreAll(deps, universe, visiting, order, list[i..])
  }

  lemma RestStep(deps: Edges, universe: set<string>, visiting: set<string>, order: seq<string>, list: seq<string>,
                 i: nat)
    requires i < |list|
    requires Closed(deps, universe) && forall k :: k in list ==> k in universe
    ensures var r := Explore(deps, universe, visiting, order, list[i]);
      Rest(deps, universe, visiting, order, list, i) ==
      if r.Failure? then r else Rest(deps, universe, visiting, r.value, list, i + 1)
  {
    assert list[i..][0] == list[i] && list[i..][1..] == list[i + 1..];
  }

  lemma RestDone(deps: Edges, universe: set<string>, visiting: set<string>, before: seq<string>, order: seq<string>,
                 list: seq<string>)
    requires Closed(deps, universe) && forall k :: k in list ==> k in universe
    requires Rest(deps, universe, visiting, before, list, 0) == Rest(deps, universe, visiting, order, list, |list|)
    ensures ExploreAll(deps, universe, visiting, before, list) == Success(order)
  {
    assert list[0..] == list && list[|list|..] == [];
  }

  /** Sort: the nodes in dependency order, or the key an import cycle was detected at. */
  method Sort<T>(nodes: map<string, T>, deps: Edges, ghost universe: set<string>) returns (r: Result<seq<T>, string>)
    requires Closed(deps, universe) && nodes.Keys <= universe
    ensures match SortedNodes(deps, universe, nodes.Keys)
      case Success(keys) => (forall k :: k in keys ==> k in nodes) && r == Success(Values(nodes, keys))
      case Failure(c) => r == Failure(c)
  {
    var sorter := new Sorter<T>(nodes, deps, universe);
    var keys := Ordering.SortKeys(nodes.Keys);
    var err := sorter.VisitEach(keys);
    return if err.Some? then Failure(err.value) else Success(sorter.result);
  }
}
