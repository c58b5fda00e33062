/**
  ListingMemo (packages/go2nix-nix-plugin/rust/src/resolve.rs): the outputs of `go list` runs
  kept for later calls, least recently used first, within a limit on their summed size.
 */
module ListingMemo {
  import opened Wrappers

  /** What a run is told apart by: where the module roots lie, and the command with its directory and environment. */
  datatype Key = Key(roots: seq<string>, dir: Option<string>, program: string, args: seq<string>,
                     env: seq<(string, Option<string>)>)

  datatype Entry = Entry(key: Key, stdout: string)

  // ---- The operations on values ----

  function Total(kept: seq<Entry>): nat {
    if |kept| == 0 then 0 else |kept[0].stdout| + Total(kept[1..])
  }

  ghost predicate KeysDistinct(kept: seq<Entry>) {
    forall i, j :: 0 <= i < j < |kept| ==> kept[i].key != kept[j].key
  }

  /** The invariant: distinct keys, and sizes that add up to the limit at most. */
  ghost predicate Fits(limit: nat, kept: seq<Entry>) {
    KeysDistinct(kept) && Total(kept) <= limit
  }

  /** The first position of a key, or the length. */
  function Position(kept: seq<Entry>, key: Key): (i: nat)
    ensures i <= |kept| && (i < |kept| ==> kept[i].key == key)
    ensures forall j :: 0 <= j < i ==> kept[j].key != key
  {
    if |kept| == 0 || kept[0].key == key then 0 else 1 + Position(kept[1..], key)
  }

  function Lookup(kept: seq<Entry>, key: Key): Option<string> {
    var i := Position(kept, key);
    if i < |kept| then Some(kept[i].stdout) else None
  }

  /** A hit moves the entry to the back. */
  function Got(kept: seq<Entry>, key: Key): seq<Entry> {
    var i := Position(kept, key);
    if i < |kept| then kept[..i] + kept[i + 1..] + [kept[i]] else kept
  }

  function Without(kept: seq<Entry>, key: Key): (r: seq<Entry>)
    ensures forall e :: e in r <==> e in kept && e.key != key
  {
    if |kept| == 0 then []
    else
      assert forall e :: e in kept <==> e == kept[0] || e in kept[1..];
      (if kept[0].key == key then [] else [kept[0]]) + Without(kept[1..], key)
  }

  /** Drop from the front until the rest fits. */
  function Trimmed(limit: nat, kept: seq<Entry>): seq<Entry> {
    if Total(kept) <= limit then kept else Trimmed(limit, kept[1..])
  }

  /** A listing that alone is larger than the limit changes nothing, not even an older entry of its key. */
  function Stored(limit: nat, kept: seq<Entry>, key: Key, stdout: string): seq<Entry> {
    if |stdout| > limit then kept else Trimmed(limit, Without(kept, key) + [Entry(key, stdout)])
  }

  // ---- Sizes ----

  lemma {:induction false} TotalAppend(a: seq<Entry>, b: seq<Entry>)
    ensures Total(a + b) == Total(a) + Total(b)
  {
    if |a| == 0 {
      assert a + b == b;
    } else {
      TotalAppend(a[1..], b);
      assert (a + b)[1..] == a[1..] + b;
    }
  }

  lemma {:induction false} TotalWithout(kept: seq<Entry>, key: Key)
    ensures Total(Without(kept, key)) <= Total(kept)
  {
    if |kept| > 0 {
      TotalWithout(kept[1..], key);
      TotalAppend(if kept[0].key == key then [] else [kept[0]], Without(kept[1..], key));
    }
  }

  lemma {:induction false} WithoutDistinct(kept: seq<Entry>, key: Key)
    requires KeysDistinct(kept)
    ensures KeysDistinct(Without(kept, key))
  {
    if |kept| > 0 {
      WithoutDistinct(kept[1..], key);
      var r := Without(kept[1..], key);
      forall j | 0 <= j < |r|
        ensures r[j].key != kept[0].key
      {
        assert r[j] in kept[1..];
      }
    }
  }

  /** Trimming drops the shortest prefix that makes the rest fit. */
  lemma {:induction false} TrimsShortestPrefix(limit: nat, kept: seq<Entry>) returns (d: nat)
    ensures d <= |kept| && Trimmed(limit, kept) == kept[d..]
    ensures Total(kept[d..]) <= limit
    ensures forall e :: 0 <= e < d ==> Total(kept[e..]) > limit
  {
    if Total(kept) <= limit {
      d := 0;
    } else {
      var c := TrimsShortestPrefix(limit, kept[1..]);
      d := c + 1;
      assert kept[1..][c..] == kept[d..];
      forall e | 0 <= e < d
        ensures Total(kept[e..]) > limit
      {
        if e > 0 {
          assert kept[1..][e - 1..] == kept[e..];
        }
      }
    }
    assert kept[0..] == kept;
  }

  // ---- What every operation keeps ----

  lemma GetKeepsFit(limit: nat, kept: seq<Entry>, key: Key)
    requires Fits(limit, kept)
    ensures Fits(limit, Got(kept, key))
    ensures forall k :: Lookup(Got(kept, key), k) == Lookup(kept, k)
  {
    var i := Position(kept, key);
    if i < |kept| {
      MovedTotal(kept, i);
      MovedDistinct(kept, i);
      forall k
        ensures Lookup(Got(kept, key), k) == Lookup(kept, k)
      {
        LookupMoved(kept, i, k);
      }
    }
  }

  lemma MovedTotal(kept: seq<Entry>, i: nat)
    requires i < |kept|
    ensures Total(kept[..i] + kept[i + 1..] + [kept[i]]) == Total(kept)
  {
    TotalAppend(kept[..i] + kept[i + 1..], [kept[i]]);
    TotalAppend(kept[..i], kept[i + 1..]);
    TotalAppend(kept[..i], kept[i..]);
    TotalAppend([kept[i]], kept[i + 1..]);
    assert kept == kept[..i] + kept[i..] && kept[i..] == [kept[i]] + kept[i + 1..];
  }

  lemma MovedDistinct(kept: seq<Entry>, i: nat)
    requires KeysDistinct(kept) && i < |kept|
    ensures KeysDistinct(kept[..i] + kept[i + 1..] + [kept[i]])
  {
    var moved := kept[..i] + kept[i + 1..] + [kept[i]];
    assert forall q :: 0 <= q < |moved| ==> moved[q] == kept[if q < i then q else if q == |kept| - 1 then i else q + 1];
  }

  lemma LookupIs(kept: seq<Entry>, key: Key, i: nat)
    requires KeysDistinct(kept) && i < |kept| && kept[i].key == key
    ensures Lookup(kept, key) == Some(kept[i].stdout)
  {
    var p := Position(kept, key);
    assert p <= i;
  }

  lemma LookupMoved(kept: seq<Entry>, i: nat, k: Key)
    requires KeysDistinct(kept) && i < |kept|
    ensures Lookup(kept[..i] + kept[i + 1..] + [kept[i]], k) == Lookup(kept, k)
  {
    var moved := kept[..i] + kept[i + 1..] + [kept[i]];
    var p := Position(kept, k);
    if p < |kept| {
      LookupIs(kept, k, p);
      var q := if p < i then p else if p == i then |kept| - 1 else p - 1;
      assert moved[q] == kept[p];
      LookupIs(moved, k, q);
    } else {
      forall q | 0 <= q < |moved|
        ensures moved[q].key != k
      {
        assert moved[q] == kept[if q < i then q else if q == |kept| - 1 then i else q + 1];
      }
    }
  }

  /**
    A put keeps the invariant. Its entry is the last of what is kept, never evicted by itself;
    what is evicted is the shortest prefix, least recently used first, that has to go.
   */
  lemma PutKeepsFit(limit: nat, kept: seq<Entry>, key: Key, stdout: string) returns (evicted: nat)
    requires Fits(limit, kept)
    ensures Fits(limit, Stored(limit, kept, key, stdout))
    ensures |stdout| > limit ==> Stored(limit, kept, key, stdout) == kept
    ensures |stdout| <= limit ==>
      var others := Without(kept, key);
      && evicted <= |others|
      && Stored(limit, kept, key, stdout) == others[evicted..] + [Entry(key, stdout)]
      && forall e :: 0 <= e < evicted ==> Total(others[e..]) + |stdout| > limit
  {
    evicted := 0;
    if |stdout| <= limit {
      WithoutDistinct(kept, key);
      evicted := PutEvicts(limit, Without(kept, key), key, stdout);
    }
  }

  lemma PutEvicts(limit: nat, others: seq<Entry>, key: Key, stdout: string) returns (evicted: nat)
    requires KeysDistinct(others) && |stdout| <= limit && forall i :: 0 <= i < |others| ==> others[i].key != key
    ensures evicted <= |others|
    ensures Trimmed(limit, others + [Entry(key, stdout)]) == others[evicted..] + [Entry(key, stdout)]
    ensures Fits(limit, others[evicted..] + [Entry(key, stdout)])
    ensures forall e :: 0 <= e < evicted ==> Total(others[e..]) + |stdout| > limit
  {
    var all := others + [Entry(key, stdout)];
    evicted := TrimsShortestPrefix(limit, all);
    LastAloneFits(others, key, stdout);
    assert all[|others|..] == [Entry(key, stdout)];
    assert all[evicted..] == others[evicted..] + [Entry(key, stdout)];
    forall e | 0 <= e < evicted
      ensures Total(others[e..]) + |stdout| > limit
    {
      TotalWithLast(others, e, key, stdout);
    }
  }

  lemma TotalWithLast(others: seq<Entry>, e: nat, key: Key, stdout: string)
    requires e <= |others|
    ensures Total((others + [Entry(key, stdout)])[e..]) == Total(others[e..]) + |stdout|
  {
    TotalAppend(others[e..], [Entry(key, stdout)]);
    assert (others + [Entry(key, stdout)])[e..] == others[e..] + [Entry(key, stdout)];
    LastAloneFits(others, key, stdout);
  }

  lemma LastAloneFits(others: seq<Entry>, key: Key, stdout: string)
    ensures Total([Entry(key, stdout)]) == |stdout|
  {
    assert [Entry(key, stdout)][1..] == [];
  }

  // ---- Histories ----

  datatype Op = Get(key: Key) | Put(key: Key, stdout: string)

  function Apply(limit: nat, kept: seq<Entry>, op: Op): seq<Entry> {
    match op
    case Get(key) => Got(kept, key)
    case Put(key, stdout) => Stored(limit, kept, key, stdout)
  }

  /** What is kept after a history, from nothing. */
  function After(limit: nat, ops: seq<Op>): seq<Entry> {
    if |ops| == 0 then [] else Apply(limit, After(limit, ops[..|ops| - 1]), ops[|ops| - 1])
  }

  /** The last listing put under a key that was not too large. */
  function LastFitting(limit: nat, ops: seq<Op>, key: Key): Option<string> {
    if |ops| == 0 then None
    else
      var op := ops[|ops| - 1];
      if op.Put? && op.key == key && |op.stdout| <= limit then Some(op.stdout)
      else LastFitting(limit, ops[..|ops| - 1], key)
  }

  lemma {:induction false} AlwaysFits(limit: nat, ops: seq<Op>)
    ensures Fits(limit, After(limit, ops))
  {
    if |ops| > 0 {
      var before, op := After(limit, ops[..|ops| - 1]), ops[|ops| - 1];
      AlwaysFits(limit, ops[..|ops| - 1]);
      match op
      case Get(key) => GetKeepsFit(limit, before, key);
      case Put(key, stdout) => var _ := PutKeepsFit(limit, before, key, stdout);
    }
  }

  lemma PutLookup(limit: nat, kept: seq<Entry>, key: Key, stdout: string, k: Key)
    requires Fits(limit, kept) && |stdout| <= limit
    ensures var r := Stored(limit, kept, key, stdout);
      && Lookup(r, key) == Some(stdout)
      && (k != key ==> Lookup(r, k) == None || Lookup(r, k) == Lookup(kept, k))
  {
    var d := PutKeepsFit(limit, kept, key, stdout);
    var r := Stored(limit, kept, key, stdout);
    LookupIs(r, key, |r| - 1);
    var p := Position(r, k);
    if k != key && p < |r| {
      assert r[p] in Without(kept, key);
      var q :| 0 <= q < |kept| && kept[q] == r[p];
      LookupIs(kept, k, q);
    }
  }

  /** Over any history a hit returns the last fitting listing put under the key. */
  lemma {:induction false} HitIsLastFitting(limit: nat, ops: seq<Op>, key: Key)
    ensures Lookup(After(limit, ops), key) == None || Lookup(After(limit, ops), key) == LastFitting(limit, ops, key)
  {
    if |ops| > 0 {
      var init, op := ops[..|ops| - 1], ops[|ops| - 1];
      HitIsLastFitting(limit, init, key);
      AlwaysFits(limit, init);
      match op
      case Get(k) => GetKeepsFit(limit, After(limit, init), k);
      case Put(k, stdout) =>
        if |stdout| <= limit {
          PutLookup(limit, After(limit, init), k, stdout, key);
        }
    }
  }

  /** And a fitting listing is there right after it was put: nothing is evicted by its own arrival. */
  lemma JustPutIsThere(limit: nat, ops: seq<Op>, key: Key, stdout: string)
    requires |stdout| <= limit
    ensures Lookup(After(limit, ops + [Put(key, stdout)]), key) == Some(stdout)
  {
    AlwaysFits(limit, ops);
    assert (ops + [Put(key, stdout)])[..|ops|] == ops;
    PutLookup(limit, After(limit, ops), key, stdout, key);
  }

  /** The number of the operation that used a key last: a get, or a put that fits. */
  function LastUse(limit: nat, ops: seq<Op>, key: Key): int {
    if |ops| == 0 then -1
    else
      var op := ops[|ops| - 1];
      if op.key == key && (op.Get? || |op.stdout| <= limit) then |ops| - 1 else LastUse(limit, ops[..|ops| - 1], key)
  }

  lemma {:induction false} LastUseBefore(limit: nat, ops: seq<Op>, key: Key)
    ensures LastUse(limit, ops, key) < |ops|
  {
    if |ops| > 0 {
      LastUseBefore(limit, ops[..|ops| - 1], key);
    }
  }

  ghost predicate ByUse(limit: nat, ops: seq<Op>, kept: seq<Entry>) {
    forall i, j :: 0 <= i < j < |kept| ==> LastUse(limit, ops, kept[i].key) < LastUse(limit, ops, kept[j].key)
  }

  lemma {:induction false} WithoutKeepsOrder(limit: nat, ops: seq<Op>, kept: seq<Entry>, key: Key)
    requires ByUse(limit, ops, kept)
    ensures ByUse(limit, ops, Without(kept, key))
  {
    if |kept| > 0 {
      WithoutKeepsOrder(limit, ops, kept[1..], key);
      var r := Without(kept[1..], key);
      forall j | 0 <= j < |r|
        ensures LastUse(limit, ops, kept[0].key) < LastUse(limit, ops, r[j].key)
      {
        assert r[j] in kept[1..];
      }
    }
  }

  /** One more operation, on a key that none of the entries has, leaves them in order; its own entry comes behind. */
  lemma UseOrderKept(limit: nat, ops: seq<Op>, others: seq<Entry>, stdout: string)
    requires |ops| > 0 && ByUse(limit, ops[..|ops| - 1], others)
    requires forall e :: e in others ==> e.key != ops[|ops| - 1].key
    ensures ByUse(limit, ops, others)
    ensures var op := ops[|ops| - 1];
      (op.Get? || |op.stdout| <= limit) ==> ByUse(limit, ops, others + [Entry(op.key, stdout)])
  {
    var op := ops[|ops| - 1];
    forall i | 0 <= i < |others|
      ensures LastUse(limit, ops, others[i].key) == LastUse(limit, ops[..|ops| - 1], others[i].key) < |ops| - 1
    {
      assert others[i] in others;
      LastUseBefore(limit, ops[..|ops| - 1], others[i].key);
    }
  }

  lemma GetByUse(limit: nat, ops: seq<Op>, before: seq<Entry>)
    requires |ops| > 0 && ops[|ops| - 1].Get? && ByUse(limit, ops[..|ops| - 1], before) && KeysDistinct(before)
    ensures ByUse(limit, ops, Got(before, ops[|ops| - 1].key))
  {
    var i := Position(before, ops[|ops| - 1].key);
    if i < |before| {
      var others := before[..i] + before[i + 1..];
      UseOrderKept(limit, ops, others, before[i].stdout);
    } else {
      UseOrderKept(limit, ops, before, "");
    }
  }

  lemma PutByUse(limit: nat, ops: seq<Op>, before: seq<Entry>)
    requires |ops| > 0 && ops[|ops| - 1].Put? && ByUse(limit, ops[..|ops| - 1], before) && Fits(limit, before)
    ensures ByUse(limit, ops, Stored(limit, before, ops[|ops| - 1].key, ops[|ops| - 1].stdout))
  {
    var op := ops[|ops| - 1];
    if |op.stdout| <= limit {
      var d := PutKeepsFit(limit, before, op.key, op.stdout);
      WithoutKeepsOrder(limit, ops[..|ops| - 1], before, op.key);
      UseOrderKept(limit, ops, Without(before, op.key)[d..], op.stdout);
    } else {
      OversizedPut(limit, ops, before);
    }
  }

  /** What is kept stands in the order of last use, so what an eviction takes from the front was used longest ago. */
  lemma {:induction false} KeptByUse(limit: nat, ops: seq<Op>)
    ensures ByUse(limit, ops, After(limit, ops))
  {
    if |ops| > 0 {
      var init := ops[..|ops| - 1];
      KeptByUse(limit, init);
      AlwaysFits(limit, init);
      if ops[|ops| - 1].Get? {
        GetByUse(limit, ops, After(limit, init));
      } else {
        PutByUse(limit, ops, After(limit, init));
      }
    }
  }

  lemma OversizedPut(limit: nat, ops: seq<Op>, kept: seq<Entry>)
    requires |ops| > 0 && ByUse(limit, ops[..|ops| - 1], kept)
    requires ops[|ops| - 1].Put? && |ops[|ops| - 1].stdout| > limit
    ensures ByUse(limit, ops, kept)
  {
    assert forall k :: LastUse(limit, ops, k) == LastUse(limit, ops[..|ops| - 1], k);
  }

  // ---- The resolver in front of the memo ----

  /**
    One listing resolve_single_pass asks for: whether the module roots are in the store (the memo
    is used only then), what the process prints now, and whether listing_can_be_kept accepts it.
   */
  datatype Call = Call(key: Key, inStore: bool, run: Option<string>, keepable: bool)

  predicate Keeps(call: Call) {
    call.inStore && call.run.Some? && call.keepable
  }

  /**
    A call locks the memo to look, and again to store what it had to run for. Between the two,
    other calls can do either.
   */
  datatype Event = Look(call: Call) | Store(call: Call)

  function Answer(kept: seq<Entry>, call: Call): Option<string> {
    if call.inStore && Lookup(kept, call.key).Some? then Lookup(kept, call.key) else call.run
  }

  function KeptNext(limit: nat, kept: seq<Entry>, event: Event): seq<Entry> {
    match event
    case Look(call) => if call.inStore then Got(kept, call.key) else kept
    case Store(call) => if Keeps(call) then Stored(limit, kept, call.key, call.run.value) else kept
  }

  function KeptAfter(limit: nat, events: seq<Event>): seq<Entry> {
    if |events| == 0 then [] else KeptNext(limit, KeptAfter(limit, events[..|events| - 1]), events[|events| - 1])
  }

  /** A kept listing is a function of its key: what was stored once is what every later run over the key prints. */
  ghost predicate Stable(events: seq<Event>) {
    forall i, j :: 0 <= i < j < |events| && events[i].Store? && events[j].Look? && Keeps(events[i].call) ==>
      events[j].call.inStore && events[j].call.key == events[i].call.key ==> events[j].call.run == events[i].call.run
  }

  ghost predicate FromStore(events: seq<Event>, e: Entry) {
    exists i :: 0 <= i < |events| && events[i].Store? && Keeps(events[i].call)
      && events[i].call.key == e.key && events[i].call.run == Some(e.stdout)
  }

  lemma GotElements(kept: seq<Entry>, key: Key)
    ensures forall e :: e in Got(kept, key) ==> e in kept
  {
  }

  lemma StoredElements(limit: nat, kept: seq<Entry>, key: Key, stdout: string)
    ensures forall e :: e in Stored(limit, kept, key, stdout) ==> e in kept || e == Entry(key, stdout)
  {
    if |stdout| <= limit {
      var all := Without(kept, key) + [Entry(key, stdout)];
      var d := TrimsShortestPrefix(limit, all);
    }
  }

  /** Every entry was stored by an earlier call that could keep it. */
  lemma {:induction false} KeptFromStores(limit: nat, events: seq<Event>)
    ensures forall e :: e in KeptAfter(limit, events) ==> FromStore(events, e)
  {
    if |events| > 0 {
      var init, event := events[..|events| - 1], events[|events| - 1];
      KeptFromStores(limit, init);
      var kept := KeptAfter(limit, init);
      GotElements(kept, event.call.key);
      if event.Store? && Keeps(event.call) {
        StoredElements(limit, kept, event.call.key, event.call.run.value);
      }
      forall e | e in KeptAfter(limit, events)
        ensures FromStore(events, e)
      {
        if e in kept {
          var i :| 0 <= i < |init| && init[i].Store? && Keeps(init[i].call)
            && init[i].call.key == e.key && init[i].call.run == Some(e.stdout);
          assert events[i] == init[i];
        } else {
          assert events[|events| - 1].Store? && Keeps(event.call);
        }
      }
    }
  }

  /** The memo changes no answer, however the calls interleave: each gets what the process would print for it. */
  lemma MemoChangesNothing(limit: nat, events: seq<Event>, j: nat)
    requires Stable(events) && j < |events| && events[j].Look?
    ensures Answer(KeptAfter(limit, events[..j]), events[j].call) == events[j].call.run
  {
    var kept, call := KeptAfter(limit, events[..j]), events[j].call;
    var p := Position(kept, call.key);
    if call.inStore && p < |kept| {
      KeptFromStores(limit, events[..j]);
      assert kept[p] in kept;
      var i :| 0 <= i < |events[..j]| && events[..j][i].Store? && Keeps(events[..j][i].call)
        && events[..j][i].call.key == kept[p].key && events[..j][i].call.run == Some(kept[p].stdout);
      assert events[..j][i] == events[i];
    }
  }

  // ---- The memo in place ----

  class Memo {
    const limit: nat
    var kept: seq<Entry>

    ghost predicate Valid()
      reads this
    {
      Fits(limit, kept)
    }

    constructor (limit: nat)
      ensures Valid() && this.limit == limit && kept == []
    {
      this.limit, kept := limit, [];
    }

    method Get(key: Key) returns (r: Option<string>)
      requires Valid()
      modifies this
      ensures Valid() && kept == Got(old(kept), key) && r == Lookup(old(kept), key)
    {
      GetKeepsFit(limit, kept, key);
      var i := Position(kept, key);
      if i == |kept| {
        return None;
      }
      var entry := kept[i];
      kept := kept[..i] + kept[i + 1..];
      kept := kept + [entry];
      r := Some(entry.stdout);
    }

    /** `total` is a nat throughout: the running total never underflows, and never exceeds twice the limit. */
    method Put(key: Key, stdout: string)
      requires Valid()
      modifies this
      ensures Valid() && kept == Stored(limit, old(kept), key, stdout)
    {
      ghost var _ := PutKeepsFit(limit, kept, key, stdout);
      if |stdout| > limit {
        return;
      }
      TotalWithout(kept, key);
      kept := Without(kept, key);
      TotalAppend(kept, [Entry(key, stdout)]);
      LastAloneFits(kept, key, stdout);
      kept := kept + [Entry(key, stdout)];
      ghost var all := kept;
      var total: nat := Total(kept);
      assert total <= 2 * limit;
      while total > limit
        invariant total == Total(kept)
        invariant Trimmed(limit, kept) == Trimmed(limit, all)
        decreases |kept|
      {
        total := total - |kept[0].stdout|;
        kept := kept[1..];
      }
    }

    /** The first part of resolve_single_pass, with the memo locked: the listing kept, or that of a run. */
    method Ask(call: Call) returns (stdout: Option<string>, hit: bool)
      requires Valid()
      modifies this
      ensures Valid() && kept == KeptNext(limit, old(kept), Look(call))
      ensures stdout == Answer(old(kept), call) && hit == (call.inStore && Lookup(old(kept), call.key).Some?)
    {
      var found: Option<string> := None;
      if call.inStore {
        found := Get(call.key);
      }
      return if found.Some? then found else call.run, found.Some?;
    }

    /** The second, with the memo locked again, for a listing that parses. */
    method Keep(call: Call, hit: bool)
      requires Valid()
      modifies this
      ensures Valid() && kept == if hit then old(kept) else KeptNext(limit, old(kept), Store(call))
    {
      if call.inStore && call.run.Some? && !hit && call.keepable {
        Put(call.key, call.run.value);
      }
    }
  }
}
