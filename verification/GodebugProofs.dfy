/** What an update of the committed godebugTable keeps, and what an accepting check means. */
module GodebugProofs {
  import opened Wrappers
  import opened GodebugTable

  /** A live setting is as the toolchain has it, but for a Removed that only a newer toolchain can know. */
  predicate KeptLive(c: Table, u: Table, r: Row, minor: nat) {
    && r.name in u && u[r.name].name == r.name
    && u[r.name].changed == r.changed && u[r.name].before == r.before
    && u[r.name].removed == if r.name in c && c[r.name].removed > minor then c[r.name].removed else 0
  }

  /** A retired one takes the toolchain's Removed, and no more. */
  predicate KeptRetired(c: Table, u: Table, r: Row) {
    r.name in c && c[r.name].changed != 0 ==> r.name in u && u[r.name] == c[r.name].(removed := r.removed)
  }

  /** What an update leaves of each name; a row that is neither live nor retired stays as it is, or is dropped. */
  lemma UpdatedRows(c: Table, t: Toolchain)
    requires t.Valid() && Named(c)
    ensures forall r :: r in t.all ==> KeptLive(c, Updated(c, t), r, t.minor)
    ensures forall r :: r in t.removed ==> KeptRetired(c, Updated(c, t), r)
    ensures forall n :: n in Updated(c, t) && n !in Names(t.all) ==>
      n in c && (Updated(c, t)[n] == c[n] || (n in Names(t.removed) && c[n].changed != 0))
  {
    TableKeys(t.all);
    TableKeys(t.removed);
    forall r | r in t.all
      ensures r.name in ToTable(t.all) && ToTable(t.all)[r.name] == r
    {
      TableRow(t.all, r);
    }
    forall r | r in t.removed
      ensures r.name in ToTable(t.removed) && ToTable(t.removed)[r.name] == r
      ensures r.name !in ToTable(t.all)
    {
      TableRow(t.removed, r);
      assert r.name in Names(t.removed);
    }
  }

  /** Updating again with the same toolchain changes nothing. */
  lemma UpdateIsIdempotent(c: Table, t: Toolchain)
    requires t.Valid()
    ensures Updated(Updated(c, t), t) == Updated(c, t)
  {
    var u, all := Updated(c, t), ToTable(t.all);
    forall n | n in u.Keys + all.Keys
      ensures n in u && MergedRow(u, all, ToTable(t.removed), t.minor, n) == Some(u[n])
    {
      MergedAgain(c, t, n);
    }
    assert Updated(u, t).Keys == u.Keys;
  }

  lemma MergedAgain(c: Table, t: Toolchain, n: string)
    requires t.Valid() && (n in Updated(c, t) || n in ToTable(t.all))
    ensures var u := Updated(c, t); n in u && MergedRow(u, ToTable(t.all), ToTable(t.removed), t.minor, n) == Some(u[n])
  {
    TableKeys(t.all);
    TableKeys(t.removed);
    assert n in c.Keys + ToTable(t.all).Keys;
  }

  /** The check accepts what --update wrote. */
  lemma CheckAcceptsUpdate(c: Table, t: Toolchain)
    requires t.Valid() && Named(c)
    ensures Accepts(Updated(c, t), t)
  {
    UpdateIsIdempotent(c, t);
    UpdatedNames(c, t);
    TableKeys(t.all);
    var u := Updated(c, t);
    forall n | n in u
      ensures RowAgrees(u, u[n], t.minor)
    {
    }
  }

  /** A live row whose Removed comes from a newer toolchain: its Changed and Old are not compared. */
  predicate RetiredByNewer(c: Table, minor: nat, n: string) {
    n in c && c[n].removed > minor
  }

  predicate LiveAlike(c: Row, u: Row) {
    c.changed == u.changed && c.before == u.before && c.removed == 0
  }

  /** What an accepting check says, setting by setting, and all it says. */
  lemma AcceptsIff(c: Table, t: Toolchain)
    requires t.Valid() && Named(c)
    ensures var all, removed := ToTable(t.all), ToTable(t.removed);
      Accepts(c, t) <==>
      && (forall n :: n in all ==> n in c && (RetiredByNewer(c, t.minor, n) || LiveAlike(c[n], all[n])))
      && (forall n :: Carried(c, removed, n) && n !in all ==> c[n].removed == removed[n].removed)
  {
    var u, all, removed := Updated(c, t), ToTable(t.all), ToTable(t.removed);
    forall n | n in u
      ensures RowAgrees(c, u[n], t.minor) <==> RowAccepted(c, t, n)
    {
      AcceptsRow(c, t, n);
    }
    forall n | n in all || Carried(c, removed, n)
      ensures n in u
    {
      assert n in c.Keys + all.Keys;
    }
  }

  /** What the check asks of one setting. */
  predicate RowAccepted(c: Table, t: Toolchain, n: string) {
    var all, removed := ToTable(t.all), ToTable(t.removed);
    if n in all then n in c && (RetiredByNewer(c, t.minor, n) || LiveAlike(c[n], all[n]))
    else Carried(c, removed, n) ==> c[n].removed == removed[n].removed
  }

  lemma AcceptsRow(c: Table, t: Toolchain, n: string)
    requires t.Valid() && Named(c) && n in Updated(c, t)
    ensures RowAgrees(c, Updated(c, t)[n], t.minor) <==> RowAccepted(c, t, n)
  {
    TableKeys(t.all);
    TableKeys(t.removed);
  }

  /** Accepted, and yet an update would rewrite it: the rows the check does not compare, or does not see. */
  predicate Unchecked(c: Table, t: Toolchain, n: string) {
    var all := ToTable(t.all);
    if n in all then RetiredByNewer(c, t.minor, n) && (c[n].changed != all[n].changed || c[n].before != all[n].before)
    else n in c && !Carried(c, ToTable(t.removed), n) && !Outlives(c[n], t.minor)
  }

  lemma AcceptedIsUpdatedUnlessUnchecked(c: Table, t: Toolchain)
    requires t.Valid() && Named(c) && Accepts(c, t)
    ensures Updated(c, t) == c <==> forall n :: !Unchecked(c, t, n)
  {
    AcceptsIff(c, t);
    var u, all := Updated(c, t), ToTable(t.all);
    assert c.Keys + all.Keys == c.Keys;
    forall n | n in c
      ensures Unchecked(c, t, n) <==> MergedRow(c, all, ToTable(t.removed), t.minor, n) != Some(c[n])
    {
      UncheckedRow(c, t, n);
    }
    if forall n :: !Unchecked(c, t, n) {
      assert u == c;
    } else {
      var n :| Unchecked(c, t, n);
      assert n in c && !(n in u && u[n] == c[n]);
    }
  }

  lemma UncheckedRow(c: Table, t: Toolchain, n: string)
    requires t.Valid() && Named(c) && Accepts(c, t) && n in c
    ensures Unchecked(c, t, n) <==> MergedRow(c, ToTable(t.all), ToTable(t.removed), t.minor, n) != Some(c[n])
  {
    AcceptsIff(c, t);
    TableKeys(t.all);
    TableKeys(t.removed);
  }

  lemma OneRow(r: Row)
    ensures ToTable([r]) == map[r.name := r] && ToTable([]) == map[]
  {
    assert [r][..0] == [];
  }

  /** Such a table: a setting retired by a newer toolchain, dated otherwise than by the toolchain at hand. */
  lemma AcceptedButRewritten(n: string, before: string, minor: nat, retired: nat, changed: nat, recorded: nat)
    requires retired > minor && changed > 0 && changed != recorded
    ensures var c, t := map[n := Row(n, recorded, before, retired)], Toolchain(minor, [Row(n, changed, before, 0)], []);
      t.Valid() && Named(c) && Accepts(c, t) && Unchecked(c, t, n) && Updated(c, t) != c
  {
    var c, t := map[n := Row(n, recorded, before, retired)], Toolchain(minor, [Row(n, changed, before, 0)], []);
    OneRow(t.all[0]);
    AcceptsIff(c, t);
    AcceptedIsUpdatedUnlessUnchecked(c, t);
  }

  // ---- Updates by toolchains of any age ----

  /** Exactly which rows an update drops. */
  lemma DroppedIff(c: Table, t: Toolchain, n: string)
    requires n in c
    ensures n !in Updated(c, t) <==>
      n !in ToTable(t.all) && !Carried(c, ToTable(t.removed), n)
      && c[n].changed <= t.minor && 0 < c[n].removed <= t.minor
  {
    assert n in c.Keys + ToTable(t.all).Keys;
  }

  /** An older toolchain never drops a row with a Changed or Removed above its minor. */
  lemma NewerRowKept(c: Table, t: Toolchain, n: string)
    requires n in c && (c[n].changed > t.minor || c[n].removed > t.minor)
    ensures n in Updated(c, t)
  {
    DroppedIff(c, t, n);
  }

  /** And keeps such a Removed, unless it lists the name as retired itself. */
  lemma NewerRemovedKept(c: Table, t: Toolchain, n: string)
    requires t.Valid() && n in c && c[n].removed > t.minor
    ensures n in Updated(c, t)
    ensures Updated(c, t)[n].removed == if Carried(c, ToTable(t.removed), n) then ToTable(t.removed)[n].removed
      else c[n].removed
  {
    DroppedIff(c, t, n);
    TableKeys(t.all);
    TableKeys(t.removed);
  }

  /** One update after the other. */
  function UpdatedBy(c: Table, ts: seq<Toolchain>): Table
    decreases |ts|
  {
    if |ts| == 0 then c else UpdatedBy(Updated(c, ts[0]), ts[1..])
  }

  /** What a sequence of updates makes of a Removed: each toolchain that lists the name as retired sets its own. */
  function RemovedAfter(removed: nat, ts: seq<Toolchain>, n: string): nat
    decreases |ts|
  {
    if |ts| == 0 then removed else RemovedAfter(RetiredIn(ts[0], n, removed), ts[1..], n)
  }

  function RetiredIn(t: Toolchain, n: string, removed: nat): nat {
    if n in ToTable(t.removed) then ToTable(t.removed)[n].removed else removed
  }

  /** No toolchain of the sequence meets the row retired at or below its minor without listing it as retired. */
  predicate NeverStale(removed: nat, ts: seq<Toolchain>, n: string)
    decreases |ts|
  {
    |ts| > 0 ==>
      && (n in ToTable(ts[0].removed) || removed == 0 || removed > ts[0].minor)
      && NeverStale(RetiredIn(ts[0], n, removed), ts[1..], n)
  }

  /**
    Over any sequence of updates by toolchains of any age: a row that is never stale stays, and its
    Removed is the one the last toolchain that lists the name as retired gives, or else its own.
    (carryRemoved skips a retired name whose row has no Changed.)
   */
  lemma {:induction false} NewerRowSurvives(c: Table, ts: seq<Toolchain>, n: string)
    requires forall t :: t in ts ==> t.Valid()
    requires n in c && NeverStale(c[n].removed, ts, n)
    requires c[n].changed != 0 || forall t :: t in ts ==> n !in Names(t.removed)
    ensures n in UpdatedBy(c, ts) && UpdatedBy(c, ts)[n].removed == RemovedAfter(c[n].removed, ts, n)
    decreases |ts|
  {
    if |ts| > 0 {
      var t := ts[0];
      assert t in ts;
      OneUpdate(c, t, n);
      NewerRowSurvives(Updated(c, t), ts[1..], n);
    }
  }

  lemma OneUpdate(c: Table, t: Toolchain, n: string)
    requires t.Valid() && n in c && (c[n].changed != 0 || n !in Names(t.removed))
    requires n in ToTable(t.removed) || c[n].removed == 0 || c[n].removed > t.minor
    ensures n in Updated(c, t) && (c[n].changed != 0 ==> Updated(c, t)[n].changed != 0)
    ensures Updated(c, t)[n].removed == RetiredIn(t, n, c[n].removed)
  {
    DroppedIff(c, t, n);
    TableKeys(t.all);
    TableKeys(t.removed);
  }
}
