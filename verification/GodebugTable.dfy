/**
  scripts/check-godebug-table.go: the committed godebugTable as a superset over toolchains, how
  --update merges one toolchain's tables into it, and what the check compares.
 */
module GodebugTable {
  import opened Wrappers
  import opened Ordering

  /** A row of godebugTable or of godebugs.All; `removed` 0 means still in godebugs.All. */
  datatype Row = Row(name: string, changed: nat, before: string, removed: nat)

  /** What the script reads of a GOROOT: the minor, All's rows with Changed set, the Removed names. */
  datatype Toolchain = Toolchain(minor: nat, all: seq<Row>, removed: seq<Row>) {
    /** Every setting is named once, in one of the two lists. */
    ghost predicate Valid() {
      && NamesOnce(all) && NamesOnce(removed)
      && (forall n :: n in Names(all) ==> n !in Names(removed))
      && (forall r :: r in all ==> r.changed > 0 && r.removed == 0)
      && (forall r :: r in removed ==> r.removed > 0)
    }
  }

  function Names(rows: seq<Row>): set<string> {
    set r | r in rows :: r.name
  }

  ghost predicate NamesOnce(rows: seq<Row>) {
    forall i, j :: 0 <= i < j < |rows| ==> rows[i].name != rows[j].name
  }

  type Table = map<string, Row>

  /** The map a loop over the rows leaves: the last row of a name. */
  function ToTable(rows: seq<Row>): Table {
    if |rows| == 0 then map[] else ToTable(rows[..|rows| - 1])[rows[|rows| - 1].name := rows[|rows| - 1]]
  }

  lemma {:induction false} TableKeys(rows: seq<Row>)
    ensures ToTable(rows).Keys == Names(rows)
    ensures forall n :: n in ToTable(rows) ==> ToTable(rows)[n] in rows && ToTable(rows)[n].name == n
  {
    if |rows| > 0 {
      var last := |rows| - 1;
      TableKeys(rows[..last]);
      assert rows == rows[..last] + [rows[last]];
    }
  }

  lemma TableRow(rows: seq<Row>, r: Row)
    requires NamesOnce(rows) && r in rows
    ensures r.name in ToTable(rows) && ToTable(rows)[r.name] == r
  {
    TableKeys(rows);
    assert r.name in Names(rows);
  }

  // ---- The merge, by name ----

  /** A retired name comes with the committed Changed/Old; without them it is skipped. */
  predicate Carried(c: Table, removed: Table, n: string) {
    n in removed && n in c && c[n].changed != 0
  }

  /** A committed row the toolchain does not list stays: it is a newer toolchain's, or still live. */
  predicate Outlives(row: Row, minor: nat) {
    row.changed > minor || row.removed > minor || row.removed == 0
  }

  /** What the merge leaves of a name. */
  function MergedRow(c: Table, all: Table, removed: Table, minor: nat, n: string): Option<Row> {
    if n in all then
      if n in c && c[n].removed > minor then Some(all[n].(removed := c[n].removed)) else Some(all[n])
    else if Carried(c, removed, n) then Some(Row(n, c[n].changed, c[n].before, removed[n].removed))
    else if n in c && Outlives(c[n], minor) then Some(c[n])
    else None
  }

  function Merged(c: Table, all: Table, removed: Table, minor: nat): Table {
    map n | n in c.Keys + all.Keys && MergedRow(c, all, removed, minor, n).Some? ::
      MergedRow(c, all, removed, minor, n).value
  }

  /** --update, on tables. */
  function Updated(c: Table, t: Toolchain): Table {
    Merged(c, ToTable(t.all), ToTable(t.removed), t.minor)
  }

  // ---- The check, by name ----

  /** diffTables finds nothing to say about a row of the merged table. */
  predicate RowAgrees(c: Table, u: Row, minor: nat) {
    && u.name in c
    && if u.removed > 0 then c[u.name].removed == u.removed
       else c[u.name].changed == u.changed && c[u.name].before == u.before && !(0 < c[u.name].removed <= minor)
  }

  predicate AllAgree(c: Table, u: Table, minor: nat) {
    forall n :: n in u ==> RowAgrees(c, u[n], minor)
  }

  predicate Accepts(c: Table, t: Toolchain) {
    AllAgree(c, Updated(c, t), t.minor)
  }

  // ---- The script ----

  ghost predicate SortedByName(rows: seq<Row>) {
    forall i, j :: 0 <= i < j < |rows| ==> Less(rows[i].name, rows[j].name)
  }

  method TableOf(rows: seq<Row>) returns (m: Table)
    ensures m == ToTable(rows)
  {
    m := map[];
    for i := 0 to |rows|
      invariant m == ToTable(rows[..i])
    {
      assert rows[..i + 1][..i] == rows[..i];
      m := m[rows[i].name := rows[i]];
    }
    assert rows[..|rows|] == rows;
  }

  function CarryRow(cm: Table, r: Row): seq<Row> {
    if r.name !in cm || cm[r.name].changed == 0 then []
    else [Row(r.name, cm[r.name].changed, cm[r.name].before, r.removed)]
  }

  function Carry(cm: Table, removed: seq<Row>): seq<Row> {
    if |removed| == 0 then [] else Carry(cm, removed[..|removed| - 1]) + CarryRow(cm, removed[|removed| - 1])
  }

  /** carryRemoved. */
  method CarryRemoved(removed: seq<Row>, committed: seq<Row>) returns (out: seq<Row>)
    ensures out == Carry(ToTable(committed), removed)
  {
    var cm := TableOf(committed);
    out := [];
    for i := 0 to |removed|
      invariant out == Carry(cm, removed[..i])
    {
      assert removed[..i + 1][..i] == removed[..i];
      var r := removed[i];
      if r.name in cm && cm[r.name].changed != 0 {
        out := out + [Row(r.name, cm[r.name].changed, cm[r.name].before, r.removed)];
      }
    }
    assert removed[..|removed|] == removed;
  }

  /** A row live for this toolchain keeps the Removed of a newer one. */
  function Adjusted(c: Table, e: Row, minor: nat): Row {
    if e.name in c && e.removed == 0 && c[e.name].removed > minor then e.(removed := c[e.name].removed) else e
  }

  function AdjustedAll(c: Table, rows: seq<Row>, minor: nat): seq<Row> {
    seq(|rows|, i requires 0 <= i < |rows| => Adjusted(c, rows[i], minor))
  }

  /** The committed rows among `left` that a toolchain of this minor has to keep. */
  function KeptRows(left: Table, committed: seq<Row>, minor: nat): seq<Row> {
    if |committed| == 0 then []
    else
      var c := committed[|committed| - 1];
      KeptRows(left, committed[..|committed| - 1], minor)
      + if c.name in left && Outlives(left[c.name], minor) then [left[c.name]] else []
  }

  /** The rows before they are sorted. */
  function MergedRows(committed: seq<Row>, t: Toolchain): seq<Row> {
    var c := ToTable(committed);
    var listed := t.all + Carry(c, t.removed);
    AdjustedAll(c, listed, t.minor) + KeptRows(c - Names(listed), committed, t.minor)
  }

  /** The loop that takes over a newer Removed and crosses the listed names off the committed map. */
  method AdjustListed(listed: seq<Row>, c: Table, minor: nat) returns (upstream: seq<Row>, cm: Table)
    requires NamesOnce(listed)
    ensures upstream == AdjustedAll(c, listed, minor) && cm == c - Names(listed)
  {
    upstream, cm := listed, c;
    for i := 0 to |listed|
      invariant |upstream| == |listed|
      invariant forall k :: 0 <= k < i ==> upstream[k] == Adjusted(c, listed[k], minor)
      invariant forall k :: i <= k < |listed| ==> upstream[k] == listed[k]
      invariant cm == c - Names(listed[..i])
    {
      var e := upstream[i];
      NamesOneMore(listed, i);
      if e.name in cm && e.removed == 0 && cm[e.name].removed > minor {
        upstream := upstream[i := e.(removed := cm[e.name].removed)];
      }
      cm := cm - {e.name};
    }
    assert listed[..|listed|] == listed;
  }

  lemma NamesOneMore(listed: seq<Row>, i: nat)
    requires NamesOnce(listed) && i < |listed|
    ensures Names(listed[..i + 1]) == Names(listed[..i]) + {listed[i].name} && listed[i].name !in Names(listed[..i])
  {
    assert listed[..i + 1] == listed[..i] + [listed[i]];
  }

  /** The loop that appends the committed rows this toolchain cannot see but must not erase. */
  method AppendKept(listed: seq<Row>, cm: Table, committed: seq<Row>, minor: nat) returns (upstream: seq<Row>)
    ensures upstream == listed + KeptRows(cm, committed, minor)
  {
    upstream := listed;
    for i := 0 to |committed|
      invariant upstream == listed + KeptRows(cm, committed[..i], minor)
    {
      assert committed[..i + 1][..i] == committed[..i];
      if committed[i].name in cm {
        var e := cm[committed[i].name];
        if e.changed > minor || (e.removed > 0 && e.removed > minor) {
          upstream := upstream + [e];
        } else if e.removed == 0 {
          upstream := upstream + [e];
        }
      }
    }
    assert committed[..|committed|] == committed;
  }

  /** What main makes of the two tables, for --update to write and for the check to compare. */
  method Merge(committed: seq<Row>, t: Toolchain) returns (upstream: seq<Row>)
    requires t.Valid() && NamesOnce(committed)
    ensures SortedByName(upstream) && ToTable(upstream) == Updated(ToTable(committed), t)
  {
    var carried := CarryRemoved(t.removed, committed);
    upstream := t.all + carried;
    ListedOnce(committed, t);
    var cm := TableOf(committed);
    upstream, cm := AdjustListed(upstream, cm, t.minor);
    upstream := AppendKept(upstream, cm, committed, t.minor);
    MergedRowsHold(committed, t);
    upstream := SortRows(upstream);
    SortedNamesOnce(upstream);
    UpdatedNames(ToTable(committed), t);
    HoldsTable(upstream, Updated(ToTable(committed), t));
  }

  // ---- The rows and the table they stand for ----

  /** The rows are the table's, each once. */
  ghost predicate Holds(rows: seq<Row>, m: Table) {
    NamesOnce(rows) && forall r :: r in rows <==> r.name in m && m[r.name] == r
  }

  lemma HoldsTable(rows: seq<Row>, m: Table)
    requires Holds(rows, m) && forall n :: n in m ==> m[n].name == n
    ensures ToTable(rows) == m
  {
    TableKeys(rows);
    forall n | n in m
      ensures n in ToTable(rows) && ToTable(rows)[n] == m[n]
    {
      assert m[n] in rows;
      TableRow(rows, m[n]);
    }
    forall n | n in ToTable(rows)
      ensures n in m
    {
      assert ToTable(rows)[n] in rows;
    }
  }

  ghost predicate CarriedFrom(c: Table, removed: seq<Row>, r: Row) {
    exists x :: x in removed && CarryRow(c, x) == [r]
  }

  lemma {:induction false} CarryElements(c: Table, removed: seq<Row>)
    requires NamesOnce(removed)
    ensures NamesOnce(Carry(c, removed))
    ensures forall r :: r in Carry(c, removed) <==> CarriedFrom(c, removed, r)
    ensures forall r :: r in Carry(c, removed) ==> r.name in Names(removed)
  {
    if |removed| > 0 {
      var last := removed[|removed| - 1];
      var init := removed[..|removed| - 1];
      CarryElements(c, init);
      assert removed == init + [last];
      assert last.name !in Names(init);
      forall r
        ensures CarriedFrom(c, removed, r) <==> CarriedFrom(c, init, r) || CarryRow(c, last) == [r]
      {
        CarriedFromMore(c, init, last, r);
      }
    }
  }

  lemma CarriedFromMore(c: Table, init: seq<Row>, last: Row, r: Row)
    ensures CarriedFrom(c, init + [last], r) <==> CarriedFrom(c, init, r) || CarryRow(c, last) == [r]
  {
    if CarriedFrom(c, init, r) {
      var x :| x in init && CarryRow(c, x) == [r];
      assert x in init + [last];
    } else if CarryRow(c, last) == [r] {
      assert last in init + [last];
    }
  }

  lemma {:induction false} KeptElements(left: Table, committed: seq<Row>, minor: nat)
    requires NamesOnce(committed) && forall n :: n in left ==> left[n].name == n
    ensures NamesOnce(KeptRows(left, committed, minor))
    ensures forall r :: r in KeptRows(left, committed, minor) <==>
              r.name in left && left[r.name] == r && Outlives(r, minor) && r.name in Names(committed)
  {
    if |committed| > 0 {
      var last := committed[|committed| - 1];
      var init := committed[..|committed| - 1];
      KeptElements(left, init, minor);
      assert committed == init + [last];
      assert last.name !in Names(init);
      assert Names(committed) == Names(init) + {last.name};
    }
  }

  /** No name is listed twice. */
  lemma ListedOnce(committed: seq<Row>, t: Toolchain)
    requires t.Valid()
    ensures NamesOnce(t.all + Carry(ToTable(committed), t.removed))
  {
    var carried := Carry(ToTable(committed), t.removed);
    CarryElements(ToTable(committed), t.removed);
    var listed := t.all + carried;
    forall a, b | 0 <= a < b < |listed|
      ensures listed[a].name != listed[b].name
    {
      if a < |t.all| <= b {
        assert listed[b] in carried && t.all[a] in t.all;
        assert t.all[a].name in Names(t.all);
      }
    }
  }

  lemma SortedNamesOnce(rows: seq<Row>)
    requires SortedByName(rows)
    ensures NamesOnce(rows)
  {
    forall i, j | 0 <= i < j < |rows|
      ensures rows[i].name != rows[j].name
    {
      LessIrreflexive(rows[i].name);
    }
  }

  /** A row is stored under its own name. */
  ghost predicate Named(m: Table) {
    forall n :: n in m ==> m[n].name == n
  }

  lemma UpdatedNames(c: Table, t: Toolchain)
    requires Named(c)
    ensures Named(Updated(c, t))
  {
    TableKeys(t.all);
  }

  /** A listed row, adjusted, is the merged row of its name. */
  lemma ListedRow(c: Table, t: Toolchain, r: Row)
    requires t.Valid() && Named(c) && r in t.all + Carry(c, t.removed)
    ensures var u := Updated(c, t); r.name in u && u[r.name] == Adjusted(c, r, t.minor)
  {
    TableKeys(t.all);
    TableKeys(t.removed);
    if r in t.all {
      TableRow(t.all, r);
    } else {
      CarryElements(c, t.removed);
      var x :| x in t.removed && CarryRow(c, x) == [r];
      TableRow(t.removed, x);
      assert x.name in Names(t.removed) && x.name !in Names(t.all);
    }
  }

  /** And the names the toolchain lists or carries are the listed ones. */
  lemma ListedNames(c: Table, t: Toolchain, n: string)
    requires t.Valid()
    ensures n in Names(t.all + Carry(c, t.removed)) <==> n in ToTable(t.all) || Carried(c, ToTable(t.removed), n)
  {
    TableKeys(t.all);
    TableKeys(t.removed);
    CarryElements(c, t.removed);
    var listed := t.all + Carry(c, t.removed);
    if n in Names(listed) {
      var r :| r in listed && r.name == n;
      if r !in t.all {
        var x :| x in t.removed && CarryRow(c, x) == [r];
        assert x.name in Names(t.removed);
      }
    }
    if n in ToTable(t.all) {
      var r :| r in t.all && r.name == n;
      assert r in listed;
    } else if Carried(c, ToTable(t.removed), n) {
      var x := ToTable(t.removed)[n];
      assert x in t.removed && CarryRow(c, x) == [CarryRow(c, x)[0]];
      assert CarryRow(c, x)[0] in listed;
    }
  }

  lemma MergedRowsHold(committed: seq<Row>, t: Toolchain)
    requires t.Valid() && NamesOnce(committed)
    ensures Named(ToTable(committed))
    ensures Holds(MergedRows(committed, t), Updated(ToTable(committed), t))
  {
    var c := ToTable(committed);
    TableKeys(committed);
    var listed, u := t.all + Carry(c, t.removed), Updated(c, t);
    var adjusted, kept := AdjustedAll(c, listed, t.minor), KeptRows(c - Names(listed), committed, t.minor);
    ListedOnce(committed, t);
    KeptElements(c - Names(listed), committed, t.minor);
    UpdatedNames(c, t);
    forall i | 0 <= i < |adjusted|
      ensures adjusted[i].name == listed[i].name && adjusted[i].name in Names(listed)
      ensures adjusted[i].name in u && u[adjusted[i].name] == adjusted[i]
    {
      assert listed[i] in listed;
      ListedRow(c, t, listed[i]);
    }
    forall r | r in kept
      ensures r.name !in Names(listed) && r.name in u && u[r.name] == r
    {
      ListedNames(c, t, r.name);
    }
    forall r: Row | r.name in u && u[r.name] == r
      ensures r in adjusted + kept
    {
      ListedNames(c, t, r.name);
      if r.name in Names(listed) {
        var i :| 0 <= i < |listed| && listed[i].name == r.name;
        assert adjusted[i] == r;
      } else {
        assert r in kept;
      }
    }
    DisjointNamesOnce(adjusted, kept);
  }

  lemma DisjointNamesOnce(a: seq<Row>, b: seq<Row>)
    requires NamesOnce(a) && NamesOnce(b)
    requires forall x: Row, y: Row :: x in a && y in b ==> x.name != y.name
    ensures NamesOnce(a + b)
  {
    forall i, j | 0 <= i < j < |a + b|
      ensures (a + b)[i].name != (a + b)[j].name
    {
      if i < |a| <= j {
        assert a[i] in a && b[j - |a|] in b;
      }
    }
  }

  function InsertRow(x: Row, s: seq<Row>): seq<Row> {
    if |s| == 0 then [x] else if Less(s[0].name, x.name) then [s[0]] + InsertRow(x, s[1..]) else [x] + s
  }

  /** sort.Slice by name. */
  method SortRows(rows: seq<Row>) returns (r: seq<Row>)
    requires NamesOnce(rows)
    ensures SortedByName(r) && forall x :: x in r <==> x in rows
  {
    r := [];
    for i := 0 to |rows|
      invariant SortedByName(r) && forall x :: x in r <==> x in rows[..i]
    {
      assert rows[..i + 1] == rows[..i] + [rows[i]];
      InsertSorted(rows[i], r);
      r := InsertRow(rows[i], r);
    }
    assert rows[..|rows|] == rows;
  }

  lemma {:induction false} InsertSorted(x: Row, s: seq<Row>)
    requires SortedByName(s) && forall y :: y in s ==> y.name != x.name
    ensures SortedByName(InsertRow(x, s))
    ensures forall y :: y in InsertRow(x, s) <==> y == x || y in s
  {
    if |s| > 0 {
      LessTotal(s[0].name, x.name);
      if Less(s[0].name, x.name) {
        InsertSorted(x, s[1..]);
        assert s == [s[0]] + s[1..];
        var t := InsertRow(x, s[1..]);
        forall j | 0 <= j < |t|
          ensures Less(s[0].name, t[j].name)
        {
          assert t[j] in t;
        }
      } else {
        forall j | 0 <= j < |s|
          ensures Less(x.name, s[j].name)
        {
          if j > 0 {
            LessTransitive(x.name, s[0].name, s[j].name);
          }
        }
      }
    }
  }

  // ---- The comparison ----

  datatype Finding = Missing(upstream: Row) | Stale(committed: Row, upstream: Row)

  function MissingOf(c: Table, rows: seq<Row>): seq<Finding> {
    if |rows| == 0 then []
    else
      var u := rows[|rows| - 1];
      MissingOf(c, rows[..|rows| - 1]) + if u.name in c then [] else [Missing(u)]
  }

  function StaleOf(c: Table, rows: seq<Row>, minor: nat): seq<Finding> {
    if |rows| == 0 then []
    else
      var u := rows[|rows| - 1];
      StaleOf(c, rows[..|rows| - 1], minor)
      + if u.name in c && !RowAgrees(c, u, minor) then [Stale(c[u.name], u)] else []
  }

  /** A finding for each row the table lacks, and for each it disagrees with, together with the table's row. */
  ghost predicate AreFindings(c: Table, rows: seq<Row>, minor: nat, findings: seq<Finding>) {
    && (forall u :: Missing(u) in findings <==> u in rows && u.name !in c)
    && (forall u, x :: Stale(x, u) in findings <==>
          u in rows && u.name in c && x == c[u.name] && !RowAgrees(c, u, minor))
  }

  lemma {:induction false} ElementsOfBoth(c: Table, rows: seq<Row>, minor: nat)
    ensures forall f :: f in MissingOf(c, rows) <==> f.Missing? && f.upstream in rows && f.upstream.name !in c
    ensures forall f :: f in StaleOf(c, rows, minor) <==>
      f.Stale? && f.upstream in rows && f.upstream.name in c && f.committed == c[f.upstream.name]
      && !RowAgrees(c, f.upstream, minor)
  {
    if |rows| > 0 {
      var init, last := rows[..|rows| - 1], rows[|rows| - 1];
      ElementsOfBoth(c, init, minor);
      assert rows == init + [last];
    }
  }

  lemma FindingsAre(c: Table, rows: seq<Row>, minor: nat)
    ensures AreFindings(c, rows, minor, MissingOf(c, rows) + StaleOf(c, rows, minor))
  {
    ElementsOfBoth(c, rows, minor);
  }

  /** diffTables: the settings the committed table lacks, then those it disagrees on. */
  method DiffTables(committed: seq<Row>, upstream: seq<Row>, minor: nat) returns (findings: seq<Finding>)
    ensures findings == MissingOf(ToTable(committed), upstream) + StaleOf(ToTable(committed), upstream, minor)
    ensures findings == [] <==> forall u :: u in upstream ==> RowAgrees(ToTable(committed), u, minor)
    ensures AreFindings(ToTable(committed), upstream, minor, findings)
  {
    var cm := TableOf(committed);
    findings := [];
    for i := 0 to |upstream|
      invariant findings == MissingOf(cm, upstream[..i])
    {
      assert upstream[..i + 1][..i] == upstream[..i];
      if upstream[i].name !in cm {
        findings := findings + [Missing(upstream[i])];
      }
    }
    assert upstream[..|upstream|] == upstream;
    ghost var missing := findings;
    for i := 0 to |upstream|
      invariant findings == missing + StaleOf(cm, upstream[..i], minor)
    {
      assert upstream[..i + 1][..i] == upstream[..i];
      var u := upstream[i];
      if u.name in cm {
        var c := cm[u.name];
        if u.removed > 0 {
          if c.removed != u.removed {
            findings := findings + [Stale(c, u)];
          }
        } else if c.changed != u.changed || c.before != u.before || (c.removed > 0 && c.removed <= minor) {
          findings := findings + [Stale(c, u)];
        }
      }
    }
    assert upstream[..|upstream|] == upstream;
    NoFindings(cm, upstream, minor);
    FindingsAre(cm, upstream, minor);
  }

  lemma {:induction false} NoFindings(c: Table, rows: seq<Row>, minor: nat)
    ensures |MissingOf(c, rows)| + |StaleOf(c, rows, minor)| == 0 <==> forall u :: u in rows ==> RowAgrees(c, u, minor)
  {
    if |rows| > 0 {
      var init, last := rows[..|rows| - 1], rows[|rows| - 1];
      NoFindings(c, init, minor);
      assert rows == init + [last];
      assert last in rows && forall u :: u in init ==> u in rows;
    }
  }

  /** main without --update: whether the committed table is consistent with the toolchain's. */
  method Check(committed: seq<Row>, t: Toolchain) returns (ok: bool)
    requires t.Valid() && NamesOnce(committed)
    ensures ok == Accepts(ToTable(committed), t)
  {
    var upstream := Merge(committed, t);
    var findings := DiffTables(committed, upstream, t.minor);
    ok := findings == [];
    SortedNamesOnce(upstream);
    RowsOfTable(ToTable(committed), upstream, t.minor);
  }

  lemma RowsOfTable(c: Table, rows: seq<Row>, minor: nat)
    requires NamesOnce(rows)
    ensures (forall r :: r in rows ==> RowAgrees(c, r, minor)) <==> AllAgree(c, ToTable(rows), minor)
  {
    TableKeys(rows);
    forall r | r in rows
      ensures r.name in ToTable(rows) && ToTable(rows)[r.name] == r
    {
      TableRow(rows, r);
    }
  }
}
