/**
  The fallback on the committed table against the driven toolchain's own table: after an update
  with that toolchain the two paths of DefaultGODEBUG agree on every input exactly when every
  committed row the toolchain does not list is of a later minor.
 */
module DefaultGodebugProofs {
  import opened Wrappers
  import opened Ordering
  import opened GodebugTable
  import opened DefaultGodebug

  // ---- Versions ----

  lemma GoIsTrimmed(v: string)
    ensures TrimGo("go" + v) == v
  {
    assert ("go" + v)[2..] == v && ("go" + v)[..2] == "go";
  }

  /** The minor of `1.<digits>` and of `go1.<digits>`, whatever follows the digits: the largest int at most. */
  lemma MinorOfVersion(digits: string, rest: string)
    requires |digits| > 0 && (forall c :: c in digits ==> IsDigit(c)) && (|rest| > 0 ==> !IsDigit(rest[0]))
    ensures var v, n := "1." + (digits + rest), DigitsValue(digits);
      && ParseGoMinor(v) == (if n < 0x7fff_ffff_ffff_ffff then n else 0x7fff_ffff_ffff_ffff)
      && TrimGo("go" + v) == v
  {
    var v := "1." + (digits + rest);
    assert v[2..] == digits + rest;
    MinorIsValue(v, digits, rest);
    GoIsTrimmed(v);
  }

  // ---- The settings a table gives, by name ----

  lemma {:induction false} SettingsByName(rows: seq<Row>, minor: int, own: bool, toolchainMinor: int)
    requires NamesOnce(rows)
    ensures var m := TableSettings(rows, minor, own, toolchainMinor);
      && (forall n :: n in m <==> n in ToTable(rows) && Emitted(ToTable(rows)[n], minor, own, toolchainMinor))
      && (forall n :: n in m ==> m[n] == ToTable(rows)[n].before)
  {
    if |rows| > 0 {
      var init, last := rows[..|rows| - 1], rows[|rows| - 1];
      SettingsByName(init, minor, own, toolchainMinor);
      TableKeys(init);
      assert last.name !in Names(init);
    }
  }

  lemma {:induction false} BaseMinorNatural(minor: int, directives: seq<Godebug>)
    requires minor >= 0
    ensures BaseMinor(minor, directives) >= 0
  {
    if |directives| > 0 {
      BaseMinorNatural(minor, directives[..|directives| - 1]);
    }
  }

  // ---- The two paths ----

  /** The toolchain's tables name no minor after its own. */
  ghost predicate Timely(t: Toolchain) {
    && (forall r :: r in t.all ==> r.changed <= t.minor)
    && (forall r :: r in t.removed ==> r.removed <= t.minor)
  }

  /** Every kept row the toolchain does not list is of a later minor (a row without Changed says nothing). */
  ghost predicate UnlistedAreNewer(c: Table, t: Toolchain) {
    forall n :: n in Updated(c, t) && n !in ToTable(t.all) && !Carried(c, ToTable(t.removed), n) ==>
      Updated(c, t)[n].changed > t.minor || Updated(c, t)[n].changed == 0
  }

  /** rows is what --update with t wrote over the committed table c. */
  ghost predicate IsUpdate(rows: seq<Row>, c: Table, t: Toolchain) {
    t.Valid() && Timely(t) && Named(c) && NamesOnce(rows) && ToTable(rows) == Updated(c, t)
  }

  /** The rows of Merge, the method behind --update, are an update. */
  lemma MergeIsUpdate(rows: seq<Row>, committed: seq<Row>, t: Toolchain)
    requires t.Valid() && Timely(t)
    requires SortedByName(rows) && ToTable(rows) == Updated(ToTable(committed), t)
    ensures IsUpdate(rows, ToTable(committed), t)
  {
    TableKeys(committed);
    SortedNamesOnce(rows);
  }

  /** What the fallback emits from an updated table: the own table's settings, and those of older unlisted rows. */
  lemma FallbackEmits(rows: seq<Row>, c: Table, t: Toolchain, minor: nat, n: string)
    requires IsUpdate(rows, c, t)
    ensures var own, fallback := TableSettings(t.all, minor, true, t.minor), TableSettings(rows, minor, false, t.minor);
      && (n in own ==> n in fallback && own[n] == fallback[n])
      && (n in fallback && n !in own <==>
            n in Updated(c, t) && n !in ToTable(t.all) && !Carried(c, ToTable(t.removed), n)
            && minor < Updated(c, t)[n].changed <= t.minor)
  {
    SettingsByName(t.all, minor, true, t.minor);
    SettingsByName(rows, minor, false, t.minor);
    TableKeys(t.all);
    TableKeys(t.removed);
    assert n in Updated(c, t) ==> n in c.Keys + ToTable(t.all).Keys;
  }

  lemma SameSettings(rows: seq<Row>, c: Table, t: Toolchain, minor: nat)
    requires IsUpdate(rows, c, t) && UnlistedAreNewer(c, t)
    ensures TableSettings(t.all, minor, true, t.minor) == TableSettings(rows, minor, false, t.minor)
  {
    var own, fallback := TableSettings(t.all, minor, true, t.minor), TableSettings(rows, minor, false, t.minor);
    forall n | n in own || n in fallback
      ensures n in own && n in fallback && own[n] == fallback[n]
    {
      FallbackEmits(rows, c, t, minor, n);
    }
    assert own.Keys == fallback.Keys;
  }

  /** Whether the two paths return one string for every go.mod, directive list and FIPS setting. */
  ghost predicate PathsAgree(rows: seq<Row>, t: Toolchain, version: string) {
    forall mod, source, fips ::
      Default(mod, source, fips, version, Some(t.all), rows) == Default(mod, source, fips, version, None, rows)
  }

  lemma NewerRowsAgree(rows: seq<Row>, c: Table, t: Toolchain, version: string)
    requires IsUpdate(rows, c, t) && ParseGoMinor(TrimGo(version)) == t.minor && UnlistedAreNewer(c, t)
    ensures PathsAgree(rows, t, version)
  {
    forall mod, source, fips
      ensures Default(mod, source, fips, version, Some(t.all), rows) == Default(mod, source, fips, version, None, rows)
    {
      if mod.Some? && GoLineMinor(mod.value) >= 0 {
        var directives := mod.value.godebugs + source;
        BaseMinorNatural(GoLineMinor(mod.value), directives);
        SameSettings(rows, c, t, BaseMinor(GoLineMinor(mod.value), directives));
      }
    }
  }

  // ---- An older unlisted row tells the paths apart ----

  function Total(m: Settings, keys: seq<string>): nat
    requires forall k :: k in keys ==> k in m
  {
    if |keys| == 0 then 0 else |Pair(m, keys[0])| + 1 + Total(m, keys[1..])
  }

  lemma {:induction false} TotalAppend(m: Settings, keys: seq<string>, k: string)
    requires k in m && forall x :: x in keys ==> x in m
    ensures Total(m, keys + [k]) == Total(m, keys) + |Pair(m, k)| + 1
  {
    if |keys| == 0 {
      assert (keys + [k])[1..] == [];
    } else {
      TotalAppend(m, keys[1..], k);
      assert (keys + [k])[1..] == keys[1..] + [k];
    }
  }

  lemma {:induction false} JoinedLength(m: Settings, keys: seq<string>)
    requires |keys| > 0 && forall k :: k in keys ==> k in m
    ensures |Joined(m, keys)| + 1 == Total(m, keys)
  {
    var init, last := keys[..|keys| - 1], keys[|keys| - 1];
    assert keys == init + [last];
    TotalAppend(m, init, last);
    if |init| > 0 {
      JoinedLength(m, init);
    }
  }

  lemma {:induction false} TotalInsert(m: Settings, keys: seq<string>, k: string)
    requires StrictlySorted(keys) && k in m && k !in keys && forall x :: x in keys ==> x in m
    ensures Total(m, Insert(k, keys)) == Total(m, keys) + |Pair(m, k)| + 1
  {
    if |keys| > 0 {
      if Less(k, keys[0]) {
        assert ([k] + keys)[1..] == keys;
      } else {
        SortedTail(keys);
        TotalInsert(m, keys[1..], k);
        var t := Insert(k, keys[1..]);
        assert Insert(k, keys) == [keys[0]] + t && ([keys[0]] + t)[1..] == t;
      }
    } else {
      assert [k][1..] == [];
    }
  }

  lemma {:induction false} JoinedSame(m: Settings, w: Settings, keys: seq<string>)
    requires forall k :: k in keys ==> k in m && k in w && m[k] == w[k]
    ensures Joined(m, keys) == Joined(w, keys)
  {
    if |keys| > 0 {
      JoinedSame(m, w, keys[..|keys| - 1]);
    }
  }

  /** One setting more makes a longer string. */
  lemma RenderedLonger(m: Settings, k: string)
    requires k in m
    ensures |Rendered(m - {k})| < |Rendered(m)|
  {
    var less := m - {k};
    var keys := Sorted(less.Keys);
    SortedUnique(Insert(k, keys), Sorted(m.Keys));
    TotalInsert(m, keys, k);
    JoinedLength(m, Sorted(m.Keys));
    JoinedSame(m, less, keys);
    if |keys| > 0 {
      JoinedLength(m, keys);
    }
  }

  lemma {:induction false} RenderedDiffers(m: Settings, w: Settings)
    requires m.Keys < w.Keys && forall k :: k in m ==> m[k] == w[k]
    ensures |Rendered(m)| < |Rendered(w)|
    decreases |w|
  {
    var k :| k in w && k !in m;
    RenderedLonger(w, k);
    var v := w - {k};
    if m.Keys == v.Keys {
      assert m == v;
    } else {
      RenderedDiffers(m, v);
    }
  }

  function Decimal(n: nat): (r: string)
    ensures |r| > 0 && forall c :: c in r ==> IsDigit(c)
  {
    var digit := ['0' + (n % 10) as char];
    if n < 10 then digit else Decimal(n / 10) + digit
  }

  lemma {:induction false} DecimalValue(n: nat)
    ensures DigitsValue(Decimal(n)) == n
  {
    if n >= 10 {
      DecimalValue(n / 10);
      assert Decimal(n)[..|Decimal(n)| - 1] == Decimal(n / 10);
    } else {
      assert Decimal(n)[..0] == "";
    }
  }

  lemma {:induction false} AllDigits(s: string)
    requires forall c :: c in s ==> IsDigit(c)
    ensures LeadingDigits(s) == s
  {
    if |s| > 0 {
      AllDigits(s[1..]);
    }
  }

  /** There is a go line for every minor. */
  lemma GoLineFor(minor: nat) returns (mod: GoMod)
    ensures mod.godebugs == [] && 0 <= GoLineMinor(mod) <= minor
  {
    var v := "1." + Decimal(minor);
    mod := GoMod(Some(v), []);
    assert v[2..] == Decimal(minor) && "1." <= v;
    AllDigits(Decimal(minor));
    DecimalValue(minor);
  }

  /** Without directives and FIPS mode the result is the table's settings. */
  lemma PlainDefault(mod: GoMod, version: string, own: Option<seq<Row>>, committed: seq<Row>)
    requires mod.godebugs == [] && GoLineMinor(mod) >= 0
    ensures var table := if own.Some? then own.value else committed;
      Default(Some(mod), [], "", version, own, committed)
      == Rendered(TableSettings(table, GoLineMinor(mod), own.Some?, ParseGoMinor(TrimGo(version))))
  {
    assert mod.godebugs + [] == [];
  }

  /** Below the minor of an older unlisted row the fallback gives its setting too. */
  lemma OlderRowEmitted(rows: seq<Row>, c: Table, t: Toolchain, n: string, minor: nat)
    requires IsUpdate(rows, c, t) && n in Updated(c, t) && n !in ToTable(t.all) && !Carried(c, ToTable(t.removed), n)
    requires minor < Updated(c, t)[n].changed <= t.minor
    ensures Rendered(TableSettings(t.all, minor, true, t.minor)) != Rendered(TableSettings(rows, minor, false, t.minor))
  {
    var own, fallback := TableSettings(t.all, minor, true, t.minor), TableSettings(rows, minor, false, t.minor);
    forall k | k in own
      ensures k in fallback && own[k] == fallback[k]
    {
      FallbackEmits(rows, c, t, minor, k);
    }
    FallbackEmits(rows, c, t, minor, n);
    RenderedDiffers(own, fallback);
  }

  lemma OlderRowDiffers(rows: seq<Row>, c: Table, t: Toolchain, version: string, n: string)
    requires IsUpdate(rows, c, t) && ParseGoMinor(TrimGo(version)) == t.minor
    requires n in Updated(c, t) && n !in ToTable(t.all) && !Carried(c, ToTable(t.removed), n)
    requires 0 < Updated(c, t)[n].changed <= t.minor
    ensures !PathsAgree(rows, t, version)
  {
    var before := Updated(c, t)[n].changed - 1;
    var mod := GoLineFor(before);
    OlderRowEmitted(rows, c, t, n, GoLineMinor(mod));
    PlainDefault(mod, version, Some(t.all), rows);
    PlainDefault(mod, version, None, rows);
  }

  /** The promise of the fallback, and exactly when it is kept. */
  lemma FallbackAgreesIff(rows: seq<Row>, c: Table, t: Toolchain, version: string)
    requires IsUpdate(rows, c, t) && ParseGoMinor(TrimGo(version)) == t.minor
    ensures PathsAgree(rows, t, version) <==> UnlistedAreNewer(c, t)
  {
    if UnlistedAreNewer(c, t) {
      NewerRowsAgree(rows, c, t, version);
    } else {
      var n :| n in Updated(c, t) && n !in ToTable(t.all) && !Carried(c, ToTable(t.removed), n)
        && 0 < Updated(c, t)[n].changed <= t.minor;
      OlderRowDiffers(rows, c, t, version, n);
    }
  }

  /** A table that breaks it: one row of the toolchain's own minors that a later patch release added. */
  lemma LaterReleaseDiffers(row: Row, minor: nat, version: string)
    requires 0 < row.changed <= minor && row.removed == 0 && ParseGoMinor(TrimGo(version)) == minor
    ensures var c, t := map[row.name := row], Toolchain(minor, [], []);
      IsUpdate([row], c, t) && !UnlistedAreNewer(c, t) && !PathsAgree([row], t, version)
  {
    var c, t := map[row.name := row], Toolchain(minor, [], []);
    assert [row][..0] == [];
    assert ToTable([row]) == c && ToTable([]) == map[];
    assert Updated(c, t) == c;
    OlderRowDiffers([row], c, t, version, row.name);
  }

  // ---- Directives ----

  /** A key=value directive wins over every table and over FIPS mode; of several for one key the last one wins. */
  lemma LastDirectiveWins(table: seq<Row>, own: bool, toolchainMinor: int, minor: int, fips: bool,
                          before: seq<Godebug>, d: Godebug, behind: seq<Godebug>)
    requires d.key != "default" && forall e :: e in behind ==> e.key != d.key
    ensures var m := AllSettings(table, own, toolchainMinor, minor, fips, before + [d] + behind);
      d.key in m && m[d.key] == d.value
  {
    var directives := before + [d] + behind;
    var defaults := TableSettings(table, BaseMinor(minor, directives), own, toolchainMinor);
    var start := if fips then defaults["fips140" := "on"] else defaults;
    ExplicitAppend(start, before + [d], behind);
    ExplicitAppend(start, before, [d]);
    assert [d][..0] == [];
    ExplicitKeeps(Explicit(start, before + [d]), behind, d.key);
  }

  lemma {:induction false} ExplicitKeeps(m: Settings, directives: seq<Godebug>, key: string)
    requires key in m && forall e :: e in directives ==> e.key != key
    ensures key in Explicit(m, directives) && Explicit(m, directives)[key] == m[key]
  {
    if |directives| > 0 {
      var init := directives[..|directives| - 1];
      assert directives[|directives| - 1] in directives;
      ExplicitKeeps(m, init, key);
    }
  }
}
