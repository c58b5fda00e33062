/**
  DefaultGODEBUG (go/go2nix/pkg/buildinfo/godebug.go): the default GODEBUG string of a main
  package, from the driven toolchain's own table or from the committed one.
 */
module DefaultGodebug {
  import opened Wrappers
  import opened Ordering
  import Seqs
  import opened GodebugTable

  datatype Godebug = Godebug(key: string, value: string)

  /** go.mod as far as it is read: the version on its go line, and its godebug lines. */
  datatype GoMod = GoMod(goLine: Option<string>, godebugs: seq<Godebug>)

  type Settings = map<string, string>

  // ---- Versions ----

  predicate IsDigit(c: char) {
    '0' <= c <= '9'
  }

  function LeadingDigits(s: string): string {
    if |s| > 0 && IsDigit(s[0]) then [s[0]] + LeadingDigits(s[1..]) else ""
  }

  function DigitsValue(s: string): nat
    requires forall c :: c in s ==> IsDigit(c)
  {
    if |s| == 0 then 0
    else
      assert IsDigit(s[|s| - 1]);
      10 * DigitsValue(s[..|s| - 1]) + (s[|s| - 1] - '0') as int
  }

  lemma {:induction false} LeadingAreDigits(s: string)
    ensures forall c :: c in LeadingDigits(s) ==> IsDigit(c)
  {
    if |s| > 0 && IsDigit(s[0]) {
      LeadingAreDigits(s[1..]);
    }
  }

  const MAX_INT: nat := 0x7fff_ffff_ffff_ffff

  /** The digits behind "1.", as strconv.Atoi leaves them (the largest int when out of range); -1 without any. */
  function ParseGoMinor(v: string): int {
    if !("1." <= v) then -1
    else
      var digits := LeadingDigits(v[2..]);
      if digits == "" then -1
      else
        LeadingAreDigits(v[2..]);
        var n := DigitsValue(digits);
        if n > MAX_INT then MAX_INT else n
  }

  lemma {:induction false} DigitsLead(digits: string, rest: string)
    requires (forall c :: c in digits ==> IsDigit(c)) && (|rest| > 0 ==> !IsDigit(rest[0]))
    ensures LeadingDigits(digits + rest) == digits
  {
    if |digits| == 0 {
      assert digits + rest == rest;
    } else {
      assert (digits + rest)[1..] == digits[1..] + rest;
      DigitsLead(digits[1..], rest);
    }
  }

  lemma MinorIsValue(v: string, digits: string, rest: string)
    requires |digits| > 0 && (forall c :: c in digits ==> IsDigit(c)) && (|rest| > 0 ==> !IsDigit(rest[0]))
    requires "1." <= v && v[2..] == digits + rest
    ensures var n := DigitsValue(digits);
      ParseGoMinor(v) == if n < 0x7fff_ffff_ffff_ffff then n else 0x7fff_ffff_ffff_ffff
  {
    DigitsLead(digits, rest);
  }

  function TrimGo(v: string): string {
    if "go" <= v then v[2..] else v
  }

  predicate Fips140Enabled(v: string) {
    v != "" && v != "off"
  }

  // ---- The settings, phase by phase ----

  /** The base minor: the go line's, unless a default= directive that parses overrides it; the last one counts. */
  function BaseMinor(minor: int, directives: seq<Godebug>): int {
    if |directives| == 0 then minor
    else
      var d := directives[|directives| - 1];
      var m := ParseGoMinor(TrimGo(d.value));
      if d.key == "default" && m >= 0 then m else BaseMinor(minor, directives[..|directives| - 1])
  }

  /** Whether the committed table counts a row for a toolchain of this minor; -1 is taken for the newest. */
  predicate Counted(r: Row, toolchainMinor: int) {
    && !(0 <= toolchainMinor < r.changed)
    && !(r.removed > 0 && (toolchainMinor < 0 || toolchainMinor >= r.removed))
  }

  predicate Emitted(r: Row, minor: int, own: bool, toolchainMinor: int) {
    minor < r.changed && (own || Counted(r, toolchainMinor))
  }

  function TableSettings(rows: seq<Row>, minor: int, own: bool, toolchainMinor: int): Settings {
    if |rows| == 0 then map[]
    else
      var r := rows[|rows| - 1];
      var m := TableSettings(rows[..|rows| - 1], minor, own, toolchainMinor);
      if Emitted(r, minor, own, toolchainMinor) then m[r.name := r.before] else m
  }

  function Explicit(m: Settings, directives: seq<Godebug>): Settings {
    if |directives| == 0 then m
    else
      var d := directives[|directives| - 1];
      var rest := Explicit(m, directives[..|directives| - 1]);
      if d.key == "default" then rest else rest[d.key := d.value]
  }

  function Pair(m: Settings, k: string): string
    requires k in m
  {
    k + "=" + m[k]
  }

  function Joined(m: Settings, keys: seq<string>): string
    requires forall k :: k in keys ==> k in m
  {
    if |keys| == 0 then ""
    else
      var init, last := keys[..|keys| - 1], keys[|keys| - 1];
      if |init| == 0 then Pair(m, last) else Joined(m, init) + "," + Pair(m, last)
  }

  ghost function Rendered(m: Settings): string {
    Joined(m, Sorted(m.Keys))
  }

  ghost function AllSettings(table: seq<Row>, own: bool, toolchainMinor: int, minor: int, fips: bool,
                             directives: seq<Godebug>): Settings {
    var defaults := TableSettings(table, BaseMinor(minor, directives), own, toolchainMinor);
    Explicit(if fips then defaults["fips140" := "on"] else defaults, directives)
  }

  function GoLineMinor(mod: GoMod): int {
    ParseGoMinor(if mod.goLine.Some? then mod.goLine.value else "1.16")
  }

  /** The whole of it; `own` is the driven toolchain's table, if its table.go could be read. */
  ghost function Default(mod: Option<GoMod>, source: seq<Godebug>, goFips140: string, toolchainVersion: string,
                         own: Option<seq<Row>>, committed: seq<Row>): string {
    if mod.None? || GoLineMinor(mod.value) < 0 then ""
    else
      var table := if own.Some? then own.value else committed;
      Rendered(AllSettings(table, own.Some?, ParseGoMinor(TrimGo(toolchainVersion)),
                           GoLineMinor(mod.value), Fips140Enabled(goFips140), mod.value.godebugs + source))
  }

  // ---- What the string says, key by key ----

  /** The last directive of a key in a list. */
  ghost predicate LastOfKey(ds: seq<Godebug>, i: nat, k: string) {
    i < |ds| && ds[i].key == k && forall j :: i < j < |ds| ==> ds[j].key != k
  }

  ghost predicate Sets(ds: seq<Godebug>, k: string) {
    k != "default" && exists d :: d in ds && d.key == k
  }

  ghost predicate LastSets(ds: seq<Godebug>, k: string, m: Settings) {
    k in m && exists i: nat :: LastOfKey(ds, i, k) && m[k] == ds[i].value
  }

  /**
    A row gives its old value below the minor it was changed in. The committed table's does only if the
    toolchain has the setting: not before that minor, nor from the one it was removed in. A toolchain of
    no known minor is newer than any.
   */
  predicate RowGives(r: Row, minor: int, own: bool, toolchainMinor: int) {
    && minor < r.changed
    && (own || toolchainMinor < 0 || r.changed <= toolchainMinor)
    && (own || r.removed == 0 || 0 <= toolchainMinor < r.removed)
  }

  ghost predicate LastRow(table: seq<Row>, i: nat, k: string, minor: int, own: bool, toolchainMinor: int) {
    && i < |table| && table[i].name == k && RowGives(table[i], minor, own, toolchainMinor)
    && forall j :: i < j < |table| && RowGives(table[j], minor, own, toolchainMinor) ==> table[j].name != k
  }

  ghost predicate TableGives(table: seq<Row>, k: string, minor: int, own: bool, toolchainMinor: int, m: Settings) {
    && (k in m <==> exists i: nat :: LastRow(table, i, k, minor, own, toolchainMinor))
    && forall i: nat :: LastRow(table, i, k, minor, own, toolchainMinor) ==> k in m && m[k] == table[i].before
  }

  /** A key has the last value the source gives it, else go.mod's last, else FIPS mode's, else the table's. */
  ghost predicate SettingIs(m: Settings, k: string, inMod: seq<Godebug>, source: seq<Godebug>, fips: string,
                            table: seq<Row>, minor: int, own: bool, toolchainMinor: int) {
    if Sets(source, k) then LastSets(source, k, m)
    else if Sets(inMod, k) then LastSets(inMod, k, m)
    else if k == "fips140" && fips !in {"", "off"} then k in m && m[k] == "on"
    else TableGives(table, k, minor, own, toolchainMinor, m)
  }

  predicate IsUsable(d: Godebug) {
    d.key == "default" && ParseGoMinor(TrimGo(d.value)) >= 0
  }

  ghost predicate LastUsable(ds: seq<Godebug>, i: nat) {
    i < |ds| && IsUsable(ds[i]) && forall j :: i < j < |ds| ==> !IsUsable(ds[j])
  }

  ghost predicate NoneUsable(ds: seq<Godebug>) {
    forall d :: d in ds ==> !IsUsable(d)
  }

  ghost predicate LastNames(ds: seq<Godebug>, minor: int) {
    exists i: nat :: LastUsable(ds, i) && minor == ParseGoMinor(TrimGo(ds[i].value))
  }

  /** The version the defaults are of: the last usable default= of the source, else of go.mod, else the go line's. */
  ghost predicate IsBase(minor: int, goLine: int, inMod: seq<Godebug>, source: seq<Godebug>) {
    if !NoneUsable(source) then LastNames(source, minor)
    else if !NoneUsable(inMod) then LastNames(inMod, minor)
    else minor == goLine
  }

  /** A go.mod without a go line is of Go 1.16. */
  function LineMinor(goLine: Option<string>): int {
    match goLine
    case None => 16
    case Some(v) => ParseGoMinor(v)
  }

  /** The toolchain's own table where it could be read. */
  function ReadTable(own: Option<seq<Row>>, committed: seq<Row>): seq<Row> {
    match own
    case None => committed
    case Some(table) => table
  }

  /** key=value for each key, in order of the keys, with commas between. */
  function Printed(m: Settings, keys: seq<string>): string
    requires forall k :: k in keys ==> k in m
  {
    if |keys| == 0 then ""
    else keys[0] + "=" + m[keys[0]] + if |keys| == 1 then "" else "," + Printed(m, keys[1..])
  }

  ghost predicate IsPrintedAs(m: Settings, keys: seq<string>, r: string) {
    StrictlySorted(keys) && (forall k :: k in keys <==> k in m) && r == Printed(m, keys)
  }

  ghost predicate Prints(r: string, m: Settings) {
    exists keys :: IsPrintedAs(m, keys, r)
  }

  ghost predicate AreSettings(m: Settings, minor: int, file: GoMod, source: seq<Godebug>, fips: string,
                              table: seq<Row>, own: bool, toolchainMinor: int) {
    && IsBase(minor, LineMinor(file.goLine), file.godebugs, source)
    && forall k :: SettingIs(m, k, file.godebugs, source, fips, table, minor, own, toolchainMinor)
  }

  ghost predicate IsDefault(r: string, mod: Option<GoMod>, source: seq<Godebug>, fips: string, version: string,
                            own: Option<seq<Row>>, committed: seq<Row>) {
    match mod
    case None => r == ""
    case Some(file) =>
      if LineMinor(file.goLine) < 0 then r == ""
      else
        exists m, minor ::
          Prints(r, m) && AreSettings(m, minor, file, source, fips, ReadTable(own, committed), own.Some?,
                                      ParseGoMinor(TrimGo(version)))
  }

  lemma {:induction false} ExplicitAppend(m: Settings, a: seq<Godebug>, b: seq<Godebug>)
    ensures Explicit(m, a + b) == Explicit(Explicit(m, a), b)
  {
    if |b| == 0 {
      assert a + b == a;
    } else {
      assert (a + b)[..|a + b| - 1] == a + b[..|b| - 1];
      ExplicitAppend(m, a, b[..|b| - 1]);
    }
  }

  lemma {:induction false} ExplicitAt(m: Settings, ds: seq<Godebug>, k: string)
    ensures var e := Explicit(m, ds);
      if Sets(ds, k) then LastSets(ds, k, e) else (k in e <==> k in m) && (k in m ==> e[k] == m[k])
  {
    if |ds| > 0 {
      var n := |ds| - 1;
      ExplicitAt(m, ds[..n], k);
      assert ds == ds[..n] + [ds[n]];
      if ds[n].key == k {
        assert LastOfKey(ds, n, k);
      } else if Sets(ds[..n], k) {
        var i: nat :| LastOfKey(ds[..n], i, k) && Explicit(m, ds[..n])[k] == ds[i].value;
        assert LastOfKey(ds, i, k);
      }
    }
  }

  lemma LastRowStays(table: seq<Row>, n: nat, k: string, minor: int, own: bool, toolchainMinor: int)
    requires |table| == n + 1 && !(table[n].name == k && RowGives(table[n], minor, own, toolchainMinor))
    ensures forall i: nat ::
      LastRow(table, i, k, minor, own, toolchainMinor) <==> LastRow(table[..n], i, k, minor, own, toolchainMinor)
  {
  }

  lemma {:induction false} TableAt(table: seq<Row>, k: string, minor: int, own: bool, toolchainMinor: int)
    ensures TableGives(table, k, minor, own, toolchainMinor, TableSettings(table, minor, own, toolchainMinor))
  {
    if |table| > 0 {
      var n := |table| - 1;
      assert Emitted(table[n], minor, own, toolchainMinor) <==> RowGives(table[n], minor, own, toolchainMinor);
      if table[n].name == k && RowGives(table[n], minor, own, toolchainMinor) {
        assert LastRow(table, n, k, minor, own, toolchainMinor);
      } else {
        TableAt(table[..n], k, minor, own, toolchainMinor);
        LastRowStays(table, n, k, minor, own, toolchainMinor);
      }
    }
  }

  lemma LastOfBoth(a: seq<Godebug>, b: seq<Godebug>)
    requires |b| > 0
    ensures (a + b)[..|a + b| - 1] == a + b[..|b| - 1] && (a + b)[|a + b| - 1] == b[|b| - 1]
  {
  }

  /** Directives joined: the later list counts first. */
  lemma {:induction false} BaseMinorAppend(minor: int, a: seq<Godebug>, b: seq<Godebug>)
    ensures BaseMinor(minor, a + b) == BaseMinor(BaseMinor(minor, a), b)
  {
    if |b| == 0 {
      assert a + b == a;
    } else {
      LastOfBoth(a, b);
      BaseMinorAppend(minor, a, b[..|b| - 1]);
    }
  }

  lemma LastUsableStays(ds: seq<Godebug>, init: seq<Godebug>, d: Godebug, i: nat)
    requires ds == init + [d] && !IsUsable(d)
    ensures NoneUsable(ds) <==> NoneUsable(init)
    ensures LastUsable(init, i) ==> LastUsable(ds, i) && ds[i] == init[i]
  {
  }

  lemma BaseMinorStep(minor: int, init: seq<Godebug>, d: Godebug)
    ensures BaseMinor(minor, init + [d])
      == if IsUsable(d) then ParseGoMinor(TrimGo(d.value)) else BaseMinor(minor, init)
  {
    assert (init + [d])[..|init|] == init;
  }

  lemma {:induction false} BaseMinorAt(minor: int, ds: seq<Godebug>) returns (i: nat)
    ensures if NoneUsable(ds) then BaseMinor(minor, ds) == minor
      else LastUsable(ds, i) && BaseMinor(minor, ds) == ParseGoMinor(TrimGo(ds[i].value))
  {
    i := 0;
    if |ds| > 0 {
      var init, d := ds[..|ds| - 1], ds[|ds| - 1];
      assert ds == init + [d];
      BaseMinorStep(minor, init, d);
      if IsUsable(d) {
        i := |init|;
        assert d in ds;
      } else {
        i := BaseMinorAt(minor, init);
        LastUsableStays(ds, init, d, i);
      }
    }
  }

  lemma BaseIs(goLine: int, inMod: seq<Godebug>, source: seq<Godebug>)
    ensures IsBase(BaseMinor(goLine, inMod + source), goLine, inMod, source)
  {
    BaseMinorAppend(goLine, inMod, source);
    var i := BaseMinorAt(goLine, inMod);
    var j := BaseMinorAt(BaseMinor(goLine, inMod), source);
  }

  lemma SettingsAre(inMod: seq<Godebug>, source: seq<Godebug>, fips: string, table: seq<Row>, goLine: int, own: bool,
                    toolchainMinor: int, k: string)
    ensures SettingIs(AllSettings(table, own, toolchainMinor, goLine, Fips140Enabled(fips), inMod + source), k, inMod,
                      source, fips, table, BaseMinor(goLine, inMod + source), own, toolchainMinor)
  {
    var minor := BaseMinor(goLine, inMod + source);
    var defaults := TableSettings(table, minor, own, toolchainMinor);
    var start := if Fips140Enabled(fips) then defaults["fips140" := "on"] else defaults;
    ExplicitAppend(start, inMod, source);
    ExplicitAt(start, inMod, k);
    ExplicitAt(Explicit(start, inMod), source, k);
    TableAt(table, k, minor, own, toolchainMinor);
  }

  lemma OneMoreDigit(s: string, c: char)
    requires (forall x :: x in s ==> IsDigit(x)) && IsDigit(c)
    ensures DigitsValue(s + [c]) == 10 * DigitsValue(s) + (c - '0') as int
  {
    assert (s + [c])[..|s|] == s;
  }

  lemma LineMinorIs(mod: GoMod)
    ensures GoLineMinor(mod) == LineMinor(mod.goLine)
  {
    OneMoreDigit([], '1');
    OneMoreDigit(['1'], '6');
    assert [] + ['1'] == ['1'] && ['1'] + ['6'] == "16";
    assert "1.16"[2..] == "16" + "";
    MinorIsValue("1.16", "16", "");
  }

  lemma AllSettingsAre(file: GoMod, source: seq<Godebug>, fips: string, table: seq<Row>, own: bool,
                       toolchainMinor: int)
    ensures var goLine, ds := GoLineMinor(file), file.godebugs + source;
      AreSettings(AllSettings(table, own, toolchainMinor, goLine, Fips140Enabled(fips), ds), BaseMinor(goLine, ds),
                  file, source, fips, table, own, toolchainMinor)
  {
    var goLine, ds := GoLineMinor(file), file.godebugs + source;
    LineMinorIs(file);
    BaseIs(goLine, file.godebugs, source);
    forall k
      ensures SettingIs(AllSettings(table, own, toolchainMinor, goLine, Fips140Enabled(fips), ds), k, file.godebugs,
                        source, fips, table, BaseMinor(goLine, ds), own, toolchainMinor)
    {
      SettingsAre(file.godebugs, source, fips, table, goLine, own, toolchainMinor, k);
    }
  }

  lemma Regroup(a: string, b: string, c: string)
    ensures a + ("," + b) + "," + c == a + ("," + (b + "," + c))
  {
    var d := "," + c;
    Seqs.Associates(b, ",", c);
    Seqs.Associates(",", b, d);
    Seqs.Associates(a, "," + b, d);
    Seqs.Associates(a + ("," + b), ",", c);
  }

  lemma JoinedMore(m: Settings, keys: seq<string>, k: string)
    requires k in m && forall x :: x in keys ==> x in m
    ensures Joined(m, keys + [k]) == if |keys| == 0 then Pair(m, k) else Joined(m, keys) + "," + Pair(m, k)
  {
    assert (keys + [k])[..|keys|] == keys;
  }

  /** One key more, when the first stands apart from the others. */
  lemma JoinedStep(m: Settings, k: string, init: seq<string>, last: string)
    requires k in m && last in m && forall x :: x in init ==> x in m
    requires Joined(m, [k] + init) == Pair(m, k) + if |init| == 0 then "" else "," + Joined(m, init)
    ensures Joined(m, [k] + init + [last]) == Pair(m, k) + ("," + Joined(m, init + [last]))
  {
    var first, p := Pair(m, k), Pair(m, last);
    JoinedMore(m, [k] + init, last);
    JoinedMore(m, init, last);
    if |init| == 0 {
      assert first + "" == first;
      Seqs.Associates(first, ",", p);
    } else {
      Regroup(first, Joined(m, init), p);
    }
  }

  lemma LastApart(k: string, rest: seq<string>, n: nat)
    requires |rest| == n + 1
    ensures rest == rest[..n] + [rest[n]] && [k] + rest == [k] + rest[..n] + [rest[n]]
  {
  }

  /** The first setting as key=value, and the others behind a comma. */
  lemma {:induction false} JoinedFirst(m: Settings, k: string, rest: seq<string>)
    requires k in m && forall x :: x in rest ==> x in m
    ensures Joined(m, [k] + rest) == Pair(m, k) + if |rest| == 0 then "" else "," + Joined(m, rest)
  {
    if |rest| == 0 {
      JoinedMore(m, [], k);
      assert [] + [k] == [k] + rest;
    } else {
      var n := |rest| - 1;
      JoinedFirst(m, k, rest[..n]);
      JoinedStep(m, k, rest[..n], rest[n]);
      LastApart(k, rest, n);
    }
  }

  lemma {:induction false} JoinedIsPrinted(m: Settings, keys: seq<string>)
    requires forall k :: k in keys ==> k in m
    ensures Joined(m, keys) == Printed(m, keys)
  {
    if |keys| > 0 {
      JoinedFirst(m, keys[0], keys[1..]);
      JoinedIsPrinted(m, keys[1..]);
      assert keys == [keys[0]] + keys[1..];
    }
  }

  lemma RenderedIsPrinted(m: Settings)
    ensures Prints(Rendered(m), m)
  {
    JoinedIsPrinted(m, Sorted(m.Keys));
    assert IsPrintedAs(m, Sorted(m.Keys), Rendered(m));
  }

  lemma DefaultIs(mod: Option<GoMod>, source: seq<Godebug>, fips: string, version: string, own: Option<seq<Row>>,
                  committed: seq<Row>)
    ensures IsDefault(Default(mod, source, fips, version, own, committed), mod, source, fips, version, own, committed)
  {
    if mod.Some? {
      LineMinorIs(mod.value);
      var table, toolchainMinor := ReadTable(own, committed), ParseGoMinor(TrimGo(version));
      AllSettingsAre(mod.value, source, fips, table, own.Some?, toolchainMinor);
      RenderedIsPrinted(AllSettings(table, own.Some?, toolchainMinor, GoLineMinor(mod.value), Fips140Enabled(fips),
                                    mod.value.godebugs + source));
    }
  }

  lemma JoinedNext(m: Settings, keys: seq<string>, i: nat)
    requires i < |keys| && forall k :: k in keys ==> k in m
    ensures Joined(m, keys[..i + 1]) == (if i > 0 then Joined(m, keys[..i]) + "," else "") + Pair(m, keys[i])
  {
    assert keys[..i + 1][..i] == keys[..i];
  }

  method JoinSettings(m: Settings) returns (r: string)
    ensures r == Rendered(m)
  {
    var keys := SortKeys(m.Keys);
    r := "";
    for i := 0 to |keys|
      invariant r == Joined(m, keys[..i])
    {
      JoinedNext(m, keys, i);
      if i > 0 {
        r := r + ",";
      }
      r := r + Pair(m, keys[i]);
    }
    assert keys[..|keys|] == keys;
  }

  method DefaultGODEBUG(mod: Option<GoMod>, source: seq<Godebug>, goFips140: string, toolchainVersion: string,
                        own: Option<seq<Row>>, committed: seq<Row>) returns (r: string)
    ensures IsDefault(r, mod, source, goFips140, toolchainVersion, own, committed)
    ensures r == Default(mod, source, goFips140, toolchainVersion, own, committed)
  {
    DefaultIs(mod, source, goFips140, toolchainVersion, own, committed);
    if mod.None? {
      return "";
    }
    var goVersion := "1.16";
    if mod.value.goLine.Some? {
      goVersion := mod.value.goLine.value;
    }
    var minor := ParseGoMinor(goVersion);
    if minor < 0 {
      return "";
    }
    var directives := mod.value.godebugs + source;
    minor := ScanDefaults(minor, directives);
    var table := if own.Some? then own.value else committed;
    var m := CollectDefaults(table, own.Some?, ParseGoMinor(TrimGo(toolchainVersion)), minor);
    if Fips140Enabled(goFips140) {
      m := m["fips140" := "on"];
    }
    m := ApplyExplicit(m, directives);
    r := JoinSettings(m);
  }

  method ScanDefaults(goLineMinor: int, directives: seq<Godebug>) returns (minor: int)
    ensures minor == BaseMinor(goLineMinor, directives)
  {
    minor := goLineMinor;
    for i := 0 to |directives|
      invariant minor == BaseMinor(goLineMinor, directives[..i])
    {
      assert directives[..i + 1][..i] == directives[..i];
      if directives[i].key == "default" {
        var newMinor := ParseGoMinor(TrimGo(directives[i].value));
        if newMinor >= 0 {
          minor := newMinor;
        }
      }
    }
    assert directives[..|directives|] == directives;
  }

  method CollectDefaults(table: seq<Row>, own: bool, toolchainMinor: int, minor: int) returns (m: Settings)
    ensures m == TableSettings(table, minor, own, toolchainMinor)
  {
    m := map[];
    for i := 0 to |table|
      invariant m == TableSettings(table[..i], minor, own, toolchainMinor)
    {
      assert table[..i + 1][..i] == table[..i];
      var entry := table[i];
      if minor >= entry.changed {
        continue;
      }
      if !own {
        if toolchainMinor >= 0 && toolchainMinor < entry.changed {
          continue;
        }
        if entry.removed > 0 && (toolchainMinor < 0 || toolchainMinor >= entry.removed) {
          continue;
        }
      }
      m := m[entry.name := entry.before];
    }
    assert table[..|table|] == table;
  }

  method ApplyExplicit(defaults: Settings, directives: seq<Godebug>) returns (m: Settings)
    ensures m == Explicit(defaults, directives)
  {
    m := defaults;
    for i := 0 to |directives|
      invariant m == Explicit(defaults, directives[..i])
    {
      assert directives[..i + 1][..i] == directives[..i];
      if directives[i].key == "default" {
        continue;
      }
      m := m[directives[i].key := directives[i].value];
    }
    assert directives[..|directives|] == directives;
  }
}
