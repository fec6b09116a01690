/**
 * The proxy's two start-up files, read as sequences of raw lines (each line as
 * iterating over a text file yields it, terminator included):
 *  - the configuration file of `key=value` lines (`load_config`),
 *  - the API-key allow-list, one key per line (`load_api_keys`),
 * and the resolution of the five settings with their defaults.
 */
module Config {
  import opened Wrappers
  import opened Text

  // ---------------------------------------------------------------------------
  // load_config
  // ---------------------------------------------------------------------------

  datatype Entry = Entry(key: string, value: string)

  /**
   * What one configuration line contributes: nothing for a line that is blank
   * or a `#` comment once stripped, or that has no `=`; otherwise the stripped
   * text before the first `=` as key and the stripped rest as value.
   */
  function ParseConfigLine(line: string): (r: Option<Entry>)
    // blank lines, comment lines and lines without `=` are exactly the lines that add no entry
    ensures r.None? <==> AllSpace(line) || Strip(line)[0] == '#' || '=' !in Strip(line)
    // keys and values are stored stripped, and the key, cut at the first `=`, holds none
    ensures r.Some? ==> IsStripped(r.value.key) && IsStripped(r.value.value) && '=' !in r.value.key
  {
    var t := Strip(line);
    if t == [] || t[0] == '#' then None
    else if '=' !in t then None
    else
      var i := IndexOf(t, '=');
      StripKeepsOut(t[..i], '=');
      Some(Entry(Strip(t[..i]), Strip(t[i + 1..])))
  }

  /** A line that is already stripped splits at its first `=`. */
  lemma SplitAtFirstEquals(line: string, i: nat)
    requires IsStripped(line) && line != [] && line[0] != '#'
    requires i < |line| && line[i] == '=' && '=' !in line[..i]
    ensures ParseConfigLine(line) == Some(Entry(Strip(line[..i]), Strip(line[i + 1..])))
  {
    StripStripped(line);
    IndexOfFirst(line, '=', i);
  }

  /** Writing an entry out as `key=value` and reading it back gives the entry. */
  lemma ConfigLineRoundTrip(k: string, v: string)
    requires IsStripped(k) && IsStripped(v)
    requires '=' !in k
    requires k == [] || k[0] != '#'
    ensures ParseConfigLine(k + "=" + v) == Some(Entry(k, v))
  {
    var line := k + "=" + v;
    assert line[..|k|] == k && line[|k| + 1..] == v;
    assert line[0] != '#' && line[|k|] == '=';
    SplitAtFirstEquals(line, |k|);
    StripStripped(k);
    StripStripped(v);
  }

  /** A value may itself contain `=`: only the first `=` of the line splits. */
  lemma ValueMayContainEquals(k: string, a: string, b: string)
    requires IsStripped(k) && IsStripped(a) && IsStripped(b)
    requires '=' !in k
    requires k == [] || k[0] != '#'
    ensures ParseConfigLine(k + "=" + a + "=" + b) == Some(Entry(k, a + "=" + b))
  {
    var v := a + "=" + b;
    assert IsStripped(v);
    assert k + "=" + a + "=" + b == k + "=" + v;
    ConfigLineRoundTrip(k, v);
  }

  /** Two lines that strip to the same text define the same entry. */
  lemma SameStripSameEntry(a: string, b: string)
    requires Strip(a) == Strip(b)
    ensures ParseConfigLine(a) == ParseConfigLine(b)
  {
  }

  /**
   * A line as it is read from the file: a key and a value around `=`, with
   * any whitespace before the key, around the `=` and after the value (the
   * line terminator included), defines exactly that key and value.
   */
  lemma PaddedConfigLine(p: string, k: string, s1: string, s2: string, v: string, q: string)
    requires AllSpace(p) && AllSpace(s1) && AllSpace(s2) && AllSpace(q)
    requires IsStripped(k) && IsStripped(v)
    requires k != [] && k[0] != '#' && '=' !in k
    ensures ParseConfigLine(p + k + s1 + "=" + s2 + v + q) == Some(Entry(k, v))
  {
    if v != [] {
      PaddedValue(p, k, s1, s2, v, q);
    } else {
      assert p + k + s1 + "=" + s2 + v + q == p + (k + s1 + "=" + []) + (s2 + q);
      PaddedEmptyValue(p, k, s1, s2 + q);
    }
  }

  lemma PaddedValue(p: string, k: string, s1: string, s2: string, v: string, q: string)
    requires AllSpace(p) && AllSpace(s1) && AllSpace(s2) && AllSpace(q)
    requires IsStripped(k) && IsStripped(v) && v != []
    requires k != [] && k[0] != '#' && '=' !in k
    ensures ParseConfigLine(p + k + s1 + "=" + s2 + v + q) == Some(Entry(k, v))
  {
    var line := p + k + s1 + "=" + s2 + v + q;
    var m := k + s1 + "=" + (s2 + v);
    assert line == p + m + q;
    StripLeadingPad(s2, v);
    PaddedValueIsStripped(k, s1, s2, v);
    StripPadding(p, m, q);
    SameStripSameEntry(line, m);
    StrippedLineEntry(k, s1, s2 + v, v);
  }

  lemma PaddedValueIsStripped(k: string, s1: string, s2: string, v: string)
    requires IsStripped(k) && k != [] && IsStripped(v) && v != []
    ensures IsStripped(k + s1 + "=" + (s2 + v)) && k + s1 + "=" + (s2 + v) != []
  {
    var m := k + s1 + "=" + (s2 + v);
    assert m[0] == k[0] && m[|m| - 1] == v[|v| - 1];
  }

  lemma PaddedEmptyValue(p: string, k: string, s1: string, q: string)
    requires AllSpace(p) && AllSpace(s1) && AllSpace(q)
    requires IsStripped(k) && k != [] && k[0] != '#' && '=' !in k
    ensures ParseConfigLine(p + (k + s1 + "=" + []) + q) == Some(Entry(k, []))
  {
    var m := k + s1 + "=" + [];
    assert m[0] == k[0] && m[|m| - 1] == '=';
    StripPadding(p, m, q);
    SameStripSameEntry(p + m + q, m);
    StrippedLineEntry(k, s1, [], []);
  }

  /** A stripped line `k`, blanks, `=`, `rest` defines the key `k` and the stripped `rest`. */
  lemma StrippedLineEntry(k: string, s1: string, rest: string, v: string)
    requires AllSpace(s1) && IsStripped(k) && k != [] && k[0] != '#' && '=' !in k
    requires Strip(rest) == v
    requires IsStripped(k + s1 + "=" + rest)
    ensures ParseConfigLine(k + s1 + "=" + rest) == Some(Entry(k, v))
  {
    var m := k + s1 + "=" + rest;
    var i := |k| + |s1|;
    assert m[..i] == k + s1 && m[i] == '=' && m[i + 1..] == rest;
    assert '=' !in s1 by { assert !IsSpace('='); }
    SplitAtFirstEquals(m, i);
    StripTrailingPad(k, s1);
  }

  predicate DefinesKey(line: string, k: string) {
    ParseConfigLine(line).Some? && ParseConfigLine(line).value.key == k
  }

  /** The dictionary after reading one more line into `config`. */
  function Apply(config: map<string, string>, line: string): (updated: map<string, string>)
    ensures forall k :: k in updated <==> k in config || DefinesKey(line, k)
    ensures forall k :: k in updated ==>
      updated[k] == if DefinesKey(line, k) then ParseConfigLine(line).value.value else config[k]
  {
    match ParseConfigLine(line)
    case None => config
    case Some(e) => config[e.key := e.value]
  }

  /** The dictionary built from `lines`, one line after the other. */
  function ConfigOf(lines: seq<string>): (config: map<string, string>)
    ensures forall k :: k in config ==> IsStripped(k) && '=' !in k && IsStripped(config[k])
  {
    if lines == [] then map[]
    else Apply(ConfigOf(lines[..|lines| - 1]), lines[|lines| - 1])
  }

  lemma ConfigOfPrefix(lines: seq<string>, n: nat)
    requires n < |lines|
    ensures ConfigOf(lines[..n + 1]) == Apply(ConfigOf(lines[..n]), lines[n])
  {
    assert lines[..n + 1][..n] == lines[..n];
  }

  /**
   * `load_config`: the loop over the file's lines that fills the dictionary;
   * each line is stripped, skipped or split as `ParseConfigLine` says, and a
   * later line overwrites the value of an earlier one with the same key.
   */
  method LoadConfig(lines: seq<string>) returns (config: map<string, string>)
    ensures config == ConfigOf(lines)
  {
    config := map[];
    var n := 0;
    while n < |lines|
      invariant 0 <= n <= |lines|
      invariant config == ConfigOf(lines[..n])
    {
      ConfigOfPrefix(lines, n);
      match ParseConfigLine(lines[n]) {
        case None =>
        case Some(e) => config := config[e.key := e.value];
      }
      n := n + 1;
    }
    assert lines[..n] == lines;
  }

  /** Blank, comment and `=`-less lines contribute no entry. */
  lemma IgnoredLines(line: string)
    requires AllSpace(line) || Strip(line)[0] == '#' || '=' !in Strip(line)
    ensures ConfigOf([line]) == map[]
  {
    assert [line][..0] == [];
  }

  /** Reading two pieces of a file in turn: the later piece overrides the earlier one. */
  lemma {:induction false} ConfigOfAppend(a: seq<string>, b: seq<string>)
    ensures ConfigOf(a + b) == ConfigOf(a) + ConfigOf(b)
  {
    if b == [] {
      assert a + b == a;
    } else {
      var b' := b[..|b| - 1];
      var last := b[|b| - 1];
      assert (a + b)[..|a + b| - 1] == a + b';
      assert (a + b)[|a + b| - 1] == last;
      ConfigOfAppend(a, b');
      match ParseConfigLine(last)
      case None =>
      case Some(e) =>
        calc {
          ConfigOf(a + b);
          ConfigOf(a + b')[e.key := e.value];
          (ConfigOf(a) + ConfigOf(b'))[e.key := e.value];
          { UpdateUnion(ConfigOf(a), ConfigOf(b'), e.key, e.value); }
          ConfigOf(a) + ConfigOf(b')[e.key := e.value];
          ConfigOf(a) + ConfigOf(b);
        }
    }
  }

  lemma UpdateUnion<K, V>(m: map<K, V>, n: map<K, V>, k: K, v: V)
    ensures (m + n)[k := v] == m + n[k := v]
  {
  }

  /** An ignored line can be dropped from anywhere in the file without changing the result. */
  lemma IgnoredLineAnywhere(a: seq<string>, line: string, b: seq<string>)
    requires ParseConfigLine(line).None?
    ensures ConfigOf(a + [line] + b) == ConfigOf(a + b)
  {
    ConfigOfAppend(a + [line], b);
    ConfigOfAppend(a, [line]);
    ConfigOfAppend(a, b);
    assert [line][..0] == [];
  }

  /** Some line of `lines` satisfies `p`. */
  ghost predicate AnyLine(lines: seq<string>, p: string -> bool) {
    exists i :: 0 <= i < |lines| && p(lines[i])
  }

  lemma AnyLineSnoc(lines: seq<string>, p: string -> bool)
    requires lines != []
    ensures AnyLine(lines, p) <==> AnyLine(lines[..|lines| - 1], p) || p(lines[|lines| - 1])
  {
    var front := lines[..|lines| - 1];
    if AnyLine(front, p) {
      var i :| 0 <= i < |front| && p(front[i]);
      assert lines[i] == front[i];
    }
  }

  /** Some line of `lines` defines the key `k`. */
  ghost predicate DefinedIn(lines: seq<string>, k: string) {
    AnyLine(lines, line => DefinesKey(line, k))
  }

  /** A key is in the dictionary exactly when some line defines it. */
  lemma {:induction false} KeyDefinedByLine(lines: seq<string>, k: string)
    ensures k in ConfigOf(lines) <==> DefinedIn(lines, k)
  {
    if lines != [] {
      var front := lines[..|lines| - 1];
      KeyDefinedByLine(front, k);
      AnyLineSnoc(lines, line => DefinesKey(line, k));
    }
  }

  /** No line after position `i` defines `k`: neither the last line nor, before it, any line after `i`. */
  lemma NotDefinedLater(lines: seq<string>, i: nat, k: string)
    requires i < |lines| - 1 && !DefinedIn(lines[i + 1..], k)
    ensures !DefinedIn(lines[..|lines| - 1][i + 1..], k)
    ensures !DefinesKey(lines[|lines| - 1], k)
  {
    var later := lines[i + 1..];
    AnyLineSnoc(later, line => DefinesKey(line, k));
    assert later[..|later| - 1] == lines[..|lines| - 1][i + 1..];
  }

  /** The last line that defines a key decides its value. */
  lemma {:induction false} LastDefinitionWins(lines: seq<string>, i: nat, k: string, v: string)
    requires i < |lines| && ParseConfigLine(lines[i]) == Some(Entry(k, v))
    requires !DefinedIn(lines[i + 1..], k)
    ensures k in ConfigOf(lines) && ConfigOf(lines)[k] == v
  {
    var front := lines[..|lines| - 1];
    if i < |lines| - 1 {
      NotDefinedLater(lines, i, k);
      assert front[i] == lines[i];
      LastDefinitionWins(front, i, k, v);
    }
  }

  // ---------------------------------------------------------------------------
  // load_api_keys
  // ---------------------------------------------------------------------------

  /**
   * A key-file line is kept when it is not blank once stripped and its raw
   * text does not start with `#`; a comment mark after leading blanks does
   * not make it a comment.
   */
  function IsKeyLine(line: string): (kept: bool)
    ensures kept <==> !AllSpace(line) && line[0] != '#'
  {
    Strip(line) != [] && !(line != [] && line[0] == '#')
  }

  /** Some line of `lines` is kept as the key `k`. */
  ghost predicate ListsKey(lines: seq<string>, k: string) {
    exists i :: 0 <= i < |lines| && IsKeyLine(lines[i]) && Strip(lines[i]) == k
  }

  lemma ListsKeyCons(lines: seq<string>, k: string)
    requires lines != []
    ensures ListsKey(lines, k) <==> (IsKeyLine(lines[0]) && Strip(lines[0]) == k) || ListsKey(lines[1..], k)
  {
    if ListsKey(lines, k) && !(IsKeyLine(lines[0]) && Strip(lines[0]) == k) {
      var i :| 0 <= i < |lines| && IsKeyLine(lines[i]) && Strip(lines[i]) == k;
      assert lines[1..][i - 1] == lines[i];
    }
    if ListsKey(lines[1..], k) {
      var i :| 0 <= i < |lines[1..]| && IsKeyLine(lines[1..][i]) && Strip(lines[1..][i]) == k;
      assert lines[i + 1] == lines[1..][i];
    }
  }

  /** `load_api_keys`: the stripped kept lines, in file order. */
  function ApiKeysOf(lines: seq<string>): (keys: seq<string>)
    ensures |keys| <= |lines|
    ensures forall j :: 0 <= j < |keys| ==> keys[j] != [] && IsStripped(keys[j])
    ensures forall k :: k in keys <==> ListsKey(lines, k)
  {
    if lines == [] then []
    else
      var rest := ApiKeysOf(lines[1..]);
      assert forall k :: ListsKey(lines, k) <==> (IsKeyLine(lines[0]) && Strip(lines[0]) == k) || ListsKey(lines[1..], k) by {
        forall k { ListsKeyCons(lines, k); }
      }
      (if IsKeyLine(lines[0]) then [Strip(lines[0])] else []) + rest
  }

  /** The allow-list of two pieces of a file is the two allow-lists one after the other. */
  lemma {:induction false} ApiKeysOfAppend(a: seq<string>, b: seq<string>)
    ensures ApiKeysOf(a + b) == ApiKeysOf(a) + ApiKeysOf(b)
  {
    if a != [] {
      assert (a + b)[0] == a[0];
      assert (a + b)[1..] == a[1..] + b;
      ApiKeysOfAppend(a[1..], b);
    } else {
      assert a + b == b;
    }
  }

  /** A key line indented before its `#` is kept, `#` included. */
  lemma IndentedHashIsAKey()
    ensures ApiKeysOf(["  #x\n"]) == ["#x"]
  {
    var s := "  #x\n";
    assert "  " + "#x" + "\n" == s;
    StripPadding("  ", "#x", "\n");
    assert IsKeyLine(s);
    assert [s][1..] == [];
  }

  /** A line whose raw text starts with `#` is not a key. */
  lemma HashLineIsNotAKey(line: string)
    requires line != [] && line[0] == '#'
    ensures ApiKeysOf([line]) == []
  {
    assert [line][1..] == [];
  }

  // ---------------------------------------------------------------------------
  // int(...) and the settings with their defaults
  // ---------------------------------------------------------------------------

  predicate IsDigit(c: char) { '0' <= c <= '9' }

  predicate AllDigits(s: string) { forall k :: 0 <= k < |s| ==> IsDigit(s[k]) }

  /** The decimal value of a digit string. */
  function DigitsValue(s: string): nat
    requires AllDigits(s)
  {
    if s == [] then 0 else DigitsValue(s[..|s| - 1]) * 10 + (s[|s| - 1] as int - '0' as int)
  }

  /** An optional sign followed by at least one decimal digit. */
  predicate IsIntLiteral(s: string) {
    if s != [] && (s[0] == '+' || s[0] == '-') then s[1..] != [] && AllDigits(s[1..])
    else s != [] && AllDigits(s)
  }

  /** `int(s)` on a text that is already stripped; `None` is the `ValueError` it raises. */
  function ParseInt(s: string): (r: Option<int>)
    ensures r.Some? <==> IsIntLiteral(s)
  {
    if s != [] && (s[0] == '+' || s[0] == '-') then
      if s[1..] != [] && AllDigits(s[1..]) then
        var magnitude: int := DigitsValue(s[1..]);
        Some(if s[0] == '-' then -magnitude else magnitude)
      else None
    else if s != [] && AllDigits(s) then Some(DigitsValue(s))
    else None
  }

  /** `str(n)` for a natural number. */
  function ShowNat(n: nat): (s: string)
    ensures s != [] && AllDigits(s)
  {
    var d := ['0' + (n % 10) as char];
    if n < 10 then d else ShowNat(n / 10) + d
  }

  /** `str(n)`. */
  function ShowInt(n: int): string {
    if n < 0 then "-" + ShowNat(-n) else ShowNat(n)
  }

  lemma {:induction false} DigitsOfShowNat(n: nat)
    ensures DigitsValue(ShowNat(n)) == n
  {
    var s := ShowNat(n);
    if n >= 10 {
      DigitsOfShowNat(n / 10);
      assert s[..|s| - 1] == ShowNat(n / 10);
    }
  }

  /** `int(str(n)) == n`. */
  lemma ParseShowRoundTrip(n: int)
    ensures ParseInt(ShowInt(n)) == Some(n)
  {
    if n < 0 {
      var digits := ShowNat(-n);
      var s := "-" + digits;
      assert s[0] == '-' && s[1..] == digits;
      DigitsOfShowNat(-n);
      assert ParseInt(s) == Some(0 - DigitsValue(digits) as int);
    } else {
      var s := ShowNat(n);
      DigitsOfShowNat(n);
      assert s[0] != '+' && s[0] != '-';
      assert ParseInt(s) == Some(DigitsValue(s));
    }
  }

  /** A run of `z` zeros. */
  function Zeros(z: nat): (s: string)
    ensures |s| == z && AllDigits(s)
  {
    seq(z, _ => '0')
  }

  /** Leading zeros do not change the value of a digit string. */
  lemma {:induction false} LeadingZeros(z: nat, d: string)
    requires AllDigits(d)
    ensures DigitsValue(Zeros(z) + d) == DigitsValue(d)
  {
    if d == [] {
      assert Zeros(z) + d == Zeros(z);
      if z > 0 {
        assert Zeros(z)[..z - 1] == Zeros(z - 1);
        LeadingZeros(z - 1, d);
        assert Zeros(z - 1) + d == Zeros(z - 1);
      }
    } else {
      var w := Zeros(z) + d;
      assert w[..|w| - 1] == Zeros(z) + d[..|d| - 1];
      LeadingZeros(z, d[..|d| - 1]);
    }
  }

  /** `int()` of a literal with an optional sign and any number of leading zeros. */
  lemma SignedPaddedLiteral(sign: string, z: nat, n: nat)
    requires sign == "" || sign == "+" || sign == "-"
    ensures ParseInt(sign + Zeros(z) + ShowNat(n)) == Some(if sign == "-" then -(n as int) else n as int)
  {
    var digits := Zeros(z) + ShowNat(n);
    DigitsOfShowNat(n);
    LeadingZeros(z, ShowNat(n));
    assert sign + Zeros(z) + ShowNat(n) == sign + digits;
    if sign == "" {
      assert sign + digits == digits;
      UnsignedLiteral(digits);
    } else {
      SignedLiteral(sign[0], digits);
      assert sign + digits == [sign[0]] + digits;
    }
  }

  lemma UnsignedLiteral(d: string)
    requires d != [] && AllDigits(d)
    ensures ParseInt(d) == Some(DigitsValue(d) as int)
  {
    assert IsDigit(d[0]);
  }

  lemma SignedLiteral(sign: char, d: string)
    requires (sign == '+' || sign == '-') && d != [] && AllDigits(d)
    ensures ParseInt([sign] + d) == Some(if sign == '-' then 0 - DigitsValue(d) as int else DigitsValue(d) as int)
  {
    assert ([sign] + d)[1..] == d;
  }

  datatype Settings = Settings(poolSize: int, cacheTtl: int, cacheMaxSize: int, chromiumPath: string, port: int)

  const DefaultPoolSize := 8
  const DefaultCacheTtl := 600
  const DefaultCacheMaxSize := 100
  const DefaultChromiumPath := "/usr/bin/chromium"
  const DefaultPort := "8080"

  /** `int(conf.get(name, default))` for a setting whose default is already an integer. */
  function IntSetting(conf: map<string, string>, name: string, default: int): Option<int> {
    if name in conf then ParseInt(conf[name]) else Some(default)
  }

  /**
   * The five settings read at start-up; `None` when a present numeric
   * setting is not an integer literal (start-up then stops with `ValueError`).
   */
  function ResolveSettings(conf: map<string, string>): (r: Option<Settings>)
    ensures r.Some? <==>
      && ("pool_size" in conf ==> IsIntLiteral(conf["pool_size"]))
      && ("cache_ttl" in conf ==> IsIntLiteral(conf["cache_ttl"]))
      && ("cache_max_size" in conf ==> IsIntLiteral(conf["cache_max_size"]))
      && IsIntLiteral(if "port" in conf then conf["port"] else DefaultPort)
    ensures r.Some? ==> r.value.chromiumPath == if "chromium_path" in conf then conf["chromium_path"] else DefaultChromiumPath
    ensures r.Some? ==>
      r.value.poolSize == if "pool_size" in conf then ParseInt(conf["pool_size"]).value else DefaultPoolSize
    ensures r.Some? ==>
      r.value.cacheTtl == if "cache_ttl" in conf then ParseInt(conf["cache_ttl"]).value else DefaultCacheTtl
    ensures r.Some? ==>
      r.value.cacheMaxSize == if "cache_max_size" in conf then ParseInt(conf["cache_max_size"]).value else DefaultCacheMaxSize
    ensures r.Some? ==>
      r.value.port == if "port" in conf then ParseInt(conf["port"]).value else 8080
  {
    DefaultPortValue();
    var poolSize := IntSetting(conf, "pool_size", DefaultPoolSize);
    var cacheTtl := IntSetting(conf, "cache_ttl", DefaultCacheTtl);
    var cacheMaxSize := IntSetting(conf, "cache_max_size", DefaultCacheMaxSize);
    var chromiumPath := if "chromium_path" in conf then conf["chromium_path"] else DefaultChromiumPath;
    var port := ParseInt(if "port" in conf then conf["port"] else DefaultPort);
    if poolSize.None? || cacheTtl.None? || cacheMaxSize.None? || port.None? then None
    else Some(Settings(poolSize.value, cacheTtl.value, cacheMaxSize.value, chromiumPath, port.value))
  }

  /** The port's default is the text `"8080"`, which `int()` reads as 8080. */
  lemma DefaultPortValue()
    ensures ParseInt(DefaultPort) == Some(8080)
  {
    ParseShowRoundTrip(8080);
    assert ShowNat(8) == "8";
    assert ShowNat(80) == "80";
    assert ShowNat(808) == "808";
    assert ShowNat(8080) == "8080";
  }

  /** An empty configuration file gives the documented defaults. */
  lemma DefaultSettings()
    ensures ResolveSettings(map[]) == Some(Settings(8, 600, 100, "/usr/bin/chromium", 8080))
  {
  }

  /** A configuration file holding the line `pool_size = 4`, terminator and all, gives a pool of 4 tabs. */
  lemma PoolSizeFromFile()
    ensures ConfigOf(["pool_size = 4\n"]) == map["pool_size" := "4"]
    ensures ResolveSettings(ConfigOf(["pool_size = 4\n"])).Some?
    ensures ResolveSettings(ConfigOf(["pool_size = 4\n"])).value.poolSize == 4
  {
    PoolSizeLine();
    ConfigOfOneLine("pool_size = 4\n", Entry("pool_size", "4"));
    PoolSizeSetting();
  }

  /** A file of one line holding an entry gives a dictionary of that one entry. */
  lemma ConfigOfOneLine(line: string, e: Entry)
    requires ParseConfigLine(line) == Some(e)
    ensures ConfigOf([line]) == map[e.key := e.value]
  {
    assert [line][..0] == [];
  }

  lemma PoolSizeLine()
    ensures ParseConfigLine("pool_size = 4\n") == Some(Entry("pool_size", "4"))
  {
    assert "" + "pool_size" + " " + "=" + " " + "4" + "\n" == "pool_size = 4\n";
    assert AllSpace(" ") && AllSpace("\n") && AllSpace("");
    PaddedConfigLine("", "pool_size", " ", " ", "4", "\n");
  }

  lemma PoolSizeSetting()
    ensures ResolveSettings(map["pool_size" := "4"]).Some?
    ensures ResolveSettings(map["pool_size" := "4"]).value.poolSize == 4
  {
    UnsignedLiteral("4");
    assert DigitsValue("4") == 4 by { assert "4"[..0] == ""; }
    DefaultPortValue();
  }

  /** A numeric setting written back as its decimal text is read as that number. */
  lemma SettingRoundTrip(conf: map<string, string>, n: int)
    requires ResolveSettings(conf).Some?
    ensures ResolveSettings(conf["pool_size" := ShowInt(n)]).Some?
    ensures ResolveSettings(conf["pool_size" := ShowInt(n)]).value.poolSize == n
  {
    ParseShowRoundTrip(n);
  }
}
