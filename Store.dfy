/** `get_config` of data2sql.py: the store of every `config.json` under the
    scanned folder, each with its inherited `default` settings and its `dbs`
    bindings.

    In the source, an entry that inherits bindings does not copy them: it
    stores the ancestor's very `dbs` dict and then writes its own bindings
    into it, so every entry sharing that dict sees them. The model keeps the
    `dbs` dicts in `tables` and lets an entry name its dict by index; two
    entries with the same index share one dict. */
module ConfigStore {
  import opened Json
  import opened Text
  import opened Paths
  import opened Merge

  /** One parsed `config.json`: its `default` and `dbs` objects, when present. */
  datatype ConfigFile = ConfigFile(default: Option<Dict>, dbs: Option<Dict>)

  /** `config[path] == {'default': default, 'dbs': tables[table]}`. */
  datatype Entry = Entry(default: Dict, table: nat)

  datatype Store = Store(entries: map<Path, Entry>, tables: seq<Dict>)

  ghost predicate Valid(st: Store)
  {
    forall p :: p in st.entries ==> st.entries[p].table < |st.tables|
  }

  /** `config[p]['dbs']` as it reads now. */
  function Bindings(st: Store, p: Path): Dict
    requires Valid(st) && p in st.entries
  {
    st.tables[st.entries[p].table]
  }

  /** `get_safe_engine` of data2sql.py returns its argument before any
      connection is attempted. */
  function GetSafeEngine(conn: Json): (engine: Json)
    ensures engine == conn
  {
    conn
  }

  /** `for db in data['dbs']: data['dbs'][db] = get_safe_engine(...)`:
      leaves the bindings as they were parsed. */
  function Engines(dbs: Dict): (r: Dict)
    ensures r == dbs
  {
    map k | k in dbs :: GetSafeEngine(dbs[k])
  }

  /** The `default` a new entry receives (data2sql.py:154-158): `{}` without
      an own `default`, the own one without an ancestor, otherwise the own one
      joined over the ancestor's. */
  function InheritDefault(upper: Option<Entry>, own: Option<Dict>): (r: Result<Dict>)
    ensures own.None? ==> r == Ok(map[])
    ensures own.Some? && upper.None? ==> r == Ok(own.value)
    ensures own.Some? && upper.Some? ==> (r.Ok? <==> IsClean(own.value) || IsReplace(own.value))
    ensures r.Ok? && own.Some? ==> forall k :: k in own.value ==> k in r.value && r.value[k] == own.value[k]
    ensures r.Ok? && own.Some? && upper.Some? && IsClean(own.value) ==> r.value == own.value
    ensures r.Ok? && own.Some? && upper.Some? && !IsClean(own.value) ==>
              var base := upper.value.default;
              && r.value.Keys == (base.Keys - {MixKey}) + own.value.Keys
              && forall k :: k in base && k !in own.value && k != MixKey ==> r.value[k] == base[k]
  {
    if own.None? then Ok(map[])
    else if upper.None? then Ok(own.value)
    else
      match Join2Configs(Some(upper.value.default), own)
      case Err(e) => Err(e)
      case Ok(d) => Ok(d.value)
  }

  /** One turn of the loop of `get_config` for the file `f`. With
      `copyBindings` false this is the code as written: an entry with an
      ancestor shares the ancestor's `dbs` dict and writes into it. With
      `copyBindings` true the entry gets a copy: the corrected turn, which
      copies the ancestor's bindings the way `join2configs` copies both of
      its inputs (data2sql.py:39-42). */
  function Step(st: Store, f: Path, cf: ConfigFile, copyBindings: bool): (r: Result<Store>)
    requires Valid(st)
    ensures r.Ok? ==> Valid(r.value) && r.value.entries.Keys == st.entries.Keys + {f}
    ensures r.Ok? ==> |st.tables| <= |r.value.tables|
  {
    if cf.dbs.None? then Err(KeyMissing("dbs"))
    else
      var own := Engines(cf.dbs.value);
      var upper := GetCloserConfig(st.entries, f);
      match InheritDefault(upper, cf.default)
      case Err(e) => Err(e)
      case Ok(d) =>
        if upper.Some? && !copyBindings then
          var t := upper.value.table;
          Ok(Store(st.entries[f := Entry(d, t)], st.tables[t := st.tables[t] + own]))
        else
          var inherited := if upper.Some? then st.tables[upper.value.table] else map[];
          Ok(Store(st.entries[f := Entry(d, |st.tables|)], st.tables + [inherited + own]))
  }

  /** The loop of `get_config` over `order`. */
  function BuildFrom(order: seq<Path>, files: map<Path, ConfigFile>, copyBindings: bool): (r: Result<Store>)
    requires forall p :: p in order ==> p in files
    ensures r.Ok? ==> Valid(r.value) && r.value.entries.Keys == set p | p in order
    decreases |order|
  {
    if order == [] then Ok(Store(map[], []))
    else
      var last := order[|order| - 1];
      assert order == order[..|order| - 1] + [last];
      match BuildFrom(order[..|order| - 1], files, copyBindings)
      case Err(e) => Err(e)
      case Ok(st) => Step(st, last, files[last], copyBindings)
  }

  /** A failure aborts the whole build: the first error is the result. */
  lemma {:induction false} BuildFromErrorPersists(order: seq<Path>, k: nat, files: map<Path, ConfigFile>, copyBindings: bool)
    requires k <= |order|
    requires forall p :: p in order ==> p in files
    requires BuildFrom(order[..k], files, copyBindings).Err?
    ensures BuildFrom(order, files, copyBindings) == BuildFrom(order[..k], files, copyBindings)
    decreases |order| - k
  {
    if k < |order| {
      assert order[..k + 1][..k] == order[..k];
      BuildFromErrorPersists(order, k + 1, files, copyBindings);
    } else {
      assert order[..k] == order;
    }
  }

  /** `get_config(ifolder)` of data2sql.py, given the paths `glob` found and
      the parsed files. The paths are sorted as strings, then each file is
      merged into the store in that order. */
  method GetConfig(discovered: seq<Path>, files: map<Path, ConfigFile>) returns (r: Result<Store>)
    requires forall p :: p in discovered ==> p in files
    ensures r == BuildFrom(SortBy(discovered, PathStr), files, false)
  {
    var configs := SortBy(discovered, PathStr);
    var st := Store(map[], []);
    var n := 0;
    while n < |configs|
      invariant 0 <= n <= |configs|
      invariant BuildFrom(configs[..n], files, false) == Ok(st)
    {
      var configFile := configs[n];
      BuildFromExtend(configs, n, files, st);
      var next := AddConfigFile(st, configFile, files[configFile]);
      if next.Err? {
        BuildFromErrorPersists(configs, n + 1, files, false);
        assert configs[..|configs|] == configs;
        return next;
      }
      st := next.value;
      n := n + 1;
    }
    assert configs[..n] == configs;
    r := Ok(st);
  }

  /** Building one more file of the order is one more turn. */
  lemma BuildFromExtend(order: seq<Path>, n: nat, files: map<Path, ConfigFile>, st: Store)
    requires n < |order|
    requires forall p :: p in order ==> p in files
    requires BuildFrom(order[..n], files, false) == Ok(st)
    ensures Valid(st)
    ensures BuildFrom(order[..n + 1], files, false) == Step(st, order[n], files[order[n]], false)
  {
    assert order[..n + 1][..n] == order[..n];
    assert order[..n + 1][n] == order[n];
  }

  /** The body of the loop of `get_config` for one file: read its `dbs`,
      find the nearest stored ancestor, set the `default`, and write the
      bindings into the dict the entry uses. */
  method AddConfigFile(st: Store, configFile: Path, data: ConfigFile) returns (r: Result<Store>)
    requires Valid(st)
    ensures r == Step(st, configFile, data, false)
  {
    if data.dbs.None? {
      return Err(KeyMissing("dbs"));
    }
    var dbs := Engines(data.dbs.value);
    var upper := GetCloserConfig(st.entries, configFile);
    var default: Dict := map[];
    if data.default.Some? {
      if upper.None? {
        default := data.default.value;
      } else {
        var joined := Join2Configs(Some(upper.value.default), data.default);
        if joined.Err? {
          return Err(joined.error);
        }
        default := joined.value.value;
      }
    }
    var tables := st.tables;
    var slot: nat;
    if upper.Some? {
      slot := upper.value.table;
    } else {
      slot := |tables|;
      tables := tables + [map[]];
    }
    var written := WriteAll(tables[slot], dbs);
    assert written == tables[slot] + dbs;
    tables := tables[slot := written];
    assert upper.None? ==> tables == st.tables + [map[] + dbs];
    assert InheritDefault(upper, data.default) == Ok(default);
    r := Ok(Store(st.entries[configFile := Entry(default, slot)], tables));
  }

  // ---------------------------------------------------------------------
  // What one turn does
  // ---------------------------------------------------------------------

  /** One turn of `get_config` fails exactly when the file has no `dbs`, or
      it has a `default` and an ancestor and its `default` names an unknown
      `mix`; the error names that value. */
  lemma StepFailure(st: Store, f: Path, cf: ConfigFile, copyBindings: bool)
    requires Valid(st)
    ensures var upper := GetCloserConfig(st.entries, f);
            Step(st, f, cf, copyBindings).Err? <==>
              cf.dbs.None? ||
              (cf.default.Some? && upper.Some? && !IsClean(cf.default.value) && !IsReplace(cf.default.value))
    ensures cf.dbs.None? ==> Step(st, f, cf, copyBindings) == Err(KeyMissing("dbs"))
    ensures cf.dbs.Some? && Step(st, f, cf, copyBindings).Err? ==>
              Step(st, f, cf, copyBindings) == Err(UnsupportedMix(cf.default.value[MixKey]))
  {
  }

  /** The entry a turn stores for `f` (data2sql.py:148-162): its `default` is
      `{}` without an own `default`, the own one without an ancestor, and
      otherwise the own one joined over the nearest stored ancestor's; its
      bindings are its own written over the ancestor's, one name at a time,
      each replaced whole. */
  lemma StepEntry(st: Store, f: Path, cf: ConfigFile, copyBindings: bool)
    requires Valid(st)
    requires Step(st, f, cf, copyBindings).Ok?
    ensures var st' := Step(st, f, cf, copyBindings).value;
            var upper := GetCloserConfig(st.entries, f);
            var own := cf.dbs.value;
            var inherited := if upper.Some? then st.tables[upper.value.table] else map[];
            && cf.dbs.Some?
            && (cf.default.None? ==> st'.entries[f].default == map[])
            && (cf.default.Some? && upper.None? ==> st'.entries[f].default == cf.default.value)
            && (cf.default.Some? && upper.Some? ==>
                  Join2Configs(Some(upper.value.default), cf.default) == Ok(Some(st'.entries[f].default)))
            && Bindings(st', f).Keys == inherited.Keys + own.Keys
            && (forall k :: k in own ==> Bindings(st', f)[k] == own[k])
            && (forall k :: k in inherited && k !in own ==> Bindings(st', f)[k] == inherited[k])
  {
  }

  /** As written, a turn writes the new bindings into the ancestor's own
      dict: every entry that shares it, the ancestor first, sees them. Other
      entries keep their dict and every other entry keeps its `default`. */
  lemma StepSharesAncestorBindings(st: Store, f: Path, cf: ConfigFile)
    requires Valid(st)
    requires Step(st, f, cf, false).Ok?
    requires GetCloserConfig(st.entries, f).Some?
    ensures var st' := Step(st, f, cf, false).value;
            var t := GetCloserConfig(st.entries, f).value.table;
            && st'.entries[f].table == t
            && (forall p :: p in st.entries && p != f && st.entries[p].table == t ==>
                  Bindings(st', p) == Bindings(st', f) == st.tables[t] + cf.dbs.value)
            && (forall p :: p in st.entries && p != f && st.entries[p].table != t ==>
                  Bindings(st', p) == Bindings(st, p))
            && (forall p :: p in st.entries && p != f ==> st'.entries[p] == st.entries[p])
  {
  }

  /** With copied bindings a turn leaves every other entry exactly as it was. */
  lemma StepCopyLeavesOthers(st: Store, f: Path, cf: ConfigFile)
    requires Valid(st)
    requires Step(st, f, cf, true).Ok?
    ensures var st' := Step(st, f, cf, true).value;
            forall p :: p in st.entries && p != f ==>
              st'.entries[p] == st.entries[p] && Bindings(st', p) == Bindings(st, p)
  {
  }

  // ---------------------------------------------------------------------
  // Processing order
  // ---------------------------------------------------------------------

  ghost predicate NoDup(s: seq<Path>)
  {
    forall i, j :: 0 <= i < j < |s| ==> s[i] != s[j]
  }

  /** Every ancestor configuration in the list comes before its descendants:
      the order the comment at data2sql.py:141-143 expects of the sort. */
  ghost predicate AncestorFirst(order: seq<Path>)
  {
    forall i, j :: 0 <= i < |order| && 0 <= j < |order| && IsAncestorConfig(order[j], order[i]) ==> j < i
  }

  /** Path parts from `pathlib` are never empty. */
  ghost predicate PartsNonEmpty(ps: seq<Path>)
  {
    forall p, k :: p in ps && 0 <= k < |p| ==> p[k] != []
  }

  lemma {:induction false} NoDupCount(s: seq<Path>, x: Path)
    requires NoDup(s)
    ensures multiset(s)[x] <= 1
  {
    if s != [] {
      assert s == [s[0]] + s[1..];
      assert NoDup(s[1..]) by {
        forall i, j | 0 <= i < j < |s[1..]| ensures s[1..][i] != s[1..][j] {
          assert s[1..][i] == s[i + 1] && s[1..][j] == s[j + 1];
        }
      }
      NoDupCount(s[1..], x);
      if s[0] == x {
        assert x !in s[1..] by {
          forall j | 0 <= j < |s[1..]| ensures s[1..][j] != x {
            assert s[1..][j] == s[j + 1];
          }
        }
      }
    }
  }

  /** Sorting keeps a list free of duplicates. */
  lemma NoDupPermutation(a: seq<Path>, b: seq<Path>)
    requires NoDup(a) && multiset(a) == multiset(b)
    ensures NoDup(b)
  {
    forall i, j | 0 <= i < j < |b| ensures b[i] != b[j] {
      if b[i] == b[j] {
        assert b == b[..j] + [b[j]] + b[j + 1..];
        assert b[i] in b[..j];
        assert multiset(b)[b[j]] >= 2;
        NoDupCount(a, b[j]);
        assert false;
      }
    }
  }

  /** An ancestor's directory string is a proper prefix of its descendant's,
      so it sorts strictly first. */
  lemma AncestorDirSortsFirst(a: Path, f: Path)
    requires IsAncestorConfig(a, f)
    requires forall k :: 0 <= k < |f| ==> f[k] != []
    ensures StrLt(DirStr(a), DirStr(f))
  {
    var k :| 0 <= k < |Dirs(f)| && a == Candidate(Dirs(f), k);
    assert Dirs(a) == Dirs(f)[..k];
    JoinWithPrefix(Dirs(f), k, "/");
    ProperPrefixIsLess(DirStr(a), DirStr(f));
  }

  /** In a list sorted by directory string, an ancestor configuration
      cannot come after its descendant. */
  lemma AncestorSortedBefore(order: seq<Path>, i: int, j: int)
    requires SortedBy(order, DirStr)
    requires 0 <= i < |order| && 0 <= j < |order|
    requires forall k :: 0 <= k < |order[i]| ==> order[i][k] != []
    requires IsAncestorConfig(order[j], order[i])
    ensures j < i
  {
    AncestorDirSortsFirst(order[j], order[i]);
    StrLtIrreflexive(DirStr(order[i]));
    if j > i {
      assert StrLe(DirStr(order[i]), DirStr(order[j]));
      if DirStr(order[i]) != DirStr(order[j]) {
        StrLtAsymmetric(DirStr(order[j]), DirStr(order[i]));
      }
    }
  }

  /** Sorting by the directory string, rather than by the whole path string,
      puts every ancestor before its descendants. */
  lemma SortByDirIsAncestorFirst(ps: seq<Path>)
    requires PartsNonEmpty(ps)
    ensures AncestorFirst(SortBy(ps, DirStr))
  {
    var order := SortBy(ps, DirStr);
    forall i, j | 0 <= i < |order| && 0 <= j < |order| && IsAncestorConfig(order[j], order[i])
      ensures j < i
    {
      assert order[i] in ps;
      AncestorSortedBefore(order, i, j);
    }
  }

  /** Sorting two paths whose keys differ. */
  lemma SortTwo(a: Path, b: Path, key: Path -> string)
    requires key(a) != key(b)
    ensures StrLt(key(a), key(b)) ==> SortBy([a, b], key) == [a, b]
    ensures StrLt(key(b), key(a)) ==> SortBy([a, b], key) == [b, a]
  {
    assert [a, b][1..] == [b];
    assert SortBy([b], key) == [b] by {
      assert [b][1..] == [];
    }
    if StrLt(key(b), key(a)) {
      StrLtAsymmetric(key(b), key(a));
    }
  }

  const Root: Path := ["r", ConfigName]
  const Sub: Path := ["r", "a", ConfigName]
  const Child: Path := ["r", "x", ConfigName]

  /** With the whole path string as the key, `r/a/config.json` sorts before
      `r/config.json` ('a' < 'c'), so the child directory is processed before
      its parent. */
  lemma StringSortNotAncestorFirst()
    ensures SortBy([Root, Sub], PathStr) == [Sub, Root]
    ensures IsAncestorConfig(Root, Sub)
    ensures !AncestorFirst(SortBy([Root, Sub], PathStr))
  {
    SubSortsBeforeRoot();
    StrLtIrreflexive(PathStr(Root));
    SortTwo(Root, Sub, PathStr);
    assert Dirs(Sub) == ["r", "a"];
    assert Candidate(Dirs(Sub), 1) == Root;
    var order := [Sub, Root];
    assert IsAncestorConfig(order[1], order[0]);
  }

  /** The path strings of the example paths. */
  lemma ExamplePathStrs(name: string)
    ensures PathStr(Root) == "r/" + ConfigName
    ensures PathStr(["r", name, ConfigName]) == "r/" + name + "/" + ConfigName
  {
    assert JoinWith([ConfigName], "/") == ConfigName;
    assert Root[1..] == [ConfigName];
    var p: Path := ["r", name, ConfigName];
    assert p[1..] == [name, ConfigName] && p[1..][1..] == [ConfigName];
    assert JoinWith([name, ConfigName], "/") == name + "/" + ConfigName;
    assert PathStr(p) == "r" + "/" + (name + "/" + ConfigName);
  }

  lemma SubSortsBeforeRoot()
    ensures StrLt(PathStr(Sub), PathStr(Root))
  {
    ExamplePathStrs("a");
    var rest := ConfigName[1..];
    assert ConfigName == ['c'] + rest;
    assert PathStr(Sub) == "r/" + ['a'] + ("/" + ConfigName);
    assert PathStr(Root) == "r/" + ['c'] + rest;
    StrLtAtFirstDifference("r/", 'a', "/" + ConfigName, 'c', rest);
  }

  /** `r/config.json` sorts before `r/x/config.json` ('c' < 'x'). */
  lemma StringSortRootBeforeChild()
    ensures SortBy([Root, Child], PathStr) == [Root, Child]
  {
    ExamplePathStrs("x");
    var rest := ConfigName[1..];
    assert ConfigName == ['c'] + rest;
    assert PathStr(Child) == "r/" + ['x'] + ("/" + ConfigName);
    assert PathStr(Root) == "r/" + ['c'] + rest;
    StrLtAtFirstDifference("r/", 'c', rest, 'x', "/" + ConfigName);
    SortTwo(Root, Child, PathStr);
  }

  /** Sorting by directory puts `r` before `r/<name>`. */
  lemma DirSortRootFirst(name: string)
    requires name != []
    ensures SortBy([Root, ["r", name, ConfigName]], DirStr) == [Root, ["r", name, ConfigName]]
  {
    var other: Path := ["r", name, ConfigName];
    assert Dirs(Root) == ["r"];
    assert DirStr(Root) == "r";
    var d := Dirs(other);
    assert d == ["r", name];
    assert d[1..] == [name];
    assert JoinWith([name], "/") == name;
    assert DirStr(other) == "r/" + name;
    ProperPrefixIsLess("r", "r/" + name);
    SortTwo(Root, other, DirStr);
  }

  /** The first turn, on an empty store, takes the file's own `default` and
      bindings. */
  lemma StepFromEmpty(f: Path, cf: ConfigFile, copyBindings: bool)
    requires cf.dbs.Some?
    ensures Step(Store(map[], []), f, cf, copyBindings) ==
            Ok(Store(map[f := Entry(if cf.default.Some? then cf.default.value else map[], 0)], [cf.dbs.value]))
  {
    var empty := Store(map[], []);
    assert GetCloserConfig(empty.entries, f) == None;
    var own := cf.dbs.value;
    assert Engines(own) == own;
    var none: Dict := map[];
    assert none + own == own;
    assert empty.tables + [none + own] == [own];
    assert InheritDefault(None, cf.default) == Ok(if cf.default.Some? then cf.default.value else map[]);
  }

  /** A build of two files is a turn for the first on the empty store,
      then a turn for the second. */
  lemma BuildTwo(a: Path, b: Path, files: map<Path, ConfigFile>, copyBindings: bool)
    requires a in files && b in files
    ensures BuildFrom([a], files, copyBindings) == Step(Store(map[], []), a, files[a], copyBindings)
    ensures BuildFrom([a], files, copyBindings).Ok? ==>
              BuildFrom([a, b], files, copyBindings) == Step(BuildFrom([a], files, copyBindings).value, b, files[b], copyBindings)
  {
    assert [a, b][..1] == [a];
    assert [a][..0] == [];
  }

  /** `r/config.json` has no ancestor configuration unless a bare
      `config.json` is stored. */
  lemma RootHasNoAncestor<V>(m: map<Path, V>)
    requires [ConfigName] !in m
    ensures GetCloserConfig(m, Root) == None
  {
    assert Dirs(Root) == ["r"];
    assert Candidate(Dirs(Root), 0) == [ConfigName];
  }

  /** For `r/<name>/config.json`, a store holding `r/config.json` only
      yields that entry. */
  lemma ChildFindsRoot<V>(v: V, name: string)
    ensures GetCloserConfig(map[Root := v], ["r", name, ConfigName]) == Some(v)
  {
    var f: Path := ["r", name, ConfigName];
    assert Dirs(f) == ["r", name];
    assert Candidate(Dirs(f), 1) == Root;
  }

  /** A turn for a file whose only ancestor configuration is the stored
      `r/config.json`: the file's `default` is joined over the root's, and
      its bindings are the root's with its own over them, in the root's own
      dict as written and in a new dict when copied. */
  lemma TurnUnderRoot(root: Entry, tables: seq<Dict>, f: Path, cf: ConfigFile, copyBindings: bool)
    requires root.table < |tables| && cf.dbs.Some? && f != Root
    requires GetCloserConfig(map[Root := root], f) == Some(root)
    requires cf.default.Some? ==> IsClean(cf.default.value) || IsReplace(cf.default.value)
    ensures var r := Step(Store(map[Root := root], tables), f, cf, copyBindings);
            && r.Ok?
            && (cf.default.Some? && IsReplace(cf.default.value) && !IsClean(cf.default.value) ==>
                  r.value.entries[f].default == (root.default - {MixKey}) + cf.default.value)
            && (copyBindings ==>
                  Bindings(r.value, Root) == tables[root.table] &&
                  Bindings(r.value, f) == tables[root.table] + cf.dbs.value)
            && (!copyBindings ==>
                  Bindings(r.value, Root) == tables[root.table] + cf.dbs.value &&
                  Bindings(r.value, f) == tables[root.table] + cf.dbs.value)
  {
    assert Valid(Store(map[Root := root], tables));
  }

  /** A turn for a file without any stored ancestor succeeds when the file
      has bindings, and leaves every other entry as it was. */
  lemma TurnWithoutAncestor(st: Store, f: Path, cf: ConfigFile, copyBindings: bool)
    requires Valid(st) && cf.dbs.Some?
    requires GetCloserConfig(st.entries, f) == None
    ensures Step(st, f, cf, copyBindings).Ok?
    ensures forall p :: p in st.entries && p != f ==> Step(st, f, cf, copyBindings).value.entries[p] == st.entries[p]
  {
  }

  /** A one-key binding written over a binding of the same name. */
  lemma OverwriteOne(k: string, a: Json, b: Json)
    ensures map[k := a] + map[k := b] == map[k := b]
  {
  }

  /** A `replace` merge of a one-key default under a one-key overlay. */
  lemma JoinTwoKeys(k1: string, v1: Json, k2: string, v2: Json)
    requires k1 != MixKey && k1 != k2
    ensures (map[k1 := v1] - {MixKey}) + map[k2 := v2] == map[k1 := v1, k2 := v2]
  {
  }

  /** The inputs of the first counterexample: a root default and a default
      of `r/a`. */
  function OrderingFiles(): map<Path, ConfigFile>
  {
    map[Root := ConfigFile(Some(map["if_exists" := Str("append")]), Some(map[])),
        Sub := ConfigFile(Some(map["schema" := Str("public")]), Some(map[]))]
  }

  /** As written, `r/a` is merged while `r` is not yet in the store, so it
      never inherits the root's `if_exists`. */
  lemma StringSortLosesAncestorDefault()
    ensures BuildFrom(SortBy([Root, Sub], PathStr), OrderingFiles(), false).Ok?
    ensures BuildFrom(SortBy([Root, Sub], PathStr), OrderingFiles(), false).value.entries[Sub].default ==
            map["schema" := Str("public")]
  {
    StringSortNotAncestorFirst();
    var files := OrderingFiles();
    BuildTwo(Sub, Root, files, false);
    StepFromEmpty(Sub, files[Sub], false);
    var st1 := Store(map[Sub := Entry(map["schema" := Str("public")], 0)], [map[]]);
    RootHasNoAncestor(st1.entries);
    TurnWithoutAncestor(st1, Root, files[Root], false);
  }

  /** Corrected, `r` comes first and `r/a` inherits its `if_exists`. */
  lemma DirSortKeepsAncestorDefault()
    ensures ResolveStore([Root, Sub], OrderingFiles()).Ok?
    ensures ResolveStore([Root, Sub], OrderingFiles()).value.entries[Sub].default ==
            map["if_exists" := Str("append"), "schema" := Str("public")]
  {
    DirSortRootFirst("a");
    var files := OrderingFiles();
    BuildTwo(Root, Sub, files, true);
    StepFromEmpty(Root, files[Root], true);
    var root := Entry(map["if_exists" := Str("append")], 0);
    ChildFindsRoot(root, "a");
    TurnUnderRoot(root, [map[]], Sub, files[Sub], true);
    JoinTwoKeys("if_exists", Str("append"), "schema", Str("public"));
  }

  /** The inputs of the second counterexample: the root binds `w` to one
      connection, `r/x` binds the same name to another. */
  function SharingFiles(): map<Path, ConfigFile>
  {
    map[Root := ConfigFile(None, Some(map["w" := Str("A")])),
        Child := ConfigFile(None, Some(map["w" := Str("B")]))]
  }

  /** As written, `r/x`'s binding is written into the root's own dict: the
      root's `w` now names `r/x`'s connection. */
  lemma SharedBindingsLeakUpward()
    ensures BuildFrom(SortBy([Root, Child], PathStr), SharingFiles(), false).Ok?
    ensures Bindings(BuildFrom(SortBy([Root, Child], PathStr), SharingFiles(), false).value, Root) ==
            map["w" := Str("B")]
  {
    StringSortRootBeforeChild();
    var files := SharingFiles();
    BuildTwo(Root, Child, files, false);
    StepFromEmpty(Root, files[Root], false);
    var root := Entry(map[], 0);
    ChildFindsRoot(root, "x");
    TurnUnderRoot(root, [map["w" := Str("A")]], Child, files[Child], false);
    OverwriteOne("w", Str("A"), Str("B"));
  }

  /** Corrected, the root keeps its own binding and `r/x` has its own. */
  lemma CopiedBindingsStayPut()
    ensures ResolveStore([Root, Child], SharingFiles()).Ok?
    ensures Bindings(ResolveStore([Root, Child], SharingFiles()).value, Root) == map["w" := Str("A")]
    ensures Bindings(ResolveStore([Root, Child], SharingFiles()).value, Child) == map["w" := Str("B")]
  {
    DirSortRootFirst("x");
    var files := SharingFiles();
    BuildTwo(Root, Child, files, true);
    StepFromEmpty(Root, files[Root], true);
    var root := Entry(map[], 0);
    ChildFindsRoot(root, "x");
    TurnUnderRoot(root, [map["w" := Str("A")]], Child, files[Child], true);
    OverwriteOne("w", Str("A"), Str("B"));
  }

  // ---------------------------------------------------------------------
  // What the whole build gives, when ancestors come first
  // ---------------------------------------------------------------------

  /** The entry of `f` is inherited from the nearest ancestor configuration
      among all of `order`: its `default` follows the turn's rule with that
      ancestor's final `default`, and, when bindings are copied, its bindings
      are that ancestor's final bindings with its own written over them. */
  ghost predicate InheritsFromNearest(st: Store, order: seq<Path>, files: map<Path, ConfigFile>, f: Path, copyBindings: bool)
    requires Valid(st) && f in files
  {
    var own := files[f];
    var near := CloserIndex((set p | p in order), Dirs(f), |Dirs(f)|);
    && f in st.entries
    && own.dbs.Some?
    && (near.None? ==>
          InheritDefault(None, own.default) == Ok(st.entries[f].default) &&
          (copyBindings ==> Bindings(st, f) == own.dbs.value))
    && (near.Some? ==>
          var a := Candidate(Dirs(f), near.value);
          && a in st.entries
          && InheritDefault(Some(st.entries[a]), own.default) == Ok(st.entries[f].default)
          && (copyBindings ==> Bindings(st, f) == Bindings(st, a) + own.dbs.value))
  }

  /** Appending `last` to the processing order adds no ancestor
      configuration of any file in the order. */
  lemma CandidatesBeforeLast(order: seq<Path>, f: Path)
    requires order != [] && NoDup(order) && AncestorFirst(order) && f in order
    ensures var pre := order[..|order| - 1];
            forall j :: 0 <= j < |Dirs(f)| ==>
              (Candidate(Dirs(f), j) in order <==> Candidate(Dirs(f), j) in pre)
  {
    var n := |order|;
    var pre := order[..n - 1];
    var last := order[n - 1];
    assert order == pre + [last];
  }

  /** A turn keeps what an earlier file inherited. */
  lemma InheritsKeptByStep(st0: Store, st: Store, pre: seq<Path>, last: Path, files: map<Path, ConfigFile>, f: Path, copyBindings: bool)
    requires Valid(st0) && f in files && last in files
    requires Step(st0, last, files[last], copyBindings) == Ok(st)
    requires st0.entries.Keys == set p | p in pre
    requires f in pre && last !in pre
    requires InheritsFromNearest(st0, pre, files, f, copyBindings)
    requires CloserIndex((set p | p in pre + [last]), Dirs(f), |Dirs(f)|) ==
             CloserIndex((set p | p in pre), Dirs(f), |Dirs(f)|)
    ensures InheritsFromNearest(st, pre + [last], files, f, copyBindings)
  {
    if copyBindings {
      StepCopyLeavesOthers(st0, last, files[last]);
    }
    var near := CloserIndex((set p | p in pre), Dirs(f), |Dirs(f)|);
    if near.Some? {
      var a := Candidate(Dirs(f), near.value);
      assert a in st0.entries && a != last;
    }
  }

  /** The file of a turn inherits from its nearest ancestor in the store. */
  lemma InheritsByStep(st0: Store, st: Store, pre: seq<Path>, last: Path, files: map<Path, ConfigFile>, copyBindings: bool)
    requires Valid(st0) && last in files
    requires Step(st0, last, files[last], copyBindings) == Ok(st)
    requires st0.entries.Keys == set p | p in pre
    requires last !in pre
    requires CloserIndex((set p | p in pre + [last]), Dirs(last), |Dirs(last)|) ==
             CloserIndex((set p | p in pre), Dirs(last), |Dirs(last)|)
    ensures InheritsFromNearest(st, pre + [last], files, last, copyBindings)
  {
    if CloserIndex(st0.entries.Keys, Dirs(last), |Dirs(last)|).Some? {
      InheritsByStepFromAncestor(st0, st, last, files[last], copyBindings);
    } else {
      StepEntry(st0, last, files[last], copyBindings);
    }
  }

  /** The turn's `default` when the store holds an ancestor of the file. */
  lemma InheritsByStepFromAncestor(st0: Store, st: Store, last: Path, cf: ConfigFile, copyBindings: bool)
    requires Valid(st0)
    requires Step(st0, last, cf, copyBindings) == Ok(st)
    requires CloserIndex(st0.entries.Keys, Dirs(last), |Dirs(last)|).Some?
    ensures var a := Candidate(Dirs(last), CloserIndex(st0.entries.Keys, Dirs(last), |Dirs(last)|).value);
            && a in st.entries && last in st.entries && cf.dbs.Some?
            && InheritDefault(Some(st.entries[a]), cf.default) == Ok(st.entries[last].default)
    ensures copyBindings ==>
              var a := Candidate(Dirs(last), CloserIndex(st0.entries.Keys, Dirs(last), |Dirs(last)|).value);
              Bindings(st, last) == Bindings(st, a) + cf.dbs.value
  {
    var a := AncestorIsOther(st0, last);
    StepEntry(st0, last, cf, copyBindings);
    if copyBindings {
      CopiedBindingsFromAncestor(st0, st, last, cf, a);
    }
  }

  /** The nearest stored ancestor is another entry than the file itself. */
  lemma AncestorIsOther(st0: Store, last: Path) returns (a: Path)
    requires CloserIndex(st0.entries.Keys, Dirs(last), |Dirs(last)|).Some?
    ensures a == Candidate(Dirs(last), CloserIndex(st0.entries.Keys, Dirs(last), |Dirs(last)|).value)
    ensures a in st0.entries && a != last
    ensures GetCloserConfig(st0.entries, last) == Some(st0.entries[a])
  {
    var near := CloserIndex(st0.entries.Keys, Dirs(last), |Dirs(last)|);
    a := Candidate(Dirs(last), near.value);
    assert |a| == near.value + 1 && near.value < |Dirs(last)|;
  }

  /** With bindings copied, the file's bindings are the ancestor's with
      its own over them. */
  lemma CopiedBindingsFromAncestor(st0: Store, st: Store, last: Path, cf: ConfigFile, a: Path)
    requires Valid(st0)
    requires Step(st0, last, cf, true) == Ok(st)
    requires a in st0.entries && a != last
    requires GetCloserConfig(st0.entries, last) == Some(st0.entries[a])
    ensures cf.dbs.Some? && a in st.entries && last in st.entries
    ensures Bindings(st, last) == Bindings(st, a) + cf.dbs.value
  {
    StepCopyLeavesOthers(st0, last, cf);
  }

  /** A successful build is a successful build of all but the last file,
      followed by a turn for the last one. */
  lemma BuildFromLast(order: seq<Path>, files: map<Path, ConfigFile>, copyBindings: bool)
    requires order != []
    requires forall p :: p in order ==> p in files
    requires BuildFrom(order, files, copyBindings).Ok?
    ensures var pre := order[..|order| - 1];
            var last := order[|order| - 1];
            && BuildFrom(pre, files, copyBindings).Ok?
            && Step(BuildFrom(pre, files, copyBindings).value, last, files[last], copyBindings) ==
               BuildFrom(order, files, copyBindings)
  {
  }

  lemma SplitLast(order: seq<Path>)
    requires order != []
    ensures order == order[..|order| - 1] + [order[|order| - 1]]
  {
  }

  /** Dropping the last file keeps the order's two properties, and the
      last file occurs only once. */
  lemma PrefixKeepsOrder(order: seq<Path>)
    requires order != [] && NoDup(order) && AncestorFirst(order)
    ensures var pre := order[..|order| - 1];
            NoDup(pre) && AncestorFirst(pre) && order[|order| - 1] !in pre
  {
    var n := |order|;
    var pre := order[..n - 1];
    assert AncestorFirst(pre) by {
      forall i, j | 0 <= i < |pre| && 0 <= j < |pre| && IsAncestorConfig(pre[j], pre[i]) ensures j < i {
        assert pre[i] == order[i] && pre[j] == order[j];
      }
    }
    forall i | 0 <= i < |pre| ensures pre[i] != order[n - 1] {
      assert pre[i] == order[i];
    }
  }

  /** The induction step: after the turn for the last file, every file of
      the order inherits from its nearest ancestor in the order. */
  lemma InheritsAfterTurn(order: seq<Path>, pre: seq<Path>, last: Path, files: map<Path, ConfigFile>, copyBindings: bool, st0: Store, st: Store, f: Path)
    requires order == pre + [last] && NoDup(order) && AncestorFirst(order)
    requires forall p :: p in order ==> p in files
    requires Valid(st0) && st0.entries.Keys == set p | p in pre
    requires Step(st0, last, files[last], copyBindings) == Ok(st)
    requires forall g :: g in pre ==> InheritsFromNearest(st0, pre, files, g, copyBindings)
    requires f in order
    ensures InheritsFromNearest(st, order, files, f, copyBindings)
  {
    assert pre == order[..|order| - 1];
    PrefixKeepsOrder(order);
    CandidatesBeforeLast(order, f);
    CloserIndexAgree((set p | p in order), (set p | p in pre), Dirs(f), |Dirs(f)|);
    if f == last {
      InheritsByStep(st0, st, pre, last, files, copyBindings);
    } else {
      InheritsKeptByStep(st0, st, pre, last, files, f, copyBindings);
    }
  }

  /** When every ancestor configuration comes before its descendants, each
      built entry inherits from its nearest ancestor configuration. */
  lemma {:induction false} BuildInheritsFromNearest(order: seq<Path>, files: map<Path, ConfigFile>, copyBindings: bool)
    requires forall p :: p in order ==> p in files
    requires NoDup(order) && AncestorFirst(order)
    requires BuildFrom(order, files, copyBindings).Ok?
    ensures var st := BuildFrom(order, files, copyBindings).value;
            forall f :: f in order ==> InheritsFromNearest(st, order, files, f, copyBindings)
    decreases |order|
  {
    if order != [] {
      var pre := order[..|order| - 1];
      SplitLast(order);
      var st := BuildFrom(order, files, copyBindings).value;
      BuildFromLast(order, files, copyBindings);
      var st0 := BuildFrom(pre, files, copyBindings).value;
      PrefixKeepsOrder(order);
      BuildInheritsFromNearest(pre, files, copyBindings);
      forall f | f in order ensures InheritsFromNearest(st, order, files, f, copyBindings) {
        InheritsAfterTurn(order, pre, order[|order| - 1], files, copyBindings, st0, st, f);
      }
    }
  }

  /** The corrected store (the corrected `get_config`): the paths sorted by
      their directory, so ancestors come first as the comment at
      data2sql.py:141-143 expects, and every entry with its own copy of the
      inherited bindings. */
  function ResolveStore(discovered: seq<Path>, files: map<Path, ConfigFile>): (r: Result<Store>)
    requires forall p :: p in discovered ==> p in files
    ensures r.Ok? ==> Valid(r.value) && r.value.entries.Keys == set p | p in discovered
  {
    var order := SortBy(discovered, DirStr);
    assert forall p :: p in order <==> p in discovered by {
      forall p ensures p in order <==> p in discovered {
        assert p in order <==> p in multiset(order);
        assert p in discovered <==> p in multiset(discovered);
      }
    }
    BuildFrom(order, files, true)
  }

  /** In the corrected store every entry inherits from the nearest ancestor
      configuration found anywhere under the scanned folder, however `glob`
      ordered the files: its `default` by the merge rule and its bindings as
      that ancestor's with its own written over them. */
  lemma ResolveStoreInherits(discovered: seq<Path>, files: map<Path, ConfigFile>)
    requires forall p :: p in discovered ==> p in files
    requires NoDup(discovered) && PartsNonEmpty(discovered)
    requires ResolveStore(discovered, files).Ok?
    ensures var st := ResolveStore(discovered, files).value;
            forall f :: f in discovered ==> InheritsFromNearest(st, discovered, files, f, true)
  {
    var order := SortBy(discovered, DirStr);
    assert forall p :: p in order <==> p in discovered by {
      forall p ensures p in order <==> p in discovered {
        assert p in order <==> p in multiset(order);
        assert p in discovered <==> p in multiset(discovered);
      }
    }
    assert (set p | p in order) == (set p | p in discovered);
    NoDupPermutation(discovered, order);
    assert PartsNonEmpty(discovered);
    SortByDirIsAncestorFirst(discovered);
    BuildInheritsFromNearest(order, files, true);
  }

  /** The code as written gives each `default` from the nearest ancestor
      too, but only under an explicit precondition: that the string sort
      happens to put ancestors first. */
  lemma GetConfigDefaultsUnderAncestorFirst(discovered: seq<Path>, files: map<Path, ConfigFile>)
    requires forall p :: p in discovered ==> p in files
    requires NoDup(discovered) && AncestorFirst(SortBy(discovered, PathStr))
    requires BuildFrom(SortBy(discovered, PathStr), files, false).Ok?
    ensures var st := BuildFrom(SortBy(discovered, PathStr), files, false).value;
            forall f :: f in discovered ==> InheritsFromNearest(st, discovered, files, f, false)
  {
    var order := SortBy(discovered, PathStr);
    assert (set p | p in order) == (set p | p in discovered);
    NoDupPermutation(discovered, order);
    BuildInheritsFromNearest(order, files, false);
  }
}
