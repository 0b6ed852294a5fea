/** geo2sql.py: `get_closer_file`, the lookup of `get_file_config` over a
    store of already-loaded configuration files, and `pandas2sql` from that
    lookup to the writer's arguments. */
module GeoSql {
  import opened Json
  import opened Text
  import opened Paths
  import opened Merge
  import opened Tokens
  import opened Writer

  // ---------------------------------------------------------------------
  // `os.path` on POSIX
  // ---------------------------------------------------------------------

  /** The text with its trailing `/` characters removed. */
  function StripSlashes(s: string): (r: string)
    ensures r <= s
    ensures r == [] || r[|r| - 1] != '/'
    ensures forall k :: |r| <= k < |s| ==> s[k] == '/'
  {
    if s != [] && s[|s| - 1] == '/' then StripSlashes(s[..|s| - 1]) else s
  }

  /** `os.path.split(p)`: the text after the last `/`, and the text up to
      that `/` with its trailing slashes stripped unless it is made of
      slashes only. The result is always a pair. */
  function OsPathSplit(p: string): (parts: (string, string))
    ensures parts.1 == Basename(p)
    ensures parts.0 <= p
  {
    var tail := Basename(p);
    var head := p[..|p| - |tail|];
    (if exists k :: 0 <= k < |head| && head[k] != '/' then StripSlashes(head) else head, tail)
  }

  /** `os.path.join(a, *p)`: an absolute part starts the path afresh, any
      other part is appended after a `/` unless the path so far is empty
      or already ends in one. */
  function OsPathJoin(a: string, p: seq<string>): (r: string)
    ensures (forall i :: 0 <= i < |p| ==> p[i] == [] || p[i][0] != '/') ==> a <= r
    ensures p != [] ==> |p[|p| - 1]| <= |r| && r[|r| - |p[|p| - 1]|..] == p[|p| - 1]
    decreases |p|
  {
    if p == [] then a
    else
      var b := p[0];
      var path := if b != [] && b[0] == '/' then b
                  else if a == [] || a[|a| - 1] == '/' then a + b
                  else a + "/" + b;
      OsPathJoin(path, p[1..])
  }

  /** `os.path.join(*dirs[0:i], "config.json")`. */
  function ConfigAt(dirs: seq<string>, i: nat): string
    requires i <= |dirs|
  {
    var args := dirs[..i] + [ConfigName];
    OsPathJoin(args[0], args[1..])
  }

  // ---------------------------------------------------------------------
  // `get_closer_file` (geo2sql.py:95-101)
  // ---------------------------------------------------------------------

  /** The downward search over `reversed(range(n))`. */
  function CloserFileSearch(files: seq<string>, dirs: seq<string>, n: nat): (r: Option<string>)
    requires n <= |dirs|
    ensures r.Some? ==> r.value in files
    ensures r.None? <==> forall i :: 0 <= i < n ==> ConfigAt(dirs, i) !in files
  {
    if n == 0 then None
    else if ConfigAt(dirs, n - 1) in files then Some(ConfigAt(dirs, n - 1))
    else CloserFileSearch(files, dirs, n - 1)
  }

  /** `get_closer_file(files, one)`: `os.path.split(one)[:-1]` is the
      one-element tuple holding the head of `one`, so the search tries
      `os.path.join(*[], "config.json")` only. */
  function GetCloserFile(files: seq<string>, one: string): (r: Option<string>)
    ensures r.Some? ==> r.value in files
  {
    var dirs := [OsPathSplit(one).0];
    CloserFileSearch(files, dirs, |dirs|)
  }

  /** Whatever the file, `get_closer_file` answers the bare `config.json`
      when the list holds it and nothing otherwise: no directory of `one`
      is ever looked at. */
  lemma GetCloserFileOnlyBareName(files: seq<string>, one: string)
    ensures GetCloserFile(files, one) == (if ConfigName in files then Some(ConfigName) else None)
  {
    var dirs := [OsPathSplit(one).0];
    assert ConfigAt(dirs, 0) == ConfigName by {
      var args := dirs[..0] + [ConfigName];
      assert args == [ConfigName] && args[1..] == [];
      assert OsPathJoin(ConfigName, []) == ConfigName;
    }
    assert CloserFileSearch(files, dirs, 0) == None;
  }

  // ---------------------------------------------------------------------
  // The lookup of `get_file_config` (geo2sql.py:45-60)
  // ---------------------------------------------------------------------

  /** One entry of the store: the file's `default` dict object and its
      `dbs` bindings. */
  datatype GeoEntry = GeoEntry(default: MutDict, dbs: Dict)

  /** The `default` objects of the store. */
  function Defaults(config: map<string, GeoEntry>): set<MutDict>
  {
    set k | k in config :: config[k].default
  }

  /** The paths the loop of `get_file_config` looks up, one per
      `_dir in range(len(parts) - 1)`. */
  function ScannedPaths(parts: seq<string>): (r: seq<string>)
    ensures |r| == if |parts| == 0 then 0 else |parts| - 1
  {
    var n := if |parts| == 0 then 0 else |parts| - 1;
    seq(n, d requires 0 <= d < n => ConfigAt(parts, d))
  }

  /** `os.path.split` yields a pair, so the loop makes one turn, on the
      bare `config.json`. */
  lemma ScannedPathsOfSplit(path: string)
    ensures var split := OsPathSplit(path);
            ScannedPaths([split.0, split.1]) == [ConfigName]
  {
    var split := OsPathSplit(path);
    var parts := [split.0, split.1];
    assert parts[..0] + [ConfigName] == [ConfigName];
    assert ScannedPaths(parts)[0] == ConfigAt(parts, 0);
  }

  /** What `conn` holds after the scan: the binding of `db` in the last
      scanned entry that binds it (`null` when none does, or when that
      binding is itself `null`). Only a string can be a key of `dbs`. */
  function LastBinding(scanned: seq<string>, config: map<string, GeoEntry>, db: Json): (conn: Json)
    ensures (forall i :: 0 <= i < |scanned| ==> !(scanned[i] in config && db.Str? && db.s in config[scanned[i]].dbs)) ==>
              conn == Null
    decreases |scanned|
  {
    if scanned == [] then Null
    else
      var last := scanned[|scanned| - 1];
      if last in config && db.Str? && db.s in config[last].dbs then config[last].dbs[db.s]
      else LastBinding(scanned[..|scanned| - 1], config, db)
  }

  /** Later scanned entries override earlier ones: the binding comes from
      the last entry that binds `db`. */
  lemma {:induction false} LastBindingLastWins(scanned: seq<string>, config: map<string, GeoEntry>, db: Json, i: nat)
    requires i < |scanned| && scanned[i] in config && db.Str? && db.s in config[scanned[i]].dbs
    requires forall j :: i < j < |scanned| ==> !(scanned[j] in config && db.s in config[scanned[j]].dbs)
    ensures LastBinding(scanned, config, db) == config[scanned[i]].dbs[db.s]
    decreases |scanned|
  {
    if i < |scanned| - 1 {
      var pre := scanned[..|scanned| - 1];
      assert forall j :: i < j < |pre| ==> pre[j] == scanned[j];
      LastBindingLastWins(pre, config, db, i);
    }
  }

  /** Scanning the bare `config.json` alone. */
  lemma LastBindingOfBareName(config: map<string, GeoEntry>, db: Json)
    ensures LastBinding([ConfigName], config, db) ==
            if ConfigName in config && db.Str? && db.s in config[ConfigName].dbs
            then config[ConfigName].dbs[db.s] else Null
  {
    assert [ConfigName][..|[ConfigName]| - 1] == [];
  }

  /** The outcome of `get_file_config` as a specification: `None` when the
      sidecar is returned as it is (`mix` is `clean`), otherwise the
      connection and the contents of the returned configuration, with the
      errors in the order the source raises them. The returned
      configuration never holds the sidecar's own keys: the loop merges
      into `ret`, which starts empty, and drops `join2configs`' in-place
      update of it. */
  function FileLookup(sidecar: Dict, config: map<string, GeoEntry>): (r: Result<Option<(Json, Dict)>>)
    reads Defaults(config)
    ensures r == Ok(None) <==> IsClean(sidecar)
    ensures !IsClean(sidecar) && (ConfigName !in config || DbKey !in sidecar) ==> r.Err?
  {
    if IsClean(sidecar) then Ok(None)
    else if ConfigName in config then
      var d := config[ConfigName].default.items;
      if !IsClean(d) && !IsReplace(d) then Err(UnsupportedMix(d[MixKey]))
      else if DbKey !in sidecar then Err(KeyMissing(DbKey))
      else if sidecar[DbKey].Arr? || sidecar[DbKey].Obj? then Err(Unhashable(sidecar[DbKey]))
      else
        var conn := LastBinding([ConfigName], config, sidecar[DbKey]);
        if conn.Null? then Err(DbNotFound(sidecar[DbKey]))
        else Ok(Some((conn, if IsClean(d) then d else map[])))
    else if DbKey !in sidecar then Err(KeyMissing(DbKey))
    else Err(DbNotFound(sidecar[DbKey]))
  }

  /** The connection found is the store's binding of the sidecar's `db`
      under the bare `config.json`, and the configuration is the whole
      `default` there when that says `clean` and empty otherwise; none of
      the sidecar's settings reach it. */
  lemma FileLookupFound(sidecar: Dict, config: map<string, GeoEntry>)
    requires FileLookup(sidecar, config).Ok? && FileLookup(sidecar, config).value.Some?
    ensures ConfigName in config && !IsClean(sidecar)
    ensures DbKey in sidecar && sidecar[DbKey].Str?
    ensures var e := config[ConfigName];
            && sidecar[DbKey].s in e.dbs
            && FileLookup(sidecar, config).value.value.0 == e.dbs[sidecar[DbKey].s] != Null
            && FileLookup(sidecar, config).value.value.1 ==
               (if IsClean(e.default.items) then e.default.items else map[])
  {
    LastBindingOfBareName(config, sidecar[DbKey]);
  }

  /** What `get_file_config` returns: the sidecar itself, or the pair. */
  datatype GeoLookup = Clean(sidecar: Dict) | Found(conn: Json, config: MutDict)

  /** One turn of the loop of `get_file_config` on an entry of the store:
      `ret = join2configs(ret, default)`, then the test of the sidecar's
      `db` against the entry's `dbs`, which reads `file_config['db']` and
      hashes it. */
  method ScanTurn(ret: MutDict, entry: GeoEntry, sidecar: Dict, conn: Json) returns (r: Result<(MutDict, Json)>)
    requires ret != entry.default
    modifies ret
    ensures !IsClean(entry.default.items) && !IsReplace(entry.default.items) ==>
              r == Err(UnsupportedMix(entry.default.items[MixKey]))
    ensures (IsClean(entry.default.items) || IsReplace(entry.default.items)) && DbKey !in sidecar ==>
              r == Err(KeyMissing(DbKey))
    ensures (IsClean(entry.default.items) || IsReplace(entry.default.items)) && DbKey in sidecar &&
            (sidecar[DbKey].Arr? || sidecar[DbKey].Obj?) ==>
              r == Err(Unhashable(sidecar[DbKey]))
    ensures r.Ok? ==>
              && (IsClean(entry.default.items) || IsReplace(entry.default.items))
              && DbKey in sidecar && !sidecar[DbKey].Arr? && !sidecar[DbKey].Obj?
              && r.value.1 == (if sidecar[DbKey].Str? && sidecar[DbKey].s in entry.dbs
                               then entry.dbs[sidecar[DbKey].s] else conn)
    ensures r.Ok? && IsClean(entry.default.items) ==> r.value.0 == entry.default
    ensures r.Ok? && !IsClean(entry.default.items) ==> fresh(r.value.0) && r.value.0.items == old(ret.items) - {MixKey}
    ensures ((IsClean(entry.default.items) || IsReplace(entry.default.items)) && DbKey in sidecar &&
             !sidecar[DbKey].Arr? && !sidecar[DbKey].Obj?) ==> r.Ok?
  {
    var joined := MutatingJoin(ret, entry.default);
    if joined.Err? {
      return Err(joined.error);
    }
    if DbKey !in sidecar {
      return Err(KeyMissing(DbKey));
    }
    var db := sidecar[DbKey];
    if db.Arr? || db.Obj? {
      return Err(Unhashable(db));
    }
    var next := conn;
    if db.Str? && db.s in entry.dbs {
      next := entry.dbs[db.s];
    }
    return Ok((joined.value, next));
  }

  /** `get_file_config(geo_file_path, config)` with the sidecar already
      loaded. The loop is the source's: merge each scanned entry's
      `default` into `ret` with the in-place `join2configs`, then read the
      binding of the sidecar's `db`. A `clean` default is returned as the
      store's own object; otherwise `ret` is a fresh empty dict. */
  method GeoFileConfig(sidecar: Dict, path: string, config: map<string, GeoEntry>) returns (r: Result<GeoLookup>)
    ensures FileLookup(sidecar, config).Err? ==> r == Err(FileLookup(sidecar, config).error)
    ensures FileLookup(sidecar, config) == Ok(None) ==> r == Ok(Clean(sidecar))
    ensures FileLookup(sidecar, config).Ok? && FileLookup(sidecar, config).value.Some? ==>
              && r.Ok? && r.value.Found?
              && r.value.conn == FileLookup(sidecar, config).value.value.0
              && r.value.config.items == FileLookup(sidecar, config).value.value.1
    ensures r.Ok? && r.value.Found? ==>
              if IsClean(config[ConfigName].default.items) then r.value.config == config[ConfigName].default
              else fresh(r.value.config)
  {
    if IsClean(sidecar) {
      return Ok(Clean(sidecar));
    }
    var split := OsPathSplit(path);
    var parts := [split.0, split.1];
    ghost var scanned := ScannedPaths(parts);
    ScannedPathsOfSplit(path);
    ghost var db := if DbKey in sidecar then sidecar[DbKey] else Null;
    LastBindingOfBareName(config, db);
    var ret := new MutDict(map[]);
    var conn := Null;
    var d := 0;
    while d < |parts| - 1
      invariant 0 <= d <= 1
      invariant d == 0 ==> conn == Null
      invariant d == 1 ==> conn == LastBinding([ConfigName], config, db)
      invariant d == 0 ==> fresh(ret) && ret.items == map[]
      invariant d == 1 && ConfigName in config ==>
                  var def := config[ConfigName].default;
                  && (IsClean(def.items) || IsReplace(def.items))
                  && DbKey in sidecar && !sidecar[DbKey].Arr? && !sidecar[DbKey].Obj?
                  && (IsClean(def.items) ==> ret == def)
      invariant d == 1 && !(ConfigName in config && IsClean(config[ConfigName].default.items)) ==>
                  fresh(ret) && ret.items == map[]
    {
      var pconfig := ConfigAt(parts, d);
      assert pconfig == scanned[d] == ConfigName;
      if pconfig in config {
        var turn := ScanTurn(ret, config[pconfig], sidecar, conn);
        if turn.Err? {
          return Err(turn.error);
        }
        ret, conn := turn.value.0, turn.value.1;
      }
      d := d + 1;
    }
    if conn.Null? {
      if DbKey !in sidecar {
        return Err(KeyMissing(DbKey));
      }
      return Err(DbNotFound(sidecar[DbKey]));
    }
    return Ok(Found(conn, ret));
  }

  // ---------------------------------------------------------------------
  // `pandas2sql` (geo2sql.py:62-90)
  // ---------------------------------------------------------------------

  /** The parameter block of `pandas2sql`: the tokens of the item are
      substituted in the configuration in place, then the six writer keys
      are kept and `if_exists` is forced to `"replace"` under `__debug__`
      (true unless Python runs with `-O`). */
  method GeoSqlParams(geoConfig: MutDict, item: Path, debug: bool) returns (params: Dict)
    modifies geoConfig
    ensures geoConfig.items == Substituted(old(geoConfig.items), PathlibTokens(item))
    ensures params == DebugParams(geoConfig.items, debug)
  {
    var repKeys := PathlibTokens(item);
    ReplaceKeys(geoConfig, repKeys);
    params := ForcedParams(geoConfig.items, debug);
  }

  /** What `to_postgis` is called with: the table name, the connection and
      the keyword arguments. */
  datatype GeoWrite = GeoWrite(table: Json, conn: Json, params: Dict)

  /** `pandas2sql(geo_file_path, config)` once the file is loaded. With
      `copyConfig` false this is the code as written: a `clean` default is
      substituted in place, inside the store. With `copyConfig` true the
      configuration is copied first, the way `join2configs` of data2sql.py
      (data2sql.py:39-42) copies before it merges, so that one item's
      substitution cannot reach the next item. A sidecar
      returned as it is cannot be unpacked into `conn, geo_config`. */
  method GeoPandas2Sql(sidecar: Dict, item: Path, config: map<string, GeoEntry>, debug: bool, copyConfig: bool)
    returns (r: Result<GeoWrite>)
    modifies Defaults(config)
    ensures old(FileLookup(sidecar, config)).Err? ==> r == Err(old(FileLookup(sidecar, config)).error)
    ensures old(FileLookup(sidecar, config)) == Ok(None) ==> r == Err(BadUnpack)
    ensures old(FileLookup(sidecar, config)).Ok? && old(FileLookup(sidecar, config)).value.Some? ==>
              var found := old(FileLookup(sidecar, config)).value.value;
              var rendered := Substituted(found.1, PathlibTokens(item));
              && (NameKey in rendered ==> r == Ok(GeoWrite(rendered[NameKey], found.0, DebugParams(rendered, debug))))
              && (NameKey !in rendered ==> r == Err(KeyMissing(NameKey)))
    ensures copyConfig ==> unchanged(Defaults(config))
    ensures forall o :: o in Defaults(config) ==>
              || o.items == old(o.items)
              || (&& !copyConfig && ConfigName in config && o == config[ConfigName].default
                  && old(IsClean(o.items))
                  && o.items == Substituted(old(o.items), PathlibTokens(item)))
    ensures !copyConfig && old(FileLookup(sidecar, config)).Ok? && old(FileLookup(sidecar, config)).value.Some? &&
            old(IsClean(config[ConfigName].default.items)) ==>
              config[ConfigName].default.items == Substituted(old(config[ConfigName].default.items), PathlibTokens(item))
  {
    var found := GeoFileConfig(sidecar, PathStr(item), config);
    if found.Err? {
      return Err(found.error);
    }
    if found.value.Clean? {
      return Err(BadUnpack);
    }
    var conn := found.value.conn;
    var geoConfig := found.value.config;
    if copyConfig {
      geoConfig := new MutDict(geoConfig.items);
    }
    var params := GeoSqlParams(geoConfig, item, debug);
    if NameKey !in geoConfig.items {
      return Err(KeyMissing(NameKey));
    }
    return Ok(GeoWrite(geoConfig.items[NameKey], conn, params));
  }

  /** `PurePath("a.shp").stem`. */
  lemma StemOfShp(c: char)
    requires c != '.'
    ensures PathStem([c] + ".shp") == [c]
  {
    var name := [c] + ".shp";
    assert RFind(name[..4], '.') == 1 by {
      assert name[..4][..3][..2][1] == '.';
    }
    assert RFind(name, '.') == 1;
  }

  /** A `clean` default naming the table after the file's stem. */
  function Template(): Dict
  {
    map[MixKey := Str("clean"), NameKey := Str(FileStemToken)]
  }

  /** The template rendered for `c.shp` names the table `c`. */
  lemma TemplateRendered(c: char)
    requires c != '.'
    ensures Substituted(Template(), PathlibTokens([[c] + ".shp"])) == map[MixKey := Str("clean"), NameKey := Str([c])]
  {
    var table := PathlibTokens([[c] + ".shp"]);
    StemOfShp(c);
    assert table == [(FileNameToken, [c] + ".shp"), (FileStemToken, [c])];
    TokenTableRendersStem([c] + ".shp", [c]);
    ApplyTokensTokenFree("clean", table);
  }

  /** A rendered template holds no token any more: rendering it again for
      another file leaves it as it is. */
  lemma RenderedStays(c: char, item: Path)
    ensures Substituted(map[MixKey := Str("clean"), NameKey := Str([c])], PathlibTokens(item)) ==
            map[MixKey := Str("clean"), NameKey := Str([c])]
  {
    ShortIsTokenFree("clean", item);
    ShortIsTokenFree([c], item);
    SubstitutedTokenFree(map[MixKey := Str("clean"), NameKey := Str([c])], PathlibTokens(item));
  }

  /** The lookup for a sidecar `{"db": "main"}` in a store whose bare
      `config.json` has a `clean` default and binds `main`. */
  lemma CleanDefaultLookup(config: map<string, GeoEntry>)
    requires ConfigName in config && IsClean(config[ConfigName].default.items)
    requires "main" in config[ConfigName].dbs && config[ConfigName].dbs["main"] != Null
    ensures FileLookup(map[DbKey := Str("main")], config) ==
            Ok(Some((config[ConfigName].dbs["main"], config[ConfigName].default.items)))
  {
    LastBindingOfBareName(config, Str("main"));
  }

  /** One file written with `config.json` as the only configuration: a
      `clean` default holding `name`, and `main` bound. */
  method WriteUnderCleanDefault(def: MutDict, item: Path, copyConfig: bool) returns (r: Result<GeoWrite>)
    requires IsClean(def.items) && NameKey in def.items
    modifies def
    ensures r.Ok? && r.value.table == Substituted(old(def.items), PathlibTokens(item))[NameKey]
    ensures def.items == if copyConfig then old(def.items) else Substituted(old(def.items), PathlibTokens(item))
  {
    var store := map[ConfigName := GeoEntry(def, map["main" := Str("conn")])];
    CleanDefaultLookup(store);
    r := GeoPandas2Sql(map[DbKey := Str("main")], item, store, true, copyConfig);
  }

  /** Two files of one folder whose `config.json` has a `clean` default
      naming the table `{file_name_no_ext}`: as written, the first file's
      substitution is left in the store, so the second file is written to
      the first file's table. */
  method SecondItemWritesToFirstTable() returns (first: Result<GeoWrite>, second: Result<GeoWrite>)
    ensures first.Ok? && first.value.table == Str("a")
    ensures second.Ok? && second.value.table == Str("a")
  {
    var def := new MutDict(Template());
    TemplateRendered('a');
    assert ['a'] + ".shp" == "a.shp";
    first := WriteUnderCleanDefault(def, ["a.shp"], false);
    RenderedStays('a', ["b.shp"]);
    second := WriteUnderCleanDefault(def, ["b.shp"], false);
  }

  /** With the configuration copied, writing `c.shp` under the template
      (for any `c` but a dot) goes to table `c` and leaves the template in
      the store. */
  method WriteCopiedTemplate(def: MutDict, c: char) returns (r: Result<GeoWrite>)
    requires c != '.' && def.items == Template()
    modifies def
    ensures r.Ok? && r.value.table == Str([c])
    ensures def.items == Template()
  {
    TemplateRendered(c);
    r := WriteUnderCleanDefault(def, [[c] + ".shp"], true);
  }

  /** The same two files with the configuration copied before the tokens
      are substituted: the store keeps its template and each file is
      written to its own table. */
  method SecondItemWritesToOwnTable() returns (first: Result<GeoWrite>, second: Result<GeoWrite>)
    ensures first.Ok? && first.value.table == Str("a")
    ensures second.Ok? && second.value.table == Str("b")
  {
    var def := new MutDict(Template());
    first := WriteCopiedTemplate(def, 'a');
    second := WriteCopiedTemplate(def, 'b');
  }
}
