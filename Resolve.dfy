/** `get_file_config` of data2sql.py and the dictionary part of its
    `pandas2sql`: the configuration and connection of one data item. */
module ItemConfig {
  import opened Json
  import opened Paths
  import opened Merge
  import opened Tokens
  import opened Writer
  import opened ConfigStore

  /** What `get_file_config` does with the `(default, dbs)` pair it found,
      or `None`, and the item's sidecar, in the order the source raises:
      the merge first, then the test `g_config is None or
      file_config['db'] not in g_config`, whose message reads
      `file_config['db']` again. */
  function FileConfigFrom(upper: Option<(Dict, Dict)>, sidecar: Option<Dict>): (r: Result<(Json, Dict)>)
    ensures upper.None? ==> r.Err?
    ensures r.Ok? ==>
              && Join2Configs(Some(upper.value.0), sidecar) == Ok(Some(r.value.1))
              && DbKey in r.value.1 && r.value.1[DbKey].Str?
              && r.value.1[DbKey].s in upper.value.1
              && r.value.0 == upper.value.1[r.value.1[DbKey].s]
    ensures upper.Some? ==>
              (r.Ok? <==> (Join2Configs(Some(upper.value.0), sidecar).Ok? &&
                           var cfg := Join2Configs(Some(upper.value.0), sidecar).value.value;
                           DbKey in cfg && cfg[DbKey].Str? && cfg[DbKey].s in upper.value.1))
    ensures r.Err? && Join2Configs(if upper.Some? then Some(upper.value.0) else None, sidecar).Err? ==>
              r.error == Join2Configs(if upper.Some? then Some(upper.value.0) else None, sidecar).error
  {
    var base := if upper.Some? then Some(upper.value.0) else None;
    match Join2Configs(base, sidecar)
    case Err(e) => Err(e)
    case Ok(merged) =>
      if upper.None? then
        if merged.None? then Err(NotSubscriptable)
        else if DbKey !in merged.value then Err(KeyMissing(DbKey))
        else Err(DbNotFound(merged.value[DbKey]))
      else
        var cfg := merged.value;
        var dbs := upper.value.1;
        if DbKey !in cfg then Err(KeyMissing(DbKey))
        else
          var db := cfg[DbKey];
          if db.Arr? || db.Obj? then Err(Unhashable(db))
          else if db.Str? && db.s in dbs then Ok((dbs[db.s], cfg))
          else Err(DbNotFound(db))
  }

  /** `get_file_config(item, config)` of data2sql.py, as written: the
      ancestor is looked up with `get_closer_config`, which skips the item's
      own directory. */
  function GetFileConfig(st: Store, item: Path, sidecar: Option<Dict>): (r: Result<(Json, Dict)>)
    requires Valid(st)
    ensures GetCloserConfig(st.entries, item).None? ==> r.Err?
    ensures r.Ok? ==>
              var e := GetCloserConfig(st.entries, item).value;
              && Join2Configs(Some(e.default), sidecar) == Ok(Some(r.value.1))
              && DbKey in r.value.1 && r.value.1[DbKey].Str? && r.value.1[DbKey].s in st.tables[e.table]
              && r.value.0 == st.tables[e.table][r.value.1[DbKey].s]
  {
    var upper := GetCloserConfig(st.entries, item);
    FileConfigFrom(if upper.Some? then Some((upper.value.default, st.tables[upper.value.table])) else None, sidecar)
  }

  /** The item's configuration and connection come from the nearest
      `config.json` above its directory: the connection is exactly that
      entry's binding for the merged `db`, the configuration is the sidecar
      merged over that entry's `default`; with no such entry it fails. */
  lemma GetFileConfigFromNearest(st: Store, item: Path, sidecar: Option<Dict>)
    requires Valid(st)
    ensures GetCloserConfig(st.entries, item).None? ==> GetFileConfig(st, item, sidecar).Err?
    ensures GetFileConfig(st, item, sidecar).Ok? ==>
              exists i :: 0 <= i < |Dirs(item)| && Candidate(Dirs(item), i) in st.entries &&
                (forall j :: i < j < |Dirs(item)| ==> Candidate(Dirs(item), j) !in st.entries) &&
                var a := Candidate(Dirs(item), i);
                var cfg := GetFileConfig(st, item, sidecar).value.1;
                && Join2Configs(Some(st.entries[a].default), sidecar) == Ok(Some(cfg))
                && GetFileConfig(st, item, sidecar).value.0 == Bindings(st, a)[cfg[DbKey].s]
  {
    var upper := GetCloserConfig(st.entries, item);
    if upper.Some? && GetFileConfig(st, item, sidecar).Ok? {
      var i :| 0 <= i < |Dirs(item)| && Candidate(Dirs(item), i) in st.entries &&
               upper.value == st.entries[Candidate(Dirs(item), i)] &&
               forall j :: i < j < |Dirs(item)| ==> Candidate(Dirs(item), j) !in st.entries;
      assert Candidate(Dirs(item), i) in st.entries;
    }
  }

  /** The corrected lookup for a data item: the nearest configuration
      including the item's own directory. `get_config` stores every
      `config.json` it finds (data2sql.py:144-147), also one beside the
      data files, and the comment at data2sql.py:127-129 puts the contained
      folders "with their files"; the lookup as written never consults such
      a file for the items next to it. */
  function ResolveItem(st: Store, item: Path, sidecar: Option<Dict>): (r: Result<(Json, Dict)>)
    requires Valid(st)
    ensures ClosestForItem(st.entries, item).None? ==> r.Err?
    ensures r.Ok? ==>
              var e := ClosestForItem(st.entries, item).value;
              && Join2Configs(Some(e.default), sidecar) == Ok(Some(r.value.1))
              && DbKey in r.value.1 && r.value.1[DbKey].Str? && r.value.1[DbKey].s in st.tables[e.table]
              && r.value.0 == st.tables[e.table][r.value.1[DbKey].s]
  {
    var upper := ClosestForItem(st.entries, item);
    FileConfigFrom(if upper.Some? then Some((upper.value.default, st.tables[upper.value.table])) else None, sidecar)
  }

  /** The corrected lookup takes the configuration in the item's own
      directory when there is one, and otherwise agrees with the code. */
  lemma ResolveItemRefines(st: Store, item: Path, sidecar: Option<Dict>)
    requires Valid(st)
    ensures var own := Candidate(Dirs(item), |Dirs(item)|);
            own in st.entries ==>
              ResolveItem(st, item, sidecar) ==
              FileConfigFrom(Some((st.entries[own].default, Bindings(st, own))), sidecar)
    ensures Candidate(Dirs(item), |Dirs(item)|) !in st.entries ==>
              ResolveItem(st, item, sidecar) == GetFileConfig(st, item, sidecar)
  {
    ClosestForItemRefines(st.entries, item);
  }

  /** A store holding only `r/a/config.json`, which binds `main`. */
  function OwnDirStore(): Store
  {
    Store(map[["r", "a", ConfigName] := Entry(map[], 0)], [map["main" := Str("conn")]])
  }

  /** For `r/a/x.shp` with sidecar `{"db": "main"}`, the code as written
      finds no configuration and raises; the corrected lookup finds the one
      beside the item. */
  lemma ItemBesideItsConfig()
    ensures Valid(OwnDirStore())
    ensures GetFileConfig(OwnDirStore(), ["r", "a", "x.shp"], Some(map[DbKey := Str("main")])) ==
            Err(DbNotFound(Str("main")))
    ensures ResolveItem(OwnDirStore(), ["r", "a", "x.shp"], Some(map[DbKey := Str("main")])) ==
            Ok((Str("conn"), map[DbKey := Str("main")]))
  {
    var st := OwnDirStore();
    var item := ["r", "a", "x.shp"];
    var sidecar := map[DbKey := Str("main")];
    assert Valid(st);
    ItemOwnDirectorySkipped(0);
    assert GetCloserConfig(st.entries, item) == None by {
      assert Dirs(item) == ["r", "a"];
      assert forall i :: 0 <= i < 2 ==> |Candidate(Dirs(item), i)| < 3;
    }
    assert ClosestForItem(st.entries, item) == Some(Entry(map[], 0)) by {
      assert Dirs(item) == ["r", "a"];
      assert Candidate(Dirs(item), 2) == ["r", "a", ConfigName];
    }
    assert map[] - {MixKey} + sidecar == sidecar;
  }

  // ---------------------------------------------------------------------
  // `pandas2sql` (data2sql.py:84-106)
  // ---------------------------------------------------------------------

  /** What `pandas2sql` has computed for one item before it writes: the
      connection, the substituted configuration and the parameters (which
      data2sql.py prints but does not pass on). */
  datatype Write = Write(conn: Json, config: Dict, params: Dict)

  /** The plan for one item: its configuration and connection, nothing when
      the configuration lacks `name` or `db`, and otherwise the
      configuration with the item's name and stem substituted and the
      parameters computed from it. */
  function WritePlan(st: Store, item: Path, sidecar: Option<Dict>, columns: seq<string>): Result<Option<Write>>
    requires Valid(st)
  {
    match GetFileConfig(st, item, sidecar)
    case Err(e) => Err(e)
    case Ok(found) =>
      var cfg := found.1;
      if NameKey !in cfg || DbKey !in cfg then Ok(None)
      else
        var rendered := Substituted(cfg, PathlibTokens(item));
        match Params(rendered, columns)
        case Err(e) => Err(e)
        case Ok(params) => Ok(Some(Write(found.0, rendered, params)))
  }

  /** `pandas2sql` from the lookup to the writer parameters. The merged
      configuration is a fresh dict, so substituting the tokens in it
      leaves the store alone. */
  method Pandas2Sql(st: Store, item: Path, sidecar: Option<Dict>, columns: seq<string>) returns (r: Result<Option<Write>>)
    requires Valid(st)
    ensures r == WritePlan(st, item, sidecar, columns)
  {
    var found := GetFileConfig(st, item, sidecar);
    if found.Err? {
      return Err(found.error);
    }
    var conn := found.value.0;
    if NameKey !in found.value.1 || DbKey !in found.value.1 {
      return Ok(None);
    }
    var geoConfig := new MutDict(found.value.1);
    var repKeys := PathlibTokens(item);
    ReplaceKeys(geoConfig, repKeys);
    var params := WriterParams(geoConfig.items, columns);
    if params.Err? {
      return Err(params.error);
    }
    return Ok(Some(Write(conn, geoConfig.items, params.value)));
  }
}
