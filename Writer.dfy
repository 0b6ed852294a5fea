/** The keyword parameters computed for the table writer: the
    configuration restricted to six keys, the `optional_index` rule of
    data2sql.py, and the debug override of geo2sql.py, geo2postgis.py and
    shp2postgis.py. The last three pass them to `to_postgis`; data2sql.py
    computes them and only prints them (data2sql.py:111), its own write
    going through `VectorTranslate` without them (data2sql.py:118-123). */
module Writer {
  import opened Json
  import opened Text

  /** `geopandas_params_keys`, in the order the scripts list them. */
  const WriterKeys: seq<string> := ["if_exists", "schema", "index", "index_label", "chunksize", "dtype"]

  const OptionalIndexKey := "optional_index"

  /** The keys a file configuration names its connection and its table by. */
  const DbKey := "db"
  const NameKey := "name"

  /** The configuration restricted to the writer's keys. */
  function Restrict(config: Dict): (params: Dict)
    ensures params.Keys == config.Keys * (set k | k in WriterKeys)
    ensures forall k :: k in params ==> params[k] == config[k]
  {
    map k | k in config && k in WriterKeys :: config[k]
  }

  /** What the scripts with a debug switch pass on: the restricted
      configuration, with `if_exists` forced to `"replace"` when the switch
      is on, whatever the configuration says. */
  function DebugParams(config: Dict, debug: bool): (params: Dict)
    ensures params.Keys == config.Keys * (set k | k in WriterKeys) + (if debug then {"if_exists"} else {})
    ensures debug ==> params["if_exists"] == Str("replace")
    ensures forall k :: k in params && (k != "if_exists" || !debug) ==> params[k] == config[k]
  {
    if debug then Restrict(config)["if_exists" := Str("replace")] else Restrict(config)
  }

  /** `for p in geopandas_params_keys: if p in config: params[p] = config[p]`. */
  method KeepWriterKeys(config: Dict) returns (params: Dict)
    ensures params == Restrict(config)
  {
    params := map[];
    var i := 0;
    while i < |WriterKeys|
      invariant 0 <= i <= |WriterKeys|
      invariant params == map k | k in config && k in WriterKeys[..i] :: config[k]
    {
      var p := WriterKeys[i];
      if p in config {
        params := params[p := config[p]];
      }
      assert WriterKeys[..i + 1] == WriterKeys[..i] + [p];
      i := i + 1;
    }
    assert WriterKeys[..i] == WriterKeys;
  }

  /** The parameter block of geo2sql.py (`__debug__`), geo2postgis.py and
      shp2postgis.py (`debug`): the kept keys, then the override. */
  method ForcedParams(config: Dict, debug: bool) returns (params: Dict)
    ensures params == DebugParams(config, debug)
  {
    params := KeepWriterKeys(config);
    if debug {
      params := params["if_exists" := Str("replace")];
    }
  }

  // ---------------------------------------------------------------------
  // `optional_index` (data2sql.py)
  // ---------------------------------------------------------------------

  /** What `for opt in config['optional_index']` visits: the items of a
      list, the one-character strings of a string, the keys of an object;
      anything else cannot be iterated. An object's keys are visited in
      ascending order here (Python visits them in insertion order, which a
      map does not keep). */
  function IndexCandidates(v: Json): (r: Result<seq<Json>>)
    ensures v.Arr? ==> r == Ok(v.items)
    ensures v.Str? ==> (r.Ok? && |r.value| == |v.s| &&
                        forall i :: 0 <= i < |v.s| ==> r.value[i] == Str([v.s[i]]))
    ensures v.Obj? ==> (r.Ok? && |r.value| == |v.fields| &&
                        forall c :: c in r.value <==> c.Str? && c.s in v.fields)
    ensures !v.Arr? && !v.Str? && !v.Obj? ==> r == Err(NotIterable(OptionalIndexKey))
  {
    match v
    case Arr(items) => Ok(items)
    case Str(s) => Ok(seq(|s|, i requires 0 <= i < |s| => Str([s[i]])))
    case Obj(fields) =>
      var keys := SortedKeys(fields.Keys);
      var cands := seq(|keys|, i requires 0 <= i < |keys| => Str(keys[i]));
      assert forall c :: c in cands <==> c.Str? && c.s in keys by {
        forall c ensures c in cands <==> c.Str? && c.s in keys {
          if c.Str? && c.s in keys {
            var i :| 0 <= i < |keys| && keys[i] == c.s;
            assert cands[i] == c;
          }
        }
      }
      Ok(cands)
    case _ => Err(NotIterable(OptionalIndexKey))
  }

  /** A candidate that `opt in columns` passes over: a hashable value that
      names no column. */
  predicate PassedOver(v: Json, columns: seq<string>)
  {
    !v.Arr? && !v.Obj? && !(v.Str? && v.s in columns)
  }

  /** The first candidate that names a column; a list or object met first
      cannot be hashed and raises. */
  function FirstIndexColumn(cands: seq<Json>, columns: seq<string>): (r: Result<Option<string>>)
    ensures r == Ok(None) <==> forall j :: 0 <= j < |cands| ==> PassedOver(cands[j], columns)
    ensures r.Ok? && r.value.Some? ==>
              exists i :: 0 <= i < |cands| && cands[i] == Str(r.value.value) && r.value.value in columns &&
                forall j :: 0 <= j < i ==> PassedOver(cands[j], columns)
    ensures r.Err? ==>
              exists i :: 0 <= i < |cands| && (cands[i].Arr? || cands[i].Obj?) && r.error == Unhashable(cands[i]) &&
                forall j :: 0 <= j < i ==> PassedOver(cands[j], columns)
  {
    if cands == [] then Ok(None)
    else
      var head := cands[0];
      if head.Arr? || head.Obj? then Err(Unhashable(head))
      else if head.Str? && head.s in columns then Ok(Some(head.s))
      else
        var rest := FirstIndexColumn(cands[1..], columns);
        assert forall j :: 1 <= j < |cands| ==> cands[j] == cands[1..][j - 1];
        rest
  }

  /** The parameters `pandas2sql` of data2sql.py computes, for a
      configuration and the columns of the loaded file. */
  function Params(config: Dict, columns: seq<string>): (r: Result<Dict>)
    ensures OptionalIndexKey !in config || "index_label" in config ==> r == Ok(Restrict(config))
    ensures r.Ok? ==> r.value.Keys <= set k | k in WriterKeys
    ensures r.Ok? ==> forall k :: k in r.value && k != "index" && k != "index_label" ==> k in config && r.value[k] == config[k]
    ensures r.Ok? && r.value != Restrict(config) ==>
              && r.value.Keys == Restrict(config).Keys + {"index", "index_label"}
              && r.value["index"] == Bool(false)
              && r.value["index_label"].Str? && r.value["index_label"].s in columns
    ensures OptionalIndexKey in config && "index_label" !in config && IndexCandidates(config[OptionalIndexKey]).Err? ==>
              r == Err(IndexCandidates(config[OptionalIndexKey]).error)
    ensures OptionalIndexKey in config && "index_label" !in config && IndexCandidates(config[OptionalIndexKey]).Ok? ==>
              var cands := IndexCandidates(config[OptionalIndexKey]).value;
              (forall j :: 0 <= j < |cands| ==> PassedOver(cands[j], columns)) ==> r == Ok(Restrict(config))
  {
    var base := Restrict(config);
    if OptionalIndexKey in config && "index_label" !in base then
      match IndexCandidates(config[OptionalIndexKey])
      case Err(e) => Err(e)
      case Ok(cands) =>
        match FirstIndexColumn(cands, columns)
        case Err(e) => Err(e)
        case Ok(None) => Ok(base)
        case Ok(Some(col)) => Ok(base["index" := Bool(false)]["index_label" := Str(col)])
    else Ok(base)
  }

  /** The candidate at `i`, when every one before it is passed over,
      decides the search: a column is the answer, a list or an object
      raises. */
  lemma {:induction false} FirstIndexColumnAt(cands: seq<Json>, columns: seq<string>, i: nat)
    requires i < |cands| && forall j :: 0 <= j < i ==> PassedOver(cands[j], columns)
    ensures cands[i].Str? && cands[i].s in columns ==> FirstIndexColumn(cands, columns) == Ok(Some(cands[i].s))
    ensures cands[i].Arr? || cands[i].Obj? ==> FirstIndexColumn(cands, columns) == Err(Unhashable(cands[i]))
  {
    if i > 0 {
      assert !cands[0].Arr? && !cands[0].Obj? && !(cands[0].Str? && cands[0].s in columns) by {
        assert PassedOver(cands[0], columns);
      }
      assert forall j :: 0 <= j < i - 1 ==> cands[1..][j] == cands[j + 1];
      FirstIndexColumnAt(cands[1..], columns, i - 1);
    }
  }

  /** The `optional_index` rule: the first candidate that is not passed
      over decides the parameters. A column there sets `index` to false and
      `index_label` to it; a list or an object there raises. */
  lemma ParamsFirstCandidate(config: Dict, columns: seq<string>, i: nat)
    requires OptionalIndexKey in config && "index_label" !in config
    requires IndexCandidates(config[OptionalIndexKey]).Ok?
    requires var cands := IndexCandidates(config[OptionalIndexKey]).value;
             i < |cands| && forall j :: 0 <= j < i ==> PassedOver(cands[j], columns)
    ensures var cands := IndexCandidates(config[OptionalIndexKey]).value;
            && (cands[i].Str? && cands[i].s in columns ==>
                  Params(config, columns) == Ok(Restrict(config)["index" := Bool(false)]["index_label" := cands[i]]))
            && (cands[i].Arr? || cands[i].Obj? ==> Params(config, columns) == Err(Unhashable(cands[i])))
  {
    FirstIndexColumnAt(IndexCandidates(config[OptionalIndexKey]).value, columns, i);
    assert "index_label" !in Restrict(config);
  }

  /** With a list of column names, the first listed name that is a column
      becomes the index label, and none listed before it is a column. */
  lemma ParamsFirstListedColumn(config: Dict, columns: seq<string>, names: seq<string>, i: nat)
    requires "index_label" !in config
    requires OptionalIndexKey in config && config[OptionalIndexKey] == Arr(seq(|names|, j requires 0 <= j < |names| => Str(names[j])))
    requires i < |names| && names[i] in columns
    requires forall j :: 0 <= j < i ==> names[j] !in columns
    ensures Params(config, columns) == Ok(Restrict(config)["index" := Bool(false)]["index_label" := Str(names[i])])
  {
    var cands := config[OptionalIndexKey].items;
    assert forall k :: 0 <= k < |cands| ==> cands[k] == Str(names[k]);
    assert !PassedOver(cands[i], columns);
    var r := FirstIndexColumn(cands, columns);
    assert r.Ok?;
    assert r.value.Some?;
    var k :| 0 <= k < |cands| && cands[k] == Str(r.value.value) && r.value.value in columns &&
             forall j :: 0 <= j < k ==> PassedOver(cands[j], columns);
    assert names[k] in columns;
    assert k == i;
    assert "index_label" !in Restrict(config);
  }

  /** The `optional_index` rule of data2sql.py: the parameters are kept as
      above, then, when the configuration names no `index_label`, the
      candidates are visited in order and the first one that is a column
      sets `index` to false and `index_label` to it. */
  method WriterParams(config: Dict, columns: seq<string>) returns (r: Result<Dict>)
    ensures r == Params(config, columns)
  {
    var params := KeepWriterKeys(config);
    if OptionalIndexKey in config && "index_label" !in params {
      var cands := IndexCandidates(config[OptionalIndexKey]);
      if cands.Err? {
        return Err(cands.error);
      }
      var opts := cands.value;
      var i := 0;
      while i < |opts|
        invariant 0 <= i <= |opts|
        invariant FirstIndexColumn(opts[i..], columns) == FirstIndexColumn(opts, columns)
      {
        var opt := opts[i];
        assert opts[i..][0] == opt && opts[i..][1..] == opts[i + 1..];
        if opt.Arr? || opt.Obj? {
          return Err(Unhashable(opt));
        }
        if opt.Str? && opt.s in columns {
          params := params["index" := Bool(false)];
          params := params["index_label" := Str(opt.s)];
          return Ok(params);
        }
        i := i + 1;
      }
      assert opts[i..] == [];
    }
    return Ok(params);
  }
}
