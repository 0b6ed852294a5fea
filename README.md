# Folder-to-database loader: configuration inheritance, token substitution and writer parameters

The loader scripts walk a folder tree of data files (shapefiles, other
vector formats) and write each one to a SQL/PostGIS database. What gets
written, and where, comes from JSON configuration:

- every directory may hold a `config.json` with a `default` object (writer
  settings) and a `dbs` object (database name to connection);
- every data file may have a sidecar `<stem>.json` naming its table
  (`name`), its database (`db`) and further settings;
- a `mix` key (`clean` or `replace`, absent meaning `replace`) decides how
  a more specific object is merged over a more general one.

This project models the pure and in-place logic of that pipeline, and
proves what it guarantees, in these modules:

- `Json` (Json.dfy): JSON values, the error kinds the scripts raise, and
  `MutDict`, a dict object shared by reference.
- `Text` (Text.dfy): Python's string ordering, `str.replace`,
  `os.path.basename`, `os.path.splitext` and `PurePath.stem`.
- `Paths` (Paths.dfy): file paths as part lists, `get_closer_config` of
  data2sql.py, and sorting by a string key.
- `Merge` (Merge.dfy): both versions of `join2configs`. The data2sql.py one
  copies its arguments; the geo2sql.py one writes into its first argument.
- `Tokens` (Tokens.dfy): the `{file_name}` / `{file_name_no_ext}` token
  tables and both versions of `replace_keys`. The lenient one skips
  non-strings; the strict one raises on them.
- `ConfigStore` (Store.dfy): `get_config` of data2sql.py. It builds the store
  of every `config.json` in sorted order, inheriting `default` from the
  nearest ancestor configuration and sharing its `dbs` dict.
- `ItemConfig` (Resolve.dfy): `get_file_config` and the dictionary part of
  `pandas2sql` of data2sql.py.
- `Writer` (Writer.dfy): the keyword parameters computed from a
  configuration: the six writer keys, the `optional_index` rule and the
  debug override of `if_exists`. geo2sql.py, geo2postgis.py and
  shp2postgis.py pass them to `to_postgis`; data2sql.py computes them and
  only prints them.
- `Postgis` (Postgis.dfy): `sql_url`, and the per-file preparation of
  geo2postgis.py and shp2postgis.py.
- `GeoSql` (Geo2Sql.dfy): `get_closer_file`, `get_file_config` and
  `pandas2sql` of geo2sql.py.

Dicts that the source only reads or copies are values (`map<string, Json>`).
Dicts that it changes in place, and whose identity matters, are `MutDict`
objects, or slots of a table that entries refer to by index (the shared
`dbs` dicts of `get_config`). Python's `dict` iteration order is not
kept: `replace_keys` visits keys in an unspecified order, and an object
given as `optional_index` is visited in ascending key order.

## Model

| member | source | states |
|---|---|---|
| Merge.Join2Configs | data2sql.py:38-57 | A missing side yields the other side. A `clean` overlay is returned unchanged. A `replace`/absent-`mix` overlay yields the container without its `mix` with every overlay key written over it (so the overlay's own `mix` survives). Any other `mix` fails with `UnsupportedMix` of that value. The result is `Ok` exactly when the overlay is clean or replace. |
| Merge.Join2ConfigsAssociative | data2sql.py:49-56 | Two `replace` merges compose: merging a then b then c equals merging a with (b then c), so inheriting through an intermediate directory equals inheriting its merged settings. |
| Merge.MutatingJoin | geo2sql.py:32-43 | A `clean` second dict is returned itself and the first is untouched. A `replace` one returns a fresh copy of the first without `mix` and writes the second's keys into the first dict in place. Any other `mix` raises and changes nothing. |
| Tokens.ApplyTokensTokenFree | data2sql.py:28-29 | A string containing none of the tokens is left unchanged by the substitution chain. |
| Tokens.ApplyTokensAppend | data2sql.py:28-29 | Applying a table is applying its first part, then the rest, each token over the previous result. |
| Tokens.TokenTableRendersName | data2sql.py:87-90 | With the per-file table, `{file_name}` renders the file name (unless the name itself spells the stem token). |
| Tokens.TokenTableRendersStem | data2sql.py:87-90 | With the per-file table, `{file_name_no_ext}` renders the stem: the name token never occurs inside the stem token. |
| Tokens.SubstitutedTokenFree | data2sql.py:23-31 | A dict whose strings hold no token is left as it is by `replace_keys`. |
| Tokens.ReplaceKeys | data2sql.py:23-31 | In place: same keys, non-strings untouched, each string replaced by every token of the table in table order. |
| Tokens.ReplaceKeysStrict | geo2postgis.py:15-21 | Succeeds exactly when the table is empty or every value is a string. It then leaves the substituted dict. Otherwise it raises `NotAString` naming a non-string key, with each value either original or already substituted. |
| Tokens.ApplyTokens | data2sql.py:28-29 | The chain of `str.replace` calls, in table order. When every token is replaced by a text of its own length, the string keeps its length. |
| Tokens.SubstitutedKeepsShape | data2sql.py:23-31 | `replace_keys` keeps the keys, keeps which values are strings, leaves every non-string as it is, and gives each string the whole chain of replacements. |
| Tokens.PathlibTokens | data2sql.py:87-90 | The table holds two entries in this order: `{file_name}` mapped to the path's last component, then `{file_name_no_ext}` mapped to a prefix of that name. |
| Tokens.OsPathTokens | shp2postgis.py:83-85 | The same two tokens in the same order. The name is a `/`-free suffix of the file path and the stem is a prefix of the name. |
| Text.ReplaceAll | data2sql.py:29 | `str.replace` of every non-overlapping occurrence, left to right. A replacement as long as the pattern keeps the length. |
| Text.ReplaceAllIsSplitJoin | data2sql.py:29 | `s.replace(pat, rep)` equals splitting `s` on `pat` and joining the pieces with `rep`. |
| Text.SplitPiecesHaveNoOccurrence | data2sql.py:29 | The pieces between replaced occurrences contain no occurrence of the pattern. |
| Text.SplitJoinRoundTrip | data2sql.py:29 | Splitting on a pattern and joining with it gives the string back. |
| Text.ReplaceAllNoOccurrence | data2sql.py:29 | Replacing a pattern that does not occur changes nothing. |
| Text.ReplaceAllBySelf | data2sql.py:29 | Replacing a pattern by itself changes nothing. |
| Text.StrLtTransitive | data2sql.py:145 | The string order `configs.sort()` uses is transitive. |
| Text.StrLtTotal | data2sql.py:145 | The string order is total. |
| Text.StrLtAsymmetric | data2sql.py:145 | The string order is asymmetric. |
| Text.StrLtIrreflexive | data2sql.py:145 | The string order is irreflexive. |
| Text.ProperPrefixIsLess | data2sql.py:145 | A proper prefix sorts before the longer string. |
| Text.SortedKeys | data2sql.py:102 | The keys of an object, as iterated: every key exactly once. |
| Text.Basename | shp2postgis.py:84 | `os.path.basename` is the suffix after the last `/` and holds no `/`. |
| Text.SplitExtRoot | shp2postgis.py:85 | `os.path.splitext(name)[0]` is a prefix of the name. It differs only by cutting at the last dot, and only when some character before that dot is not a dot. |
| Text.PathStem | data2sql.py:89 | `PurePath.stem` is a prefix of the name. It differs only by cutting at a last dot that is neither first nor last. |
| Paths.GetCloserConfig | data2sql.py:130-137 | The result is the entry of the deepest `config.json` strictly above the item's directory, or none exactly when no such file is in the store. |
| Paths.CloserIndex | data2sql.py:132-134 | The downward search finds the deepest present candidate below a bound, or reports that none of those candidates is present. |
| Paths.CloserIndexAgree | data2sql.py:132-134 | Two stores that agree on which candidates exist give the same search result. |
| Paths.OwnDirectoryIgnored | data2sql.py:131-132 | The lookup gives the same answer with or without the configuration in the item's own directory. |
| Paths.ItemOwnDirectorySkipped | data2sql.py:130-137 | With only `r/a/config.json` stored, the lookup for `r/a/x.shp` finds nothing, while the corrected lookup finds that entry. |
| Paths.ClosestForItemRefines | data2sql.py:130-137 | The corrected lookup takes the configuration in the item's own directory when present, and otherwise agrees with `get_closer_config`. |
| Paths.ClosestForItem | data2sql.py:130-137 | The corrected search also tries the item's own directory. It finds the stored entry of the deepest candidate directory, and finds none exactly when no candidate from the root to the item's own directory is stored. |
| Paths.SortBy | data2sql.py:145 | Sorting gives a sorted permutation of the input with the same members. |
| ConfigStore.GetSafeEngine | data2sql.py:16-17 | `get_safe_engine` hands back the connection string it was given; no connection is attempted. |
| ConfigStore.Engines | data2sql.py:151-152 | Passing every binding of `dbs` through `get_safe_engine` leaves the bindings as they were parsed. |
| ConfigStore.InheritDefault | data2sql.py:153-158 | Without its own `default` the entry gets `{}`, and without an ancestor it gets its own. Over an ancestor it succeeds exactly for a `clean`, `replace` or `mix`-less default. Its own keys always keep their values. A `clean` default stays whole. Otherwise the ancestor's keys other than `mix` are added with their values. |
| ConfigStore.Step | data2sql.py:147-162 | One turn adds exactly the file's entry, keeps every entry's bindings slot valid, and never drops a `dbs` dict. |
| ConfigStore.BuildFrom | data2sql.py:147-163 | A successful build has exactly one entry per processed file. |
| ConfigStore.BuildFromErrorPersists | data2sql.py:147-163 | Once a turn raises, the build's result is that error. |
| ConfigStore.GetConfig | data2sql.py:139-163 | The imperative loop over the sorted paths yields exactly the turn-by-turn build of the string-sorted order, with shared `dbs` dicts. |
| ConfigStore.AddConfigFile | data2sql.py:148-162 | One loop body equals one turn of the build. |
| ConfigStore.StepFailure | data2sql.py:151-158 | A turn fails exactly when the file has no `dbs` (`KeyError`), or when it has a `default` with an unknown `mix` and an ancestor exists. The errors are those values. |
| ConfigStore.StepEntry | data2sql.py:153-162 | The entry's `default` is `{}` without its own, its own without an ancestor, and otherwise the join over the ancestor's. Its bindings are the ancestor's with its own written over them, key by key. |
| ConfigStore.StepSharesAncestorBindings | data2sql.py:159-162 | As written, an entry with an ancestor takes the ancestor's `dbs` slot. Every entry sharing that slot then reads the ancestor's bindings plus the new file's, and all other entries are unchanged. |
| ConfigStore.StepCopyLeavesOthers | data2sql.py:159-162 | With copied bindings, a turn changes no other entry and no other entry's bindings. |
| ConfigStore.NoDupPermutation | data2sql.py:145 | A permutation of a duplicate-free list is duplicate-free. |
| ConfigStore.AncestorDirSortsFirst | data2sql.py:127-129 | Compared by directory string, an ancestor configuration sorts strictly before any configuration below it. |
| ConfigStore.SortByDirIsAncestorFirst | data2sql.py:127-129 | Sorting by directory string puts every ancestor configuration before its descendants. |
| ConfigStore.SortTwo | data2sql.py:145 | Two paths with different keys sort by their keys. |
| ConfigStore.TurnUnderRoot | data2sql.py:153-162 | A turn under the stored root joins the file's `replace` default over the root's. As written, the root's own bindings gain the file's; copied, the root keeps its own and the file gets both. |
| ConfigStore.StringSortNotAncestorFirst | data2sql.py:144-145 | Sorting `r/config.json` and `r/a/config.json` as strings puts the descendant first, although the first is its ancestor. |
| ConfigStore.SubSortsBeforeRoot | data2sql.py:145 | `r/a/config.json` is less than `r/config.json` as strings, since `a` is less than `c`. |
| ConfigStore.StringSortRootBeforeChild | data2sql.py:145 | `r/config.json` sorts before `r/x/config.json`, since `c` is less than `x`. |
| ConfigStore.DirSortRootFirst | data2sql.py:127-129 | By directory string, `r/config.json` sorts before any direct subdirectory's configuration. |
| ConfigStore.StepFromEmpty | data2sql.py:147-162 | The first turn stores the file's own `default` (or `{}`) and its own bindings in a new slot. |
| ConfigStore.StringSortLosesAncestorDefault | data2sql.py:144-158 | As written, a subdirectory processed before its parent does not inherit the parent's `if_exists`. |
| ConfigStore.DirSortKeepsAncestorDefault | data2sql.py:127-129 | With ancestors first, the subdirectory's `default` holds the parent's `if_exists` under its own `schema`. |
| ConfigStore.SharedBindingsLeakUpward | data2sql.py:159-162 | As written, a child rebinding `w` rebinds it for the parent too. |
| ConfigStore.CopiedBindingsStayPut | data2sql.py:159-162 | With copied bindings, the parent keeps its own `w` and the child has its own. |
| ConfigStore.BuildInheritsFromNearest | data2sql.py:139-163 | For any duplicate-free, ancestor-first order, every entry inherits its `default` from its nearest ancestor's final `default`. With copied bindings it also gets that ancestor's final bindings with its own over them. |
| ConfigStore.ResolveStore | data2sql.py:139-163 | The corrected build (ancestor-first order, copied bindings) has one valid entry per discovered file. |
| ConfigStore.ResolveStoreInherits | data2sql.py:139-163 | In the corrected build every entry inherits settings and bindings from its nearest ancestor configuration. |
| ConfigStore.GetConfigDefaultsUnderAncestorFirst | data2sql.py:139-163 | Whenever the string sort happens to be ancestor-first, the build as written gives every entry its nearest ancestor's `default`. |
| ItemConfig.GetFileConfig | data2sql.py:59-69 | Without a `config.json` above the item's directory the lookup raises. On success the configuration is the sidecar joined over that entry's `default`. Its `db` is a string bound in that entry's `dbs`, and the connection is that binding. |
| ItemConfig.ResolveItem | data2sql.py:59-69 | The same, for the corrected search that also tries the item's own directory. |
| ItemConfig.FileConfigFrom | data2sql.py:65-69 | With no ancestor the lookup fails. With one, it succeeds exactly when the sidecar merges over the ancestor's `default` and the merged `db` is a string bound in the ancestor's `dbs`. The connection is that binding, and merge errors come first. |
| ItemConfig.GetFileConfigFromNearest | data2sql.py:59-69 | The configuration is the sidecar merged over the `default` of the nearest `config.json` above the item's directory. The connection is that entry's binding for the merged `db`, and without such an entry the lookup fails. |
| ItemConfig.ResolveItemRefines | data2sql.py:59-69 | The corrected lookup uses the configuration in the item's own directory when there is one, and otherwise equals `get_file_config`. |
| ItemConfig.ItemBesideItsConfig | data2sql.py:59-69 | `r/a/x.shp` beside `r/a/config.json` binding `main` raises "DB main was not found" as written, and resolves to that connection when corrected. |
| ItemConfig.Pandas2Sql | data2sql.py:84-106 | The item's plan is its connection, its configuration with the file's name and stem substituted, and the parameters computed from it (printed, not passed on, in data2sql.py). There is no plan when `name` or `db` is missing, and lookup and parameter errors propagate. |
| Writer.Restrict | data2sql.py:97-100 | The parameters hold exactly the configuration's keys among the six writer keys, with their values. |
| Writer.DebugParams | geo2sql.py:79-84 | With the switch on, the parameters are the restricted configuration plus `if_exists` forced to `"replace"`. With it off, they are the restricted configuration. |
| Writer.KeepWriterKeys | data2sql.py:97-100 | The loop over the six keys computes the restriction. |
| Writer.ForcedParams | geo2sql.py:79-84 | The loop plus the override computes the debug parameters. |
| Writer.IndexCandidates | data2sql.py:102 | What `for opt in ...` visits: a list's items, a string's characters, an object's keys (each once), and `TypeError` for anything else. |
| Writer.FirstIndexColumn | data2sql.py:102-106 | Returns the first candidate that names a column, with every earlier candidate passed over. It is none exactly when every candidate is passed over, and it raises on the first unhashable candidate met before a match. |
| Writer.Params | data2sql.py:91-106 | Without `optional_index`, or with `index_label` already set, the parameters are the restriction. Otherwise they are the restriction, possibly plus `index: false` and an `index_label` that is a column, and every other key comes from the configuration. A candidate list that is not iterable raises `TypeError`, and when every candidate is passed over nothing is added. |
| Writer.FirstIndexColumnAt | data2sql.py:102-106 | When every candidate before position `i` is passed over, the candidate at `i` decides the search. A column is the answer, and a list or an object raises. |
| Writer.ParamsFirstCandidate | data2sql.py:101-106 | The first candidate that is not passed over decides the parameters. A column sets `index` to false and `index_label` to that candidate, and a list or an object raises `TypeError`. |
| Writer.ParamsFirstListedColumn | data2sql.py:101-106 | For a list of names, the first listed name that is a column becomes `index_label` and `index` becomes false. |
| Writer.WriterParams | data2sql.py:91-106 | The imperative loop with its `break` computes exactly those parameters. |
| Postgis.SqlUrl | geo2postgis.py:23-24 | The URL starts with `postgresql://` and is the four fields with the three separators `:`, `@` and `/` after the scheme, nothing escaped. |
| Postgis.SplitAtFirst | shp2postgis.py:20-21 | Splitting at the first separator gives a prefix free of it, or none when the separator is absent. |
| Postgis.ParseFieldsJoined | shp2postgis.py:20-21 | The fields joined by `:`, `@` and `/` split back at the first of each when the first three fields are free of their separator. |
| Postgis.SqlUrlRoundTrip | shp2postgis.py:20-21 | When the user has no `:`, the password no `@` and the host no `/`, the four fields read back from the URL unchanged. |
| Postgis.SqlUrlPasswordWithAt | geo2postgis.py:23-24 | A password containing `@` reads back cut at its first `@`, with the rest attached to the host. |
| Postgis.SqlUrlNotInjective | geo2postgis.py:23-24 | Nothing is escaped, so a password `p1@p2` with host `h` gives the same URL as password `p1` with host `p2@h`. |
| Postgis.StemsAgree | shp2postgis.py:84-85 | For an ordinary file name, the `os.path.splitext` root that shp2postgis.py uses equals the `PurePath.stem` that geo2postgis.py uses. |
| Postgis.StemsDifferOnTrailingDot | geo2postgis.py:75 | For `x.`, `PurePath.stem` keeps the name whole while `splitext` drops the dot. |
| Postgis.Geo2PostgisParams | geo2postgis.py:72-88 | Succeeds exactly when every sidecar value is a string. It then leaves the sidecar substituted with the item's name and stem, and the parameters are the six keys with `if_exists` forced to `replace` (`debug = True`). |
| Postgis.Shp2PostgisParams | shp2postgis.py:83-98 | The same, with name and stem from `os.path.basename` and `os.path.splitext`. |
| GeoSql.OsPathJoin | geo2sql.py:53 | `os.path.join` ends with its last component. It keeps the first component as a prefix unless a later component is absolute. |
| GeoSql.OsPathSplit | geo2sql.py:49 | `os.path.split` gives a pair whose tail is the basename and whose head is a prefix of the path. |
| GeoSql.StripSlashes | geo2sql.py:49 | Trailing slashes are removed, and only those. |
| GeoSql.CloserFileSearch | geo2sql.py:97-101 | The downward loop answers a name from the list, and answers nothing exactly when none of the names it builds is in the list. |
| GeoSql.GetCloserFile | geo2sql.py:95-101 | `get_closer_file` answers only a name that is in the list. |
| GeoSql.GetCloserFileOnlyBareName | geo2sql.py:95-101 | `get_closer_file` answers the bare `config.json` when the list holds it and nothing otherwise, whatever the file: no directory of it is ever tried. |
| GeoSql.ScannedPathsOfSplit | geo2sql.py:49-53 | The loop of `get_file_config` makes one turn, on the bare `config.json`. |
| GeoSql.LastBinding | geo2sql.py:51-58 | When no scanned entry binds the `db`, the connection stays `None`. |
| GeoSql.LastBindingLastWins | geo2sql.py:52-57 | Over a scan, the connection is the binding from the last scanned entry that binds the `db`. |
| GeoSql.LastBindingOfBareName | geo2sql.py:52-57 | Scanning only the bare `config.json`, the connection is its binding of the `db`, or none. |
| GeoSql.FileLookup | geo2sql.py:45-60 | The sidecar itself comes back exactly when it is `clean`. Otherwise the lookup raises when the bare `config.json` is not stored or the sidecar has no `db`. |
| GeoSql.FileLookupFound | geo2sql.py:45-60 | A found lookup has its connection, a non-null binding, from the store's bare `config.json`. Its configuration is that entry's whole `default` when it is `clean` and empty otherwise. The sidecar's own settings never reach it. |
| GeoSql.ScanTurn | geo2sql.py:55-57 | One loop turn raises in source order (`mix`, missing `db`, unhashable `db`). It rebinds the connection only when the `db` is bound, and leaves `ret` as the `clean` default itself or a fresh copy without `mix`. |
| GeoSql.GeoFileConfig | geo2sql.py:45-60 | The loop agrees with the specification: the same errors, a `clean` sidecar returned as it is, and otherwise the connection plus a configuration that is the store's own `clean` default object or a fresh dict. |
| GeoSql.GeoSqlParams | geo2sql.py:69-84 | In place: the configuration gets the item's name and stem substituted. The parameters are the six keys with `if_exists` forced to `replace` under `__debug__`. |
| GeoSql.GeoPandas2Sql | geo2sql.py:62-90 | The write goes to the rendered `name` with the found connection and debug parameters. Lookup errors propagate, a returned sidecar cannot be unpacked, and a missing `name` raises. As written, a `clean` default is rewritten inside the store; with the copy, no store default changes. |
| GeoSql.TemplateRendered | geo2sql.py:69-72 | A `clean` default naming the table `{file_name_no_ext}` renders for `c.shp` as table `c`. |
| GeoSql.RenderedStays | geo2sql.py:69-72 | Once rendered, such a default holds no token, so rendering it again changes nothing. |
| GeoSql.CleanDefaultLookup | geo2sql.py:45-60 | With a `clean` default binding `main`, the lookup for `{"db": "main"}` returns that binding and that default. |
| GeoSql.SecondItemWritesToFirstTable | geo2sql.py:55-72 | As written, two files `a.shp` and `b.shp` under such a default are both written to table `a`. |
| GeoSql.SecondItemWritesToOwnTable | geo2sql.py:55-72 | With the configuration copied before substitution, they are written to tables `a` and `b`. |

## Left out

- Database access is not modelled: engine creation, the connection test, the password prompt loops, `to_postgis`, GDAL `VectorTranslate` and the temporary GeoPackage. A connection is the JSON value found in `dbs`.
- Reading and validating files is not modelled: `read_file`, `fast_json`, `jsonschema` validation, `glob`, `os.path.exists`. A sidecar that is absent is `None`; parsed files are inputs.
- The `arcgis` lower-casing of columns is not modelled. The column list is an input, already lower-cased when it applies.
- `hash_file`, `need_update`, `Cache_json`, the argument parsing and every `print` are not modelled: they are outside the configuration logic.
- geo2sql.py's `get_config` (geo2sql.py:103-124) is not modelled: it cannot build the store that its own `get_file_config` reads. `data[db]` (line 116) raises `KeyError` unless a top-level key repeats the database name. `join2configs(upper, ...)` (line 122) is handed a path string. The result stores `data['dbs']` under the full glob path (line 123), not a `{'default', 'dbs'}` entry under the bare `config.json`. `GeoFileConfig` and `GeoPandas2Sql` take the store as an input.
- geo2postgis.py and shp2postgis.py's lookup `config[shp_config["db"]]` and their `shp_config["name"]` are not modelled: they are plain dict reads on engines that are not modelled.
- Writer.IndexCandidates: an object's keys are visited in ascending order, not in JSON insertion order, because a map does not keep insertion order. The sortedness of `Text.SortedKeys` is not stated, only that it lists each key once.
- Tokens.ReplaceKeysStrict: the order in which keys are visited is left open, so on failure it says only that every value is either original or substituted.
- ItemConfig.Pandas2Sql: `.lower()` on the layer name and the write are not modelled; the plan stops at the parameters. In data2sql.py those parameters never reach a writer: they are only printed (data2sql.py:111), the write is `VectorTranslate(conn, output.name, options='')` (data2sql.py:118-122), and the `to_postgis(..., **geopandas_params)` call is commented out (data2sql.py:123).
- GeoSql.GeoPandas2Sql: the caller's unpacking of a returned `clean` sidecar is modelled as the error `BadUnpack`, without telling the `ValueError` and `TypeError` cases apart.
- ConfigStore.ConfigFile: `default` and `dbs` are JSON objects or absent. data2sql.py never validates `config.json` (`valid_db_config` checks `dbs.json` only), so it also runs on inputs the model cannot write down: `"default": null` is stored as `None`, after which descendants take their own `default` unjoined and items get `join2configs(None, sidecar)`; `"dbs": []` is accepted as an empty list.
- Python's `__debug__` is a parameter of `GeoSql.GeoSqlParams` (true unless run with `-O`). `debug = True` is the constant `Postgis.Debug`.

## Findings

| source | as written | input that shows it | evidently intended | confidence | as-written member | corrected member |
|---|---|---|---|---|---|---|
| data2sql.py:131-132 | `get_closer_config` searches `dirs[0:i]` for `i < len(dirs)`, never the item's own directory | `r/a/x.shp` next to `r/a/config.json`, with no configuration above: "The DB main was not found" | an item uses the configuration of its own directory first | high (not executed) | ItemConfig.ItemBesideItsConfig | ItemConfig.ResolveItemRefines |
| data2sql.py:144-145 | `configs.sort()` compares full path strings, so `r/a/config.json` sorts before `r/config.json` | `r/config.json` with `if_exists` and `r/a/config.json` with `schema`: the child never inherits `if_exists` | ancestors processed first, as the comment at lines 141-143 says | high (not executed) | ConfigStore.StringSortLosesAncestorDefault | ConfigStore.DirSortKeepsAncestorDefault |
| data2sql.py:159-162 | `config[f]['dbs'] = upper_dbs` shares the ancestor's dict and then writes the child's bindings into it | `r/config.json` binding `w` to A, `r/x/config.json` binding `w` to B: `r` ends up binding `w` to B | each directory's bindings extend its ancestor's without changing them | high (not executed) | ConfigStore.SharedBindingsLeakUpward | ConfigStore.CopiedBindingsStayPut |
| geo2sql.py:55-72 | a `clean` ancestor `default` is returned as the store's own dict, then `replace_keys` rewrites it in place | `config.json` default `{"mix": "clean", "name": "{file_name_no_ext}"}`, files `a.shp` and `b.shp`: both go to table `a` | every file's tokens are substituted in a copy | high for `get_file_config` and `pandas2sql` given such a store (not executed); the script's own `get_config` never builds an entry with a `default` under the bare `config.json`, so run end to end on these files it raises "The DB main was not found" instead | GeoSql.SecondItemWritesToFirstTable | GeoSql.SecondItemWritesToOwnTable |

Other behaviour the model keeps as written:

- In data2sql.py a root `config.json` with an unknown `mix` is accepted, because `join2configs` is only called under an ancestor.
- A `config.json` without `default` gets `{}` rather than its ancestor's settings.
- geo2sql.py's `get_file_config` drops the sidecar's settings: the merged result is discarded and `ret` starts empty.
- geo2sql.py's `get_closer_file` only ever tries the bare `config.json`.
