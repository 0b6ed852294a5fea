/** Paths as `pathlib` splits them, the ancestor search of `get_closer_config`,
    and the sort of the discovered `config.json` paths. */
module Paths {
  import opened Json
  import opened Text

  /** `pathlib.Path(...).parts`: the directory names, then the file name. */
  type Path = seq<string>

  /** The fixed name of a directory-level configuration file. */
  const ConfigName := "config.json"

  /** The path as `glob` returns it, which is what `configs.sort()` compares. */
  function PathStr(p: Path): string
  {
    JoinWith(p, "/")
  }

  /** `one.parts[0:-1]`: the directories above the last part. */
  function Dirs(p: Path): Path
  {
    if p == [] then [] else p[..|p| - 1]
  }

  /** The directory holding the file, as a string. */
  function DirStr(p: Path): string
  {
    JoinWith(Dirs(p), "/")
  }

  /** `PurePath.name`: the last part. */
  function PathName(p: Path): string
  {
    if p == [] then "" else p[|p| - 1]
  }

  /** `os.path.join(*dirs[0:i], 'config.json')`: the configuration file of
      the `i`-th directory on the way down from the top. */
  function Candidate(dirs: Path, i: nat): Path
    requires i <= |dirs|
  {
    dirs[..i] + [ConfigName]
  }

  /** A configuration file whose directory lies strictly above the directory
      of `f`. */
  ghost predicate IsAncestorConfig(a: Path, f: Path)
  {
    exists k :: 0 <= k < |Dirs(f)| && a == Candidate(Dirs(f), k)
  }

  /** `for i in reversed(range(n))`: the largest `i < n` whose candidate is
      among `files`. */
  function CloserIndex(files: set<Path>, dirs: Path, n: nat): (r: Option<nat>)
    requires n <= |dirs| + 1
    ensures r.Some? ==> r.value < n && Candidate(dirs, r.value) in files
    ensures r.Some? ==> forall j :: r.value < j < n ==> Candidate(dirs, j) !in files
    ensures r.None? ==> forall j :: 0 <= j < n ==> Candidate(dirs, j) !in files
  {
    if n == 0 then None
    else if Candidate(dirs, n - 1) in files then Some(n - 1)
    else CloserIndex(files, dirs, n - 1)
  }

  /** The search depends only on which of the first `n` candidates are present. */
  lemma {:induction false} CloserIndexAgree(files1: set<Path>, files2: set<Path>, dirs: Path, n: nat)
    requires n <= |dirs| + 1
    requires forall j :: 0 <= j < n ==> (Candidate(dirs, j) in files1 <==> Candidate(dirs, j) in files2)
    ensures CloserIndex(files1, dirs, n) == CloserIndex(files2, dirs, n)
  {
    if n > 0 {
      CloserIndexAgree(files1, files2, dirs, n - 1);
    }
  }

  /** `get_closer_config(files, one)`: the entry of the nearest `config.json`
      among `dirs[0:i]` for `i < len(dirs)`, nearest first, where `dirs` is
      everything but the last part of `one`. The directory of `one` itself,
      `dirs[0:len(dirs)]`, is never looked at. */
  function GetCloserConfig<V(==)>(files: map<Path, V>, one: Path): (r: Option<V>)
    ensures r.Some? ==> r.value in files.Values
    ensures r.None? <==> forall i :: 0 <= i < |Dirs(one)| ==> Candidate(Dirs(one), i) !in files
    ensures r.Some? ==>
              exists i :: 0 <= i < |Dirs(one)| && Candidate(Dirs(one), i) in files &&
                r.value == files[Candidate(Dirs(one), i)] &&
                forall j :: i < j < |Dirs(one)| ==> Candidate(Dirs(one), j) !in files
  {
    match CloserIndex(files.Keys, Dirs(one), |Dirs(one)|)
    case None => None
    case Some(i) => Some(files[Candidate(Dirs(one), i)])
  }

  /** Whether the configuration file in the directory of `one` is present
      or not, `get_closer_config` gives the same answer. */
  lemma OwnDirectoryIgnored<V>(files: map<Path, V>, one: Path)
    ensures GetCloserConfig(files, one) == GetCloserConfig(files - {Candidate(Dirs(one), |Dirs(one)|)}, one)
  {
    var dirs := Dirs(one);
    var own := Candidate(dirs, |dirs|);
    forall j | 0 <= j < |dirs|
      ensures Candidate(dirs, j) in files.Keys <==> Candidate(dirs, j) in (files - {own}).Keys
    {
      assert |Candidate(dirs, j)| < |own|;
    }
    CloserIndexAgree(files.Keys, (files - {own}).Keys, dirs, |dirs|);
  }

  /** The nearest configuration for an item, its own directory included:
      the search `get_closer_config` evidently intends for a data item. */
  function ClosestForItem<V(==)>(files: map<Path, V>, item: Path): (r: Option<V>)
    ensures r.Some? ==> r.value in files.Values
    ensures r.None? <==> forall i :: 0 <= i <= |Dirs(item)| ==> Candidate(Dirs(item), i) !in files
    ensures r.Some? ==>
              exists i :: 0 <= i <= |Dirs(item)| && Candidate(Dirs(item), i) in files &&
                r.value == files[Candidate(Dirs(item), i)] &&
                forall j :: i < j <= |Dirs(item)| ==> Candidate(Dirs(item), j) !in files
  {
    match CloserIndex(files.Keys, Dirs(item), |Dirs(item)| + 1)
    case None => None
    case Some(i) => Some(files[Candidate(Dirs(item), i)])
  }

  /** The corrected search takes the item's own directory first, and
      otherwise agrees with `get_closer_config`. */
  lemma ClosestForItemRefines<V>(files: map<Path, V>, item: Path)
    ensures Candidate(Dirs(item), |Dirs(item)|) in files ==>
              ClosestForItem(files, item) == Some(files[Candidate(Dirs(item), |Dirs(item)|)])
    ensures Candidate(Dirs(item), |Dirs(item)|) !in files ==>
              ClosestForItem(files, item) == GetCloserConfig(files, item)
  {
  }

  /** A data item whose directory holds the only `config.json`: the search as
      written finds nothing, the corrected one finds that file. */
  lemma ItemOwnDirectorySkipped(v: int)
    ensures GetCloserConfig(map[["r", "a", ConfigName] := v], ["r", "a", "x.shp"]) == None
    ensures ClosestForItem(map[["r", "a", ConfigName] := v], ["r", "a", "x.shp"]) == Some(v)
  {
    var files := map[["r", "a", ConfigName] := v];
    var item := ["r", "a", "x.shp"];
    assert Dirs(item) == ["r", "a"];
    assert Candidate(Dirs(item), 2) == ["r", "a", ConfigName];
    assert forall i :: 0 <= i < 2 ==> |Candidate(Dirs(item), i)| < 3;
  }

  // ---------------------------------------------------------------------
  // Sorting the discovered paths (`configs.sort()`)
  // ---------------------------------------------------------------------

  predicate SortedBy(s: seq<Path>, key: Path -> string)
  {
    forall i, j :: 0 <= i < j < |s| ==> StrLe(key(s[i]), key(s[j]))
  }

  lemma StrLeTransitive(a: string, b: string, c: string)
    requires StrLe(a, b) && StrLe(b, c)
    ensures StrLe(a, c)
  {
    if a != b && b != c {
      StrLtTransitive(a, b, c);
    }
  }

  /** Inserting into a sorted list keeps it sorted and adds exactly `x`. */
  function InsertBy(x: Path, s: seq<Path>, key: Path -> string): (r: seq<Path>)
    requires SortedBy(s, key)
    ensures SortedBy(r, key)
    ensures multiset(r) == multiset(s) + multiset{x}
  {
    if s == [] then [x]
    else if StrLe(key(x), key(s[0])) then
      forall k | 0 <= k < |s| ensures StrLe(key(x), key(s[k])) {
        if k > 0 { StrLeTransitive(key(x), key(s[0]), key(s[k])); }
      }
      var r := [x] + s;
      assert forall j :: 0 < j < |r| ==> r[j] == s[j - 1];
      r
    else
      var rest := InsertBy(x, s[1..], key);
      assert s == [s[0]] + s[1..];
      assert StrLe(key(s[0]), key(x)) by { StrLtTotal(key(x), key(s[0])); }
      assert forall j :: 0 <= j < |rest| ==> StrLe(key(s[0]), key(rest[j])) by {
        forall j | 0 <= j < |rest| ensures StrLe(key(s[0]), key(rest[j])) {
          assert rest[j] in multiset(rest);
          if rest[j] != x {
            assert rest[j] in multiset(s[1..]);
            var k :| 0 <= k < |s[1..]| && s[1..][k] == rest[j];
            assert s[k + 1] == rest[j];
          }
        }
      }
      [s[0]] + rest
  }

  lemma SameMembers(a: seq<Path>, b: seq<Path>)
    requires multiset(a) == multiset(b)
    ensures forall p :: p in a <==> p in b
  {
    forall p ensures p in a <==> p in b {
      assert p in a <==> p in multiset(a);
      assert p in b <==> p in multiset(b);
    }
  }

  /** A sort by a string key: the result is ordered by the key and holds
      the same paths, each as often. */
  function SortBy(s: seq<Path>, key: Path -> string): (r: seq<Path>)
    ensures SortedBy(r, key)
    ensures multiset(r) == multiset(s)
    ensures forall p :: p in r <==> p in s
  {
    if s == [] then []
    else
      assert s == [s[0]] + s[1..];
      var r := InsertBy(s[0], SortBy(s[1..], key), key);
      SameMembers(r, s);
      r
  }
}
