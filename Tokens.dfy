/** Placeholder tokens: the per-item table and `replace_keys`, which
    substitutes them in the values of a configuration dict in place. */
module Tokens {
  import opened Json
  import opened Text
  import opened Paths

  /** A `{token: replacement}` dict in insertion order. */
  type TokenTable = seq<(string, string)>

  const FileNameToken := "{file_name}"
  const FileStemToken := "{file_name_no_ext}"

  /** `for key in keys: tmp = tmp.replace(key, keys[key])`: every token in
      table order, each over the result of the previous one. */
  function ApplyTokens(s: string, table: TokenTable): (r: string)
    ensures (forall i :: 0 <= i < |table| ==> |table[i].1| == |table[i].0|) ==> |r| == |s|
    decreases |table|
  {
    if table == [] then s
    else
      assert forall i :: 0 <= i < |table| - 1 ==> table[1..][i] == table[i + 1];
      ApplyTokens(ReplaceAll(s, table[0].0, table[0].1), table[1..])
  }

  /** No token of the table is empty or occurs in `s`. */
  ghost predicate TokenFree(s: string, table: TokenTable)
  {
    forall i :: 0 <= i < |table| ==> table[i].0 != [] && !Occurs(s, table[i].0)
  }

  /** A string holding no token is left as it is: substituting twice is
      substituting once, once no token is left. */
  lemma {:induction false} ApplyTokensTokenFree(s: string, table: TokenTable)
    requires TokenFree(s, table)
    ensures ApplyTokens(s, table) == s
  {
    if table != [] {
      ReplaceAllNoOccurrence(s, table[0].0, table[0].1);
      assert TokenFree(s, table[1..]) by {
        forall i | 0 <= i < |table[1..]| ensures table[1..][i].0 != [] && !Occurs(s, table[1..][i].0) {
          assert table[1..][i] == table[i + 1];
        }
      }
      ApplyTokensTokenFree(s, table[1..]);
    }
  }

  /** A string shorter than both tokens cannot hold either. */
  lemma ShortIsTokenFree(s: string, item: Path)
    requires |s| < |FileNameToken|
    ensures TokenFree(s, PathlibTokens(item))
  {
    var table := PathlibTokens(item);
    forall i, j: nat | 0 <= i < |table| ensures !OccursAt(s, table[i].0, j) {
      assert |table[i].0| >= |FileNameToken|;
    }
  }

  /** Applying a table is applying its first part, then the rest. */
  lemma {:induction false} ApplyTokensAppend(s: string, t1: TokenTable, t2: TokenTable)
    ensures ApplyTokens(s, t1 + t2) == ApplyTokens(ApplyTokens(s, t1), t2)
    decreases |t1|
  {
    if t1 == [] {
      assert t1 + t2 == t2;
    } else {
      assert (t1 + t2)[0] == t1[0];
      assert (t1 + t2)[1..] == t1[1..] + t2;
      ApplyTokensAppend(ReplaceAll(s, t1[0].0, t1[0].1), t1[1..], t2);
    }
  }

  /** The per-item table of data2sql.py, geo2sql.py and geo2postgis.py:
      `PurePath.name` and `PurePath.stem` of the data file. */
  function PathlibTokens(item: Path): (table: TokenTable)
    ensures |table| == 2 && table[0].0 == FileNameToken && table[1].0 == FileStemToken
    ensures table[0].1 == PathName(item) && table[1].1 <= table[0].1
  {
    [(FileNameToken, PathName(item)), (FileStemToken, PathStem(PathName(item)))]
  }

  /** The per-item table of shp2postgis.py: `os.path.basename` of the glob
      result and `os.path.splitext` of that. */
  function OsPathTokens(file: string): (table: TokenTable)
    ensures |table| == 2 && table[0].0 == FileNameToken && table[1].0 == FileStemToken
    ensures '/' !in table[0].1 && |table[0].1| <= |file| && table[0].1 == file[|file| - |table[0].1|..]
    ensures table[1].1 <= table[0].1
  {
    [(FileNameToken, Basename(file)), (FileStemToken, SplitExtRoot(Basename(file)))]
  }

  lemma FileNameTokenNotInStemToken()
    ensures !Occurs(FileStemToken, FileNameToken)
  {
    forall i: nat ensures !OccursAt(FileStemToken, FileNameToken, i) {
      if i + |FileNameToken| <= |FileStemToken| {
        var window := FileStemToken[i..i + |FileNameToken|];
        assert window[0] == FileStemToken[i] && window[10] == FileStemToken[i + 10];
        if i == 0 {
          assert window[10] != FileNameToken[10];
        } else {
          assert window[0] != FileNameToken[0];
        }
      }
    }
  }

  /** With the table of a file, the name token renders the file's name (a
      name that itself spells the stem token aside). */
  lemma TokenTableRendersName(name: string, stem: string)
    requires !Occurs(name, FileStemToken)
    ensures ApplyTokens(FileNameToken, [(FileNameToken, name), (FileStemToken, stem)]) == name
  {
    var table := [(FileNameToken, name), (FileStemToken, stem)];
    var first := ReplaceAll(FileNameToken, FileNameToken, name);
    assert first == name by {
      assert FileNameToken[|FileNameToken|..] == [];
    }
    assert table[1..] == [(FileStemToken, stem)];
    ReplaceAllNoOccurrence(name, FileStemToken, stem);
    assert ApplyTokens(name, [(FileStemToken, stem)]) == ApplyTokens(name, []);
  }

  /** With the table of a file, the stem token renders the file's name
      without its extension. */
  lemma TokenTableRendersStem(name: string, stem: string)
    ensures ApplyTokens(FileStemToken, [(FileNameToken, name), (FileStemToken, stem)]) == stem
  {
    var table := [(FileNameToken, name), (FileStemToken, stem)];
    FileNameTokenNotInStemToken();
    ReplaceAllNoOccurrence(FileStemToken, FileNameToken, name);
    assert table[1..] == [(FileStemToken, stem)];
    var second := ReplaceAll(FileStemToken, FileStemToken, stem);
    assert second == stem by {
      assert FileStemToken[|FileStemToken|..] == [];
    }
    assert ApplyTokens(FileStemToken, [(FileStemToken, stem)]) == ApplyTokens(stem, []);
  }

  /** What `replace_keys` leaves in a dict: every string value with the
      tokens applied, every other value as it was. */
  function Substituted(d: Dict, table: TokenTable): Dict
  {
    map k | k in d :: if d[k].Str? then Str(ApplyTokens(d[k].s, table)) else d[k]
  }

  /** Substitution keeps every key and the kind of every value: a string
      stays a string with the tokens applied, anything else is untouched. */
  lemma SubstitutedKeepsShape(d: Dict, table: TokenTable)
    ensures Substituted(d, table).Keys == d.Keys
    ensures forall k :: k in d ==> (Substituted(d, table)[k].Str? <==> d[k].Str?)
    ensures forall k :: k in d && !d[k].Str? ==> Substituted(d, table)[k] == d[k]
    ensures forall k :: k in d && d[k].Str? ==> Substituted(d, table)[k].s == ApplyTokens(d[k].s, table)
  {
  }

  /** A dict whose strings hold no token is left as it is. */
  lemma SubstitutedTokenFree(d: Dict, table: TokenTable)
    requires forall k :: k in d && d[k].Str? ==> TokenFree(d[k].s, table)
    ensures Substituted(d, table) == d
  {
    forall k | k in d && d[k].Str? ensures ApplyTokens(d[k].s, table) == d[k].s {
      ApplyTokensTokenFree(d[k].s, table);
    }
  }

  /** `replace_keys` of data2sql.py (geo2sql.py:17-25 is the same code):
      the dict is updated in place; keys stay, non-strings are skipped,
      each string gets every token replaced, in table order. */
  method ReplaceKeys(config: MutDict, table: TokenTable)
    modifies config
    ensures config.items.Keys == old(config.items).Keys
    ensures forall k :: k in config.items && !old(config.items)[k].Str? ==>
              config.items[k] == old(config.items)[k]
    ensures forall k :: k in config.items && old(config.items)[k].Str? ==>
              config.items[k] == Str(ApplyTokens(old(config.items)[k].s, table))
    ensures config.items == Substituted(old(config.items), table)
  {
    ghost var original := config.items;
    var todo := config.items.Keys;
    while todo != {}
      invariant todo <= original.Keys
      invariant config.items.Keys == original.Keys
      invariant forall k :: k in todo ==> config.items[k] == original[k]
      invariant forall k :: k in original && k !in todo ==>
                  config.items[k] == Substituted(original, table)[k]
      decreases todo
    {
      var option :| option in todo;
      todo := todo - {option};
      if !config.items[option].Str? {
        continue;
      }
      var tmp := config.items[option].s;
      var i := 0;
      while i < |table|
        invariant 0 <= i <= |table|
        invariant ApplyTokens(tmp, table[i..]) == ApplyTokens(original[option].s, table)
      {
        assert table[i..][1..] == table[i + 1..];
        tmp := ReplaceAll(tmp, table[i].0, table[i].1);
        i := i + 1;
      }
      config.items := config.items[option := Str(tmp)];
    }
  }

  datatype Outcome = Pass | Fail(error: Error)

  /** `replace_keys` of geo2postgis.py (shp2postgis.py:12-18 is the same
      code): no type check, so with a non-empty table a value that is not a
      string raises when `replace` is called on it. Keys are visited in an
      order the model leaves open; when it raises, the values visited before
      are already substituted. */
  method ReplaceKeysStrict(config: MutDict, table: TokenTable) returns (outcome: Outcome)
    modifies config
    ensures config.items.Keys == old(config.items).Keys
    ensures outcome.Pass? <==> table == [] || forall k :: k in old(config.items) ==> old(config.items)[k].Str?
    ensures outcome.Pass? ==> config.items == Substituted(old(config.items), table)
    ensures outcome.Fail? ==>
              exists k :: k in old(config.items) && !old(config.items)[k].Str? && outcome.error == NotAString(k)
    ensures outcome.Fail? ==>
              forall k :: k in config.items ==>
                config.items[k] == old(config.items)[k] || config.items[k] == Substituted(old(config.items), table)[k]
  {
    ghost var original := config.items;
    var todo := config.items.Keys;
    while todo != {}
      invariant todo <= original.Keys
      invariant config.items.Keys == original.Keys
      invariant forall k :: k in todo ==> config.items[k] == original[k]
      invariant forall k :: k in original && k !in todo ==>
                  config.items[k] == Substituted(original, table)[k]
      invariant table != [] ==> forall k :: k in original && k !in todo ==> original[k].Str?
      decreases todo
    {
      var option :| option in todo;
      todo := todo - {option};
      var value := config.items[option];
      if !value.Str? {
        if table != [] {
          return Fail(NotAString(option));
        }
        continue;
      }
      var tmp := value.s;
      var i := 0;
      while i < |table|
        invariant 0 <= i <= |table|
        invariant ApplyTokens(tmp, table[i..]) == ApplyTokens(original[option].s, table)
      {
        assert table[i..][1..] == table[i + 1..];
        tmp := ReplaceAll(tmp, table[i].0, table[i].1);
        i := i + 1;
      }
      config.items := config.items[option := Str(tmp)];
    }
    return Pass;
  }
}
