/** geo2postgis.py and shp2postgis.py: the connection URL, and the per-file
    preparation of a sidecar before it is written (strict token substitution,
    then the forced writer parameters). */
module Postgis {
  import opened Json
  import opened Text
  import opened Paths
  import opened Tokens
  import opened Writer

  /** `debug = True` at geo2postgis.py:12 and shp2postgis.py:10. */
  const Debug := true

  const Scheme := "postgresql://"

  /** `sql_url(user, password, url, db)`: the fields in the fixed template
      `postgresql://{user}:{password}@{url}/{db}`, with nothing escaped. */
  function SqlUrl(user: string, password: string, url: string, db: string): (u: string)
    ensures Scheme <= u
    ensures |u| == |Scheme| + |user| + |password| + |url| + |db| + 3
  {
    Scheme + user + ":" + password + "@" + url + "/" + db
  }

  /** Splits `s` at the first `c`. */
  function SplitAtFirst(s: string, c: char): (r: Option<(string, string)>)
    ensures r.None? <==> c !in s
    ensures r.Some? ==> s == r.value.0 + [c] + r.value.1 && c !in r.value.0
  {
    if s == [] then None
    else if s[0] == c then Some(([], s[1..]))
    else
      match SplitAtFirst(s[1..], c)
      case None => None
      case Some(parts) => Some(([s[0]] + parts.0, parts.1))
  }

  lemma {:induction false} SplitAtFirstConcat(a: string, c: char, b: string)
    requires c !in a
    ensures SplitAtFirst(a + [c] + b, c) == Some((a, b))
  {
    if a != [] {
      assert (a + [c] + b)[1..] == a[1..] + [c] + b;
      SplitAtFirstConcat(a[1..], c, b);
      assert a == [a[0]] + a[1..];
    }
  }

  /** Reads the four fields back out of a URL of that shape. */
  function ParseSqlUrl(u: string): Option<(string, string, string, string)>
  {
    if !(Scheme <= u) then None else ParseFields(u[|Scheme|..])
  }

  /** The part after the scheme: user up to the first `:`, password up to
      the next `@`, host up to the next `/`, the rest is the database. */
  function ParseFields(rest: string): Option<(string, string, string, string)>
  {
    match SplitAtFirst(rest, ':')
    case None => None
    case Some(p1) =>
      match SplitAtFirst(p1.1, '@')
      case None => None
      case Some(p2) =>
        match SplitAtFirst(p2.1, '/')
        case None => None
        case Some(p3) => Some((p1.0, p2.0, p3.0, p3.1))
  }

  /** The fields joined by `:`, `@` and `/` read back when the first three
      are free of the separator that follows them. */
  lemma ParseFieldsJoined(user: string, password: string, url: string, db: string)
    requires ':' !in user && '@' !in password && '/' !in url
    ensures ParseFields(user + [':'] + (password + ['@'] + (url + ['/'] + db))) == Some((user, password, url, db))
  {
    SplitAtFirstConcat(url, '/', db);
    SplitAtFirstConcat(password, '@', url + ['/'] + db);
    SplitAtFirstConcat(user, ':', password + ['@'] + (url + ['/'] + db));
  }

  /** The URL is the scheme followed by the joined fields. */
  lemma SqlUrlShape(user: string, password: string, url: string, db: string)
    ensures Scheme <= SqlUrl(user, password, url, db)
    ensures SqlUrl(user, password, url, db)[|Scheme|..] == user + [':'] + (password + ['@'] + (url + ['/'] + db))
  {
    var fields := user + [':'] + (password + ['@'] + (url + ['/'] + db));
    assert SqlUrl(user, password, url, db) == Scheme + fields;
    assert (Scheme + fields)[|Scheme|..] == fields;
  }

  /** The URL carries its four fields unambiguously as long as the user
      name has no `:`, the password no `@` and the host part no `/`. */
  lemma SqlUrlRoundTrip(user: string, password: string, url: string, db: string)
    requires ':' !in user && '@' !in password && '/' !in url
    ensures ParseSqlUrl(SqlUrl(user, password, url, db)) == Some((user, password, url, db))
  {
    SqlUrlShape(user, password, url, db);
    ParseFieldsJoined(user, password, url, db);
  }

  /** Nothing is escaped, so an `@` in the password makes the URL
      ambiguous: the same text is built from a different password and host. */
  lemma SqlUrlNotInjective(user: string, p1: string, p2: string, url: string, db: string)
    ensures SqlUrl(user, p1 + "@" + p2, url, db) == SqlUrl(user, p1, p2 + "@" + url, db)
    ensures p2 != [] ==> p1 + "@" + p2 != p1
  {
  }

  /** Because of that ambiguity, a reader that splits the URL at its first
      `@` after the user, as `ParseSqlUrl` does, returns the password cut at
      its first `@` and the rest glued to the host. */
  lemma SqlUrlPasswordWithAt(user: string, p1: string, p2: string, url: string, db: string)
    requires ':' !in user && '@' !in p1 && '/' !in p2 && '/' !in url
    ensures ParseSqlUrl(SqlUrl(user, p1 + "@" + p2, url, db)) == Some((user, p1, p2 + "@" + url, db))
  {
    var host := p2 + "@" + url;
    SqlUrlShape(user, p1 + "@" + p2, url, db);
    assert (p1 + "@" + p2) + ['@'] + (url + ['/'] + db) == p1 + ['@'] + (host + ['/'] + db);
    assert '/' !in host;
    ParseFieldsJoined(user, p1, host, db);
  }

  // ---------------------------------------------------------------------
  // The two file-name token tables
  // ---------------------------------------------------------------------

  /** For an ordinary file name, one that does not start with a dot and
      whose last dot is neither its first nor its last character, the
      `pathlib` stem and the `os.path.splitext` root agree. */
  lemma StemsAgree(name: string)
    requires name != [] && name[0] != '.'
    requires 0 < RFind(name, '.') < |name| - 1
    ensures PathStem(name) == SplitExtRoot(name)
  {
    assert name[0] != '.';
  }

  /** A name ending in a dot: `pathlib` keeps it whole, `splitext` drops the
      dot. */
  lemma StemsDifferOnTrailingDot()
    ensures PathStem("x.") == "x."
    ensures SplitExtRoot("x.") == "x"
  {
    assert RFind("x.", '.') == 1;
    assert "x."[0] != '.';
    assert "x."[..1] == "x";
  }

  // ---------------------------------------------------------------------
  // Preparing one sidecar
  // ---------------------------------------------------------------------

  /** `shp2postgis` of geo2postgis.py (73-88): the `pathlib` token table is
      applied to the whole sidecar in place, which fails on any value that
      is not a string, then the parameters are the sidecar restricted to
      the six keys, with `if_exists` forced to `"replace"` since `debug` is set. */
  method Geo2PostgisParams(shpConfig: MutDict, item: Path) returns (outcome: Outcome, params: Dict)
    modifies shpConfig
    ensures outcome.Pass? <==> forall k :: k in old(shpConfig.items) ==> old(shpConfig.items)[k].Str?
    ensures outcome.Pass? ==>
              shpConfig.items == Substituted(old(shpConfig.items), PathlibTokens(item)) &&
              params == DebugParams(shpConfig.items, Debug)
    ensures outcome.Fail? ==> params == map[]
  {
    var repKeys := PathlibTokens(item);
    params := map[];
    outcome := ReplaceKeysStrict(shpConfig, repKeys);
    if outcome.Fail? {
      return;
    }
    params := ForcedParams(shpConfig.items, Debug);
  }

  /** The loop body of `shp2postgis` of shp2postgis.py (83-98): the same,
      with the name and stem taken by `os.path.basename` and
      `os.path.splitext` from the path `glob` returned. */
  method Shp2PostgisParams(shpConfig: MutDict, file: string) returns (outcome: Outcome, params: Dict)
    modifies shpConfig
    ensures outcome.Pass? <==> forall k :: k in old(shpConfig.items) ==> old(shpConfig.items)[k].Str?
    ensures outcome.Pass? ==>
              shpConfig.items == Substituted(old(shpConfig.items), OsPathTokens(file)) &&
              params == DebugParams(shpConfig.items, Debug)
    ensures outcome.Fail? ==> params == map[]
  {
    var repKeys := OsPathTokens(file);
    params := map[];
    outcome := ReplaceKeysStrict(shpConfig, repKeys);
    if outcome.Fail? {
      return;
    }
    params := ForcedParams(shpConfig.items, Debug);
  }
}
