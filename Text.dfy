/** Python's string operations used by the scripts: ordering, joining,
    `str.replace`, and the file-name helpers of `pathlib` and `os.path`. */
module Text {

  // ---------------------------------------------------------------------
  // Ordering of `str` values (what `list.sort()` compares)
  // ---------------------------------------------------------------------

  /** Python's `a < b` on strings: code point by code point, a proper
      prefix first. */
  predicate StrLt(a: string, b: string)
    decreases |a|
  {
    if b == [] then false
    else if a == [] then true
    else if a[0] != b[0] then a[0] < b[0]
    else StrLt(a[1..], b[1..])
  }

  predicate StrLe(a: string, b: string)
  {
    a == b || StrLt(a, b)
  }

  lemma {:induction false} StrLtIrreflexive(a: string)
    ensures !StrLt(a, a)
  {
    if a != [] {
      StrLtIrreflexive(a[1..]);
    }
  }

  lemma {:induction false} StrLtAsymmetric(a: string, b: string)
    requires StrLt(a, b)
    ensures !StrLt(b, a)
  {
    if a != [] && b != [] && a[0] == b[0] {
      StrLtAsymmetric(a[1..], b[1..]);
    }
  }

  lemma {:induction false} StrLtTransitive(a: string, b: string, c: string)
    requires StrLt(a, b) && StrLt(b, c)
    ensures StrLt(a, c)
  {
    if a != [] && a[0] == b[0] && b[0] == c[0] {
      StrLtTransitive(a[1..], b[1..], c[1..]);
    }
  }

  lemma {:induction false} StrLtTotal(a: string, b: string)
    ensures a == b || StrLt(a, b) || StrLt(b, a)
  {
    if a != [] && b != [] && a[0] == b[0] {
      StrLtTotal(a[1..], b[1..]);
      if a[1..] == b[1..] {
        assert a == [a[0]] + a[1..] && b == [b[0]] + b[1..];
      }
    }
  }

  /** A proper prefix sorts first. */
  lemma {:induction false} ProperPrefixIsLess(a: string, b: string)
    requires |a| < |b| && a == b[..|a|]
    ensures StrLt(a, b)
  {
    if a != [] {
      assert a[1..] == b[1..][..|a| - 1];
      ProperPrefixIsLess(a[1..], b[1..]);
    }
  }

  /** A non-empty finite set of strings has a least element. */
  lemma {:induction false} LeastExists(s: set<string>)
    requires s != {}
    ensures exists x :: IsLeast(s, x)
    decreases |s|
  {
    var z :| z in s;
    if s != {z} {
      LeastExists(s - {z});
      var m :| IsLeast(s - {z}, m);
      StrLtTotal(z, m);
      if StrLt(z, m) {
        forall y | y in s ensures StrLe(z, y) {
          if y != z {
            assert y in s - {z};
            if m != y { StrLtTransitive(z, m, y); }
          }
        }
        assert IsLeast(s, z);
      } else {
        assert StrLe(m, z);
        forall y | y in s ensures StrLe(m, y) {
          if y != z { assert y in s - {z}; }
        }
        assert IsLeast(s, m);
      }
    } else {
      assert IsLeast(s, z);
    }
  }

  predicate IsLeast(s: set<string>, x: string)
  {
    x in s && forall y :: y in s ==> StrLe(x, y)
  }

  lemma LeastUnique(s: set<string>, x: string, x': string)
    requires IsLeast(s, x) && IsLeast(s, x')
    ensures x == x'
  {
    if x != x' {
      assert StrLe(x, x') && StrLe(x', x);
      StrLtAsymmetric(x, x');
    }
  }

  /** The keys of a dict in ascending order. */
  function SortedKeys(s: set<string>): (r: seq<string>)
    ensures |r| == |s|
    ensures forall k :: k in r <==> k in s
    decreases |s|
  {
    if s == {} then []
    else
      LeastExists(s);
      assert forall x, x' :: IsLeast(s, x) && IsLeast(s, x') ==> x == x' by {
        forall x, x' | IsLeast(s, x) && IsLeast(s, x') ensures x == x' {
          LeastUnique(s, x, x');
        }
      }
      var x :| IsLeast(s, x);
      [x] + SortedKeys(s - {x})
  }

  /** Strings that agree up to a position compare by the characters there. */
  lemma {:induction false} StrLtAtFirstDifference(p: string, x: char, s: string, y: char, t: string)
    requires x < y
    ensures StrLt(p + [x] + s, p + [y] + t)
  {
    if p != [] {
      assert (p + [x] + s)[1..] == p[1..] + [x] + s;
      assert (p + [y] + t)[1..] == p[1..] + [y] + t;
      StrLtAtFirstDifference(p[1..], x, s, y, t);
    }
  }

  // ---------------------------------------------------------------------
  // `sep.join(parts)`
  // ---------------------------------------------------------------------

  function JoinWith(parts: seq<string>, sep: string): string
  {
    if parts == [] then ""
    else if |parts| == 1 then parts[0]
    else parts[0] + sep + JoinWith(parts[1..], sep)
  }

  /** Joining a concatenation puts one separator between the two halves. */
  lemma {:induction false} JoinWithAppend(a: seq<string>, b: seq<string>, sep: string)
    requires a != [] && b != []
    ensures JoinWith(a + b, sep) == JoinWith(a, sep) + sep + JoinWith(b, sep)
  {
    if |a| > 1 {
      assert (a + b)[1..] == a[1..] + b;
      JoinWithAppend(a[1..], b, sep);
    } else {
      assert (a + b)[1..] == b;
    }
  }

  /** Joining the parts of a prefix gives a proper prefix, when no part is
      empty. */
  lemma JoinWithPrefix(parts: seq<string>, j: nat, sep: string)
    requires j < |parts|
    requires forall k :: 0 <= k < |parts| ==> parts[k] != []
    ensures |JoinWith(parts[..j], sep)| < |JoinWith(parts, sep)|
    ensures JoinWith(parts[..j], sep) == JoinWith(parts, sep)[..|JoinWith(parts[..j], sep)|]
  {
    assert parts == parts[..j] + parts[j..];
    if j == 0 {
      assert JoinWith(parts, sep)[0] == parts[0][0];
    } else {
      JoinWithAppend(parts[..j], parts[j..], sep);
      assert JoinWith(parts[j..], sep)[0] == parts[j][0];
    }
  }

  // ---------------------------------------------------------------------
  // `s.replace(pat, rep)`
  // ---------------------------------------------------------------------

  /** `pat` occurs in `s` at index `i`. */
  predicate OccursAt(s: string, pat: string, i: nat)
  {
    i + |pat| <= |s| && s[i..i + |pat|] == pat
  }

  ghost predicate Occurs(s: string, pat: string)
  {
    exists i: nat :: OccursAt(s, pat, i)
  }

  /** Python's `str.replace`: scans left to right and replaces every
      non-overlapping occurrence of `pat` by `rep`; an empty `pat` matches
      before every character and at the end. */
  function ReplaceAll(s: string, pat: string, rep: string): (r: string)
    ensures |rep| == |pat| ==> |r| == |s|
    decreases |s|
  {
    if pat == [] then
      (if s == [] then rep else rep + [s[0]] + ReplaceAll(s[1..], pat, rep))
    else if pat <= s then rep + ReplaceAll(s[|pat|..], pat, rep)
    else if s == [] then []
    else [s[0]] + ReplaceAll(s[1..], pat, rep)
  }

  /** `s.split(pat)` for a non-empty separator: the pieces between the
      occurrences of `pat`, found left to right. This is the reference for
      `ReplaceAll`: `s.replace(p, r) == r.join(s.split(p))`. */
  function SplitOn(s: string, pat: string): (pieces: seq<string>)
    requires pat != []
    ensures |pieces| >= 1
    ensures pieces[0] <= s
    decreases |s|
  {
    if pat <= s then [[]] + SplitOn(s[|pat|..], pat)
    else if s == [] then [[]]
    else
      var t := SplitOn(s[1..], pat);
      [[s[0]] + t[0]] + t[1..]
  }

  lemma JoinWithConsFirst(c: char, t: seq<string>, sep: string)
    requires t != []
    ensures JoinWith([[c] + t[0]] + t[1..], sep) == [c] + JoinWith(t, sep)
  {
    var u := [[c] + t[0]] + t[1..];
    if |t| > 1 {
      assert u[1..] == t[1..];
    }
  }

  lemma JoinWithConsEmpty(t: seq<string>, sep: string)
    requires t != []
    ensures JoinWith([[]] + t, sep) == sep + JoinWith(t, sep)
  {
    assert ([[]] + t)[1..] == t;
  }

  /** `str.replace` agrees with splitting and joining. */
  lemma {:induction false} ReplaceAllIsSplitJoin(s: string, pat: string, rep: string)
    requires pat != []
    ensures ReplaceAll(s, pat, rep) == JoinWith(SplitOn(s, pat), rep)
    decreases |s|
  {
    if pat <= s {
      ReplaceAllIsSplitJoin(s[|pat|..], pat, rep);
      JoinWithConsEmpty(SplitOn(s[|pat|..], pat), rep);
    } else if s != [] {
      ReplaceAllIsSplitJoin(s[1..], pat, rep);
      JoinWithConsFirst(s[0], SplitOn(s[1..], pat), rep);
    }
  }

  /** A first piece extended by one character gains no occurrence when
      the whole text does not start with `pat`. */
  lemma ConsNoOccurrence(c: char, t0: string, rest: string, pat: string)
    requires t0 <= rest && !Occurs(t0, pat) && !(pat <= [c] + rest)
    ensures !Occurs([c] + t0, pat)
  {
    var head := [c] + t0;
    forall i: nat ensures !OccursAt(head, pat, i) {
      if OccursAt(head, pat, i) {
        if i == 0 {
          assert false;
        } else {
          assert head[i..i + |pat|] == t0[i - 1..i - 1 + |pat|];
          assert OccursAt(t0, pat, i - 1);
          assert false;
        }
      }
    }
  }

  /** No piece between two replaced occurrences still contains `pat`: every
      occurrence is replaced, not only the first. */
  lemma {:induction false} SplitPiecesHaveNoOccurrence(s: string, pat: string)
    requires pat != []
    ensures forall k :: 0 <= k < |SplitOn(s, pat)| ==> !Occurs(SplitOn(s, pat)[k], pat)
    decreases |s|
  {
    var pieces := SplitOn(s, pat);
    if pat <= s {
      SplitPiecesHaveNoOccurrence(s[|pat|..], pat);
      forall k | 0 <= k < |pieces| ensures !Occurs(pieces[k], pat) {
        if k == 0 {
          assert forall i: nat :: !OccursAt(pieces[0], pat, i);
        } else {
          assert pieces[k] == SplitOn(s[|pat|..], pat)[k - 1];
        }
      }
    } else if s != [] {
      var t := SplitOn(s[1..], pat);
      SplitPiecesHaveNoOccurrence(s[1..], pat);
      forall k | 0 <= k < |pieces| ensures !Occurs(pieces[k], pat) {
        if k == 0 {
          assert s == [s[0]] + s[1..];
          ConsNoOccurrence(s[0], t[0], s[1..], pat);
        } else {
          assert pieces[k] == t[k];
        }
      }
    }
  }

  /** Where `pat` does not occur, `str.replace` changes nothing. */
  lemma {:induction false} ReplaceAllNoOccurrence(s: string, pat: string, rep: string)
    requires pat != [] && !Occurs(s, pat)
    ensures ReplaceAll(s, pat, rep) == s
    decreases |s|
  {
    if s != [] {
      assert !OccursAt(s, pat, 0);
      if !Occurs(s[1..], pat) {
        ReplaceAllNoOccurrence(s[1..], pat, rep);
      } else {
        var i: nat :| OccursAt(s[1..], pat, i);
        assert s[i + 1..i + 1 + |pat|] == s[1..][i..i + |pat|];
        assert OccursAt(s, pat, i + 1);
      }
    }
  }

  /** Replacing a token by itself is the identity. */
  lemma {:induction false} ReplaceAllBySelf(s: string, pat: string)
    ensures ReplaceAll(s, pat, pat) == s
    decreases |s|
  {
    if s != [] {
      if pat != [] && pat <= s {
        ReplaceAllBySelf(s[|pat|..], pat);
        assert s == pat + s[|pat|..];
      } else {
        ReplaceAllBySelf(s[1..], pat);
        assert s == [s[0]] + s[1..];
      }
    }
  }

  /** `pat.join(s.split(pat)) == s`: splitting loses nothing. */
  lemma SplitJoinRoundTrip(s: string, pat: string)
    requires pat != []
    ensures JoinWith(SplitOn(s, pat), pat) == s
  {
    ReplaceAllIsSplitJoin(s, pat, pat);
    ReplaceAllBySelf(s, pat);
  }

  // ---------------------------------------------------------------------
  // File names
  // ---------------------------------------------------------------------

  /** `s.rfind(c)`: the last index holding `c`, or -1. */
  function RFind(s: string, c: char): (r: int)
    ensures -1 <= r < |s|
    ensures r >= 0 ==> s[r] == c
    ensures forall j :: r < j < |s| ==> s[j] != c
  {
    if s == [] then -1
    else if s[|s| - 1] == c then |s| - 1
    else RFind(s[..|s| - 1], c)
  }

  lemma NoCharAfter(s: string, i: int, c: char)
    requires -1 <= i < |s|
    requires forall j :: i < j < |s| ==> s[j] != c
    ensures c !in s[i + 1..]
  {
    var rest := s[i + 1..];
    forall j | 0 <= j < |rest| ensures rest[j] != c {
      assert rest[j] == s[i + 1 + j];
    }
  }

  /** `os.path.basename(p)`: the text after the last `/`. */
  function Basename(p: string): (name: string)
    ensures |name| <= |p| && name == p[|p| - |name|..]
    ensures '/' !in name
    ensures |name| < |p| ==> p[|p| - |name| - 1] == '/'
  {
    var i := RFind(p, '/');
    NoCharAfter(p, i, '/');
    p[i + 1..]
  }

  /** `os.path.splitext(name)[0]` for a name without `/`: the last `.` and
      what follows it are dropped, unless every character before that dot
      is a dot (a hidden file such as `.profile` keeps its name). */
  function SplitExtRoot(name: string): (root: string)
    ensures root <= name
    ensures root != name ==>
              name[|root|] == '.' && '.' !in name[|root| + 1..] &&
              exists k :: 0 <= k < |root| && root[k] != '.'
    ensures RFind(name, '.') > 0 && (exists k :: 0 <= k < RFind(name, '.') && name[k] != '.') ==>
              root == name[..RFind(name, '.')]
    ensures !(RFind(name, '.') > 0 && exists k :: 0 <= k < RFind(name, '.') && name[k] != '.') ==>
              root == name
  {
    var dot := RFind(name, '.');
    if dot > 0 && exists k :: 0 <= k < dot && name[k] != '.' then
      NoCharAfter(name, dot, '.');
      name[..dot]
    else name
  }

  /** `PurePath.stem`: the name without its last suffix, where a suffix is
      a `.` that is neither the first nor the last character, and what
      follows it. */
  function PathStem(name: string): (stem: string)
    ensures stem <= name
    ensures stem != name ==>
              0 < |stem| < |name| - 1 && name[|stem|] == '.' && '.' !in name[|stem| + 1..]
    ensures 0 < RFind(name, '.') < |name| - 1 ==> stem == name[..RFind(name, '.')]
    ensures !(0 < RFind(name, '.') < |name| - 1) ==> stem == name
  {
    var dot := RFind(name, '.');
    if 0 < dot < |name| - 1 then
      NoCharAfter(name, dot, '.');
      name[..dot]
    else name
  }
}
