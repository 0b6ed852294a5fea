/** `join2configs`: merging an overlay configuration over a base one under the
    overlay's `mix` policy. */
module Merge {
  import opened Json

  const MixKey := "mix"

  /** The overlay asks to discard what it is merged over. */
  predicate IsClean(d: Dict)
  {
    MixKey in d && d[MixKey] == Str("clean")
  }

  /** The overlay asks for a shallow overwrite, explicitly or by having no `mix`. */
  predicate IsReplace(d: Dict)
  {
    MixKey !in d || d[MixKey] == Str("replace")
  }

  /** `join2configs(container, contained)` of data2sql.py. Both arguments are
      copied before anything else, so neither is changed: here they are
      values. */
  function Join2Configs(container: Option<Dict>, contained: Option<Dict>): (r: Result<Option<Dict>>)
    // a missing side: the other side, or nothing
    ensures container.None? ==> r == Ok(contained)
    ensures container.Some? && contained.None? ==> r == Ok(container)
    ensures r.Ok? && (container.Some? || contained.Some?) ==> r.value.Some?
    // both present: the overlay's policy decides
    ensures container.Some? && contained.Some? ==>
              (r.Ok? <==> IsClean(contained.value) || IsReplace(contained.value))
    ensures container.Some? && contained.Some? && r.Err? ==>
              r.error == UnsupportedMix(contained.value[MixKey])
    ensures container.Some? && contained.Some? && IsClean(contained.value) ==>
              r == Ok(contained)
    ensures container.Some? && contained.Some? && !IsClean(contained.value) && r.Ok? ==>
              var base, over, joined := container.value, contained.value, r.value.value;
              && joined.Keys == (base.Keys - {MixKey}) + over.Keys
              && (forall k :: k in over ==> joined[k] == over[k])
              && (forall k :: k in base && k !in over && k != MixKey ==> joined[k] == base[k])
  {
    if container.None? then Ok(contained)
    else if contained.None? then Ok(container)
    else if IsClean(contained.value) then Ok(contained)
    else if IsReplace(contained.value) then Ok(Some((container.value - {MixKey}) + contained.value))
    else Err(UnsupportedMix(contained.value[MixKey]))
  }

  /** Merging in two steps equals merging the two overlays first, when
      neither overlay is `clean` or unknown: inheriting through an
      intermediate directory is the same as inheriting from its merged
      overlays at once. */
  lemma {:induction false} Join2ConfigsAssociative(a: Dict, b: Dict, c: Dict)
    requires IsReplace(b) && IsReplace(c)
    ensures Join2Configs(Some(a), Some(b)).Ok?
    ensures Join2Configs(Some(b), Some(c)).Ok?
    ensures Join2Configs(Join2Configs(Some(a), Some(b)).value, Some(c)) ==
            Join2Configs(Some(a), Join2Configs(Some(b), Some(c)).value)
  {
    var ab := (a - {MixKey}) + b;
    var bc := (b - {MixKey}) + c;
    assert Join2Configs(Some(a), Some(b)) == Ok(Some(ab));
    assert Join2Configs(Some(b), Some(c)) == Ok(Some(bc));
    assert IsReplace(ab) == IsReplace(b);
    assert IsReplace(bc) by {
      if MixKey in bc { assert bc[MixKey] == c[MixKey]; }
    }
    assert !IsClean(bc);
    DropMixAssociative(a, b, c);
  }

  /** Dropping `mix` before each union composes the same either way. */
  lemma DropMixAssociative(a: Dict, b: Dict, c: Dict)
    ensures (((a - {MixKey}) + b) - {MixKey}) + c == (a - {MixKey}) + ((b - {MixKey}) + c)
  {
    var left := (((a - {MixKey}) + b) - {MixKey}) + c;
    var right := (a - {MixKey}) + ((b - {MixKey}) + c);
    assert left.Keys == right.Keys;
    forall k | k in left ensures left[k] == right[k] {
    }
  }

  /** `join2configs(config1, config2)` of geo2sql.py. On `clean` it returns
      `config2` itself. Otherwise it takes a copy of `config1` without
      `mix`, then writes every key of `config2` into `config1` in place and
      returns the copy, so the caller's `config1` gains `config2`'s keys and
      the returned dict does not. */
  method MutatingJoin(config1: MutDict, config2: MutDict) returns (r: Result<MutDict>)
    modifies config1
    ensures IsClean(old(config2.items)) ==>
              r == Ok(config2) && config1.items == old(config1.items)
    ensures !IsClean(old(config2.items)) && IsReplace(old(config2.items)) ==>
              && r.Ok? && fresh(r.value)
              && r.value.items == old(config1.items) - {MixKey}
              && config1.items == old(config1.items) + old(config2.items)
    ensures !IsClean(old(config2.items)) && !IsReplace(old(config2.items)) ==>
              r == Err(UnsupportedMix(old(config2.items)[MixKey])) && config1.items == old(config1.items)
  {
    var over := config2.items;
    if IsClean(over) {
      return Ok(config2);
    }
    if IsReplace(over) {
      var ret := new MutDict(config1.items - {MixKey});
      var written := WriteAll(config1.items, over);
      config1.items := written;
      return Ok(ret);
    }
    return Err(UnsupportedMix(over[MixKey]));
  }
}
