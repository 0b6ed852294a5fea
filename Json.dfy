/** Parsed JSON values, Python dictionaries and the errors the scripts raise. */
module Json {

  /** A parsed JSON value. Numbers are kept as integers: no rule of the
      configuration engine looks inside a number. */
  datatype Json =
    | Null
    | Bool(b: bool)
    | Num(n: int)
    | Str(s: string)
    | Arr(items: seq<Json>)
    | Obj(fields: map<string, Json>)

  /** A Python dict with string keys, as `json.load` produces it. */
  type Dict = map<string, Json>

  datatype Option<T> = None | Some(value: T)

  /** The exceptions the scripts raise on the paths that are modelled. */
  datatype Error =
    | UnsupportedMix(mix: Json)   // NameError("Not supported way to join configs: …")
    | DbNotFound(db: Json)        // NameError("The DB … was not found")
    | KeyMissing(key: string)     // KeyError on a dict lookup
    | NotSubscriptable            // TypeError: 'NoneType' object is not subscriptable
    | NotAString(key: string)     // AttributeError: the value under `key` has no `replace`
    | NotIterable(key: string)    // TypeError: the value under `key` cannot be iterated
    | Unhashable(value: Json)     // TypeError: unhashable type (a list or a dict used as a key)
    | BadUnpack                   // a dict returned where a `(conn, config)` pair is unpacked

  datatype Result<T> = Ok(value: T) | Err(error: Error)

  /** A dict that is shared by reference: the functions that update a dict
      in place take one of these. */
  class MutDict {
    var items: Dict

    constructor (d: Dict)
      ensures items == d
    {
      items := d;
    }
  }

  /** `for k in src: dst[k] = src[k]`: every key of `src` is written over
      `dst`, one at a time. */
  method WriteAll(dst: Dict, src: Dict) returns (r: Dict)
    ensures r.Keys == dst.Keys + src.Keys
    ensures forall k :: k in src ==> r[k] == src[k]
    ensures forall k :: k in dst && k !in src ==> r[k] == dst[k]
  {
    r := dst;
    var todo := src.Keys;
    while todo != {}
      invariant todo <= src.Keys
      invariant r.Keys == dst.Keys + (src.Keys - todo)
      invariant forall k :: k in src && k !in todo ==> r[k] == src[k]
      invariant forall k :: k in dst && (k !in src || k in todo) ==> r[k] == dst[k]
      decreases todo
    {
      var k :| k in todo;
      r := r[k := src[k]];
      todo := todo - {k};
    }
  }
}
