/** Shared vocabulary of the model: optional values, results, the errors the
    server raises, and Python's insertion-ordered dictionary. */
module Common {

  datatype Option<+T> = None | Some(value: T) {
    function GetOr(default: T): T {
      if Some? then value else default
    }
  }

  datatype Result<+T, +E> = Ok(value: T) | Err(error: E)

  /** Why a request or a registry build was refused. */
  datatype Reason =
    | DuplicateCollectionId(id: string)          // two collections with the same id
    | TwoHrefsForOneCollection(id: string)       // two geoparquet assets in one collection
    | SameCollectionInTwoFiles(id: string)       // one collection id produced twice at start-up
    | InvalidBBoxLength(parts: seq<string>)      // bbox text with neither 4 nor 6 components
    | InvalidBBox                                // a bbox component that is not a number
    | UnexpectedFieldsType                       // a `fields` value that is neither list nor dict
    | CollectionDoesNotExist(collectionId: string)
    | ItemDoesNotExist(itemId: string, collectionId: string)

  /** The three kinds of exception the core raises. */
  datatype Error =
    | HttpError(status: nat, reason: Reason)     // fastapi.HTTPException
    | NotFoundError(reason: Reason)              // the STAC API's not-found error (HTTP 404)
    | ValueError(reason: Reason)                 // a Python ValueError raised at start-up

  /** A string-keyed dictionary that remembers insertion order, as Python's
      `dict` does: `keys` lists every key once, in the order it was first put. */
  datatype Dict<V> = Dict(keys: seq<string>, entries: map<string, V>) {

    ghost predicate Valid() {
      && (forall i, j :: 0 <= i < j < |keys| ==> keys[i] != keys[j])
      && (forall k :: k in entries <==> k in keys)
    }

    function Get(k: string): (r: Option<V>)
      ensures r.Some? <==> k in entries
      ensures r.Some? ==> r.value == entries[k]
    {
      if k in entries then Some(entries[k]) else None
    }

    /** `d[k] = v`: a new key goes to the end, an existing key keeps its place. */
    function Put(k: string, v: V): (d: Dict<V>)
      requires Valid()
      ensures d.Valid()
      ensures d.entries == entries[k := v]
      ensures d.keys == if k in entries then keys else keys + [k]
    {
      Dict(if k in entries then keys else keys + [k], entries[k := v])
    }
  }

  function EmptyDict<V>(): (d: Dict<V>)
    ensures d.Valid() && d.keys == [] && d.entries == map[]
  {
    Dict([], map[])
  }

  /** Taking one more element of a sequence appends that element. */
  lemma TakeOneMore<T>(s: seq<T>, i: nat)
    requires i < |s|
    ensures s[..i + 1] == s[..i] + [s[i]]
  {
  }
}
