/** `convert_model_result`: the wrapper around a route handler's return value that turns
    a dataclass or pydantic model body into a plain mapping, camelizing its keys when the
    application asks for it, and hands the body, status and headers on as a triple. */
module Coercion {
  import opened Wrappers
  import opened Dicts
  import opened Json
  import opened Routes

  /** A value a handler returns, as the wrapper tells them apart: a dataclass instance
      (its fields as `asdict` lists them), a pydantic model (its `.dict` dump, which
      depends on `by_alias`), or anything else. Python's `None` is `Plain(Null)`. */
  datatype Value =
    | Dataclass(fields: Dict<Json>)
    | Model(dump: bool -> Dict<Json>)
    | Plain(json: Json)

  /** What a handler returns: one value, or a tuple of values. */
  datatype Returned = Single(value: Value) | Tuple(items: seq<Value>)

  /** What the wrapped function receives: the body, the status or headers, the headers. */
  datatype Triple = Triple(body: Value, statusOrHeaders: Value, headers: Value)

  /** The `None` that fills a short tuple. */
  const NONE: Value := Plain(Null)

  /** `result + (None,) * (3 - len(result))`: a tuple shorter than three is filled up with
      `None`; repeating a tuple a negative number of times gives the empty tuple, so a
      longer one is left as it is. */
  function Pad(items: seq<Value>): (r: seq<Value>)
    ensures |items| <= 3 ==> |r| == 3
    ensures |items| > 3 ==> r == items
    ensures r[..|items|] == items
    ensures forall i :: |items| <= i < |r| ==> r[i] == NONE
  {
    if |items| >= 3 then items
    else items + seq(3 - |items|, _ => NONE)
  }

  /** The unpacking into `value, status_or_headers, headers`: a value that is not a tuple
      is the body alone; a tuple must have exactly three entries once padded. */
  function Unpack(result: Returned): (r: Result<Triple, Error>)
    ensures r.Failure? <==> result.Tuple? && |result.items| > 3
    ensures r.Failure? ==> r.error == TooManyValues
    ensures result.Single? ==> r == Success(Triple(result.value, NONE, NONE))
  {
    match result
    case Single(v) => Success(Triple(v, NONE, NONE))
    case Tuple(items) =>
      var padded := Pad(items);
      if |padded| != 3 then Failure(TooManyValues)
      else Success(Triple(padded[0], padded[1], padded[2]))
  }

  /** The entries of a triple in order. */
  function Entries(t: Triple): (r: seq<Value>)
    ensures |r| == 3
  {
    [t.body, t.statusOrHeaders, t.headers]
  }

  /** Unpacking a tuple of at most three keeps its entries in their places and fills the
      rest with `None`. */
  lemma UnpackTuple(items: seq<Value>)
    requires |items| <= 3
    ensures Unpack(Tuple(items)).Success?
    ensures Entries(Unpack(Tuple(items)).value)[..|items|] == items
    ensures forall i :: |items| <= i < 3 ==> Entries(Unpack(Tuple(items)).value)[i] == NONE
  {
    var padded := Pad(items);
    assert Entries(Unpack(Tuple(items)).value) == padded;
  }

  /** A value returned alone is treated as the one-entry tuple holding it. */
  lemma UnpackSingle(v: Value)
    ensures Unpack(Single(v)) == Unpack(Tuple([v]))
  {
    var padded := Pad([v]);
    assert padded[0] == v && padded[1] == NONE && padded[2] == NONE;
  }

  /** Unpacking the entries of a triple gives the triple back. */
  lemma UnpackEntries(t: Triple)
    ensures Unpack(Tuple(Entries(t))) == Success(t)
  {
    assert Pad(Entries(t)) == Entries(t);
  }

  /** The mapping a dataclass or model stands for: `asdict`, or `.dict(by_alias=...)`. */
  function AsDict(v: Value, byAlias: bool): (d: Dict<Json>)
    requires !v.Plain?
    ensures v.Dataclass? ==> d == v.fields
  {
    match v
    case Dataclass(fields) => fields
    case Model(dump) => dump(byAlias)
  }

  /** The body the wrapped function gets: a dataclass or model becomes the mapping it
      stands for, camelized when `convert`; any other value is passed on unchanged. */
  function Coerce(v: Value, byAlias: bool, convert: bool, camel: string -> string): (r: Value)
    ensures r.Plain?
    ensures v.Plain? ==> r == v
    ensures !v.Plain? ==> r.json.Obj?
    ensures !v.Plain? && !convert ==> r.json.fields == AsDict(v, byAlias)
    ensures !v.Plain? && convert ==> forall k ::
      k in Keys(r.json.fields) <==> exists i :: 0 <= i < |AsDict(v, byAlias)| && camel(AsDict(v, byAlias)[i].0) == k
  {
    if v.Plain? then v
    else
      var d := AsDict(v, byAlias);
      if convert then
        assert forall k :: k in Keys(Camelize(Obj(d), camel).fields) <==>
          exists i :: 0 <= i < |d| && camel(d[i].0) == k by {
          forall k
            ensures k in Keys(Camelize(Obj(d), camel).fields) <==>
              exists i :: 0 <= i < |d| && camel(d[i].0) == k
          {
            CamelizeKeys(d, camel, k);
          }
        }
        Plain(Camelize(Obj(d), camel))
      else Plain(Obj(d))
  }

  /** With casing conversion a field keeps its value, camelized, under its renamed key,
      unless a later field is renamed to the same key and wins. */
  lemma CoerceLookup(v: Value, byAlias: bool, camel: string -> string, i: nat)
    requires !v.Plain?
    requires i < |AsDict(v, byAlias)|
    requires var d := AsDict(v, byAlias);
      forall j :: i < j < |d| ==> camel(d[j].0) != camel(d[i].0)
    ensures var d := AsDict(v, byAlias);
      Get(Coerce(v, byAlias, true, camel).json.fields, camel(d[i].0)) == Some(Camelize(d[i].1, camel))
  {
    CamelizeLookup(AsDict(v, byAlias), camel, i);
  }

  /** Coercing a coerced body changes nothing more. */
  lemma CoerceIdempotent(v: Value, byAlias: bool, convert: bool, camel: string -> string)
    ensures var once := Coerce(v, byAlias, convert, camel);
      Coerce(once, byAlias, convert, camel) == once
  {
  }

  /** A dataclass and a model are coerced alike: only the mapping they stand for counts. */
  lemma CoerceDataclassLikeModel(dump: bool -> Dict<Json>, byAlias: bool, convert: bool, camel: string -> string)
    ensures Coerce(Dataclass(dump(byAlias)), byAlias, convert, camel) == Coerce(Model(dump), byAlias, convert, camel)
  {
  }

  /** `convert_model_result`'s decorator up to the call of the wrapped function: unpack,
      coerce the body, keep the status and headers. The body of a well-formed model
      comes out without repeated keys whether or not it is camelized. */
  function ConvertModelResult(result: Returned, byAlias: bool, convert: bool, camel: string -> string)
    : (r: Result<Triple, Error>)
    ensures r.Success? <==> Unpack(result).Success?
    ensures r.Failure? ==> r.error == TooManyValues
    ensures r.Success? ==> r.value.body.Plain?
    ensures r.Success? ==>
      && r.value.statusOrHeaders == Unpack(result).value.statusOrHeaders
      && r.value.headers == Unpack(result).value.headers
    ensures r.Success? ==> r.value.body == Coerce(Unpack(result).value.body, byAlias, convert, camel)
  {
    var t :- Unpack(result);
    Success(Triple(Coerce(t.body, byAlias, convert, camel), t.statusOrHeaders, t.headers))
  }

  /** Handing the wrapper's own output back to it changes nothing: the body is already
      plain and the status and headers are never touched. */
  lemma ConvertIdempotent(result: Returned, byAlias: bool, convert: bool, camel: string -> string)
    requires ConvertModelResult(result, byAlias, convert, camel).Success?
    ensures var t := ConvertModelResult(result, byAlias, convert, camel).value;
      ConvertModelResult(Tuple(Entries(t)), byAlias, convert, camel) == Success(t)
  {
    var t := ConvertModelResult(result, byAlias, convert, camel).value;
    UnpackEntries(t);
  }

  /** A tuple of plain values is only padded: each entry keeps its place. */
  lemma ConvertPlainTuple(items: seq<Value>, byAlias: bool, convert: bool, camel: string -> string)
    requires |items| <= 3
    requires forall i :: 0 <= i < |items| ==> items[i].Plain?
    ensures ConvertModelResult(Tuple(items), byAlias, convert, camel).Success?
    ensures Entries(ConvertModelResult(Tuple(items), byAlias, convert, camel).value)[..|items|] == items
  {
    UnpackTuple(items);
    var t := Unpack(Tuple(items)).value;
    if |items| > 0 {
      assert Entries(t)[0] == items[0];
    }
    assert Entries(ConvertModelResult(Tuple(items), byAlias, convert, camel).value) == Entries(t);
  }
}
