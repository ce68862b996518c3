/** Pulling the embedded `definitions` out of a reflected schema so that they can be
    merged into the shared `components.schemas` registry. */
module Definitions {
  import opened Wrappers
  import opened Dicts
  import opened Json
  import opened Routes

  const DEFINITIONS := "definitions"

  /** `_split_definitions`: the value under `definitions` (an empty object when absent)
      and a copy of the schema with that key popped. */
  function SplitDefinitions(schema: Dict<Json>): (r: (Json, Dict<Json>))
    ensures DEFINITIONS in Keys(schema) ==> Some(r.0) == Get(schema, DEFINITIONS)
    ensures DEFINITIONS !in Keys(schema) ==> r.0 == Obj([])
    ensures DEFINITIONS !in Keys(r.1)
    ensures forall k :: k != DEFINITIONS ==> Get(r.1, k) == Get(schema, k)
    ensures DEFINITIONS !in Keys(schema) ==> r.1 == schema
    ensures Distinct(schema) ==> Distinct(r.1)
    ensures Distinct(schema) && DEFINITIONS in Keys(schema) ==> |r.1| == |schema| - 1
  {
    (Get(schema, DEFINITIONS).GetOr(Obj([])), Remove(schema, DEFINITIONS))
  }

  /** Splitting loses nothing: putting the definitions back under their key restores
      every lookup of the original schema. */
  lemma SplitDefinitionsRestores(schema: Dict<Json>, k: string)
    requires DEFINITIONS in Keys(schema)
    ensures var (defs, rest) := SplitDefinitions(schema);
      Get(Set(rest, DEFINITIONS, defs), k) == Get(schema, k)
  {
  }

  /** `_split_convert_definitions`: split, then, when casing conversion is on, camelize the
      schema and every definition body (the definition names are kept). Iterating
      definitions that are not a mapping fails. */
  function SplitConvertDefinitions(lib: Libraries, model: ModelId, convert: bool)
    : (r: Result<(Json, Dict<Json>), Error>)
    ensures !convert ==> r == Success(SplitDefinitions(lib.schema(model)))
    ensures r.Failure? <==> convert && !SplitDefinitions(lib.schema(model)).0.Obj?
    ensures r.Failure? ==> r.error == MalformedSchema(model)
    ensures convert && r.Success? ==>
      var (defs, rest) := SplitDefinitions(lib.schema(model));
      && Obj(r.value.1) == Camelize(Obj(rest), lib.camel)
      && r.value.0.Obj?
      && (forall k :: k in Keys(r.value.0.fields) <==> k in Keys(defs.fields))
  {
    var (defs, rest) := SplitDefinitions(lib.schema(model));
    if !convert then Success((defs, rest))
    else if !defs.Obj? then Failure(MalformedSchema(model))
    else
      var entries := defs.fields;
      var renamed := seq(|entries|, i requires 0 <= i < |entries| =>
        (entries[i].0, Camelize(entries[i].1, lib.camel)));
      assert forall k :: k in Keys(renamed) <==> k in Keys(entries) by {
        forall k
          ensures k in Keys(renamed) <==> k in Keys(entries)
        {
          if k in Keys(renamed) {
            var n :| 0 <= n < |renamed| && Keys(renamed)[n] == k;
            KeyAt(renamed, n);
            KeyAt(entries, n);
          }
          if k in Keys(entries) {
            var n :| 0 <= n < |entries| && Keys(entries)[n] == k;
            KeyAt(renamed, n);
            KeyAt(entries, n);
          }
        }
      }
      assert forall k :: k in Keys(FromPairs(renamed)) <==> k in Keys(renamed) by {
        forall k
          ensures k in Keys(FromPairs(renamed)) <==> k in Keys(renamed)
        {
          UpdateKeys([], renamed, k);
        }
      }
      Success((Obj(FromPairs(renamed)), Camelize(Obj(rest), lib.camel).fields))
  }

  /** `components.update(definitions)`: the registry with the definitions assigned in;
      a value that is not a mapping cannot be merged. */
  function MergeDefinitions(components: Dict<Json>, defs: Json, model: ModelId)
    : (r: Result<Dict<Json>, Error>)
    ensures r.Success? <==> defs.Obj?
    ensures r.Success? ==> r.value == Update(components, defs.fields)
    ensures r.Failure? ==> r.error == MalformedSchema(model)
  {
    match defs
    case Obj(entries) => Success(Update(components, entries))
    case _ => Failure(MalformedSchema(model))
  }

  /** A model's schema as the document shows it: reflected, `definitions` popped, and
      camelized when `convert`. */
  function ModelSchema(lib: Libraries, model: ModelId, convert: bool): (r: Result<Dict<Json>, Error>)
    ensures r.Success? <==> SplitConvertDefinitions(lib, model, convert).Success?
    ensures !convert ==> r == Success(SplitDefinitions(lib.schema(model)).1)
    ensures convert && r.Success? ==>
      Obj(r.value) == Camelize(Obj(SplitDefinitions(lib.schema(model)).1), lib.camel)
  {
    var (_, schema) :- SplitConvertDefinitions(lib, model, convert);
    Success(schema)
  }

  /** A model whose definitions can be split off and merged into the registry: whether
      or not they are camelized, that is exactly when they form a mapping. */
  predicate Reflectable(lib: Libraries, model: ModelId, convert: bool) {
    SplitDefinitions(lib.schema(model)).0.Obj?
  }

  /** The definitions a reflectable model adds to the registry, in their order. */
  function Contributed(lib: Libraries, model: ModelId, convert: bool): (defs: Dict<Json>)
    requires Reflectable(lib, model, convert)
    ensures SplitConvertDefinitions(lib, model, convert) == Success((Obj(defs), ModelSchema(lib, model, convert).value))
  {
    SplitConvertDefinitions(lib, model, convert).value.0.fields
  }

  /** Each definition a model contributes is the one its schema embeds under that name:
      unchanged, or camelized when `convert`. */
  lemma ContributedValues(lib: Libraries, model: ModelId, convert: bool, k: string)
    requires Reflectable(lib, model, convert)
    requires Distinct(SplitDefinitions(lib.schema(model)).0.fields)
    ensures var defs := SplitDefinitions(lib.schema(model)).0.fields;
      Get(Contributed(lib, model, convert), k)
        == if !convert then Get(defs, k)
           else if Get(defs, k).Some? then Some(Camelize(Get(defs, k).value, lib.camel))
           else None
  {
    if convert {
      var entries := SplitDefinitions(lib.schema(model)).0.fields;
      var renamed := seq(|entries|, i requires 0 <= i < |entries| =>
        (entries[i].0, Camelize(entries[i].1, lib.camel)));
      assert Contributed(lib, model, convert) == FromPairs(renamed);
      FromPairsLast(renamed, k);
      LastValueMap(entries, j => Camelize(j, lib.camel), renamed, k);
      DistinctLastValue(entries, k);
    }
  }

  /** Reflect a model, split (and, when asked, camelize) its schema, and merge its
      definitions into the registry; the step each model of a route goes through. */
  function Reflect(lib: Libraries, model: ModelId, convert: bool, components: Dict<Json>)
    : (r: Result<(Dict<Json>, Dict<Json>), Error>)
    ensures r.Success? <==> Reflectable(lib, model, convert)
    ensures r.Failure? ==> r.error == MalformedSchema(model)
    ensures r.Success? ==> ModelSchema(lib, model, convert) == Success(r.value.0)
    ensures r.Success? ==> r.value.1 == Update(components, Contributed(lib, model, convert))
  {
    var (defs, schema) :- SplitConvertDefinitions(lib, model, convert);
    var merged :- MergeDefinitions(components, defs, model);
    Success((schema, merged))
  }
  /** One reflection of a model by a route, and whether its schema is camelized. */
  datatype ModelUse = ModelUse(model: ModelId, convert: bool)

  predicate AllReflectable(lib: Libraries, uses: seq<ModelUse>) {
    forall i :: 0 <= i < |uses| ==> Reflectable(lib, uses[i].model, uses[i].convert)
  }

  /** Everything the given reflections contribute to the registry, in order: the entries
      that `components.update` receives one model after another. */
  function AllContributed(lib: Libraries, uses: seq<ModelUse>): Dict<Json>
    requires AllReflectable(lib, uses)
    decreases |uses|
  {
    if |uses| == 0 then []
    else
      var last := uses[|uses| - 1];
      AllContributed(lib, uses[..|uses| - 1]) + Contributed(lib, last.model, last.convert)
  }

  /** A single reflection contributes exactly its model's definitions. */
  lemma AllContributedSingle(lib: Libraries, u: ModelUse)
    requires Reflectable(lib, u.model, u.convert)
    ensures AllReflectable(lib, [u])
    ensures AllContributed(lib, [u]) == Contributed(lib, u.model, u.convert)
  {
    var us := [u];
    assert us[..0] == [];
    assert AllContributed(lib, us) == [] + Contributed(lib, u.model, u.convert);
  }

  lemma ReflectableParts(lib: Libraries, a: seq<ModelUse>, b: seq<ModelUse>)
    requires AllReflectable(lib, a + b)
    ensures AllReflectable(lib, a) && AllReflectable(lib, b)
  {
    assert forall i :: 0 <= i < |a| ==> (a + b)[i] == a[i];
    assert forall i :: 0 <= i < |b| ==> (a + b)[|a| + i] == b[i];
  }

  lemma {:induction false} AllContributedConcat(lib: Libraries, a: seq<ModelUse>, b: seq<ModelUse>)
    requires AllReflectable(lib, a + b)
    ensures AllReflectable(lib, a) && AllReflectable(lib, b)
    ensures AllContributed(lib, a + b) == AllContributed(lib, a) + AllContributed(lib, b)
    decreases |b|
  {
    ReflectableParts(lib, a, b);
    if |b| == 0 {
      assert a + b == a;
    } else {
      var n := |b| - 1;
      var ab := a + b;
      assert ab == (a + b[..n]) + [b[n]];
      assert b == b[..n] + [b[n]];
      ReflectableParts(lib, a + b[..n], [b[n]]);
      ReflectableParts(lib, b[..n], [b[n]]);
      AllContributedConcat(lib, a, b[..n]);
      var c := Contributed(lib, b[n].model, b[n].convert);
      assert AllContributed(lib, ab) == AllContributed(lib, a + b[..n]) + c;
      assert AllContributed(lib, b) == AllContributed(lib, b[..n]) + c;
      assert (AllContributed(lib, a) + AllContributed(lib, b[..n])) + c
          == AllContributed(lib, a) + (AllContributed(lib, b[..n]) + c);
    }
  }
}
