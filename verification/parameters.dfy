/** The parameter objects of an operation: one per property of the query-string and
    header models, then one per path variable of the rule. */
module Parameters {
  import opened Wrappers
  import opened Dicts
  import opened Json
  import opened Text
  import opened Routes

  /** The schema attributes that move from a property's schema onto its parameter. */
  const LIFTED: seq<string> := ["description", "required", "deprecated"]

  /** Pop each of `attrs` that `schema` holds and assign it into `param`, in order:
      the `param[attribute] = type_.pop(attribute)` loop. Returns the updated parameter
      and what is left of the schema. */
  function Lift(param: Dict<Json>, schema: Dict<Json>, attrs: seq<string>)
    : (r: (Dict<Json>, Dict<Json>))
    ensures forall k :: k in attrs ==> k !in Keys(r.1)
    ensures forall k :: k !in attrs ==> Get(r.1, k) == Get(schema, k)
    ensures forall k ::
              Get(r.0, k) == if k in attrs && k in Keys(schema) then Get(schema, k) else Get(param, k)
    ensures Distinct(param) ==> Distinct(r.0)
    decreases |attrs|
  {
    if |attrs| == 0 then (param, schema)
    else
      var a := attrs[0];
      assert forall k :: k in attrs <==> k == a || k in attrs[1..];
      match Get(schema, a)
      case Some(v) => Lift(Set(param, a, v), Remove(schema, a), attrs[1..])
      case None => Lift(param, schema, attrs[1..])
  }

  /** A header property's name as a header: `name.replace("_", "-")`. */
  function HeaderName(name: string): (r: string)
    ensures |r| == |name|
    ensures '_' !in r
    ensures forall i :: 0 <= i < |name| && name[i] == '_' ==> r[i] == '-'
    ensures forall i :: 0 <= i < |name| && name[i] != '_' ==> r[i] == name[i]
  {
    ReplaceChar(name, '_', '-')
  }

  /** The parameter name a property yields: hyphenated for headers, as is for queries. */
  function ParameterName(name: string, location: string): string {
    if location == "header" then HeaderName(name) else name
  }

  /** The parameter object for one property of a query or header model. A property
      schema that is not a mapping cannot be inspected. */
  function Parameter(model: ModelId, name: string, location: string, schema: Json)
    : (r: Result<Json, Error>)
    ensures r.Success? <==> schema.Obj?
    ensures r.Failure? ==> r.error == MalformedSchema(model)
    ensures r.Success? ==> ParameterOf(r.value, ParameterName(name, location), location, schema.fields)
  {
    if !schema.Obj? then Failure(MalformedSchema(model))
    else
      var base := ParameterBase(ParameterName(name, location), location, schema);
      var (param, rest) := Lift(base, schema.fields, LIFTED);
      var p := Set(param, "schema", Obj(rest));
      ParameterBuilt(ParameterName(name, location), location, schema.fields, base, param, rest, p);
      Success(Obj(p))
  }

  lemma ParameterBuilt(name: string, location: string, fields: Dict<Json>,
                       base: Dict<Json>, param: Dict<Json>, rest: Dict<Json>, p: Dict<Json>)
    requires base == ParameterBase(name, location, Obj(fields))
    requires (param, rest) == Lift(base, fields, LIFTED)
    requires p == Set(param, "schema", Obj(rest))
    ensures ParameterOf(Obj(p), name, location, fields)
  {
    ParameterBuiltNames(name, location, fields, base, param, rest, p);
    ParameterBuiltLifted(name, location, fields, base, param, rest, p);
    ParameterBuiltKeys(name, location, fields, base, param, rest, p);
    ParameterBuiltSchema(name, location, fields, base, param, rest, p);
  }

  lemma ParameterBuiltNames(name: string, location: string, fields: Dict<Json>,
                            base: Dict<Json>, param: Dict<Json>, rest: Dict<Json>, p: Dict<Json>)
    requires base == ParameterBase(name, location, Obj(fields))
    requires (param, rest) == Lift(base, fields, LIFTED)
    requires p == Set(param, "schema", Obj(rest))
    ensures Get(p, "name") == Some(Str(name)) && Get(p, "in") == Some(Str(location))
  {
    assert "name" !in LIFTED && "in" !in LIFTED;
    assert Get(param, "name") == Get(base, "name");
    assert Get(param, "in") == Get(base, "in");
  }

  lemma ParameterBuiltLifted(name: string, location: string, fields: Dict<Json>,
                            base: Dict<Json>, param: Dict<Json>, rest: Dict<Json>, p: Dict<Json>)
    requires base == ParameterBase(name, location, Obj(fields))
    requires (param, rest) == Lift(base, fields, LIFTED)
    requires p == Set(param, "schema", Obj(rest))
    ensures Distinct(p)
    ensures forall a :: a in LIFTED ==> Get(p, a) == Get(fields, a)
  {
    assert Distinct(param);
    forall a | a in LIFTED
      ensures Get(p, a) == Get(fields, a)
    {
      assert |a| > 6;
      assert Get(p, a) == Get(param, a);
      assert Get(base, a) == None;
      if a !in Keys(fields) {
        assert Get(fields, a) == None;
      }
    }
  }

  lemma ParameterBuiltKeys(name: string, location: string, fields: Dict<Json>,
                           base: Dict<Json>, param: Dict<Json>, rest: Dict<Json>, p: Dict<Json>)
    requires base == ParameterBase(name, location, Obj(fields))
    requires (param, rest) == Lift(base, fields, LIFTED)
    requires p == Set(param, "schema", Obj(rest))
    ensures forall k :: k in Keys(p) <==>
      k == "name" || k == "in" || k == "schema" || (k in LIFTED && k in Keys(fields))
  {
    assert forall k :: k in LIFTED <==> k == "description" || k == "required" || k == "deprecated";
    forall k
      ensures k in Keys(p) <==>
        k == "name" || k == "in" || k == "schema" || (k in LIFTED && k in Keys(fields))
    {
      assert Get(p, k).Some? <==> k in Keys(p);
    }
  }

  lemma ParameterBuiltSchema(name: string, location: string, fields: Dict<Json>,
                             base: Dict<Json>, param: Dict<Json>, rest: Dict<Json>, p: Dict<Json>)
    requires base == ParameterBase(name, location, Obj(fields))
    requires (param, rest) == Lift(base, fields, LIFTED)
    requires p == Set(param, "schema", Obj(rest))
    ensures Get(p, "schema") == Some(Obj(rest))
    ensures forall k :: Get(rest, k) == if k in LIFTED then None else Get(fields, k)
  {
    forall k
      ensures Get(rest, k) == if k in LIFTED then None else Get(fields, k)
    {
      if k in LIFTED {
        assert k !in Keys(rest);
      }
    }
  }

  /** `{"name": name, "in": location, "schema": schema}`. */
  function ParameterBase(name: string, location: string, schema: Json): (base: Dict<Json>)
    ensures Distinct(base)
    ensures forall k ::
              Get(base, k) ==
                if k == "name" then Some(Str(name))
                else if k == "in" then Some(Str(location))
                else if k == "schema" then Some(schema)
                else None
  {
    var base := [("name", Str(name)), ("in", Str(location)), ("schema", schema)];
    DistinctByIndex(base);
    GetAt(base, 0);
    GetAt(base, 1);
    GetAt(base, 2);
    assert forall k :: k != "name" && k != "in" && k != "schema" ==> Get(base, k) == None by {
      forall k | k != "name" && k != "in" && k != "schema"
        ensures Get(base, k) == None
      {
        InKeys(base, k);
      }
    }
    base
  }

  /** What a parameter object built from property `name` with schema `fields` holds:
      its name and location, every lifted attribute the property schema carried, the
      property schema stripped of those attributes, and no other key. */
  ghost predicate ParameterOf(p: Json, name: string, location: string, fields: Dict<Json>) {
    && p.Obj?
    && Distinct(p.fields)
    && Get(p.fields, "name") == Some(Str(name))
    && Get(p.fields, "in") == Some(Str(location))
    && (forall a :: a in LIFTED ==> Get(p.fields, a) == Get(fields, a))
    && (forall k :: k in Keys(p.fields) <==>
          k == "name" || k == "in" || k == "schema" || (k in LIFTED && k in Keys(fields)))
    && Get(p.fields, "schema").Some?
    && Get(p.fields, "schema").value.Obj?
    && (forall k :: Get(Get(p.fields, "schema").value.fields, k) ==
          if k in LIFTED then None else Get(fields, k))
  }

  /** The parameters for the properties of a query or header model, in property order:
      exactly one per property, named after it (hyphenated for headers), carrying the
      attributes lifted out of its schema. A property whose schema is not a mapping
      fails the whole list. */
  function PropertyParameters(model: ModelId, props: Dict<Json>, location: string)
    : (r: Result<seq<Json>, Error>)
    ensures r.Success? <==> forall i :: 0 <= i < |props| ==> props[i].1.Obj?
    ensures r.Failure? ==> r.error == MalformedSchema(model)
    ensures r.Success? ==> |r.value| == |props|
    ensures r.Success? ==> forall i :: 0 <= i < |props| ==>
      ParameterOf(r.value[i], ParameterName(props[i].0, location), location, props[i].1.fields)
  {
    if forall i :: 0 <= i < |props| ==> props[i].1.Obj? then
      Success(seq(|props|, i requires 0 <= i < |props| =>
        Parameter(model, props[i].0, location, props[i].1).value))
    else
      Failure(MalformedSchema(model))
  }

  /** The parameter a path variable yields. */
  function PathParameter(c: Converter): Json {
    Obj([
      ("name", Str(c.name)),
      ("in", Str("path")),
      ("required", Bool(true)),
      ("schema", Obj([("type", Str(if c.isNumber then "number" else "string"))]))])
  }

  /** One parameter per path variable, in the rule's converter order. */
  function PathParameters(converters: seq<Converter>): (ps: seq<Json>)
    ensures |ps| == |converters|
    ensures forall i :: 0 <= i < |ps| ==> PathParameterOf(ps[i], converters[i])
  {
    var ps := seq(|converters|, i requires 0 <= i < |converters| => PathParameter(converters[i]));
    assert forall i :: 0 <= i < |ps| ==> PathParameterOf(ps[i], converters[i]) by {
      forall i | 0 <= i < |ps|
        ensures PathParameterOf(ps[i], converters[i])
      {
        PathParameterShape(converters[i]);
      }
    }
    ps
  }

  lemma PathParameterShape(c: Converter)
    ensures PathParameterOf(PathParameter(c), c)
  {
    var p := PathParameter(c).fields;
    DistinctByIndex(p);
    GetAt(p, 0);
    GetAt(p, 1);
    GetAt(p, 2);
    GetAt(p, 3);
    GetAt(p[3].1.fields, 0);
  }

  /** A path parameter names its variable, sits in the path, is required, and is typed
      `number` exactly when the variable's converter is numeric (`string` otherwise). */
  ghost predicate PathParameterOf(p: Json, c: Converter) {
    && p.Obj?
    && Distinct(p.fields)
    && Get(p.fields, "name") == Some(Str(c.name))
    && Get(p.fields, "in") == Some(Str("path"))
    && Get(p.fields, "required") == Some(Bool(true))
    && Get(p.fields, "schema").Some?
    && Get(p.fields, "schema").value.Obj?
    && var t := Get(Get(p.fields, "schema").value.fields, "type");
       && (t == Some(Str("number")) <==> c.isNumber)
       && (t == Some(Str("string")) <==> !c.isNumber)
  }
}
