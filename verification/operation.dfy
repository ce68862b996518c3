/** `_build_path`: the operation object one route documents, the methods it is listed
    under, and the component schemas its models contribute. */
module Operation {
  import opened Wrappers
  import opened Dicts
  import opened Json
  import opened Text
  import opened PathRule
  import opened Routes
  import opened Definitions
  import opened Parameters
  import opened Bodies

  /* ---------------------------------------------------------------- docstring */

  /** A view function's docstring as summary (its first line) and description (the other
      lines joined with `"\n"`). An empty docstring has no first line to unpack. */
  function SplitDocstring(text: string): (r: Result<(string, string), Error>)
    ensures r.Failure? <==> text == ""
    ensures r.Failure? ==> r.error == EmptyDocstring
    ensures r.Success? ==> NoLineBreak(r.value.0)
  {
    var lines := SplitLines(text);
    if |lines| == 0 then Failure(EmptyDocstring)
    else Success((lines[0], Join("\n", lines[1..])))
  }

  /** For a docstring whose only line boundary is `'\n'` (and that does not end in one),
      summary and description put back together with `"\n"` give the docstring: a
      one-line docstring is all summary, with an empty description. */
  lemma {:induction false} SplitDocstringRoundTrip(text: string)
    requires PlainLines(text) && |text| > 0
    ensures var (summary, description) := SplitDocstring(text).value;
      && (NoLineBreak(text) ==> summary == text && description == "")
      && (!NoLineBreak(text) ==> text == summary + "\n" + description)
  {
    var lines := SplitLines(text);
    JoinSplitLines(text);
    if |lines| == 1 {
      assert text == lines[0];
    } else {
      JoinCons(lines[0], lines[1..]);
      assert [lines[0]] + lines[1..] == lines;
      var i := |lines[0]|;
      assert text[i] == '\n';
    }
  }

  /* ---------------------------------------------------------------- methods */

  /** A method the document lists: never HEAD, and OPTIONS only when the framework does not
      answer it automatically. */
  predicate Listed(verb: string, automaticOptions: bool) {
    verb != "HEAD" && !(verb == "OPTIONS" && automaticOptions)
  }

  /** The method map of a path: the operation under the lower-cased name of every listed
      method of the rule, in the rule's method order. */
  function MethodMap(methods: seq<string>, automaticOptions: bool, operation: Json)
    : (r: Dict<Json>)
    ensures Distinct(r)
    ensures forall k :: k in Keys(r) <==>
      exists i :: 0 <= i < |methods| && Listed(methods[i], automaticOptions) && Lower(methods[i]) == k
    ensures forall k :: k in Keys(r) ==> Get(r, k) == Some(operation)
    decreases |methods|
  {
    if |methods| == 0 then []
    else
      var prior := MethodMap(methods[..|methods| - 1], automaticOptions, operation);
      var m := methods[|methods| - 1];
      assert forall i :: 0 <= i < |methods| - 1 ==> methods[..|methods| - 1][i] == methods[i];
      if Listed(m, automaticOptions) then Set(prior, Lower(m), operation) else prior
  }

  /** For upper-case method names, as Werkzeug stores them: a method is a key of the map,
      lower-cased, exactly when the rule has it and it is listed. In particular `head` is
      never a key, and `options` is one only when OPTIONS is not automatic. */
  lemma MethodMapKeys(methods: seq<string>, automaticOptions: bool, operation: Json, m: string)
    requires forall i :: 0 <= i < |methods| ==> UpperCase(methods[i])
    requires UpperCase(m)
    ensures Lower(m) in Keys(MethodMap(methods, automaticOptions, operation))
        <==> m in methods && Listed(m, automaticOptions)
  {
    var r := MethodMap(methods, automaticOptions, operation);
    if Lower(m) in Keys(r) {
      var i :| 0 <= i < |methods| && Listed(methods[i], automaticOptions) && Lower(methods[i]) == Lower(m);
      LowerInjective(methods[i], m);
    }
  }

  lemma MethodMapHeadOptions(methods: seq<string>, automaticOptions: bool, operation: Json)
    requires forall i :: 0 <= i < |methods| ==> UpperCase(methods[i])
    ensures "head" !in Keys(MethodMap(methods, automaticOptions, operation))
    ensures "options" in Keys(MethodMap(methods, automaticOptions, operation))
        <==> "OPTIONS" in methods && !automaticOptions
  {
    LowerVerb("HEAD", "head");
    MethodMapKeys(methods, automaticOptions, operation, "HEAD");
    LowerVerb("OPTIONS", "options");
    MethodMapKeys(methods, automaticOptions, operation, "OPTIONS");
  }

  lemma LowerVerb(verb: string, lower: string)
    requires (verb == "HEAD" && lower == "head") || (verb == "OPTIONS" && lower == "options")
    ensures UpperCase(verb) && Lower(verb) == lower
  {
  }
  /* ---------------------------------------------------------------- parameters */

  /** The parameters of a query-string or header model schema, one per property. */
  function SchemaParameters(model: ModelId, schema: Dict<Json>, location: string)
    : (r: Result<seq<Json>, Error>)
    ensures r.Success? <==>
      && PropertiesOf(model, schema).Success?
      && forall i :: 0 <= i < |PropertiesOf(model, schema).value| ==> PropertiesOf(model, schema).value[i].1.Obj?
    ensures r.Failure? ==> r.error == MalformedSchema(model)
    ensures r.Success? ==>
      && PropertiesOf(model, schema).Success?
      && var props := PropertiesOf(model, schema).value;
         && |r.value| == |props|
         && forall i :: 0 <= i < |props| ==>
              && props[i].1.Obj?
              && ParameterOf(r.value[i], ParameterName(props[i].0, location), location, props[i].1.fields)
  {
    var props :- PropertiesOf(model, schema);
    PropertyParameters(model, props, location)
  }

  /** The parameters a query-string or header model documents, none without a model. */
  ghost function ParametersOf(lib: Libraries, convert: bool, model: Option<ModelId>, location: string)
    : seq<Json>
  {
    if model.None? then []
    else
      var schema := ModelSchema(lib, model.value, convert);
      if schema.Failure? then []
      else
        var params := SchemaParameters(model.value, schema.value, location);
        if params.Failure? then [] else params.value
  }

  /** A query-string or header model yields its parameters: there is none, or it reflects
      and its schema has a `properties` mapping whose every property schema is a mapping. */
  predicate ParametersBuild(lib: Libraries, convert: bool, model: Option<ModelId>, location: string) {
    model.None? ||
      (&& Reflectable(lib, model.value, convert)
       && SchemaParameters(model.value, ModelSchema(lib, model.value, convert).value, location).Success?)
  }

  /** The query-string or header step: reflect the model into the registry, then emit one
      parameter per property. */
  function ModelParameters(lib: Libraries, convert: bool, model: Option<ModelId>, location: string,
                           components: Dict<Json>)
    : (r: Result<(seq<Json>, Dict<Json>), Error>)
    ensures model.None? ==> r == Success(([], components))
    ensures r.Success? <==> ParametersBuild(lib, convert, model, location)
    ensures r.Failure? ==> model.Some? && r.error == MalformedSchema(model.value)
    ensures r.Success? ==> r.value.0 == ParametersOf(lib, convert, model, location)
    ensures model.Some? && r.Success? ==>
      && Reflectable(lib, model.value, convert)
      && SchemaParameters(model.value, ModelSchema(lib, model.value, convert).value, location).Success?
      && r.value.1 == Update(components, Contributed(lib, model.value, convert))
  {
    match model
    case None => Success(([], components))
    case Some(m) =>
      var (schema, registered) :- Reflect(lib, m, convert, components);
      var params :- SchemaParameters(m, schema, location);
      Success((params, registered))
  }

  /* ---------------------------------------------------------------- operation */

  /** The keys an operation object can have, in the order they are assigned. */
  const OPERATION_KEYS: seq<string> :=
    ["parameters", "responses", "description", "summary", "tags", "deprecated", "security", "requestBody"]

  lemma OperationKeysDistinct()
    ensures DistinctKeys(OPERATION_KEYS)
  {
    DistinctKeysByIndex(OPERATION_KEYS);
  }

  function Strings(items: seq<string>): (r: seq<Json>)
    ensures |r| == |items|
    ensures forall i :: 0 <= i < |items| ==> r[i] == Str(items[i])
  {
    seq(|items|, i requires 0 <= i < |items| => Str(items[i]))
  }

  /** The operation object, assigned key by key as `_build_path` does. */
  function OperationObject(parameters: seq<Json>, responses: Dict<Json>, doc: Option<(string, string)>,
                           h: Handler, body: Option<Json>): Dict<Json>
  {
    AssignAll([], OPERATION_KEYS, OperationValues(parameters, responses, doc, h, body))
  }

  /** The value each of `OPERATION_KEYS` is assigned, if any. */
  function OperationValues(parameters: seq<Json>, responses: Dict<Json>, doc: Option<(string, string)>,
                           h: Handler, body: Option<Json>): (values: seq<Option<Json>>)
    ensures |values| == |OPERATION_KEYS|
  {
    [ Some(Arr(parameters)),
      Some(Obj(responses)),
      if doc.Some? then Some(Str(doc.value.1)) else None,
      if doc.Some? then Some(Str(doc.value.0)) else None,
      if h.tags.Some? then Some(Arr(Strings(h.tags.value))) else None,
      if h.deprecated then Some(Bool(true)) else None,
      if h.security.Some? then Some(Arr(h.security.value)) else None,
      body ]
  }

  /** An operation object always has its parameters and responses; it has summary and
      description exactly when there is a docstring, tags and security exactly when the
      decorators set them, `deprecated: true` exactly when the handler is deprecated, a
      request body exactly when there is one, and no other key. */
  lemma OperationShape(parameters: seq<Json>, responses: Dict<Json>, doc: Option<(string, string)>,
                       h: Handler, body: Option<Json>)
    ensures var o := OperationObject(parameters, responses, doc, h, body);
      && Distinct(o)
      && Get(o, "parameters") == Some(Arr(parameters))
      && Get(o, "responses") == Some(Obj(responses))
      && Get(o, "summary") == (if doc.Some? then Some(Str(doc.value.0)) else None)
      && Get(o, "description") == (if doc.Some? then Some(Str(doc.value.1)) else None)
      && Get(o, "tags") == (if h.tags.Some? then Some(Arr(Strings(h.tags.value))) else None)
      && Get(o, "deprecated") == (if h.deprecated then Some(Bool(true)) else None)
      && Get(o, "security") == (if h.security.Some? then Some(Arr(h.security.value)) else None)
      && Get(o, "requestBody") == body
      && forall k :: k in Keys(o) ==> k in OPERATION_KEYS
  {
    OperationLookups(parameters, responses, doc, h, body);
    OperationKeys(parameters, responses, doc, h, body);
  }

  lemma OperationKeys(parameters: seq<Json>, responses: Dict<Json>, doc: Option<(string, string)>,
                      h: Handler, body: Option<Json>)
    ensures var o := OperationObject(parameters, responses, doc, h, body);
      Distinct(o) && forall k :: k in Keys(o) ==> k in OPERATION_KEYS
  {
    var ks := OPERATION_KEYS;
    var vs := OperationValues(parameters, responses, doc, h, body);
    var o := AssignAll([], ks, vs);
    OperationKeysDistinct();
    forall k | k in Keys(o)
      ensures k in ks
    {
      AssignAllGet([], ks, vs, k);
    }
  }

  lemma OperationLookups(parameters: seq<Json>, responses: Dict<Json>, doc: Option<(string, string)>,
                         h: Handler, body: Option<Json>)
    ensures var o := OperationObject(parameters, responses, doc, h, body);
      && Get(o, "parameters") == Some(Arr(parameters))
      && Get(o, "responses") == Some(Obj(responses))
      && Get(o, "summary") == (if doc.Some? then Some(Str(doc.value.0)) else None)
      && Get(o, "description") == (if doc.Some? then Some(Str(doc.value.1)) else None)
      && Get(o, "tags") == (if h.tags.Some? then Some(Arr(Strings(h.tags.value))) else None)
      && Get(o, "deprecated") == (if h.deprecated then Some(Bool(true)) else None)
      && Get(o, "security") == (if h.security.Some? then Some(Arr(h.security.value)) else None)
      && Get(o, "requestBody") == body
  {
    OperationKeyLookup(parameters, responses, doc, h, body, 0);
    OperationKeyLookup(parameters, responses, doc, h, body, 1);
    OperationKeyLookup(parameters, responses, doc, h, body, 2);
    OperationKeyLookup(parameters, responses, doc, h, body, 3);
    OperationKeyLookup(parameters, responses, doc, h, body, 4);
    OperationKeyLookup(parameters, responses, doc, h, body, 5);
    OperationKeyLookup(parameters, responses, doc, h, body, 6);
    OperationKeyLookup(parameters, responses, doc, h, body, 7);
  }

  lemma OperationKeyLookup(parameters: seq<Json>, responses: Dict<Json>, doc: Option<(string, string)>,
                           h: Handler, body: Option<Json>, i: nat)
    requires i < |OPERATION_KEYS|
    ensures Get(OperationObject(parameters, responses, doc, h, body), OPERATION_KEYS[i])
         == OperationValues(parameters, responses, doc, h, body)[i]
  {
    OperationKeysDistinct();
    AssignAllGetAt([], OPERATION_KEYS, OperationValues(parameters, responses, doc, h, body), i);
  }

  /** The models an operation reflects, in the order `_build_path` reflects them: each
      response model followed by its header model, then the request model, then the
      query-string model, then the header model (the header models never camelized). */
  function OperationUses(convert: bool, h: Handler): seq<ModelUse> {
    AllResponseUses(convert, h.responses)
      + (if h.request.Some? then [ModelUse(h.request.value.model, convert)] else [])
      + (if h.querystring.Some? then [ModelUse(h.querystring.value, convert)] else [])
      + (if h.headers.Some? then [ModelUse(h.headers.value, false)] else [])
  }

  /** A route's operation builds: its docstring, if any, is not empty; every response
      binding builds; the request model, if any, reflects; and the query-string and header
      models yield their parameters. */
  predicate OperationBuilds(lib: Libraries, convert: bool, h: Handler) {
    && h.doc != Some("")
    && (forall i :: 0 <= i < |h.responses| ==> ResponseBuilds(lib, convert, h.responses[i].1))
    && (h.request.Some? ==> Reflectable(lib, h.request.value.model, convert))
    && ParametersBuild(lib, convert, h.querystring, "query")
    && ParametersBuild(lib, false, h.headers, "header")
  }

  /** The operation of one route and the component schemas it contributes: the registry
      holds what the route's models contribute, in reflection order (the operation object
      itself is described by `BuildOperationObject`). */
  function BuildOperation(lib: Libraries, convert: bool, h: Handler, converters: seq<Converter>)
    : (r: Result<(Json, Dict<Json>), Error>)
    ensures r.Success? <==> OperationBuilds(lib, convert, h)
    ensures r.Success? ==> AllReflectable(lib, OperationUses(convert, h))
    ensures r.Success? ==> r.value.1 == FromPairs(AllContributed(lib, OperationUses(convert, h)))
  {
    var doc := DocstringOf(h.doc);
    if doc.Failure? then Failure(doc.error)
    else
      var rs := Responses(lib, convert, h.responses, []);
      if rs.Failure? then Failure(rs.error)
      else
        var rb := RequestBody(lib, convert, h.request, rs.value.1);
        if rb.Failure? then Failure(rb.error)
        else
          var rq := ModelParameters(lib, convert, h.querystring, "query", rb.value.1);
          if rq.Failure? then Failure(rq.error)
          else
            var rh := ModelParameters(lib, false, h.headers, "header", rq.value.1);
            if rh.Failure? then Failure(rh.error)
            else
              var parameters := rq.value.0 + rh.value.0 + PathParameters(converters);
              OperationRegistry(lib, convert, h, rs.value.1, rb.value.1, rq.value.1, rh.value.1);
              Success((Obj(OperationObject(parameters, rs.value.0, doc.value, h, rb.value.0)), rh.value.1))
  }

  /** A route that does not build reports the error of the first failing step, in the
      order `_build_path` takes them: the docstring, the responses in order, the request
      model, the query-string model, the header model. */
  lemma BuildOperationError(lib: Libraries, convert: bool, h: Handler, converters: seq<Converter>)
    requires BuildOperation(lib, convert, h, converters).Failure?
    ensures var e := BuildOperation(lib, convert, h, converters).error;
      if h.doc == Some("") then e == EmptyDocstring
      else if exists i :: 0 <= i < |h.responses| && !ResponseBuilds(lib, convert, h.responses[i].1) then
        exists i :: && 0 <= i < |h.responses|
                    && !ResponseBuilds(lib, convert, h.responses[i].1)
                    && e == ResponseError(lib, convert, h.responses[i].1)
                    && forall j :: 0 <= j < i ==> ResponseBuilds(lib, convert, h.responses[j].1)
      else if h.request.Some? && !Reflectable(lib, h.request.value.model, convert) then
        e == MalformedSchema(h.request.value.model)
      else if !ParametersBuild(lib, convert, h.querystring, "query") then
        e == MalformedSchema(h.querystring.value)
      else
        h.headers.Some? && e == MalformedSchema(h.headers.value)
  {
    if h.doc != Some("") && Responses(lib, convert, h.responses, []).Failure? {
      ResponsesFirstFailure(lib, convert, h.responses, []);
    }
  }

  /** The operation object of a route: its parameters are the query-string model's, then
      the header model's (never camelized), then the path variables'; its responses are the
      documented responses; its summary is the docstring's first line and its description
      the rest, both exactly when there is a docstring; tags, `deprecated: true` and
      security are the decorators'; it has a request body exactly when the route takes one,
      and then the body the request model documents; and it has no other key. */
  lemma BuildOperationObject(lib: Libraries, convert: bool, h: Handler, converters: seq<Converter>)
    requires BuildOperation(lib, convert, h, converters).Success?
    ensures var o := BuildOperation(lib, convert, h, converters).value.0;
      && o.Obj? && Distinct(o.fields)
      && Get(o.fields, "parameters") == Some(Arr(
           ParametersOf(lib, convert, h.querystring, "query")
             + ParametersOf(lib, false, h.headers, "header")
             + PathParameters(converters)))
      && Get(o.fields, "responses").Some?
      && Get(o.fields, "responses").value.Obj?
      && (forall k :: Get(Get(o.fields, "responses").value.fields, k)
                        == DocumentedResponse(lib, convert, h.responses, k))
      && (Get(o.fields, "requestBody").Some? <==> h.request.Some?)
      && (h.request.Some? ==>
            RequestBodyOf(lib, convert, h.request.value) == Success(Get(o.fields, "requestBody").value))
      && Get(o.fields, "summary")
           == (if h.doc.Some? then Some(Str(SplitDocstring(h.doc.value).value.0)) else None)
      && Get(o.fields, "description")
           == (if h.doc.Some? then Some(Str(SplitDocstring(h.doc.value).value.1)) else None)
      && Get(o.fields, "tags") == (if h.tags.Some? then Some(Arr(Strings(h.tags.value))) else None)
      && Get(o.fields, "deprecated") == (if h.deprecated then Some(Bool(true)) else None)
      && Get(o.fields, "security") == (if h.security.Some? then Some(Arr(h.security.value)) else None)
      && forall k :: k in Keys(o.fields) ==> k in OPERATION_KEYS
  {
    var doc := DocstringOf(h.doc);
    var rs := Responses(lib, convert, h.responses, []);
    var rb := RequestBody(lib, convert, h.request, rs.value.1);
    var rq := ModelParameters(lib, convert, h.querystring, "query", rb.value.1);
    var rh := ModelParameters(lib, false, h.headers, "header", rq.value.1);
    var parameters := rq.value.0 + rh.value.0 + PathParameters(converters);
    assert BuildOperation(lib, convert, h, converters).value.0
        == Obj(OperationObject(parameters, rs.value.0, doc.value, h, rb.value.0));
    OperationShape(parameters, rs.value.0, doc.value, h, rb.value.0);
    BuildOperationMetadata(lib, convert, h, converters);
  }

  /** The keys of a route's operation that come from the handler alone: the docstring's
      first line as summary and the rest as description, the decorators' tags,
      `deprecated: true` and security, and no key beyond `OPERATION_KEYS`. */
  lemma BuildOperationMetadata(lib: Libraries, convert: bool, h: Handler, converters: seq<Converter>)
    requires BuildOperation(lib, convert, h, converters).Success?
    ensures var o := BuildOperation(lib, convert, h, converters).value.0;
      && o.Obj?
      && Get(o.fields, "summary")
           == (if h.doc.Some? then Some(Str(SplitDocstring(h.doc.value).value.0)) else None)
      && Get(o.fields, "description")
           == (if h.doc.Some? then Some(Str(SplitDocstring(h.doc.value).value.1)) else None)
      && Get(o.fields, "tags") == (if h.tags.Some? then Some(Arr(Strings(h.tags.value))) else None)
      && Get(o.fields, "deprecated") == (if h.deprecated then Some(Bool(true)) else None)
      && Get(o.fields, "security") == (if h.security.Some? then Some(Arr(h.security.value)) else None)
      && forall k :: k in Keys(o.fields) ==> k in OPERATION_KEYS
  {
    var doc := DocstringOf(h.doc);
    var rs := Responses(lib, convert, h.responses, []);
    var rb := RequestBody(lib, convert, h.request, rs.value.1);
    var rq := ModelParameters(lib, convert, h.querystring, "query", rb.value.1);
    var rh := ModelParameters(lib, false, h.headers, "header", rq.value.1);
    var parameters := rq.value.0 + rh.value.0 + PathParameters(converters);
    assert BuildOperation(lib, convert, h, converters).value.0
        == Obj(OperationObject(parameters, rs.value.0, doc.value, h, rb.value.0));
    OperationLookups(parameters, rs.value.0, doc.value, h, rb.value.0);
    OperationKeys(parameters, rs.value.0, doc.value, h, rb.value.0);
  }

  /** The summary and description of an optional docstring. */
  function DocstringOf(doc: Option<string>): (r: Result<Option<(string, string)>, Error>)
    ensures r.Success? <==> doc != Some("")
    ensures r.Failure? ==> r.error == EmptyDocstring
    ensures r.Success? ==> (r.value.Some? <==> doc.Some?)
    ensures r.Success? && doc.Some? ==> SplitDocstring(doc.value) == Success(r.value.value)
  {
    match doc
    case None => Success(None)
    case Some(text) =>
      var split :- SplitDocstring(text);
      Success(Some(split))
  }

  lemma OperationRegistry(lib: Libraries, convert: bool, h: Handler, withResponses: Dict<Json>,
                          withBody: Dict<Json>, withQuery: Dict<Json>, withHeaders: Dict<Json>)
    requires AllReflectable(lib, AllResponseUses(convert, h.responses))
    requires withResponses == Update([], AllContributed(lib, AllResponseUses(convert, h.responses)))
    requires h.request.None? ==> withBody == withResponses
    requires h.request.Some? ==> Reflectable(lib, h.request.value.model, convert)
    requires h.request.Some? ==>
      withBody == Update(withResponses, Contributed(lib, h.request.value.model, convert))
    requires h.querystring.None? ==> withQuery == withBody
    requires h.querystring.Some? ==> Reflectable(lib, h.querystring.value, convert)
    requires h.querystring.Some? ==>
      withQuery == Update(withBody, Contributed(lib, h.querystring.value, convert))
    requires h.headers.None? ==> withHeaders == withQuery
    requires h.headers.Some? ==> Reflectable(lib, h.headers.value, false)
    requires h.headers.Some? ==>
      withHeaders == Update(withQuery, Contributed(lib, h.headers.value, false))
    ensures AllReflectable(lib, OperationUses(convert, h))
    ensures withHeaders == FromPairs(AllContributed(lib, OperationUses(convert, h)))
  {
    var a := AllResponseUses(convert, h.responses);
    var b := if h.request.Some? then [ModelUse(h.request.value.model, convert)] else [];
    var c := if h.querystring.Some? then [ModelUse(h.querystring.value, convert)] else [];
    var d := if h.headers.Some? then [ModelUse(h.headers.value, false)] else [];
    assert OperationUses(convert, h) == a + b + c + d;
    RegistryStep(lib, a, b, withResponses, withBody);
    RegistryStep(lib, a + b, c, withBody, withQuery);
    RegistryStep(lib, a + b + c, d, withQuery, withHeaders);
  }

  /** Reflecting zero or one more model extends the registry by what it contributes. */
  lemma RegistryStep(lib: Libraries, a: seq<ModelUse>, b: seq<ModelUse>, before: Dict<Json>, after: Dict<Json>)
    requires AllReflectable(lib, a)
    requires before == Update([], AllContributed(lib, a))
    requires |b| <= 1
    requires |b| == 0 ==> after == before
    requires |b| == 1 ==> Reflectable(lib, b[0].model, b[0].convert)
    requires |b| == 1 ==> after == Update(before, Contributed(lib, b[0].model, b[0].convert))
    ensures AllReflectable(lib, a + b)
    ensures after == Update([], AllContributed(lib, a + b))
  {
    AppendReflectable(lib, a, b);
    if |b| == 0 {
      assert a + b == a;
    } else {
      var ca := AllContributed(lib, a);
      var cb := Contributed(lib, b[0].model, b[0].convert);
      assert b == [b[0]];
      AllContributedSingle(lib, b[0]);
      AllContributedConcat(lib, a, b);
      assert AllContributed(lib, a + b) == ca + cb;
      UpdateConcat([], ca, cb);
    }
  }

  /** Appending zero or one reflectable use keeps a sequence of uses reflectable. */
  lemma AppendReflectable(lib: Libraries, a: seq<ModelUse>, b: seq<ModelUse>)
    requires AllReflectable(lib, a)
    requires |b| <= 1
    requires |b| == 1 ==> Reflectable(lib, b[0].model, b[0].convert)
    ensures AllReflectable(lib, a + b)
  {
    assert forall i :: 0 <= i < |a| ==> (a + b)[i] == a[i];
  }

  /* ---------------------------------------------------------------- path */

  /** `_build_path`: the route's path with its placeholders written as OpenAPI templates,
      the operation under every listed method of the rule (the path is present even when
      no method is listed), and the component schemas its models contribute. */
  function BuildPath(lib: Libraries, convert: bool, route: Route)
    : (r: Result<(string, Dict<Json>, Dict<Json>), Error>)
    ensures r.Success? <==> BuildOperation(lib, convert, route.handler, route.rule.converters).Success?
    ensures r.Failure? ==> r.error == BuildOperation(lib, convert, route.handler, route.rule.converters).error
  {
    var built := BuildOperation(lib, convert, route.handler, route.rule.converters);
    if built.Failure? then Failure(built.error)
    else
      var (operation, components) := built.value;
      Success((Normalise(route.rule.rule), MethodMap(route.rule.methods, route.rule.automaticOptions, operation),
               components))
  }

  /** A built route's path is its normalised rule; its method map lists, under each listed
      method lower-cased and nothing else, the route's operation; its components are what
      the operation contributes. */
  lemma BuildPathResult(lib: Libraries, convert: bool, route: Route)
    requires BuildPath(lib, convert, route).Success?
    ensures var (path, methods, components) := BuildPath(lib, convert, route).value;
      var (operation, contributed) := BuildOperation(lib, convert, route.handler, route.rule.converters).value;
      && path == Normalise(route.rule.rule)
      && Distinct(methods)
      && (forall k :: k in Keys(methods) <==>
            exists i :: 0 <= i < |route.rule.methods| && Listed(route.rule.methods[i], route.rule.automaticOptions)
                        && Lower(route.rule.methods[i]) == k)
      && (forall k :: k in Keys(methods) ==> Get(methods, k) == Some(operation))
      && components == contributed
  {
  }
}
