/** The response objects and the request body of an operation. Each is a function of
    the reflected models alone (`...Of`); the builders thread the component registry
    through the same steps in the order `_build_path` takes them. */
module Bodies {
  import opened Wrappers
  import opened Dicts
  import opened Json
  import opened Routes
  import opened Definitions
  import opened Parameters

  /** `schema["properties"]` of a model schema; a schema without a `properties` mapping
      cannot be iterated. */
  function PropertiesOf(model: ModelId, schema: Dict<Json>): (r: Result<Dict<Json>, Error>)
    ensures r.Success? <==> Get(schema, "properties").Some? && Get(schema, "properties").value.Obj?
    ensures r.Success? ==> Get(schema, "properties") == Some(Obj(r.value))
    ensures r.Failure? ==> r.error == MalformedSchema(model)
  {
    match Get(schema, "properties")
    case Some(v) => if v.Obj? then Success(v.fields) else Failure(MalformedSchema(model))
    case None => Failure(MalformedSchema(model))
  }

  /* ---------------------------------------------------------------- responses */

  /** The `headers` mapping of a response: each property of the header model under its
      hyphenated name, as `{"schema": ...}`; a later property whose name hyphenates to
      the same header replaces the earlier one's value. */
  function ResponseHeaders(props: Dict<Json>): (r: Dict<Json>)
    ensures Distinct(r)
    ensures forall k :: k in Keys(r) <==> exists i :: 0 <= i < |props| && HeaderName(props[i].0) == k
    ensures forall p :: p in r ==>
      exists i :: 0 <= i < |props| && p == (HeaderName(props[i].0), Obj([("schema", props[i].1)]))
  {
    var pairs := seq(|props|, i requires 0 <= i < |props| =>
      (HeaderName(props[i].0), Obj([("schema", props[i].1)])));
    var r := FromPairs(pairs);
    assert forall k :: k in Keys(r) <==> exists i :: 0 <= i < |props| && HeaderName(props[i].0) == k by {
      forall k
        ensures k in Keys(r) <==> exists i :: 0 <= i < |props| && HeaderName(props[i].0) == k
      {
        UpdateKeys([], pairs, k);
        InKeys(pairs, k);
        if exists i :: 0 <= i < |props| && HeaderName(props[i].0) == k {
          var i :| 0 <= i < |props| && HeaderName(props[i].0) == k;
          assert pairs[i].0 == k;
        }
      }
    }
    assert forall p :: p in r ==> p in pairs by {
      forall p | p in r
        ensures p in pairs
      {
        UpdateEntries([], pairs, p);
      }
    }
    r
  }

  /** A header holds the schema of the last property whose name hyphenates to it: a later
      property with the same header name replaces an earlier one. */
  lemma ResponseHeadersLast(props: Dict<Json>, i: nat)
    requires i < |props|
    requires forall j :: i < j < |props| ==> HeaderName(props[j].0) != HeaderName(props[i].0)
    ensures Get(ResponseHeaders(props), HeaderName(props[i].0)) == Some(Obj([("schema", props[i].1)]))
  {
    var pairs := seq(|props|, i requires 0 <= i < |props| =>
      (HeaderName(props[i].0), Obj([("schema", props[i].1)])));
    assert ResponseHeaders(props) == FromPairs(pairs);
    FromPairsLast(pairs, HeaderName(props[i].0));
    LastValueAt(pairs, i);
  }

  /** The header model of a response, reflected without casing conversion. */
  function HeaderProperties(lib: Libraries, headers: ModelId): Result<Dict<Json>, Error> {
    PropertiesOf(headers, SplitDefinitions(lib.schema(headers)).1)
  }

  /** The response object of a response model: its schema as `application/json` content,
      its docstring (or `""`) as description, and, when there is a header model, the
      headers mapping, written inside `content` next to the media type. */
  function ResponseOf(lib: Libraries, convert: bool, b: ResponseBinding): (r: Result<Json, Error>)
    ensures r.Success? <==>
      && SplitConvertDefinitions(lib, b.model, convert).Success?
      && (b.headers.Some? ==> HeaderProperties(lib, b.headers.value).Success?)
    ensures r.Failure? ==>
      r.error == MalformedSchema(b.model) || (b.headers.Some? && r.error == MalformedSchema(b.headers.value))
  {
    var schema :- ModelSchema(lib, b.model, convert);
    var media := [("application/json", Obj([("schema", Obj(schema))]))];
    var description := Str(lib.doc(b.model).GetOr(""));
    match b.headers
    case None => Success(Obj([("content", Obj(media)), ("description", description)]))
    case Some(h) =>
      var props :- HeaderProperties(lib, h);
      Success(Obj([("content", Obj(media + [("headers", Obj(ResponseHeaders(props)))])),
                   ("description", description)]))
  }

  /** What a response object holds: `content` and `description` and nothing else; the
      model's schema under `application/json`; the docstring, or `""`, as description; and a
      `headers` entry, inside `content`, exactly when there is a header model, built from
      that model's properties without casing conversion. */
  lemma ResponseShape(lib: Libraries, convert: bool, b: ResponseBinding)
    requires ResponseOf(lib, convert, b).Success?
    ensures var resp := ResponseOf(lib, convert, b).value;
      && resp.Obj?
      && Distinct(resp.fields)
      && Keys(resp.fields) == ["content", "description"]
      && Get(resp.fields, "description") == Some(Str(lib.doc(b.model).GetOr("")))
      && Get(resp.fields, "content").Some?
      && var content := Get(resp.fields, "content").value;
         && content.Obj?
         && Distinct(content.fields)
         && Get(content.fields, "application/json")
              == Some(Obj([("schema", Obj(ModelSchema(lib, b.model, convert).value))]))
         && ("headers" in Keys(content.fields) <==> b.headers.Some?)
         && (b.headers.Some? ==>
               Get(content.fields, "headers")
                 == Some(Obj(ResponseHeaders(HeaderProperties(lib, b.headers.value).value))))
  {
    ResponseTop(lib, convert, b);
    ResponseContent(lib, convert, b);
  }

  lemma ResponseTop(lib: Libraries, convert: bool, b: ResponseBinding)
    requires ResponseOf(lib, convert, b).Success?
    ensures var resp := ResponseOf(lib, convert, b).value;
      && resp.Obj?
      && Distinct(resp.fields)
      && Keys(resp.fields) == ["content", "description"]
      && Get(resp.fields, "description") == Some(Str(lib.doc(b.model).GetOr("")))
      && Get(resp.fields, "content") == Some(resp.fields[0].1)
  {
    var resp := ResponseOf(lib, convert, b).value;
    DistinctByIndex(resp.fields);
    GetAt(resp.fields, 0);
    GetAt(resp.fields, 1);
  }

  lemma ResponseContent(lib: Libraries, convert: bool, b: ResponseBinding)
    requires ResponseOf(lib, convert, b).Success?
    ensures var content := ResponseOf(lib, convert, b).value.fields[0].1;
      && content.Obj?
      && Distinct(content.fields)
      && Get(content.fields, "application/json")
           == Some(Obj([("schema", Obj(ModelSchema(lib, b.model, convert).value))]))
      && ("headers" in Keys(content.fields) <==> b.headers.Some?)
      && (b.headers.Some? ==>
            Get(content.fields, "headers")
              == Some(Obj(ResponseHeaders(HeaderProperties(lib, b.headers.value).value))))
  {
    var content := ResponseOf(lib, convert, b).value.fields[0].1;
    DistinctByIndex(content.fields);
    GetAt(content.fields, 0);
    InKeys(content.fields, "headers");
    if b.headers.Some? {
      GetAt(content.fields, 1);
    }
  }

  /** A response binding builds when its model reflects and its header model, if any,
      reflects and has a `properties` mapping. */
  predicate ResponseBuilds(lib: Libraries, convert: bool, b: ResponseBinding) {
    && Reflectable(lib, b.model, convert)
    && (b.headers.Some? ==>
          Reflectable(lib, b.headers.value, false) && HeaderProperties(lib, b.headers.value).Success?)
  }

  /** The error of a binding that does not build: the response model is reflected first,
      so its error wins; otherwise the header model is the one at fault. */
  function ResponseError(lib: Libraries, convert: bool, b: ResponseBinding): Error {
    if !Reflectable(lib, b.model, convert) || b.headers.None? then MalformedSchema(b.model)
    else MalformedSchema(b.headers.value)
  }

  /** The models one response binding reflects: the response model, then its header model
      (never camelized). */
  function ResponseUses(convert: bool, b: ResponseBinding): seq<ModelUse> {
    [ModelUse(b.model, convert)] + if b.headers.Some? then [ModelUse(b.headers.value, false)] else []
  }

  /** One iteration of the response loop: reflect the model and its header model into the
      registry, then build the response object. */
  function ResponseObject(lib: Libraries, convert: bool, b: ResponseBinding, components: Dict<Json>)
    : (r: Result<(Json, Dict<Json>), Error>)
    ensures r.Success? <==> ResponseBuilds(lib, convert, b)
    ensures r.Failure? ==> r.error == ResponseError(lib, convert, b)
    ensures r.Success? ==> ResponseOf(lib, convert, b) == Success(r.value.0)
    ensures r.Success? ==> AllReflectable(lib, ResponseUses(convert, b))
    ensures r.Success? ==>
      r.value.1 == Update(components, AllContributed(lib, ResponseUses(convert, b)))
  {
    var (_, registered) :- Reflect(lib, b.model, convert, components);
    var withHeaders :- match b.headers
      case None => Success(registered)
      case Some(h) =>
        var (_, c) :- Reflect(lib, h, false, registered);
        Success(c);
    var resp :- ResponseOf(lib, convert, b);
    ResponseRegistry(lib, convert, b, components, registered, withHeaders);
    Success((resp, withHeaders))
  }

  /** Reflecting the response model and then its header model extends the registry by
      what the binding's models contribute, in that order. */
  lemma ResponseRegistry(lib: Libraries, convert: bool, b: ResponseBinding, components: Dict<Json>,
                         registered: Dict<Json>, withHeaders: Dict<Json>)
    requires Reflectable(lib, b.model, convert)
    requires registered == Update(components, Contributed(lib, b.model, convert))
    requires b.headers.None? ==> withHeaders == registered
    requires b.headers.Some? ==> Reflectable(lib, b.headers.value, false)
    requires b.headers.Some? ==> withHeaders == Update(registered, Contributed(lib, b.headers.value, false))
    ensures AllReflectable(lib, ResponseUses(convert, b))
    ensures withHeaders == Update(components, AllContributed(lib, ResponseUses(convert, b)))
  {
    var u0 := ModelUse(b.model, convert);
    AllContributedSingle(lib, u0);
    if b.headers.None? {
      assert ResponseUses(convert, b) == [u0];
    } else {
      var c0 := Contributed(lib, b.model, convert);
      var c1 := Contributed(lib, b.headers.value, false);
      var uses := [u0, ModelUse(b.headers.value, false)];
      assert ResponseUses(convert, b) == uses;
      assert AllReflectable(lib, uses);
      assert uses[..1] == [u0];
      assert AllContributed(lib, uses) == c0 + c1;
      UpdateConcat(components, c0, c1);
    }
  }

  /** The response loop over the status codes of a handler, in order. */
  function Responses(lib: Libraries, convert: bool, bindings: Dict<ResponseBinding>, components: Dict<Json>)
    : (r: Result<(Dict<Json>, Dict<Json>), Error>)
    ensures r.Success? <==> forall i :: 0 <= i < |bindings| ==> ResponseBuilds(lib, convert, bindings[i].1)
    ensures r.Success? ==> AllReflectable(lib, AllResponseUses(convert, bindings))
    ensures r.Success? ==>
      r.value.1 == Update(components, AllContributed(lib, AllResponseUses(convert, bindings)))
    ensures r.Success? ==> forall i :: 0 <= i < |bindings| ==> ResponseOf(lib, convert, bindings[i].1).Success?
    ensures r.Success? ==> forall k :: Get(r.value.0, k) == DocumentedResponse(lib, convert, bindings, k)
    ensures r.Success? ==> Distinct(r.value.0)
    decreases |bindings|
  {
    if |bindings| == 0 then Success(([], components))
    else
      var n := |bindings| - 1;
      var prior := Responses(lib, convert, bindings[..n], components);
      ResponsesBuildStep(lib, convert, bindings);
      if prior.Failure? then Failure(prior.error)
      else
        var (responses, registered) := prior.value;
        var step := ResponseObject(lib, convert, bindings[n].1, registered);
        if step.Failure? then Failure(step.error)
        else
          var (resp, updated) := step.value;
          assert forall i :: 0 <= i < n ==> ResponseOf(lib, convert, bindings[i].1).Success? by {
            forall i | 0 <= i < n
              ensures ResponseOf(lib, convert, bindings[i].1).Success?
            {
              assert bindings[i] == bindings[..n][i];
            }
          }
          ResponsesStep(lib, convert, bindings, components, responses, registered, resp, updated);
          Success((Set(responses, bindings[n].0, resp), updated))
  }

  /** Every binding builds exactly when all but the last do and the last one does. */
  lemma ResponsesBuildStep(lib: Libraries, convert: bool, bindings: Dict<ResponseBinding>)
    requires |bindings| > 0
    ensures var n := |bindings| - 1;
      (forall i :: 0 <= i < |bindings| ==> ResponseBuilds(lib, convert, bindings[i].1)) <==>
        (forall i :: 0 <= i < n ==> ResponseBuilds(lib, convert, bindings[..n][i].1))
          && ResponseBuilds(lib, convert, bindings[n].1)
  {
    AllStep(bindings, (b: (string, ResponseBinding)) => ResponseBuilds(lib, convert, b.1));
  }

  /** A failed response loop reports the error of the first binding that does not build. */
  lemma {:induction false} ResponsesFirstFailure(lib: Libraries, convert: bool, bindings: Dict<ResponseBinding>,
                                                 components: Dict<Json>)
    requires Responses(lib, convert, bindings, components).Failure?
    ensures exists i :: && 0 <= i < |bindings|
                        && !ResponseBuilds(lib, convert, bindings[i].1)
                        && Responses(lib, convert, bindings, components).error == ResponseError(lib, convert, bindings[i].1)
                        && forall j :: 0 <= j < i ==> ResponseBuilds(lib, convert, bindings[j].1)
    decreases |bindings|
  {
    var n := |bindings| - 1;
    var prefix := bindings[..n];
    var e := Responses(lib, convert, bindings, components).error;
    ResponsesFailureStep(lib, convert, bindings, components);
    if Responses(lib, convert, prefix, components).Failure? {
      ResponsesFirstFailure(lib, convert, prefix, components);
      var i :| && 0 <= i < n
               && !ResponseBuilds(lib, convert, prefix[i].1)
               && Responses(lib, convert, prefix, components).error == ResponseError(lib, convert, prefix[i].1)
               && forall j :: 0 <= j < i ==> ResponseBuilds(lib, convert, prefix[j].1);
      FirstUnbuiltPrefix(lib, convert, bindings, n, i, e);
    } else {
      assert && !ResponseBuilds(lib, convert, bindings[n].1)
             && e == ResponseError(lib, convert, bindings[n].1)
             && forall j :: 0 <= j < n ==> ResponseBuilds(lib, convert, bindings[j].1);
    }
  }

  /** The first binding of a prefix that does not build is the first one of the whole. */
  lemma FirstUnbuiltPrefix(lib: Libraries, convert: bool, bindings: Dict<ResponseBinding>, n: nat, i: nat, e: Error)
    requires i < n <= |bindings|
    requires !ResponseBuilds(lib, convert, bindings[..n][i].1)
    requires e == ResponseError(lib, convert, bindings[..n][i].1)
    requires forall j :: 0 <= j < i ==> ResponseBuilds(lib, convert, bindings[..n][j].1)
    ensures !ResponseBuilds(lib, convert, bindings[i].1)
    ensures e == ResponseError(lib, convert, bindings[i].1)
    ensures forall j :: 0 <= j < i ==> ResponseBuilds(lib, convert, bindings[j].1)
  {
    PrefixAgrees(bindings, n);
  }

  /** The last step of a failed response loop: the error is the earlier bindings' when they
      fail, and otherwise the last binding's, which does not build. */
  lemma ResponsesFailureStep(lib: Libraries, convert: bool, bindings: Dict<ResponseBinding>, components: Dict<Json>)
    requires |bindings| > 0
    requires Responses(lib, convert, bindings, components).Failure?
    ensures var n := |bindings| - 1;
      var prior := Responses(lib, convert, bindings[..n], components);
      var e := Responses(lib, convert, bindings, components).error;
      && (prior.Failure? ==> e == prior.error)
      && (prior.Success? ==>
            && (forall j :: 0 <= j < n ==> ResponseBuilds(lib, convert, bindings[j].1))
            && !ResponseBuilds(lib, convert, bindings[n].1)
            && e == ResponseError(lib, convert, bindings[n].1))
  {
    var n := |bindings| - 1;
    assert forall j :: 0 <= j < n ==> bindings[..n][j] == bindings[j];
  }

  /** The response a status code is documented with: the response object of the last
      binding for it, none when no binding has it. */
  ghost function DocumentedResponse(lib: Libraries, convert: bool, bindings: Dict<ResponseBinding>, status: string)
    : Option<Json>
  {
    match LastValue(bindings, status)
    case None => None
    case Some(b) => if ResponseOf(lib, convert, b).Success? then Some(ResponseOf(lib, convert, b).value) else None
  }

  /** Every model the response loop reflects, status code after status code. */
  function AllResponseUses(convert: bool, bindings: Dict<ResponseBinding>): seq<ModelUse>
    decreases |bindings|
  {
    if |bindings| == 0 then []
    else AllResponseUses(convert, bindings[..|bindings| - 1]) + ResponseUses(convert, bindings[|bindings| - 1].1)
  }

  lemma ResponsesStep(lib: Libraries, convert: bool, bindings: Dict<ResponseBinding>, components: Dict<Json>,
                      responses: Dict<Json>, registered: Dict<Json>, resp: Json, updated: Dict<Json>)
    requires |bindings| > 0
    requires AllReflectable(lib, AllResponseUses(convert, bindings[..|bindings| - 1]))
    requires registered == Update(components, AllContributed(lib, AllResponseUses(convert, bindings[..|bindings| - 1])))
    requires forall i :: 0 <= i < |bindings| - 1 ==> ResponseOf(lib, convert, bindings[i].1).Success?
    requires forall k :: Get(responses, k) == DocumentedResponse(lib, convert, bindings[..|bindings| - 1], k)
    requires ResponseObject(lib, convert, bindings[|bindings| - 1].1, registered) == Success((resp, updated))
    ensures AllReflectable(lib, AllResponseUses(convert, bindings))
    ensures updated == Update(components, AllContributed(lib, AllResponseUses(convert, bindings)))
    ensures forall i :: 0 <= i < |bindings| ==> ResponseOf(lib, convert, bindings[i].1).Success?
    ensures forall k ::
      Get(Set(responses, bindings[|bindings| - 1].0, resp), k) == DocumentedResponse(lib, convert, bindings, k)
  {
    ResponsesRegistryStep(lib, convert, bindings, components, registered, updated, resp);
    ResponsesLookupStep(lib, convert, bindings, responses, resp);
  }

  lemma ResponsesLookupStep(lib: Libraries, convert: bool, bindings: Dict<ResponseBinding>,
                            responses: Dict<Json>, resp: Json)
    requires |bindings| > 0
    requires forall k :: Get(responses, k) == DocumentedResponse(lib, convert, bindings[..|bindings| - 1], k)
    requires ResponseOf(lib, convert, bindings[|bindings| - 1].1) == Success(resp)
    ensures forall k ::
      Get(Set(responses, bindings[|bindings| - 1].0, resp), k) == DocumentedResponse(lib, convert, bindings, k)
  {
    var n := |bindings| - 1;
    forall k
      ensures Get(Set(responses, bindings[n].0, resp), k) == DocumentedResponse(lib, convert, bindings, k)
    {
      if k != bindings[n].0 {
        assert LastValue(bindings, k) == LastValue(bindings[..n], k);
      }
    }
  }

  lemma ResponsesRegistryStep(lib: Libraries, convert: bool, bindings: Dict<ResponseBinding>,
                              components: Dict<Json>, registered: Dict<Json>, updated: Dict<Json>, resp: Json)
    requires |bindings| > 0
    requires AllReflectable(lib, AllResponseUses(convert, bindings[..|bindings| - 1]))
    requires registered == Update(components, AllContributed(lib, AllResponseUses(convert, bindings[..|bindings| - 1])))
    requires ResponseObject(lib, convert, bindings[|bindings| - 1].1, registered) == Success((resp, updated))
    ensures AllReflectable(lib, AllResponseUses(convert, bindings))
    ensures updated == Update(components, AllContributed(lib, AllResponseUses(convert, bindings)))
  {
    var n := |bindings| - 1;
    var prior := AllResponseUses(convert, bindings[..n]);
    var last := ResponseUses(convert, bindings[n].1);
    assert AllResponseUses(convert, bindings) == prior + last;
    assert AllReflectable(lib, prior + last) by {
      forall i | 0 <= i < |prior + last|
        ensures Reflectable(lib, (prior + last)[i].model, (prior + last)[i].convert)
      {
        if i >= |prior| {
          assert (prior + last)[i] == last[i - |prior|];
        }
      }
    }
    AllContributedConcat(lib, prior, last);
    UpdateConcat(components, AllContributed(lib, prior), AllContributed(lib, last));
  }

  /* ---------------------------------------------------------------- request body */

  /** The media type a request body is documented under. */
  function Encoding(source: DataSource): (media: string)
    ensures media == "application/json" <==> source == JsonSource
    ensures media == "application/x-www-form-urlencoded" <==> source != JsonSource
  {
    if source == JsonSource then "application/json" else "application/x-www-form-urlencoded"
  }

  /** The request body object: the model's schema under the source's media type. */
  function RequestBodyOf(lib: Libraries, convert: bool, b: RequestBinding): (r: Result<Json, Error>)
    ensures r.Success? <==> SplitConvertDefinitions(lib, b.model, convert).Success?
  {
    var schema :- ModelSchema(lib, b.model, convert);
    Success(Obj([("content", Obj([(Encoding(b.source), Obj([("schema", Obj(schema))]))]))]))
  }

  /** A request body holds one `content` mapping with exactly one media type, which is
      `application/json` exactly when the body is read as JSON, and the model's schema
      under it. */
  lemma RequestBodyShape(lib: Libraries, convert: bool, b: RequestBinding)
    requires RequestBodyOf(lib, convert, b).Success?
    ensures var body := RequestBodyOf(lib, convert, b).value;
      && body.Obj?
      && Keys(body.fields) == ["content"]
      && Get(body.fields, "content").Some?
      && var content := Get(body.fields, "content").value;
         && content.Obj?
         && |content.fields| == 1
         && (Get(content.fields, "application/json").Some? <==> b.source == JsonSource)
         && (Get(content.fields, "application/x-www-form-urlencoded").Some? <==> b.source != JsonSource)
         && Get(content.fields, Encoding(b.source))
              == Some(Obj([("schema", Obj(ModelSchema(lib, b.model, convert).value))]))
  {
    var body := RequestBodyOf(lib, convert, b).value;
    GetAt(body.fields, 0);
    var content := body.fields[0].1;
    GetAt(content.fields, 0);
    InKeys(content.fields, "application/json");
    InKeys(content.fields, "application/x-www-form-urlencoded");
  }

  /** The optional request body of an operation, reflecting the request model into the
      registry first. */
  function RequestBody(lib: Libraries, convert: bool, request: Option<RequestBinding>, components: Dict<Json>)
    : (r: Result<(Option<Json>, Dict<Json>), Error>)
    ensures request.None? ==> r == Success((None, components))
    ensures request.Some? ==> (r.Success? <==> Reflectable(lib, request.value.model, convert))
    ensures r.Failure? ==> request.Some? && r.error == MalformedSchema(request.value.model)
    ensures request.Some? && r.Success? ==>
      && r.value.0 == Some(RequestBodyOf(lib, convert, request.value).value)
      && r.value.1 == Update(components, Contributed(lib, request.value.model, convert))
  {
    match request
    case None => Success((None, components))
    case Some(b) =>
      var (_, registered) :- Reflect(lib, b.model, convert, components);
      Success((Some(RequestBodyOf(lib, convert, b).value), registered))
  }
}
