/** The inputs of document generation: the routing table's rules, the attributes the
    decorators attach to each view function, and the libraries the assembler calls. */
module Routes {
  import opened Wrappers
  import opened Dicts
  import opened Json

  /** Identity of a model class (a pydantic model or a dataclass). */
  type ModelId = string

  /** The collaborators the assembler calls but does not define, each a pure function:
      `schema` is pydantic's `model_schema(model, ref_prefix="#/components/schemas/")`,
      `doc` is `inspect.getdoc(model)` when the class has a docstring, and `camel` is the
      key conversion `humps.camelize` applies to each mapping key. */
  datatype Libraries = Libraries(
    schema: ModelId -> Dict<Json>,
    doc: ModelId -> Option<string>,
    camel: string -> string)

  /** Where a request body is read from; only JSON versus anything else matters here. */
  datatype DataSource = JsonSource | FormSource

  datatype RequestBinding = RequestBinding(model: ModelId, source: DataSource)

  /** A response model and its optional response-header model. */
  datatype ResponseBinding = ResponseBinding(model: ModelId, headers: Option<ModelId>)

  /** The attributes of one view function. `doc` is `inspect.getdoc(func)` when the
      function has a docstring; `tags` and `security` are present only when the
      decorators were applied; `responses` maps status codes, written as the decimal
      text JSON gives them, to bindings. */
  datatype Handler = Handler(
    doc: Option<string>,
    tags: Option<seq<string>>,
    deprecated: bool,
    security: Option<seq<Json>>,
    hidden: bool,
    responses: Dict<ResponseBinding>,
    request: Option<RequestBinding>,
    querystring: Option<ModelId>,
    headers: Option<ModelId>)

  /** A path variable of a rule and whether its converter is a `NumberConverter`. */
  datatype Converter = Converter(name: string, isNumber: bool)

  /** A Werkzeug rule: its text, its converters in order, its methods (upper case, as
      Werkzeug stores them), whether OPTIONS is answered automatically, and whether it
      is a websocket rule. */
  datatype Rule = Rule(
    rule: string,
    converters: seq<Converter>,
    methods: seq<string>,
    automaticOptions: bool,
    websocket: bool)

  /** A rule together with the view function its endpoint names. */
  datatype Route = Route(rule: Rule, handler: Handler)

  /** The exceptions document generation can raise. */
  datatype Error =
    | EmptyDocstring
    | MalformedSchema(model: ModelId)
    | MissingSchemeType(scheme: string)
    | TooManyValues
}
