# quart-schema OpenAPI assembler in Dafny

This project models how quart-schema builds the OpenAPI 3.0.3 document of a Quart
application (`src/quart_schema/extension.py`). The model covers these pieces:

- the embedded `definitions` of a reflected pydantic schema are split off and merged into
  `components.schemas`, camelized when casing conversion is on (`_split_definitions`,
  `_split_convert_definitions`);
- each route becomes an operation object (`_build_path`):
  - docstring summary and description;
  - tags, security and deprecation;
  - one response object per status code, with the response header model placed under
    `content.headers`;
  - the request body, keyed by its media type;
  - query and header parameters, with `description`/`required`/`deprecated` lifted out of
    the property schema and header names hyphenated;
  - path parameters typed `number` or `string`;
  - the rule's placeholders rewritten to `{name}`;
  - the operation replicated under each listed method;
- the route table becomes the document (`_build_openapi_schema`, `_build_full_schema`):
  - websocket and hidden routes are skipped;
  - method maps are merged per path, later routes winning method by method;
  - component schemas are merged, the later contribution winning;
  - the top-level keys are assembled, the optional ones present exactly when configured;
- the security-scheme dispatch on the `type` field in `QuartSchema.__init__`, and the
  default `info` of `init_app`;
- `convert_model_result`, which pads a tuple return to three entries and turns a dataclass
  or model body into a (possibly camelized) mapping.

Modules, one per concern:

- `Wrappers`: `Option` and `Result`.
- `Dicts`: Python's insertion-ordered `dict` as an association list: `Get`, assignment,
  `pop`, `update`, and dict comprehensions.
- `Json`: JSON values and `humps.camelize` over an arbitrary key renaming.
- `Text`: `lower`, single-character `replace`, `splitlines`, `join`.
- `Routes`: the rule, handler-attribute and library records, and the errors.
- `PathRule`: the `PATH_RE` substitution.
- `Definitions`: definition splitting and merging.
- `Parameters`: query, header and path parameters.
- `Bodies`: responses and request bodies.
- `Operation`: the operation object, the method map and `_build_path`.
- `Security`: scheme dispatch.
- `Document`: the route loop and the top-level document.
- `Coercion`: `convert_model_result`.

Every exception the modelled code raises on its own account is a `Result` failure. A failure inside pydantic's reflection is not modelled (see "## Left out"):

- `EmptyDocstring`: the unpacking of an empty docstring's lines.
- `MalformedSchema`: a schema without a `properties` mapping, non-mapping definitions, or a
  non-mapping property schema.
- `MissingSchemeType`: a scheme mapping without a `type` key.
- `TooManyValues`: a tuple of more than three entries.

pydantic's `model_schema`, `inspect.getdoc` of a model class and the key renaming of
`humps.camelize` are parameters (`Routes.Libraries`). So are the serialisation of security
schemes and the by-alias `.dict` dump of a model.

## Model

| member | source | states |
|---|---|---|
| Definitions.SplitDefinitions | src/quart_schema/extension.py:304-307 | The split-off value is the schema's `definitions` entry, or `{}` when it is absent. The remaining schema has no `definitions` key and agrees with the input on every other key. It is the input itself when there was nothing to pop, and it keeps distinct keys. |
| Definitions.SplitDefinitionsRestores | src/quart_schema/extension.py:304-307 | Putting the popped definitions back restores every lookup of the original schema, so the split loses nothing. |
| Definitions.SplitConvertDefinitions | src/quart_schema/extension.py:310-315 | Without casing conversion this is the plain split. With it, the schema is camelized and the definitions keep their names; `Definitions.ContributedValues` states their bodies. Iterating definitions that are not a mapping is the only failure. |
| Definitions.MergeDefinitions | src/quart_schema/extension.py:421 | `components.update(definitions)` is modelled as succeeding exactly for a mapping, and it then is `Update`. Python would also accept an iterable of pairs, which pydantic never produces. |
| Definitions.ContributedValues | src/quart_schema/extension.py:310-315 | Each definition a model adds to the registry is the body its schema embeds under that name: unchanged without casing conversion, camelized with it. |
| Definitions.Reflect | src/quart_schema/extension.py:419-421 | One reflection step succeeds exactly when the model is reflectable. It yields the model's document schema and extends the registry by the model's contributed definitions. |
| Definitions.AllContributedConcat | src/quart_schema/extension.py:416-490 | The definitions contributed by a sequence of reflections split at any point into those of the two parts. |
| PathRule.MatchAt | src/quart_schema/extension.py:63 | A match of either pattern at a `<` ends in `>`, and its name group is non-empty and free of `>`. |
| PathRule.NormaliseNoPlaceholder | src/quart_schema/extension.py:506 | Text without `<` passes through the substitution unchanged. |
| PathRule.PlaceholderMatches | src/quart_schema/extension.py:63 | The corrected pattern reads a well-formed `<name>` or `<conv:name>` placeholder as exactly one match whose group is `name`. |
| PathRule.NormaliseRendered | src/quart_schema/extension.py:63 | For any well-formed rule, the corrected substitution yields the OpenAPI template: each placeholder becomes `{name}` and literal text is unchanged. |
| PathRule.NormaliseIdempotent | src/quart_schema/extension.py:506 | Normalising an already normalised rule changes nothing. |
| PathRule.TemplateHasNoPlaceholder | src/quart_schema/extension.py:506 | A template has no `<` left. |
| PathRule.AsWrittenMerges | src/quart_schema/extension.py:63 | With the pattern as written, a converter-less placeholder followed, past text without `:`, by a converter placeholder is consumed together with it as one match named after the second. |
| PathRule.AsWrittenSwallows | src/quart_schema/extension.py:63 | Every well-formed rule `pre<first>mid<conv:second>` is rewritten to `pre{second}` by the pattern as written. The corrected pattern gives `pre{first}mid{second}`, and the two differ. |
| PathRule.AsWrittenSwallowsPlaceholder | src/quart_schema/extension.py:63 | `/a/<id>/b/<int:x>` becomes `/a/{x}` as written and `/a/{id}/b/{x}` when corrected. |
| PathRule.AsWrittenPlainMatches | src/quart_schema/extension.py:63 | With no `:` after it, the pattern as written reads a placeholder without converter as one match whose group is its name. |
| PathRule.AsWrittenConverterMatches | src/quart_schema/extension.py:63 | The pattern as written reads a well-formed `<conv:name>` as one match whose group is `name`. |
| PathRule.AsWrittenAgrees | src/quart_schema/extension.py:63 | For a well-formed rule in which no `:` follows a placeholder without converter, the pattern as written also yields the template, so it agrees with the corrected one. |
| Text.JoinSplitLines | src/quart_schema/extension.py:403-404 | For text whose only line boundary is `\n` and that does not end in one, joining `splitlines()` with `"\n"` gives the text back. |
| Text.LowerInjective | src/quart_schema/extension.py:512 | Lower-casing upper-case method names never merges two different methods. |
| Operation.SplitDocstring | src/quart_schema/extension.py:402-405 | Unpacking the lines fails exactly for an empty docstring. The summary is a single line. |
| Operation.SplitDocstringRoundTrip | src/quart_schema/extension.py:403-404 | A one-line docstring is all summary with an empty description. Otherwise the summary, `"\n"` and the description put back together give the docstring. |
| Operation.DocstringOf | src/quart_schema/extension.py:402-405 | Summary and description exist exactly when the handler has a docstring, come from splitting it, and fail only for an empty one. |
| Operation.MethodMap | src/quart_schema/extension.py:509-512 | The keys are exactly the lower-cased listed methods: never HEAD, and OPTIONS only without automatic options. Each key maps to the same operation, and no key repeats. |
| Operation.MethodMapKeys | src/quart_schema/extension.py:509-512 | For upper-case method names, a method's lower-cased name is a key exactly when the rule has that method and it is neither HEAD nor an automatic OPTIONS. |
| Operation.MethodMapHeadOptions | src/quart_schema/extension.py:510 | `head` is never a key. `options` is a key exactly when the rule lists OPTIONS and automatic options are off. |
| Operation.SchemaParameters | src/quart_schema/extension.py:469-476 | Succeeds exactly when the schema has a `properties` mapping whose every property schema is a mapping, otherwise fails naming the model. On success there is one parameter per property, in order. |
| Operation.ModelParameters | src/quart_schema/extension.py:464-490 | Without a model there are no parameters and the registry is unchanged. With one, the step succeeds exactly when the model reflects and its properties yield parameters; a failure names the model. The parameters are those its properties document, and the registry gains its definitions. |
| Operation.OperationShape | src/quart_schema/extension.py:398-414 | The operation always has `parameters` and `responses`. It has summary and description exactly with a docstring, tags and security exactly when set, `deprecated: true` exactly when deprecated, a request body exactly when given, and no other key. |
| Operation.OperationRegistry | src/quart_schema/extension.py:416-490 | The registry after the response, request, query and header steps holds the definitions of every reflected model, in reflection order, later ones winning. The header models are reflected without casing conversion. |
| Operation.BuildOperation | src/quart_schema/extension.py:396-490 | The operation builds exactly when the docstring is absent or non-empty, every response binding builds, the request model reflects, and the query-string and header models yield their parameters. A built operation's components are the dict of every definition its models contribute, in order. |
| Operation.BuildOperationError | src/quart_schema/extension.py:402-490 | A failure reports the first failing step in source order: the empty docstring, then the first response binding that does not build, then the request model, the query-string model, the header model. |
| Operation.BuildOperationObject | src/quart_schema/extension.py:396-504 | The parameters are the query model's, then the header model's (never camelized), then the path variables'. Each status code holds its documented response. A request body is present exactly when the route takes one, and is the body the request model documents. With a docstring, the summary is its first line and the description the remaining lines; without one, neither key is present. Tags, `deprecated: true` and security appear exactly when the decorators set them, and the operation has no other key. |
| Operation.BuildOperationMetadata | src/quart_schema/extension.py:398-414 | With a docstring, the summary is its first line and the description the remaining lines; without one, neither key is present. Tags, `deprecated: true` and security appear exactly when the decorators set them. The operation has no key beyond the eight operation keys. |
| Operation.BuildPath | src/quart_schema/extension.py:396-513 | A route builds exactly when its operation does, with the same error. |
| Operation.BuildPathResult | src/quart_schema/extension.py:506-513 | The path is the rule normalised by the corrected pattern (see "## Findings"). The method map lists exactly the lower-cased listed methods, each under the route's operation, with no repeated key. The components are what the operation contributes. |
| Parameters.Lift | src/quart_schema/extension.py:472-474 | Each lifted attribute leaves the property schema and moves into the parameter with its value. Every other key of the schema is untouched. |
| Parameters.HeaderName | src/quart_schema/extension.py:484 | `replace("_", "-")` turns every underscore into a hyphen, keeps the length and every other character, and leaves no underscore. |
| Parameters.Parameter | src/quart_schema/extension.py:469-476 | A property schema that is a mapping yields a parameter with its name (hyphenated for headers), its location and the lifted attributes. That parameter's schema is the property schema without them, and it has no other key. Any other property schema is an error. |
| Parameters.ParameterBuiltKeys | src/quart_schema/extension.py:470-474 | The parameter's keys are `name`, `in`, `schema` and exactly the lifted attributes the property schema had. |
| Parameters.PropertyParameters | src/quart_schema/extension.py:469-476 | There is one parameter per property, in property order. It succeeds exactly when every property schema is a mapping. |
| Parameters.PathParameters | src/quart_schema/extension.py:492-504 | There is one parameter per converter, in order. Each is named after its variable, is `in: path` and required, and is typed `number` exactly for a number converter and `string` otherwise. |
| Parameters.PathParameterShape | src/quart_schema/extension.py:492-504 | The single path parameter of a converter has that shape. |
| Bodies.PropertiesOf | src/quart_schema/extension.py:469 | `schema["properties"]` succeeds exactly when the schema has a `properties` mapping. |
| Bodies.ResponseHeaders | src/quart_schema/extension.py:437-442 | The header object's keys are exactly the hyphenated property names, none twice. Each holds `{"schema": ...}` of a property with that name. |
| Bodies.ResponseHeadersLast | src/quart_schema/extension.py:437-442 | A header holds the schema of the last property whose name hyphenates to it, so a later property replaces an earlier one. |
| Bodies.ResponseShape | src/quart_schema/extension.py:422-442 | A response has exactly `content` and `description`. The description is the model's docstring or `""`. The schema sits under `application/json`. The header object sits inside `content` exactly when there is a header model, built without casing conversion. |
| Bodies.ResponseObject | src/quart_schema/extension.py:416-443 | One loop step succeeds exactly when the response model reflects and the header model, if any, reflects and has a `properties` mapping. A failure names the response model when it is at fault, else the header model. On success the step yields the response the model documents and extends the registry by the model's and then the header model's definitions. |
| Bodies.Responses | src/quart_schema/extension.py:416-443 | The loop succeeds exactly when every binding builds. On success, each status code maps to the response of its last binding, and the registry gains every response and header definition in loop order. |
| Bodies.ResponsesFirstFailure | src/quart_schema/extension.py:417-443 | A failed loop reports the error of the first binding that does not build; all bindings before it build. |
| Bodies.Encoding | src/quart_schema/extension.py:451-454 | The media type is `application/json` exactly for the JSON data source, otherwise `application/x-www-form-urlencoded`. |
| Bodies.RequestBodyShape | src/quart_schema/extension.py:445-462 | The request body has only `content`, which has exactly one media type: JSON exactly for the JSON source. That media type holds the model's schema. |
| Bodies.RequestBody | src/quart_schema/extension.py:445-449 | Without a request model nothing changes. With one, the body is the request model's and the registry gains its definitions. It fails exactly when the model is not reflectable, and the failure names it. |
| Security.KindOf | src/quart_schema/extension.py:199-208 | A specific scheme model is chosen exactly when `type` is its name. Any other value selects the base model. |
| Security.Dispatch | src/quart_schema/extension.py:198-210 | A scheme model is stored as it is. A mapping is dispatched on its `type` with its fields kept, and fails exactly when it has no `type` key. |
| Security.SecuritySchemes | src/quart_schema/extension.py:194-210 | Conversion succeeds exactly when every scheme dispatches, and the result has distinct names. |
| Security.SecuritySchemesFirstFailure | src/quart_schema/extension.py:197-199 | The error names the first scheme mapping without a `type`. |
| Security.SecuritySchemesKeys | src/quart_schema/extension.py:197-210 | The result has exactly the input's scheme names. |
| Security.SecuritySchemesLookup | src/quart_schema/extension.py:197-210 | Each name holds the dispatch of the scheme given for it last. |
| Document.DefaultInfo | src/quart_schema/extension.py:228-229 | The default info has exactly the keys `title` (the application name) and `version` (`0.1.0`). |
| Document.DocumentedRoutes | src/quart_schema/extension.py:547-553 | Exactly the routes that are neither websocket nor hidden are kept. |
| Document.AssemblePaths | src/quart_schema/extension.py:544-559 | The route loop succeeds exactly when every documented route builds. Both the paths and the registry have distinct keys. |
| Document.MergePath | src/quart_schema/extension.py:557-558 | `paths[path].update(methods)` on a default dict changes only the item of `path`, which gains the methods over its old or empty item. |
| Document.AssembleDocumentedOnly | src/quart_schema/extension.py:548-553 | Websocket and hidden routes contribute nothing: assembling all routes is assembling the documented ones. |
| Document.AssembleFirstFailure | src/quart_schema/extension.py:555 | A failed assembly reports the error of the first documented route that does not build. All routes before it build. |
| Document.AssemblePathsLookup | src/quart_schema/extension.py:555-558 | A path has an item exactly when some documented route normalises to it. Under each method it holds the operation of the last such route listing that method. |
| Document.AssembleComponentsLookup | src/quart_schema/extension.py:559 | The registry holds, for each schema name, the definition contributed last over all routes in order. |
| Document.SchemesObject | src/quart_schema/extension.py:519-522 | Each scheme name holds the camelized dump of the scheme given for it last, and no name repeats. |
| Document.ComponentsObject | src/quart_schema/extension.py:517-522 | `components` has `schemas`, and has `securitySchemes` exactly when schemes are configured, with no other key. |
| Document.FullSchemaLookups | src/quart_schema/extension.py:524-529 | The document always has `openapi: 3.0.3`, the camelized info (the default one when none is configured), the components and the paths. |
| Document.FullSchemaOptional | src/quart_schema/extension.py:530-539 | `tags`, `security`, `servers` and `externalDocs` are present exactly when configured, camelized except `security`. |
| Document.FullSchemaKeys | src/quart_schema/extension.py:524-539 | The document has no key beyond the eight top-level ones, and none twice. |
| Document.BuildOpenApi | src/quart_schema/extension.py:544-561 | Generation succeeds exactly when every documented route builds, and yields an object without repeated keys. |
| Document.OpenApiDocument | src/quart_schema/extension.py:516-561 | The whole document has version 3.0.3. It has a path key exactly for each normalised path of a documented route. Under each method it holds the operation of the last route listing that method. `components.schemas` holds, per name, the definition contributed last. `components.securitySchemes` is present exactly when configured, and holds the camelized dump of each scheme. `info` is the configured info or the default one, camelized. `tags`, `security`, `servers` and `externalDocs` are present exactly when configured. The document has no key beyond the eight top-level keys. |
| Document.BuiltDocumentConfigured | src/quart_schema/extension.py:524-539 | The parts of the built document that come from the configuration alone: the camelized info, the four optional keys exactly when configured, and no other top-level key. |
| Coercion.Pad | src/quart_schema/extension.py:324 | A tuple shorter than three is filled to three with `None`, keeping its entries. A longer one is left as it is. |
| Coercion.Unpack | src/quart_schema/extension.py:321-326 | A non-tuple value is the body with two `None`s. Unpacking fails exactly for a tuple of more than three entries. |
| Coercion.UnpackTuple | src/quart_schema/extension.py:324 | A tuple of at most three keeps each entry in its place, and the rest are `None`. |
| Coercion.UnpackSingle | src/quart_schema/extension.py:323-326 | A bare value unpacks like the one-entry tuple holding it. |
| Coercion.UnpackEntries | src/quart_schema/extension.py:324 | Unpacking the three entries of a triple gives the triple back. |
| Coercion.Coerce | src/quart_schema/extension.py:328-339 | The body never stays a model, and a non-model value is unchanged. A dataclass or model becomes a mapping. Its keys are those of `asdict`/`.dict(by_alias)` without casing conversion, and exactly their renamings with it. |
| Coercion.CoerceLookup | src/quart_schema/extension.py:337-338 | With casing conversion, a field's value reappears camelized under its renamed key, unless a later field is renamed to the same key. |
| Json.CamelizeLookup | src/quart_schema/extension.py:313-315 | In a camelized object, a key holds the camelized value of the last entry renamed to it. |
| Coercion.CoerceIdempotent | src/quart_schema/extension.py:328-339 | Coercing a coerced body changes nothing. |
| Coercion.CoerceDataclassLikeModel | src/quart_schema/extension.py:329-334 | A dataclass and a model standing for the same mapping are coerced alike. |
| Coercion.ConvertModelResult | src/quart_schema/extension.py:318-341 | The wrapper fails exactly when unpacking does. Status and headers pass through untouched, and the body is coerced. |
| Coercion.ConvertIdempotent | src/quart_schema/extension.py:318-341 | Handing the wrapper's output back to it as a tuple yields the same triple. |
| Coercion.ConvertPlainTuple | src/quart_schema/extension.py:321-336 | A tuple of at most three non-model values is only padded: every entry keeps its place. |

## Left out

- The `schema` CLI command and its file and terminal output: I/O.
- The Swagger UI and ReDoc templates, and the async `openapi`, `swagger_ui` and `redoc_ui`
  handlers: serving, not document assembly.
- `init_app` wiring: test-client and websocket classes, config defaults, URL registration.
  The default `info` is modelled (`Document.DefaultInfo`).
- The pydantic validation that builds `Info`, `Tag`, `Server`, `ExternalDocumentation` and
  the security scheme models from keyword arguments. Configured values are taken as the
  mappings they serialise to, and a scheme model keeps its fields as given.
- The internals of pydantic's `model_schema`, `BaseModel.dict`, dataclass `asdict`,
  `inspect.getdoc` and the key conversion of `humps.camelize`: foreign code, passed in
  as functions.
- Werkzeug rule parsing and the order of `url_map.iter_rules()`: the routes are an ordered
  list input. `rule.methods` (a set) and a handler's tag set are sequences whose
  iteration order is an input.
- Async execution, `current_app` and the call of the wrapped response function in
  `convert_model_result`: configuration is passed explicitly, and the model ends at the
  triple handed on.
- Floating-point JSON numbers: numbers are integers.
- `str.lower` beyond ASCII letters: Werkzeug stores methods as ASCII upper case.
- Status codes are their decimal text, as the JSON serialiser writes integer keys.
- Exceptions raised inside pydantic's `model_schema`, such as for a model type it cannot
  reflect: `Routes.Libraries.schema` is a total function, so reflection is taken to succeed.
  In the code such an exception propagates out of `_build_path` and aborts generation.
- Operation.BuildPath: the path key comes from the corrected `PATH_RE` (see "## Findings"),
  not the pattern as written at `extension.py:63`. For a rule with a converter-less
  placeholder followed by a converter placeholder, the code emits a different, wrong key.
  On every well-formed rule in which no `:` follows a placeholder without converter,
  `PathRule.AsWrittenAgrees` proves that the two patterns give the same key.
- Operation.BuildPathResult: states the path key of the corrected pattern, for the same reason.
- Document.AssemblePathsLookup: its path keys are those of the corrected pattern, for the same reason.
- Document.OpenApiDocument: its path keys are those of the corrected pattern, for the same reason.
- Parameters.Parameter: a property schema that is not a mapping is modelled as
  `MalformedSchema`. The code would raise a different exception at `in type_`, or pass a
  string schema on. pydantic never produces such a schema.
- Operation.OperationShape: the operation object is one value shared by every method key.
  Python's aliasing of that one dict object is not modelled.
- Coercion.ConvertModelResult: a tuple entry's Python type beyond "dataclass", "model" or
  anything else is not distinguished. Status and header values are JSON values.

## Findings

| source | as written | input that shows it | evidently intended | confidence | as-written member | corrected member |
|---|---|---|---|---|---|---|
| src/quart_schema/extension.py:63 | `PATH_RE` is `<(?:[^:]*:)?([^>]+)>`. The optional converter prefix `[^:]*` may run past the `>` of a converter-less placeholder up to the `:` of a later one. | `/a/<id>/b/<int:x>` becomes `/a/{x}`, so the path loses `{id}` and the literal `/b/`. | `<(?:[^:>]*:)?([^>]+)>`, so that each placeholder is matched on its own: `/a/{id}/b/{x}`. | high; not executed | PathRule.AsWrittenSwallowsPlaceholder | PathRule.NormaliseRendered |

`PathRule.AsWrittenSwallows` states the general form of this finding: every rule with a
converter-less placeholder followed, past text without `:`, by a converter placeholder.
The rest of the model (`Operation.BuildPath`) uses the corrected pattern `PathRule.Normalise`.

Two details of the code that a reader might not expect:

- `extension.py:437-442` writes a response header model's object into the response's
  `content` mapping, next to `application/json`, not at the response level.
- `extension.py:402-405` unpacks `summary, *description` from the docstring's lines, which
  raises for an empty docstring. The model reports this as `EmptyDocstring`.
