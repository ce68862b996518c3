/** The security schemes given to the extension's constructor: each mapping is turned into
    the scheme model its `type` names, and anything already a scheme model is kept. */
module Security {
  import opened Wrappers
  import opened Dicts
  import opened Json
  import opened Routes

  /** Which scheme model a scheme was built as; `Base` is `SecuritySchemeBase`. */
  datatype SchemeKind = ApiKey | Http | OAuth2 | OpenIdConnect | Base

  /** A scheme model: its class and the fields it was constructed with. */
  datatype SecurityScheme = SecurityScheme(kind: SchemeKind, fields: Dict<Json>)

  /** A constructor argument: a plain mapping, or a value that is not a mapping (already a
      scheme model), which is stored as it is. */
  datatype SchemeInput = SchemeMapping(fields: Dict<Json>) | SchemeModel(scheme: SecurityScheme)

  /** The `type` value a specific scheme model is selected by; the base model has none. */
  function TypeName(kind: SchemeKind): Option<string> {
    match kind
    case ApiKey => Some("apiKey")
    case Http => Some("http")
    case OAuth2 => Some("oauth2")
    case OpenIdConnect => Some("openIdConnect")
    case Base => None
  }

  /** The model a `type` value selects: the four known names, compared exactly, and the
      base model for any other value. */
  function KindOf(t: Json): (kind: SchemeKind)
    ensures kind != Base ==> t.Str? && TypeName(kind) == Some(t.s)
    ensures kind == Base ==> forall k :: TypeName(k).Some? ==> t != Str(TypeName(k).value)
  {
    if t == Str("apiKey") then ApiKey
    else if t == Str("http") then Http
    else if t == Str("oauth2") then OAuth2
    else if t == Str("openIdConnect") then OpenIdConnect
    else Base
  }

  /** Selecting by a model's own type name gives that model back. */
  lemma KindOfTypeName(kind: SchemeKind)
    requires TypeName(kind).Some?
    ensures KindOf(Str(TypeName(kind).value)) == kind
  {
  }

  /** The scheme stored under `name`: a mapping is read by its `type`, which it must have;
      a scheme model is kept unchanged. */
  function Dispatch(name: string, v: SchemeInput): (r: Result<SecurityScheme, Error>)
    ensures v.SchemeModel? ==> r == Success(v.scheme)
    ensures v.SchemeMapping? ==> (r.Failure? <==> "type" !in Keys(v.fields))
    ensures r.Failure? ==> r.error == MissingSchemeType(name)
    ensures v.SchemeMapping? && r.Success? ==>
      && r.value.fields == v.fields
      && r.value.kind == KindOf(Get(v.fields, "type").value)
  {
    match v
    case SchemeModel(scheme) => Success(scheme)
    case SchemeMapping(fields) =>
      match Get(fields, "type")
      case None => Failure(MissingSchemeType(name))
      case Some(t) => Success(SecurityScheme(KindOf(t), fields))
  }

  /** The constructor's loop: every scheme dispatched in order into a fresh dict. The first
      mapping without a `type` stops it. */
  function SecuritySchemes(input: Dict<SchemeInput>): (r: Result<Dict<SecurityScheme>, Error>)
    ensures r.Success? <==> forall i :: 0 <= i < |input| ==> Dispatch(input[i].0, input[i].1).Success?
    ensures r.Success? ==> Distinct(r.value)
    decreases |input|
  {
    if |input| == 0 then Success([])
    else
      var n := |input| - 1;
      var prior := SecuritySchemes(input[..n]);
      assert forall i :: 0 <= i < n ==> input[..n][i] == input[i];
      if prior.Failure? then prior
      else
        var s := Dispatch(input[n].0, input[n].1);
        if s.Failure? then Failure(s.error)
        else Success(Set(prior.value, input[n].0, s.value))
  }

  /** The error is the one of the first scheme that cannot be dispatched. */
  lemma {:induction false} SecuritySchemesFirstFailure(input: Dict<SchemeInput>)
    requires SecuritySchemes(input).Failure?
    ensures exists i :: && 0 <= i < |input|
                        && Dispatch(input[i].0, input[i].1).Failure?
                        && SecuritySchemes(input).error == MissingSchemeType(input[i].0)
                        && forall j :: 0 <= j < i ==> Dispatch(input[j].0, input[j].1).Success?
    decreases |input|
  {
    var n := |input| - 1;
    assert forall i :: 0 <= i < n ==> input[..n][i] == input[i];
    if SecuritySchemes(input[..n]).Failure? {
      SecuritySchemesFirstFailure(input[..n]);
      var i :| && 0 <= i < n
               && Dispatch(input[..n][i].0, input[..n][i].1).Failure?
               && SecuritySchemes(input[..n]).error == MissingSchemeType(input[..n][i].0)
               && forall j :: 0 <= j < i ==> Dispatch(input[..n][j].0, input[..n][j].1).Success?;
      assert input[..n][i] == input[i];
    } else {
      assert Dispatch(input[n].0, input[n].1).Failure?;
    }
  }

  /** The scheme names of the result are those of the input. */
  lemma {:induction false} SecuritySchemesKeys(input: Dict<SchemeInput>, k: string)
    requires SecuritySchemes(input).Success?
    ensures k in Keys(SecuritySchemes(input).value) <==> k in Keys(input)
    decreases |input|
  {
    if |input| > 0 {
      var n := |input| - 1;
      var prefix := input[..n];
      var key := input[n].0;
      var prior := SecuritySchemes(prefix).value;
      var s := Dispatch(key, input[n].1).value;
      assert SecuritySchemes(input).value == Set(prior, key, s);
      SetKeysIn(prior, key, s, k);
      SecuritySchemesKeys(prefix, k);
      KeysInit(input, k);
    }
  }

  /** Each name holds the dispatch of the scheme given for it last. */
  lemma {:induction false} SecuritySchemesLookup(input: Dict<SchemeInput>, k: string)
    requires SecuritySchemes(input).Success?
    requires LastValue(input, k).Some?
    ensures Get(SecuritySchemes(input).value, k).Some?
    ensures Dispatch(k, LastValue(input, k).value) == Success(Get(SecuritySchemes(input).value, k).value)
    decreases |input|
  {
    var n := |input| - 1;
    var prefix := input[..n];
    assert forall i :: 0 <= i < n ==> prefix[i] == input[i];
    var prior := SecuritySchemes(prefix).value;
    var s := Dispatch(input[n].0, input[n].1).value;
    assert SecuritySchemes(input).value == Set(prior, input[n].0, s);
    if k != input[n].0 {
      assert LastValue(input, k) == LastValue(prefix, k);
      SecuritySchemesLookup(prefix, k);
    }
  }
}
