/** The `POST /api/options` handler (app/api/options/route.ts): validate the
    requested kind, then list its distinct values. The distinct column the
    database would return for a kind is the `distinct` argument. */
module OptionsRoute {
  import opened Wrappers
  import opened Types
  import opened Db

  /** The JSON value of `body.type`. Objects and arrays are `Composite`;
      `Absent` is a missing field. */
  datatype Json = Absent | Null | Bool(b: bool) | Number(x: real) | Str(s: string) | Composite

  /** JavaScript truthiness of a JSON value. */
  predicate Truthy(v: Json) {
    match v
    case Absent => false
    case Null => false
    case Bool(b) => b
    case Number(x) => x != 0.0
    case Str(s) => s != ""
    case Composite => true
  }

  /** The body: `JsonNull` is the JSON value `null`, whose field access
      throws; a body that is not JSON reads as `{}`, that is
      `Object(Absent)`. */
  datatype OptionsBody = JsonNull | Object(typeField: Json)

  /** The SELECT DISTINCT column of a kind, in its sorted order. */
  type DistinctColumn = OptionType -> seq<Option<string>>

  datatype Reply = Options(options: seq<SelectOption>) | Rejected(status: int, message: string)

  /** The kind named by a JSON value that passes `Object.values(OptionType)
      .includes(type)`: only a string equal to one of the values does. */
  function KindOf(v: Json): (r: Option<OptionType>)
    ensures r.Some? <==> v.Str? && exists k: OptionType :: k.Value() == v.s
    ensures r.Some? ==> r.value.Value() == v.s
  {
    if v.Str? then
      var r := FromValue(v.s);
      if r.Some? then r
      else None
    else None
  }

  /** `POST(request)`. */
  function Post(env: Env, distinct: DistinctColumn, body: OptionsBody): (r: Reply)
    ensures body.JsonNull? ==> r == Rejected(500, "Failed to fetch items")
    ensures body.Object? && !Truthy(body.typeField) ==> r == Rejected(400, "Type is required")
    ensures body.Object? && Truthy(body.typeField) && KindOf(body.typeField).None? ==>
      r == Rejected(400, "Invalid option type")
    ensures body.Object? && KindOf(body.typeField).Some? ==>
      r == match FetchDistinctOptions(env, KindOf(body.typeField).value, distinct(KindOf(body.typeField).value))
           case Success(opts) => Options(opts)
           case Failure(_) => Rejected(500, "Failed to fetch items")
  {
    match body
    case JsonNull => Rejected(500, "Failed to fetch items")
    case Object(field) =>
      var t := if field.Absent? || field.Null? then Str("") else field;
      if !Truthy(t) then Rejected(400, "Type is required")
      else
        match KindOf(t)
        case None => Rejected(400, "Invalid option type")
        case Some(kind) =>
          match FetchDistinctOptions(env, kind, distinct(kind))
          case Success(opts) => Options(opts)
          case Failure(_) => Rejected(500, "Failed to fetch items")
  }

  /** Every valid kind is truthy, so the emptiness check never shadows a
      valid kind; and the empty string, itself no kind, is reported as
      missing rather than invalid. */
  lemma EmptinessCheckedFirst(env: Env, distinct: DistinctColumn)
    ensures forall v :: KindOf(v).Some? ==> Truthy(v)
    ensures Post(env, distinct, Object(Str(""))) == Rejected(400, "Type is required")
    ensures KindOf(Str("")).None?
  {
  }

  /** The 400 replies are decided before any lookup: they depend neither on
      the connection string nor on the table. */
  lemma BadRequestsMakeNoLookup(env1: Env, env2: Env, d1: DistinctColumn, d2: DistinctColumn, body: OptionsBody)
    requires Post(env1, d1, body).Rejected? && Post(env1, d1, body).status == 400
    ensures Post(env2, d2, body) == Post(env1, d1, body)
  {
  }

  /** For the five column kinds the reply is the option list itself: each
      non-empty distinct value once, labelled by itself. */
  lemma ColumnKindsAnswered(env: Env, distinct: DistinctColumn, kind: OptionType)
    requires Configured(env) && kind.IsColumnKind()
    ensures Post(env, distinct, Object(Str(kind.Value()))).Options?
    ensures var opts := Post(env, distinct, Object(Str(kind.Value()))).options;
      && (forall i :: 0 <= i < |opts| ==> opts[i].labelText == opts[i].value != "")
      && (forall s :: (exists i :: 0 <= i < |opts| && opts[i].value == s) <==> s != "" && Some(s) in distinct(kind))
  {
    FromValueOfValue(kind);
  }

  /** `primaryStats` and the four range kinds pass validation, and then the
      lookup rejects them: a 500, never a 400. */
  lemma ValidatedButUnsupported(env: Env, distinct: DistinctColumn, kind: OptionType)
    requires !kind.IsColumnKind()
    ensures Post(env, distinct, Object(Str(kind.Value()))) == Rejected(500, "Failed to fetch items")
  {
    FromValueOfValue(kind);
  }
}
