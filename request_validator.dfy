/**
 * The request-validation gate: `requestValidator(schema)` captures a schema
 * once and returns a handler that answers 400 to a missing or invalid body and
 * otherwise hands the request on.
 */
module RequestValidator {
  import opened Common
  import opened Json
  import opened Http
  import AjvService

  const NoBody: string := "No body provided."

  /** JavaScript truthiness of a parsed body; `None` is `undefined`. */
  predicate Truthy(body: Option<Json>) {
    match body
    case None => false
    case Some(JNull) => false
    case Some(JBool(b)) => b
    case Some(JNumber(n)) => n != 0
    case Some(JString(s)) => s != ""
    case Some(_) => true
  }

  /** How the handler ends: a 400 with its message, or `next`. */
  datatype Outcome = BadRequest(message: string) | Next

  /** The decision the handler takes on a body. */
  function Decide(schema: Schema, body: Option<Json>): (r: Outcome)
    ensures r == Next <==> Truthy(body) && Valid(body.value, schema)
    ensures !Truthy(body) ==> r == BadRequest(NoBody)
    ensures Truthy(body) && !Valid(body.value, schema) ==> r == BadRequest(AjvService.InvalidBody)
  {
    if !Truthy(body) then BadRequest(NoBody)
    else match AjvService.Validate(body.value, schema)
      case Err(m) => BadRequest(m)
      case Ok(_) => Next
  }

  /** The closure `requestValidator(schema)` returns, with the schema it captured. */
  class Validator {
    const schema: Schema

    /** `requestValidator(schema)`. */
    constructor (schema: Schema)
      ensures this.schema == schema
    {
      this.schema := schema;
    }

    /**
     * One request: exactly one 400 and no `next`, or no write and `next`
     * (which is assumed to return).
     */
    method Handle(body: Option<Json>, res: Response<Message>) returns (proceeded: bool)
      modifies res
      ensures proceeded <==> Decide(schema, body) == Next
      ensures proceeded ==> res.writes == old(res.writes)
      ensures !proceeded ==> res.writes == old(res.writes) + [Reply(400, Message("err", Decide(schema, body).message))]
    {
      if !Truthy(body) {
        var _ := res.Send(400, Message("err", NoBody));
        return false;
      }
      var verdict := AjvService.Validate(body.value, schema);
      if verdict.Err? {
        var _ := res.Send(400, Message("err", AjvService.InvalidBody));
        return false;
      }
      return true;
    }
  }

  /** Every falsy body is refused before validation, whatever the schema. */
  lemma FalsyBodiesRefused(schema: Schema)
    ensures Decide(schema, None) == BadRequest(NoBody)
    ensures Decide(schema, Some(JNull)) == BadRequest(NoBody)
    ensures Decide(schema, Some(JBool(false))) == BadRequest(NoBody)
    ensures Decide(schema, Some(JNumber(0))) == BadRequest(NoBody)
    ensures Decide(schema, Some(JString(""))) == BadRequest(NoBody)
  {
  }

  /**
   * An empty object is truthy, so it reaches the schema: with the permissive
   * empty schema it passes, unlike `null`.
   */
  lemma EmptyObjectReachesSchema()
    ensures Decide(Empty, Some(JObject(map[]))) == Next
    ensures Decide(Empty, Some(JNull)) == BadRequest(NoBody)
  {
    EmptyAcceptsAll(JObject(map[]));
  }
}
