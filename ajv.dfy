/**
 * The Ajv wrapper service: compile a schema and run it on some data, either
 * raising `Error('Invalid request body.')` or answering with a boolean. Each
 * call compiles afresh; compiling has no effect on the data or the schema, so
 * both operations are functions of (data, schema).
 */
module AjvService {
  import opened Common
  import opened Json

  const InvalidBody: string := "Invalid request body."

  /** `validate`: returns `true` on valid data and raises otherwise. */
  function Validate(data: Json, schema: Schema): (r: Result<bool>)
    ensures Valid(data, schema) ==> r == Ok(true)
    ensures !Valid(data, schema) ==> r == Err(InvalidBody)
  {
    if Valid(data, schema) then Ok(true) else Err(InvalidBody)
  }

  /** `validateWithoutThrow`: the same verdict as a boolean, never raising. */
  function ValidateWithoutThrow(data: Json, schema: Schema): (r: bool)
    ensures r <==> Valid(data, schema)
  {
    Valid(data, schema)
  }

  /** The throwing form returns normally exactly when the boolean form answers `true`. */
  lemma ValidateAgreesWithoutThrow(data: Json, schema: Schema)
    ensures Validate(data, schema).Ok? <==> ValidateWithoutThrow(data, schema)
    ensures Validate(data, schema).Ok? ==> Validate(data, schema).value
  {
  }
}
