/**
 * Schema validation failures in Mongoose's format: a `ValidationError` whose
 * message is `"<Model> validation failed: <path>: <message>, ..."`, listing
 * the failing paths in schema order.
 */
module Schema {
  import opened Common
  import opened Text
  import opened Http

  /** The `name` of a schema validation error. */
  const ValidationErrorName := "ValidationError"

  datatype PathError = PathError(path: string, message: string)

  datatype ValidationFailure = ValidationFailure(model: string, errors: seq<PathError>)

  function Describe(errors: seq<PathError>): (r: seq<string>)
    ensures |r| == |errors|
  {
    if |errors| == 0 then [] else [errors[0].path + ": " + errors[0].message] + Describe(errors[1..])
  }

  function Message(f: ValidationFailure): string {
    f.model + " validation failed: " + Join(Describe(f.errors), ", ")
  }

  /** The exception `create`/`save` rejects with. */
  function AsThrown(f: ValidationFailure): (e: Thrown)
    ensures e.name == ValidationErrorName && e.message == Some(Message(f))
  {
    Thrown(ValidationErrorName, Some(Message(f)))
  }

  /** The `required` validator: absent and empty strings fail it. */
  function Required(path: string, value: Option<string>, message: string): (r: Option<PathError>)
    ensures r.None? <==> Truthy(value)
    ensures r.Some? ==> r.value == PathError(path, message)
  {
    if Truthy(value) then None else Some(PathError(path, message))
  }

  /** Mongoose's default `required` message. */
  function DefaultRequiredMessage(path: string): string {
    "Path `" + path + "` is required."
  }

  /** The errors that occurred, in order. */
  function Collect(checks: seq<Option<PathError>>): (r: seq<PathError>)
    ensures |r| <= |checks|
    ensures |r| == 0 <==> forall i :: 0 <= i < |checks| ==> checks[i].None?
  {
    if |checks| == 0 then []
    else (if checks[0].Some? then [checks[0].value] else []) + Collect(checks[1..])
  }

  /** Every error that occurred is reported. */
  lemma {:induction false} CollectKeeps(checks: seq<Option<PathError>>, i: nat)
    requires i < |checks| && checks[i].Some?
    ensures checks[i].value in Collect(checks)
  {
    if i > 0 {
      assert checks[1..][i - 1] == checks[i];
      CollectKeeps(checks[1..], i - 1);
    }
  }
}
