/**
 * `HandleError`: classifies a thrown error and forwards exactly one HTTP
 * error: 400 for a schema validation error, 500 for anything else.
 */
module ErrorHandling {
  import opened Common
  import opened Text
  import opened Http
  import opened Schema

  /** The message used when the thrown error has none (or an empty one). */
  const FallbackMessage := "Internal Server Error"

  /**
   * Maps a thrown error to the single error forwarded to `next`; the result is
   * always a failure, never a response written directly.
   */
  function HandleError<C, B>(error: Thrown): (r: Outcome<C, B>)
    ensures r.Fail?
    ensures r.status == BAD_REQUEST <==> error.name == ValidationErrorName
    ensures r.status == INTERNAL_SERVER_ERROR <==> error.name != ValidationErrorName
    ensures Truthy(error.message) ==> r.message == error.message.value
    ensures !Truthy(error.message) ==> r.message == FallbackMessage
  {
    Fail(if error.name == ValidationErrorName then BAD_REQUEST else INTERNAL_SERVER_ERROR,
         if Truthy(error.message) then error.message.value else FallbackMessage)
  }

  /** The classified status is one of exactly two codes, and the message is never empty. */
  lemma HandleErrorRange(error: Thrown)
    ensures HandleError<(), ()>(error).status in {BAD_REQUEST, INTERNAL_SERVER_ERROR}
    ensures |HandleError<(), ()>(error).message| > 0
  {
  }
}
