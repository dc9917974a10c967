/** The central Express error handler: turns any error passed to `next` into an HTTP
    status and a JSON body `{success: false, message}`. */
module ErrorHandler {
  import opened Wrappers
  import opened JsText
  import opened AppErrors

  /** Status code and body of an error response. */
  datatype ErrorReply = ErrorReply(status: int, success: bool, message: string)

  const CastErrorMessage := "Note not found"
  const DefaultMessage := "Internal server error"

  /** A Mongoose ValidationError answers 400 with its field messages joined by ", ";
      a CastError on an ObjectId answers 404; anything else answers its own truthy
      `statusCode`, or 500, with its own non-empty message or a default one. */
  function HandleError(err: AppError): (r: ErrorReply)
    ensures !r.success
  {
    if err.name == "ValidationError" then
      ErrorReply(400, false, Join(err.fieldMessages, ", "))
    else if err.name == "CastError" && err.kind == Some("ObjectId") then
      ErrorReply(404, false, CastErrorMessage)
    else
      ErrorReply(if TruthyNumber(err.statusCode) then err.statusCode.value else 500,
                 false,
                 if TruthyString(err.message) then err.message.value else DefaultMessage)
  }

  /** A ValidationError is answered from its name and field messages alone: its kind,
      status code and message play no part, so this branch takes precedence. */
  lemma ValidationErrorPrecedence(e1: AppError, e2: AppError)
    requires e1.name == e2.name == "ValidationError"
    requires e1.fieldMessages == e2.fieldMessages
    ensures HandleError(e1) == HandleError(e2)
    ensures HandleError(e1).status == 400
    ensures HandleError(e1).message == Join(e1.fieldMessages, ", ")
  {
  }

  /** An ObjectId CastError is answered 404 "Note not found" whatever status code and
      message it carries, so this branch takes precedence over a preset status code. */
  lemma CastErrorPrecedence(e1: AppError, e2: AppError)
    requires e1.name == e2.name == "CastError"
    requires e1.kind == e2.kind == Some("ObjectId")
    ensures HandleError(e1) == HandleError(e2)
    ensures HandleError(e1) == ErrorReply(404, false, CastErrorMessage)
  {
  }

  /** Outside the two Mongoose branches the status is the error's own status code when
      it is set and non-zero, and 500 otherwise. */
  lemma FallbackStatus(e: AppError)
    requires e.name != "ValidationError"
    requires e.name != "CastError" || e.kind != Some("ObjectId")
    ensures HandleError(e).status == 500 <==> (!TruthyNumber(e.statusCode) || e.statusCode == Some(500))
    ensures TruthyNumber(e.statusCode) ==> HandleError(e).status == e.statusCode.value
  {
  }

  /** Outside the two Mongoose branches the message is the error's own message when it
      is set and non-empty, and "Internal server error" otherwise. */
  lemma FallbackMessage(e: AppError)
    requires e.name != "ValidationError"
    requires e.name != "CastError" || e.kind != Some("ObjectId")
    ensures HandleError(e).message == (if TruthyString(e.message) then e.message.value else DefaultMessage)
    ensures HandleError(e).message == DefaultMessage <==> (!TruthyString(e.message) || e.message == Some(DefaultMessage))
  {
  }

  /** An error the controller throws with `new Error(message)` and a status code reaches
      the client with that status (500 for a zero code) and that message (the default
      one for an empty message). */
  lemma HttpErrorReply(message: string, code: int)
    ensures HandleError(HttpError(message, code))
            == ErrorReply(if code != 0 then code else 500, false, if message != "" then message else DefaultMessage)
  {
  }

  /** Only a ValidationError can be answered with an empty message. */
  lemma MessageNonEmpty(e: AppError)
    requires e.name != "ValidationError"
    ensures HandleError(e).message != ""
  {
  }
}
