/** The JavaScript error objects that the controller throws and the error handler reads.
    A property JavaScript leaves `undefined` is `None`. */
module AppErrors {
  import opened Wrappers

  datatype AppError = AppError(
    name: string,               // `err.name`: "Error" for `new Error(...)`, or a Mongoose error name
    message: Option<string>,    // `err.message`
    status: Option<int>,        // `err.status`, set by the AI client on an HTTP failure
    statusCode: Option<int>,    // `err.statusCode`, set by the controller
    kind: Option<string>,       // `err.kind`, set by Mongoose on a CastError
    fieldMessages: seq<string>) // the messages of `Object.values(err.errors)` on a ValidationError

  /** `const error = new Error(message); error.statusCode = code;` */
  function HttpError(message: string, code: int): (e: AppError)
    ensures e.name == "Error" && e.kind.None? && e.status.None? && e.fieldMessages == []
    ensures TruthyString(e.message) <==> message != ""
    ensures TruthyNumber(e.statusCode) <==> code != 0
  {
    AppError("Error", Some(message), None, Some(code), None, [])
  }

  /** JavaScript truthiness of a number that may be undefined (0 is falsy). */
  predicate TruthyNumber(n: Option<int>)
  {
    n.Some? && n.value != 0
  }

  /** JavaScript truthiness of a string that may be undefined ("" is falsy): what
      `if (!value)` tests on a request field, `err.message || ...` on a message, and
      Mongoose's `required` on a String path. */
  predicate TruthyString(s: Option<string>)
  {
    s.Some? && s.value != ""
  }
}
