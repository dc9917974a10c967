/** The Mongoose schema of a stored note: `noteText` is a required string of at most 500
    characters, `passwordHash` a required string, and every record carries the creation
    and update timestamps that Mongoose sets when it stores it. */
module NoteSchema {
  import opened Wrappers
  import opened JsText
  import opened AppErrors
  import opened ErrorHandler

  const MaxNoteLength := 500

  /** Milliseconds since the epoch. */
  type Timestamp = nat

  /** A document handed to `Note.create`; a missing property is `None`. */
  datatype NoteDoc = NoteDoc(noteText: Option<string>, passwordHash: Option<string>)

  /** A stored note record. */
  datatype Note = Note(noteText: string, passwordHash: string, createdAt: Timestamp, updatedAt: Timestamp)

  /** A failed validator: the schema path and its message. */
  datatype FieldError = FieldError(path: string, message: string)

  const NoteTextRequired := "Note text is required"
  const NoteTextTooLong := "Note must be 500 characters or less"
  /** Mongoose's default message for `required: true`. */
  const PasswordHashRequired := "Path `passwordHash` is required."

  /** The validators of each path, in schema order. A path reports at most one failure,
      and validators other than `required` do not run on a missing value. Mongoose's
      `required` on a String path rejects `undefined` and "", which is JavaScript's
      falsiness of a string. The length is JavaScript's, in UTF-16 code units. */
  function Validate(doc: NoteDoc): (errs: seq<FieldError>)
    ensures |errs| <= 2
    ensures forall k :: 0 <= k < |errs| ==> errs[k].path == "noteText" || errs[k].path == "passwordHash"
    ensures |errs| == 2 ==> errs[0].path == "noteText" && errs[1].path == "passwordHash"
    ensures forall k :: 0 <= k < |errs| ==> errs[k].message != ""
  {
    (if !TruthyString(doc.noteText) then [FieldError("noteText", NoteTextRequired)]
     else if Utf16Length(doc.noteText.value) > MaxNoteLength then [FieldError("noteText", NoteTextTooLong)]
     else [])
    + (if !TruthyString(doc.passwordHash) then [FieldError("passwordHash", PasswordHashRequired)] else [])
  }

  /** The constraints the schema states, written directly. */
  predicate SchemaValid(doc: NoteDoc)
  {
    && TruthyString(doc.noteText)
    && Utf16Length(doc.noteText.value) <= MaxNoteLength
    && TruthyString(doc.passwordHash)
  }

  /** A stored record satisfies the schema, and was not updated before it was created. */
  predicate ValidNote(n: Note)
  {
    && SchemaValid(NoteDoc(Some(n.noteText), Some(n.passwordHash)))
    && n.createdAt <= n.updatedAt
  }

  /** The validators fail exactly when the schema's constraints do not hold. */
  lemma ValidateIffSchemaValid(doc: NoteDoc)
    ensures Validate(doc) == [] <==> SchemaValid(doc)
  {
  }

  /** `Object.values(err.errors).map((e) => e.message)` */
  function Messages(errs: seq<FieldError>): (ms: seq<string>)
    ensures |ms| == |errs|
    ensures forall k :: 0 <= k < |errs| ==> ms[k] == errs[k].message
  {
    if errs == [] then [] else [errs[0].message] + Messages(errs[1..])
  }

  /** The entries of a ValidationError's own message, one `path: message` per failure. */
  function Described(errs: seq<FieldError>): (ds: seq<string>)
    ensures |ds| == |errs|
    ensures forall k :: 0 <= k < |errs| ==> ds[k] == errs[k].path + ": " + errs[k].message
  {
    if errs == [] then [] else [errs[0].path + ": " + errs[0].message] + Described(errs[1..])
  }

  /** The ValidationError `Note.create` throws for a document that fails validation;
      `errors` holds one entry per failing path. */
  function SchemaError(doc: NoteDoc): (e: AppError)
    ensures e.name == "ValidationError"
    ensures |e.fieldMessages| == |Validate(doc)|
    ensures SchemaValid(doc) <==> e.fieldMessages == []
    ensures forall k :: 0 <= k < |e.fieldMessages| ==> e.fieldMessages[k] != ""
  {
    ValidateIffSchemaValid(doc);
    AppError("ValidationError",
             Some("Note validation failed: " + Join(Described(Validate(doc)), ", ")),
             None, None, None,
             Messages(Validate(doc)))
  }

  /** `timestamps: true`: a record stored at `now` is created and updated at `now`. */
  function Stamp(doc: NoteDoc, now: Timestamp): (n: Note)
    requires SchemaValid(doc)
    ensures ValidNote(n)
    ensures n.noteText == doc.noteText.value && n.passwordHash == doc.passwordHash.value
    ensures n.createdAt == now && n.updatedAt == now
  {
    Note(doc.noteText.value, doc.passwordHash.value, now, now)
  }

  /** The error handler answers a document the schema rejects with 400 and a non-empty
      message naming the failed constraints, the one for `noteText` first. */
  lemma SchemaErrorResponse(doc: NoteDoc)
    requires !SchemaValid(doc)
    ensures HandleError(SchemaError(doc)).status == 400
    ensures HandleError(SchemaError(doc)).message != ""
    ensures !TruthyString(doc.noteText) ==>
              HandleError(SchemaError(doc)).message[..|NoteTextRequired|] == NoteTextRequired
  {
    var ms := Messages(Validate(doc));
    assert ms != [] && ms[0] != "";
    if |ms| > 1 {
      assert Join(ms, ", ") == ms[0] + ", " + Join(ms[1..], ", ");
    }
  }
}
