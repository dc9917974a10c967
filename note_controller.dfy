/** The note controller: creating a note (which stores one record), and unlocking or
    summarising it (which only read the store). Every error a handler throws goes to
    the error handler; `Respond` puts the two together into the HTTP response. */
module NoteController {
  import opened Wrappers
  import opened JsText
  import opened Base64Url
  import opened AppErrors
  import opened NoteSchema
  import opened ErrorHandler

  type NoteId = string

  /** `bcrypt.hash` and `bcrypt.compare`, left abstract. */
  datatype Hasher = Hasher(hash: string -> string, compare: (string, string) -> bool)

  /** What bcrypt provides and the model relies on: a hash is a non-empty string that
      matches the password it was made from. */
  ghost predicate Sound(h: Hasher)
  {
    forall p :: h.hash(p) != "" && h.compare(p, h.hash(p))
  }

  /** An idealisation of bcrypt: no other password matches a hash. */
  ghost predicate Exclusive(h: Hasher)
  {
    forall p, q :: p != q ==> !h.compare(q, h.hash(p))
  }

  /** What the AI model call yields: the response text, or a thrown error with its
      `message` and HTTP `status`. */
  datatype Completion = Text(text: string) | Failed(message: Option<string>, status: Option<int>)

  /** The `data` of a successful response. */
  datatype Payload =
    | Created(noteId: NoteId, noteUrl: string, password: string)
    | Unlocked(noteText: string, createdAt: Timestamp)
    | Summary(summary: string)

  /** An HTTP response with its JSON body `{success, data?, message?}`. */
  datatype HttpResponse = HttpResponse(status: int, success: bool, data: Option<Payload>, message: Option<string>)

  // Messages of the errors the controller throws. Those that NoteProperties shows free of
  // "API key" and "quota" are written as concatenations of short literals: Dafny decides
  // that a character is absent from a short literal cheaply, and from a long one not at all.
  const NoteTextRequiredMessage := "Note text is required " + "and cannot be empty"
  const NoteTooLongMessage := "Note must be 500 " + "characters or less"
  const PasswordRequiredMessage := "Password is required"
  const NoteNotFoundMessage := "Note not found"
  const IncorrectPasswordMessage := "Incorrect password"
  const MissingApiKeyMessage := "AI service is not " + "configured " + "(GEMINI_API_KEY missing)"
  const EmptySummaryMessage := "AI returned an empty " + "response. Please " + "try again."
  const AiAuthFailedMessage := "AI service authentication failed (Invalid Gemini Key)"
  const AiRateLimitMessage := "AI service rate limit reached. Please try again later or check your Gemini quota."
  const AiFailedMessage := "AI summarization failed. Please try again."

  /** Number of random bytes behind a password. */
  const PasswordBytes := 9

  /** The path of the page that shows a note. */
  function NoteUrl(id: NoteId): string
  {
    "/note/" + id
  }

  /** The two checks `createNote` makes on `noteText` before anything else: present and
      not blank once trimmed, then at most 500 code units counting the untrimmed text.
      On success, the text to be stored, which is the trimmed one. */
  function CheckNoteText(noteText: Option<string>): (r: Result<string, AppError>)
    ensures r.Failure? ==> r.error.name == "Error" && r.error.statusCode == Some(400)
    ensures r.Success? ==> && r.value != "" && Utf16Length(r.value) <= MaxNoteLength
                           && !IsWhitespace(r.value[0]) && !IsWhitespace(r.value[|r.value| - 1])
  {
    if !TruthyString(noteText) || Trim(noteText.value) == "" then
      Failure(HttpError(NoteTextRequiredMessage, 400))
    else if Utf16Length(noteText.value) > MaxNoteLength then
      Failure(HttpError(NoteTooLongMessage, 400))
    else
      TrimUtf16Shorter(noteText.value);
      Success(Trim(noteText.value))
  }

  /** All notes, keyed by id: the MongoDB collection behind the `Note` model. */
  class NoteCollection {
    var notes: map<NoteId, Note>

    /** Every stored record satisfies the schema. */
    ghost predicate Valid()
      reads this
    {
      forall id :: id in notes ==> ValidNote(notes[id])
    }

    constructor ()
      ensures Valid() && notes == map[]
    {
      notes := map[];
    }

    /** `Note.create(doc)` under the id the driver generated: validates the document,
        stamps it and stores it, or throws the ValidationError and stores nothing. */
    method Insert(id: NoteId, doc: NoteDoc, now: Timestamp) returns (r: Result<Note, AppError>)
      requires Valid() && id !in notes
      modifies this
      ensures Valid()
      ensures r.Success? <==> SchemaValid(doc)
      ensures r.Success? ==> r.value == Stamp(doc, now) && notes == old(notes)[id := r.value]
      ensures r.Failure? ==> r.error == SchemaError(doc) && notes == old(notes)
    {
      if !SchemaValid(doc) {
        return Failure(SchemaError(doc));
      }
      var note := Note(doc.noteText.value, doc.passwordHash.value, now, now);
      notes := notes[id := note];
      r := Success(note);
    }

    /** `createNote`: checks the text, turns `random` (the 9 bytes from the system's
        secure random source) into the password, hashes it, stores the trimmed text with
        the hash under the fresh id `id`, and answers the id, the note's path and the
        plaintext password. A failed check stores nothing. */
    method CreateNote(h: Hasher, noteText: Option<string>, random: seq<byte>, id: NoteId, now: Timestamp)
      returns (r: Result<Payload, AppError>)
      requires Valid() && id !in notes
      requires |random| == PasswordBytes
      modifies this
      ensures Valid()
      ensures CheckNoteText(noteText).Failure? ==>
                r == Failure(CheckNoteText(noteText).error) && notes == old(notes)
      ensures CheckNoteText(noteText).Success? ==>
                var password := Encode(random);
                var doc := NoteDoc(Some(CheckNoteText(noteText).value), Some(h.hash(password)));
                if SchemaValid(doc) then
                  && r == Success(Created(id, NoteUrl(id), password))
                  && notes == old(notes)[id := Stamp(doc, now)]
                else
                  r == Failure(SchemaError(doc)) && notes == old(notes)
    {
      var checked := CheckNoteText(noteText);
      if checked.Failure? {
        return Failure(checked.error);
      }
      var plainPassword := Encode(random);
      var passwordHash := h.hash(plainPassword);
      var saved := Insert(id, NoteDoc(Some(checked.value), Some(passwordHash)), now);
      if saved.Failure? {
        return Failure(saved.error);
      }
      r := Success(Created(id, NoteUrl(id), plainPassword));
    }
  }

  /** `unlockNote`: the password must be given, the note must exist and the password
      must match its hash, checked in that order; then the stored text and creation time. */
  function UnlockNote(notes: map<NoteId, Note>, h: Hasher, id: NoteId, password: Option<string>)
    : (r: Result<Payload, AppError>)
    ensures r.Success? ==> && TruthyString(password) && id in notes
                           && h.compare(password.value, notes[id].passwordHash)
                           && r.value == Unlocked(notes[id].noteText, notes[id].createdAt)
    ensures r.Failure? ==> && r.error.name == "Error" && r.error.statusCode.Some?
                           && r.error.statusCode.value in {400, 401, 404}
  {
    if !TruthyString(password) then
      Failure(HttpError(PasswordRequiredMessage, 400))
    else if id !in notes then
      Failure(HttpError(NoteNotFoundMessage, 404))
    else if !h.compare(password.value, notes[id].passwordHash) then
      Failure(HttpError(IncorrectPasswordMessage, 401))
    else
      Success(Unlocked(notes[id].noteText, notes[id].createdAt))
  }

  /** The `try` block of `summarizeNote`: the same three checks as `unlockNote`, then the
      API key, then the AI call on the note's text, whose answer must not be blank. */
  function SummarizeAttempt(notes: map<NoteId, Note>, h: Hasher, id: NoteId, password: Option<string>,
                            apiKeyPresent: bool, ai: string -> Completion): (r: Result<string, AppError>)
    ensures UnlockNote(notes, h, id, password).Failure? ==> r == Failure(UnlockNote(notes, h, id, password).error)
    ensures r.Success? ==> && UnlockNote(notes, h, id, password).Success? && apiKeyPresent
                           && ai(notes[id].noteText).Text?
                           && r.value == Trim(ai(notes[id].noteText).text) && r.value != ""
  {
    if !TruthyString(password) then
      Failure(HttpError(PasswordRequiredMessage, 400))
    else if id !in notes then
      Failure(HttpError(NoteNotFoundMessage, 404))
    else if !h.compare(password.value, notes[id].passwordHash) then
      Failure(HttpError(IncorrectPasswordMessage, 401))
    else if !apiKeyPresent then
      Failure(HttpError(MissingApiKeyMessage, 500))
    else
      match ai(notes[id].noteText)
      case Failed(message, status) =>
        Failure(AppError("Error", message, status, None, None, []))
      case Text(summary) =>
        if summary == "" || Trim(summary) == "" then
          Failure(HttpError(EmptySummaryMessage, 502))
        else
          Success(Trim(summary))
  }

  /** `error.message?.includes(needle)` */
  predicate MessageIncludes(e: AppError, needle: string)
  {
    e.message.Some? && Includes(e.message.value, needle)
  }

  /** The `catch` block of `summarizeNote`, which rewrites the error's message and status
      code in place: an authentication failure becomes 500, a quota failure 429, an error
      with no status code 502, and any other error keeps its status code. */
  function CatchAiError(e: AppError): (r: AppError)
    ensures TruthyNumber(r.statusCode)
    ensures r.name == e.name && r.kind == e.kind && r.status == e.status && r.fieldMessages == e.fieldMessages
    ensures || r == e
            || (r.statusCode == Some(500) && r.message == Some(AiAuthFailedMessage))
            || (r.statusCode == Some(429) && r.message == Some(AiRateLimitMessage))
            || (r.statusCode == Some(502) && r.message == Some(AiFailedMessage))
  {
    if MessageIncludes(e, "API key") || e.status == Some(401) then
      e.(message := Some(AiAuthFailedMessage), statusCode := Some(500))
    else if MessageIncludes(e, "quota") || e.status == Some(429) then
      e.(message := Some(AiRateLimitMessage), statusCode := Some(429))
    else if !TruthyNumber(e.statusCode) then
      e.(message := Some(AiFailedMessage), statusCode := Some(502))
    else
      e
  }

  /** `summarizeNote`: the attempt, with every error passed through the catch block. */
  function SummarizeNote(notes: map<NoteId, Note>, h: Hasher, id: NoteId, password: Option<string>,
                         apiKeyPresent: bool, ai: string -> Completion): (r: Result<Payload, AppError>)
    ensures r.Success? ==> r.value.Summary? && r.value.summary != ""
    ensures r.Failure? ==> TruthyNumber(r.error.statusCode)
  {
    match SummarizeAttempt(notes, h, id, password, apiKeyPresent, ai)
    case Success(summary) => Success(Summary(summary))
    case Failure(e) => Failure(CatchAiError(e))
  }

  /** What the client receives: `okStatus` and `{success: true, data}` for a handler that
      answered, the error handler's reply for one that threw. */
  function Respond(outcome: Result<Payload, AppError>, okStatus: int): (r: HttpResponse)
    ensures r.success <==> outcome.Success?
    ensures outcome.Success? ==> r.status == okStatus && r.data == Some(outcome.value) && r.message.None?
    ensures outcome.Failure? ==> && r.data.None? && r.status == HandleError(outcome.error).status
                                 && r.message == Some(HandleError(outcome.error).message)
  {
    match outcome
    case Success(data) => HttpResponse(okStatus, true, Some(data), None)
    case Failure(e) =>
      var reply := HandleError(e);
      HttpResponse(reply.status, reply.success, None, Some(reply.message))
  }
}
