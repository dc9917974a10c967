/** What the note lifecycle guarantees: which status each request gets, what the store
    holds afterwards, and how the controller, the schema and the error handler agree. */
module NoteProperties {
  import opened Wrappers
  import opened JsText
  import opened Base64Url
  import opened AppErrors
  import opened NoteSchema
  import opened ErrorHandler
  import opened NoteController

  // ---------------------------------------------------------------------------------
  // Creating a note

  /** `createNote` rejects the text exactly when it is missing, blank, or longer than 500
      code units before trimming. An accepted text is stored trimmed. */
  lemma CheckNoteTextOutcome(noteText: Option<string>)
    ensures CheckNoteText(noteText).Failure? <==>
              noteText.None? || AllWhitespace(noteText.value) || Utf16Length(noteText.value) > MaxNoteLength
    ensures CheckNoteText(noteText).Success? ==> CheckNoteText(noteText).value == Trim(noteText.value)
  {
    if noteText.Some? {
      TrimEmptyIff(noteText.value);
    }
  }

  /** Every rejection of the text reaches the client as 400. */
  lemma CheckNoteTextStatus(noteText: Option<string>)
    requires CheckNoteText(noteText).Failure?
    ensures HandleError(CheckNoteText(noteText).error).status == 400
    ensures !HandleError(CheckNoteText(noteText).error).success
  {
  }

  /** A blank text gets the "required" message, whatever its length. */
  lemma BlankTextRequired(text: string)
    requires AllWhitespace(text)
    ensures CheckNoteText(Some(text)) == Failure(HttpError(NoteTextRequiredMessage, 400))
  {
    TrimEmptyIff(text);
  }

  /** Surrounding whitespace counts toward the limit: a text whose trimmed form would fit
      the schema is still rejected when its untrimmed form is longer than 500. */
  lemma PaddingCountsTowardLimit(text: string)
    requires !AllWhitespace(text)
    requires Utf16Length(text) > MaxNoteLength
    ensures CheckNoteText(Some(text)) == Failure(HttpError(NoteTooLongMessage, 400))
  {
    TrimEmptyIff(text);
  }

  /** A text the controller accepts, stored trimmed with a bcrypt hash, always satisfies
      the schema: the trimmed text is non-empty and no longer than the untrimmed one. So
      `Note.create` never throws a ValidationError for a note `createNote` makes. */
  lemma AcceptedTextSatisfiesSchema(h: Hasher, noteText: Option<string>, password: string)
    requires Sound(h)
    requires CheckNoteText(noteText).Success?
    ensures SchemaValid(NoteDoc(Some(CheckNoteText(noteText).value), Some(h.hash(password))))
    ensures Validate(NoteDoc(Some(CheckNoteText(noteText).value), Some(h.hash(password)))) == []
  {
    TrimUtf16Shorter(noteText.value);
  }

  /** The password is the base64url form of the 9 random bytes: 12 characters from
      [A-Za-z0-9_-], no '=' padding, and it decodes back to those bytes. */
  lemma GeneratedPasswordShape(random: seq<byte>)
    requires |random| == PasswordBytes
    ensures |Encode(random)| == 12
    ensures forall k :: 0 <= k < 12 ==> IsUrlSafe(Encode(random)[k])
    ensures '=' !in Encode(random)
    ensures Decode(Encode(random)) == Some(random)
  {
    DecodeEncode(random);
  }

  // ---------------------------------------------------------------------------------
  // Unlocking a note

  /** The status of an unlock request, through the error handler: 400 without a
      password, else 404 for an unknown id, else 401 for a password that does not match,
      else 200 with exactly the stored text and creation time. */
  lemma UnlockStatus(notes: map<NoteId, Note>, h: Hasher, id: NoteId, password: Option<string>)
    ensures var resp := Respond(UnlockNote(notes, h, id, password), 200);
            && (resp.status == 400 <==> !TruthyString(password))
            && (resp.status == 404 <==> TruthyString(password) && id !in notes)
            && (resp.status == 401 <==> TruthyString(password) && id in notes
                                        && !h.compare(password.value, notes[id].passwordHash))
            && (resp.status == 200 <==> resp.success)
            && (resp.success ==> resp.data == Some(Unlocked(notes[id].noteText, notes[id].createdAt)))
            && resp.status in {200, 400, 401, 404}
  {
  }

  /** A note read back from a valid store has the text the schema allows. */
  lemma UnlockedTextWithinLimit(store: NoteCollection, h: Hasher, id: NoteId, password: Option<string>)
    requires store.Valid()
    requires UnlockNote(store.notes, h, id, password).Success?
    ensures var text := UnlockNote(store.notes, h, id, password).value.noteText;
            text != "" && Utf16Length(text) <= MaxNoteLength
  {
    assert ValidNote(store.notes[id]);
  }

  /** Creating a note and unlocking it with the password the creation returned gives back
      the trimmed text and the creation time. */
  lemma CreateThenUnlock(notes: map<NoteId, Note>, h: Hasher, noteText: Option<string>,
                         random: seq<byte>, id: NoteId, now: Timestamp)
    requires Sound(h)
    requires |random| == PasswordBytes
    requires CheckNoteText(noteText).Success?
    ensures var password := Encode(random);
            var doc := NoteDoc(Some(CheckNoteText(noteText).value), Some(h.hash(password)));
            && SchemaValid(doc)
            && UnlockNote(notes[id := Stamp(doc, now)], h, id, Some(password))
               == Success(Unlocked(Trim(noteText.value), now))
  {
    var password := Encode(random);
    var doc := NoteDoc(Some(CheckNoteText(noteText).value), Some(h.hash(password)));
    AcceptedTextSatisfiesSchema(h, noteText, password);
    CheckNoteTextOutcome(noteText);
    assert |password| == 12;
    RightPasswordAccepted(notes[id := Stamp(doc, now)], h, id, password);
  }

  /** A stored hash of a password accepts that password. */
  lemma RightPasswordAccepted(notes: map<NoteId, Note>, h: Hasher, id: NoteId, password: string)
    requires Sound(h)
    requires id in notes && notes[id].passwordHash == h.hash(password)
    requires password != ""
    ensures UnlockNote(notes, h, id, Some(password)) == Success(Unlocked(notes[id].noteText, notes[id].createdAt))
  {
    assert h.compare(password, h.hash(password));
  }

  /** With an exclusive hasher, any other non-empty password is refused with 401. */
  lemma CreateThenWrongPassword(notes: map<NoteId, Note>, h: Hasher, noteText: Option<string>,
                                random: seq<byte>, id: NoteId, now: Timestamp, guess: string)
    requires Sound(h) && Exclusive(h)
    requires |random| == PasswordBytes
    requires CheckNoteText(noteText).Success?
    requires guess != "" && guess != Encode(random)
    ensures var doc := NoteDoc(Some(CheckNoteText(noteText).value), Some(h.hash(Encode(random))));
            && SchemaValid(doc)
            && Respond(UnlockNote(notes[id := Stamp(doc, now)], h, id, Some(guess)), 200).status == 401
  {
    var password := Encode(random);
    var doc := NoteDoc(Some(CheckNoteText(noteText).value), Some(h.hash(password)));
    AcceptedTextSatisfiesSchema(h, noteText, password);
    WrongPasswordRefused(notes[id := Stamp(doc, now)], h, id, password, guess);
  }

  /** A stored hash of one password refuses every other. */
  lemma WrongPasswordRefused(notes: map<NoteId, Note>, h: Hasher, id: NoteId, password: string, guess: string)
    requires Exclusive(h)
    requires id in notes && notes[id].passwordHash == h.hash(password)
    requires guess != "" && guess != password
    ensures Respond(UnlockNote(notes, h, id, Some(guess)), 200).status == 401
  {
    assert !h.compare(guess, h.hash(password));
  }

  // ---------------------------------------------------------------------------------
  // The catch block of summarizeNote

  /** The substring tests of the catch block both fail on `m`. */
  predicate NoAiKeyword(m: string)
  {
    !Includes(m, "API key") && !Includes(m, "quota")
  }

  /** A character of each needle that the message lacks rules both needles out. */
  lemma NoAiKeywordByMissingChars(m: string, k: char, q: char)
    requires k in "API key" && k !in m
    requires q in "quota" && q !in m
    ensures NoAiKeyword(m)
  {
    MissingCharNotIncluded(m, "API key", k);
    MissingCharNotIncluded(m, "quota", q);
  }

  /** None of the messages `summarizeNote` throws itself mentions "API key" or "quota"
      (the substring test is case-sensitive, and "GEMINI_API_KEY" is not "API key"). */
  lemma ControllerMessagesNoAiKeyword()
    ensures NoAiKeyword(PasswordRequiredMessage)
    ensures NoAiKeyword(NoteNotFoundMessage)
    ensures NoAiKeyword(IncorrectPasswordMessage)
    ensures NoAiKeyword(MissingApiKeyMessage)
    ensures NoAiKeyword(EmptySummaryMessage)
  {
    PasswordRequiredNoAiKeyword();
    NotFoundNoAiKeyword();
    IncorrectPasswordNoAiKeyword();
    MissingApiKeyMessageNoAiKeyword();
    EmptySummaryMessageNoAiKeyword();
  }

  lemma PasswordRequiredNoAiKeyword()
    ensures NoAiKeyword(PasswordRequiredMessage)
  {
    NoAiKeywordByMissingChars(PasswordRequiredMessage, 'k', 't');
  }

  lemma NotFoundNoAiKeyword()
    ensures NoAiKeyword(NoteNotFoundMessage)
  {
    NoAiKeywordByMissingChars(NoteNotFoundMessage, 'k', 'q');
  }

  lemma IncorrectPasswordNoAiKeyword()
    ensures NoAiKeyword(IncorrectPasswordMessage)
  {
    NoAiKeywordByMissingChars(IncorrectPasswordMessage, 'k', 'q');
  }

  lemma MissingApiKeyMessageNoAiKeyword()
    ensures NoAiKeyword(MissingApiKeyMessage)
  {
    assert 'k' !in "AI service is not " && 'q' !in "AI service is not ";
    assert 'k' !in "configured " && 'q' !in "configured ";
    assert 'k' !in "(GEMINI_API_KEY missing)" && 'q' !in "(GEMINI_API_KEY missing)";
    NoAiKeywordByMissingChars(MissingApiKeyMessage, 'k', 'q');
  }

  lemma EmptySummaryMessageNoAiKeyword()
    ensures NoAiKeyword(EmptySummaryMessage)
  {
    assert 'k' !in "AI returned an empty " && 'q' !in "AI returned an empty ";
    assert 'k' !in "response. Please " && 'q' !in "response. Please ";
    assert 'k' !in "try again." && 'q' !in "try again.";
    NoAiKeywordByMissingChars(EmptySummaryMessage, 'k', 'q');
  }

  /** Every error leaves the catch block with a status code set, and its status is 500,
      429, 502 or the code it already carried. */
  lemma CatchAiErrorStatus(e: AppError)
    ensures TruthyNumber(CatchAiError(e).statusCode)
    ensures CatchAiError(e).statusCode.value in {500, 429, 502}
            || CatchAiError(e).statusCode == e.statusCode
    ensures CatchAiError(e).name == e.name && CatchAiError(e).kind == e.kind
  {
  }

  /** The precedence of the catch block: authentication before quota before "no status
      code", and an error matching none of them passes through unchanged. */
  lemma CatchAiErrorPrecedence(e: AppError)
    ensures (MessageIncludes(e, "API key") || e.status == Some(401)) ==>
              && CatchAiError(e).statusCode == Some(500)
              && CatchAiError(e).message == Some(AiAuthFailedMessage)
    ensures !(MessageIncludes(e, "API key") || e.status == Some(401))
            && (MessageIncludes(e, "quota") || e.status == Some(429)) ==>
              && CatchAiError(e).statusCode == Some(429)
              && CatchAiError(e).message == Some(AiRateLimitMessage)
    ensures !(MessageIncludes(e, "API key") || e.status == Some(401))
            && !(MessageIncludes(e, "quota") || e.status == Some(429))
            && !TruthyNumber(e.statusCode) ==>
              && CatchAiError(e).statusCode == Some(502)
              && CatchAiError(e).message == Some(AiFailedMessage)
    ensures !(MessageIncludes(e, "API key") || e.status == Some(401))
            && !(MessageIncludes(e, "quota") || e.status == Some(429))
            && TruthyNumber(e.statusCode) ==>
              CatchAiError(e) == e
  {
  }

  /** An ObjectId CastError that reached the catch block is still answered 404 by the error
      handler, whatever status code and message the catch block set: 502, or 429 or 500
      when the id quoted in the CastError's message contains "quota" or "API key". */
  lemma CastErrorSurvivesCatch(e: AppError)
    requires e.name == "CastError" && e.kind == Some("ObjectId")
    ensures HandleError(CatchAiError(e)) == ErrorReply(404, false, CastErrorMessage)
  {
  }

  // ---------------------------------------------------------------------------------
  // Summarising a note

  /** The catch block leaves an error the controller threw itself as it is. */
  lemma CatchKeepsOwnError(m: string, code: int)
    requires NoAiKeyword(m) && code != 0
    ensures CatchAiError(HttpError(m, code)) == HttpError(m, code)
  {
  }

  /** `summarizeNote` makes the same three checks as `unlockNote`, in the same order,
      and fails them with the very same error: the catch block leaves those errors alone. */
  lemma SummarizeSameGuards(notes: map<NoteId, Note>, h: Hasher, id: NoteId, password: Option<string>,
                            apiKeyPresent: bool, ai: string -> Completion)
    requires UnlockNote(notes, h, id, password).Failure?
    ensures SummarizeNote(notes, h, id, password, apiKeyPresent, ai) == UnlockNote(notes, h, id, password)
  {
    if !TruthyString(password) {
      PasswordRequiredNoAiKeyword();
      CatchKeepsOwnError(PasswordRequiredMessage, 400);
    } else if id !in notes {
      NotFoundNoAiKeyword();
      CatchKeepsOwnError(NoteNotFoundMessage, 404);
    } else {
      IncorrectPasswordNoAiKeyword();
      CatchKeepsOwnError(IncorrectPasswordMessage, 401);
    }
  }

  /** The AI is consulted only after the three checks pass and the API key is present:
      before that, the answer does not depend on what the AI would say. */
  lemma GuardsBeforeAiCall(notes: map<NoteId, Note>, h: Hasher, id: NoteId, password: Option<string>,
                           apiKeyPresent: bool, ai1: string -> Completion, ai2: string -> Completion)
    requires UnlockNote(notes, h, id, password).Failure? || !apiKeyPresent
    ensures SummarizeNote(notes, h, id, password, apiKeyPresent, ai1)
            == SummarizeNote(notes, h, id, password, apiKeyPresent, ai2)
  {
  }

  /** Once the checks pass, a missing API key is answered 500. */
  lemma SummarizeWithoutApiKey(notes: map<NoteId, Note>, h: Hasher, id: NoteId, password: string,
                               ai: string -> Completion)
    requires UnlockNote(notes, h, id, Some(password)).Success?
    ensures Respond(SummarizeNote(notes, h, id, Some(password), false, ai), 200)
            == HttpResponse(500, false, None, Some(MissingApiKeyMessage))
  {
    MissingApiKeyMessageNoAiKeyword();
    CatchKeepsOwnError(MissingApiKeyMessage, 500);
  }

  /** Once the checks pass and the key is present, an AI failure is answered 500 when it
      is about the API key or has status 401, else 429 when it is about the quota or has
      status 429, else 502. */
  lemma SummarizeAiFailure(notes: map<NoteId, Note>, h: Hasher, id: NoteId, password: string,
                           ai: string -> Completion)
    requires UnlockNote(notes, h, id, Some(password)).Success?
    requires ai(notes[id].noteText).Failed?
    ensures var answer := ai(notes[id].noteText);
            var e := AppError("Error", answer.message, answer.status, None, None, []);
            Respond(SummarizeNote(notes, h, id, Some(password), true, ai), 200).status
            == (if MessageIncludes(e, "API key") || answer.status == Some(401) then 500
                else if MessageIncludes(e, "quota") || answer.status == Some(429) then 429
                else 502)
  {
  }

  /** Once the checks pass and the key is present, a blank AI answer is answered 502. */
  lemma SummarizeBlankAnswer(notes: map<NoteId, Note>, h: Hasher, id: NoteId, password: string,
                             ai: string -> Completion)
    requires UnlockNote(notes, h, id, Some(password)).Success?
    requires ai(notes[id].noteText).Text? && AllWhitespace(ai(notes[id].noteText).text)
    ensures Respond(SummarizeNote(notes, h, id, Some(password), true, ai), 200)
            == HttpResponse(502, false, None, Some(EmptySummaryMessage))
  {
    var summary := ai(notes[id].noteText).text;
    TrimEmptyIff(summary);
    assert SummarizeAttempt(notes, h, id, Some(password), true, ai) == Failure(HttpError(EmptySummaryMessage, 502));
    EmptySummaryMessageNoAiKeyword();
    CatchKeepsOwnError(EmptySummaryMessage, 502);
    assert SummarizeNote(notes, h, id, Some(password), true, ai) == Failure(HttpError(EmptySummaryMessage, 502));
    HttpErrorReply(EmptySummaryMessage, 502);
  }

  /** Once the checks pass and the key is present, any other AI answer is answered 200
      with the answer trimmed. */
  lemma SummarizeAnswer(notes: map<NoteId, Note>, h: Hasher, id: NoteId, password: string,
                        ai: string -> Completion)
    requires UnlockNote(notes, h, id, Some(password)).Success?
    requires ai(notes[id].noteText).Text? && !AllWhitespace(ai(notes[id].noteText).text)
    ensures Respond(SummarizeNote(notes, h, id, Some(password), true, ai), 200)
            == HttpResponse(200, true, Some(Summary(Trim(ai(notes[id].noteText).text))), None)
  {
    TrimEmptyIff(ai(notes[id].noteText).text);
  }

  /** A summary request never answers a status outside the documented set. */
  lemma SummarizeStatusSet(notes: map<NoteId, Note>, h: Hasher, id: NoteId, password: Option<string>,
                           apiKeyPresent: bool, ai: string -> Completion)
    ensures Respond(SummarizeNote(notes, h, id, password, apiKeyPresent, ai), 200).status
            in {200, 400, 401, 404, 429, 500, 502}
  {
    if UnlockNote(notes, h, id, password).Failure? {
      SummarizeSameGuards(notes, h, id, password, apiKeyPresent, ai);
      UnlockStatus(notes, h, id, password);
    } else if !apiKeyPresent {
      SummarizeWithoutApiKey(notes, h, id, password.value, ai);
    } else if ai(notes[id].noteText).Failed? {
      SummarizeAiFailure(notes, h, id, password.value, ai);
    } else if AllWhitespace(ai(notes[id].noteText).text) {
      SummarizeBlankAnswer(notes, h, id, password.value, ai);
    } else {
      SummarizeAnswer(notes, h, id, password.value, ai);
    }
  }

  // ---------------------------------------------------------------------------------
  // The whole lifecycle through the note collection

  /** Create a note, unlock it with the password returned, summarise it: 201, then 200
      with the trimmed text, then 200 with the AI's trimmed answer. */
  method CreateUnlockSummarize(h: Hasher, text: string, random: seq<byte>, id: NoteId, now: Timestamp,
                               ai: string -> Completion)
    returns (created: HttpResponse, unlocked: HttpResponse, summarized: HttpResponse)
    requires Sound(h)
    requires |random| == PasswordBytes
    requires !AllWhitespace(text) && Utf16Length(text) <= MaxNoteLength
    requires ai(Trim(text)).Text? && !AllWhitespace(ai(Trim(text)).text)
    ensures created == HttpResponse(201, true, Some(Created(id, NoteUrl(id), Encode(random))), None)
    ensures unlocked == HttpResponse(200, true, Some(Unlocked(Trim(text), now)), None)
    ensures summarized == HttpResponse(200, true, Some(Summary(Trim(ai(Trim(text)).text))), None)
  {
    var store := new NoteCollection();
    CheckNoteTextOutcome(Some(text));
    AcceptedTextSatisfiesSchema(h, Some(text), Encode(random));
    var r := store.CreateNote(h, Some(text), random, id, now);
    created := Respond(r, 201);
    var password := Encode(random);
    CreateThenUnlock(map[], h, Some(text), random, id, now);
    unlocked := Respond(UnlockNote(store.notes, h, id, Some(password)), 200);
    SummarizeAnswer(store.notes, h, id, password, ai);
    summarized := Respond(SummarizeNote(store.notes, h, id, Some(password), true, ai), 200);
  }
}
