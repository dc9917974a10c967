# Secret notes: a verified model of the note lifecycle

The server of this system stores short text notes behind a generated password.
`POST /api/notes` checks the text, generates a 12-character password from 9 random
bytes, stores the trimmed text with a bcrypt hash of the password, and answers 201
with the note's id, its path `/note/<id>` and the plaintext password. That is the only
time the password is shown. `POST /api/notes/:id/unlock` answers the text and its
creation time to anyone who presents the password. `POST /api/notes/:id/summarize`
does the same checks and then asks Google's Gemini model for a bullet-point summary.
Every error a handler throws is meant to reach one central error handler, which
chooses the HTTP status and the message (`server/server.js:35-36`).

This project models that core in Dafny:

- `js_text.dfy` (`JsText`): the JavaScript string operations the server relies on.
  These are `trim` with ECMAScript's whitespace set, `.length` in UTF-16 code units,
  `includes`, and `join`.
- `base64url.dfy` (`Base64Url`): the unpadded URL-safe base 64 encoding of section 5
  of RFC 4648, which is how the password is made. It comes with a decoder and the
  round-trip proof.
- `app_error.dfy` (`AppErrors`): the JavaScript error object the handlers throw and
  read. Each property may be undefined, and JavaScript truthiness is written out.
- `error_handler.dfy` (`ErrorHandler`): `server/middleware/errorHandler.js`.
- `note_schema.dfy` (`NoteSchema`): `server/models/Note.js`. It holds the schema's
  validators, the ValidationError that `Note.create` throws, and the timestamps.
- `note_controller.dfy` (`NoteController`): `server/controllers/noteController.js`.
  The note collection is a class holding a map from id to record. Its `CreateNote`
  method adds a record, and `Insert` models `Note.create`. Unlocking and summarising
  only read the store, so they are functions of the map. `Respond` passes a thrown
  error through the error handler.
- `note_properties.dfy` (`NoteProperties`): the lemmas about the lifecycle, plus a
  create → unlock → summarize run proved from the method contracts alone.
- `wrappers.dfy` (`Wrappers`): `Option` and `Result`.

The model treats these collaborators as parameters:

- bcrypt is a pair of functions, `Hasher(hash, compare)`. The lemmas that need bcrypt's
  guarantee assume `Sound(h)`: a hash is non-empty and matches its own password.
  The wrong-password lemma also assumes `Exclusive(h)`: no other password matches.
- The 9 random bytes, the id MongoDB assigns, and the clock are inputs.
- Whether `GEMINI_API_KEY` is set is a boolean.
- The Gemini call is a function from the note text to a `Completion`. A `Completion`
  is either the response text or a thrown error carrying `message` and `status`.

Some facts about the code that the model keeps:

- The limit of 500 is checked on the untrimmed text, so surrounding whitespace
  counts toward it (`PaddingCountsTowardLimit`).
- Lengths are JavaScript's `.length`, in UTF-16 code units, not in characters.
- The schema defines no expiry, so notes never expire.
- The creation response names the id `noteId`.
- The error handler sends the error's own message to the client, whatever it is
  (`FallbackMessage`).

## Model

| member | source | states |
|---|---|---|
| `JsText.TrimStart` | server/controllers/noteController.js:15 | the result is a suffix of the input; everything cut off is whitespace; the result does not start with whitespace |
| `JsText.IsWhitespace` | server/controllers/noteController.js:15 | the characters `trim` removes are ECMAScript's WhiteSpace and LineTerminator; each is one UTF-16 code unit |
| `JsText.TrimEnd` | server/controllers/noteController.js:15 | the result is a prefix of the input; everything cut off is whitespace; the result does not end with whitespace |
| `JsText.Trim` | server/controllers/noteController.js:35 | the trimmed text is no longer than the input, and neither starts nor ends with whitespace |
| `JsText.TrimIsSlice` | server/controllers/noteController.js:35 | `trim` keeps one contiguous slice of its input and drops only whitespace on either side |
| `JsText.TrimEmptyIff` | server/controllers/noteController.js:15 | `s.trim().length === 0` exactly when every character of `s` is whitespace |
| `JsText.TrimIdempotent` | server/controllers/noteController.js:35 | trimming twice gives the same text as trimming once |
| `JsText.Utf16Length` | server/controllers/noteController.js:21 | JavaScript's `.length` lies between the number of characters and twice that number |
| `JsText.Utf16LengthAppend` | server/controllers/noteController.js:21 | JavaScript's length of a concatenation is the sum of the lengths |
| `JsText.TrimUtf16Shorter` | server/controllers/noteController.js:21-35 | the trimmed text is no longer than the raw text in UTF-16 code units |
| `JsText.IncludesIff` | server/controllers/noteController.js:156-159 | the recursive `includes` holds exactly when the needle occurs at some position |
| `JsText.Includes` | server/controllers/noteController.js:156-159 | `s.includes(t)`: the empty needle is always found, and a found needle is no longer than the haystack; `IncludesIff` ties it to the positional definition |
| `JsText.MissingCharNotIncluded` | server/controllers/noteController.js:156-159 | a needle containing a character the haystack lacks is not included |
| `JsText.Join` | server/middleware/errorHandler.js:6-9 | `parts.join(sep)` is empty for no parts, starts with the first part and ends with the last one; `JoinLength` gives its length |
| `JsText.JoinLength` | server/middleware/errorHandler.js:6-9 | the joined message is the sum of the parts' lengths plus one separator between each two parts |
| `Base64Url.CharOf` | server/controllers/noteController.js:28 | every six-bit value maps to a character of the URL- and filename-safe alphabet |
| `Base64Url.ValueOfCharOf` | server/controllers/noteController.js:28 | the alphabet is decoded back to the value it encodes |
| `Base64Url.Encode` | server/controllers/noteController.js:28 | `n` bytes encode to 4·⌊n/3⌋ characters, plus 2 or 3 for a final partial group, all from [A-Za-z0-9_-] |
| `Base64Url.EncodeFirstGroup` | server/controllers/noteController.js:28 | encoding takes the bytes three at a time, each group on its own |
| `Base64Url.DecodeFullGroup` | server/controllers/noteController.js:28 | the four characters of a full group decode to its three bytes |
| `Base64Url.DecodeFullGroupPrefix` | server/controllers/noteController.js:28 | four characters that decode on their own decode the same way in front of any decodable rest |
| `Base64Url.DecodeGroupThenRest` | server/controllers/noteController.js:28 | the first group's encoding in front of a string decoding to the remaining bytes decodes to all of them |
| `Base64Url.DecodeTwoBytes` | server/controllers/noteController.js:28 | a final group of two bytes decodes back to them |
| `Base64Url.DecodeOneByte` | server/controllers/noteController.js:28 | a final group of one byte decodes back to it |
| `Base64Url.GroupRoundTrip` | server/controllers/noteController.js:28 | the bit arithmetic of one group of three bytes is undone by decoding |
| `Base64Url.DecodeEncode` | server/controllers/noteController.js:28 | decoding undoes encoding for every byte sequence |
| `Base64Url.Decode` | server/controllers/noteController.js:28 | the reference decoder of the password alphabet, which the server itself never calls: a length of 1 modulo 4 is refused, and a decoded string yields three bytes per four characters and one less than the characters of a final partial group; `DecodeEncode` shows it inverts `Encode` |
| `Base64Url.DecodedLengthOfEncoded` | server/controllers/noteController.js:28 | the encoding of `n` bytes never has a length of 1 modulo 4, and decodes to a length of `n` again |
| `Base64Url.NoPadding` | server/controllers/noteController.js:27-28 | the encoding never contains `=` |
| `ErrorHandler.HandleError` | server/middleware/errorHandler.js:1-26 | every error response has `success: false` |
| `ErrorHandler.ValidationErrorPrecedence` | server/middleware/errorHandler.js:5-11 | a ValidationError is answered 400 with its field messages joined by ", "; its kind, status code and message play no part |
| `ErrorHandler.CastErrorPrecedence` | server/middleware/errorHandler.js:14-19 | an ObjectId CastError is answered 404 "Note not found" whatever status code or message it carries |
| `ErrorHandler.FallbackStatus` | server/middleware/errorHandler.js:21 | any other error is answered its own status code when that is set and non-zero, and 500 otherwise |
| `ErrorHandler.MessageNonEmpty` | server/middleware/errorHandler.js:14-25 | outside the ValidationError branch the message is never empty |
| `ErrorHandler.FallbackMessage` | server/middleware/errorHandler.js:21-25 | outside the two Mongoose branches the message is the error's own message when set and non-empty, and "Internal server error" otherwise |
| `ErrorHandler.HttpErrorReply` | server/middleware/errorHandler.js:21-25 | an error the controller throws with a message and a status code is answered that status (500 for a zero code) and that message (the default for an empty one) |
| `AppErrors.HttpError` | server/controllers/noteController.js:16-18 | `new Error(message)` with `statusCode` set: named "Error", with no `status`, `kind` or field errors; its message and status code are truthy exactly when non-empty and non-zero |
| `NoteSchema.ValidateIffSchemaValid` | server/models/Note.js:5-13 | the validators report no error exactly when `noteText` is present, non-empty and at most 500 long and `passwordHash` is present and non-empty |
| `NoteSchema.Validate` | server/models/Note.js:5-13 | at most one failure per path, `noteText` before `passwordHash`, each with a non-empty message |
| `NoteSchema.Messages` | server/middleware/errorHandler.js:6 | one message per field error, in the same order |
| `NoteSchema.Described` | server/middleware/errorHandler.js:2 | the ValidationError's own message, which the handler only logs, lists one `path: message` entry per failure, in order |
| `NoteSchema.Stamp` | server/models/Note.js:15-17 | a record stored at time `now` satisfies the schema and is created and updated at `now` |
| `NoteSchema.SchemaError` | server/models/Note.js:3-18 | the error `Note.create` throws is a ValidationError with one non-empty message per failing path, and none exactly when the document satisfies the schema |
| `NoteSchema.SchemaErrorResponse` | server/models/Note.js:5-13 | a rejected document is answered 400 with a non-empty message, which starts with the `noteText` message when that field is missing |
| `NoteController.NoteCollection.Insert` | server/controllers/noteController.js:34-37 | `Note.create` stores exactly the stamped record under the new id when the document satisfies the schema; otherwise it throws the ValidationError and stores nothing; every stored record stays valid |
| `NoteController.NoteCollection.CreateNote` | server/controllers/noteController.js:10-51 | a failed text check stores nothing and returns its error; otherwise the store gains exactly one record under the new id, holding the trimmed text, the hash of the base64url password and the time; the result is the id, `/note/<id>` and the plaintext password |
| `NoteController.CheckNoteText` | server/controllers/noteController.js:15-25 | a rejection is an Error with status code 400; an accepted text is non-empty, at most 500 code units, and neither starts nor ends with whitespace |
| `NoteController.UnlockNote` | server/controllers/noteController.js:55-92 | success needs a password, a stored note and a matching hash, and answers exactly that note's text and creation time; a failure is an Error with status code 400, 401 or 404 |
| `NoteController.SummarizeAttempt` | server/controllers/noteController.js:98-153 | when unlocking would fail, it fails with the very same error; success needs the checks, the API key and an AI answer, and is that answer trimmed and non-empty |
| `NoteController.CatchAiError` | server/controllers/noteController.js:154-166 | the error leaves with a truthy status code, its other properties untouched, and either unchanged or rewritten to 500, 429 or 502 with the matching message |
| `NoteController.SummarizeNote` | server/controllers/noteController.js:96-168 | success is a non-empty summary; every failure carries a truthy status code |
| `NoteController.Respond` | server/controllers/noteController.js:40-50 | a handler that answered gives its own status and `{success: true, data}`; one that threw gives the error handler's status and message with `success: false` and no data |
| `NoteProperties.CheckNoteTextOutcome` | server/controllers/noteController.js:15-25 | the text is rejected exactly when it is missing, blank, or longer than 500 code units before trimming; accepted text is stored trimmed |
| `NoteProperties.CheckNoteTextStatus` | server/controllers/noteController.js:15-25 | every rejection of the text reaches the client as an unsuccessful 400 |
| `NoteProperties.BlankTextRequired` | server/controllers/noteController.js:15-19 | a blank text gets the "required" message whatever its length |
| `NoteProperties.PaddingCountsTowardLimit` | server/controllers/noteController.js:21-25 | a non-blank text longer than 500 is rejected as too long, even when its trimmed form would fit |
| `NoteProperties.AcceptedTextSatisfiesSchema` | server/controllers/noteController.js:15-37 | an accepted text, trimmed and stored with a bcrypt hash, always satisfies the schema, so `Note.create` never rejects a note `createNote` makes |
| `NoteProperties.GeneratedPasswordShape` | server/controllers/noteController.js:27-28 | the password from 9 bytes has 12 characters from [A-Za-z0-9_-], has no `=`, and decodes back to the bytes |
| `NoteProperties.UnlockStatus` | server/controllers/noteController.js:55-92 | the status is 400 exactly without a password, else 404 exactly for an unknown id, else 401 exactly on a hash mismatch, else 200; a 200 carries exactly the stored text and creation time |
| `NoteProperties.UnlockedTextWithinLimit` | server/controllers/noteController.js:82-88 | a note unlocked from a collection that keeps its invariant (which `Insert` and `CreateNote` preserve) has non-empty text of at most 500 code units |
| `NoteProperties.CreateThenUnlock` | server/controllers/noteController.js:27-88 | unlocking a new note with the password its creation returned gives back the trimmed text and the creation time |
| `NoteProperties.RightPasswordAccepted` | server/controllers/noteController.js:74-88 | a stored hash of a non-empty password accepts that password and answers the stored text and creation time |
| `NoteProperties.WrongPasswordRefused` | server/controllers/noteController.js:74-80 | a stored hash of one password answers 401 to every other non-empty password |
| `NoteProperties.CreateThenWrongPassword` | server/controllers/noteController.js:74-80 | unlocking a new note with any password other than the generated one answers 401 |
| `NoteProperties.NoAiKeywordByMissingChars` | server/controllers/noteController.js:156-159 | a message lacking a character of "API key" and one of "quota" fails both substring tests |
| `NoteProperties.PasswordRequiredNoAiKeyword` | server/controllers/noteController.js:100-104 | "Password is required" mentions neither "API key" nor "quota" |
| `NoteProperties.NotFoundNoAiKeyword` | server/controllers/noteController.js:108-112 | "Note not found" mentions neither "API key" nor "quota" |
| `NoteProperties.IncorrectPasswordNoAiKeyword` | server/controllers/noteController.js:117-121 | "Incorrect password" mentions neither "API key" nor "quota" |
| `NoteProperties.MissingApiKeyMessageNoAiKeyword` | server/controllers/noteController.js:125-129 | the missing-key message does not contain "API key", because the match is case-sensitive and it says "GEMINI_API_KEY"; it does not mention "quota" either |
| `NoteProperties.EmptySummaryMessageNoAiKeyword` | server/controllers/noteController.js:142-146 | the empty-response message mentions neither "API key" nor "quota" |
| `NoteProperties.ControllerMessagesNoAiKeyword` | server/controllers/noteController.js:98-146 | no message `summarizeNote` throws itself triggers the catch block's substring tests |
| `NoteProperties.CatchAiErrorStatus` | server/controllers/noteController.js:155-166 | every error leaves the catch block with a status code set, equal to 500, 429, 502 or the code it already had; its name and kind are untouched |
| `NoteProperties.CatchAiErrorPrecedence` | server/controllers/noteController.js:156-165 | "API key" or status 401 gives 500 and the authentication message; otherwise "quota" or status 429 gives 429 and the rate-limit message; otherwise no status code gives 502 and the generic failure message; otherwise the error passes unchanged |
| `NoteProperties.CatchKeepsOwnError` | server/controllers/noteController.js:162-166 | an error the controller threw with a status code, whose message has neither keyword, leaves the catch block unchanged |
| `NoteProperties.CastErrorSurvivesCatch` | server/controllers/noteController.js:162-166 | an ObjectId CastError reaching the catch block is still answered 404 by the error handler, whatever status code and message the block set (502, or 429 or 500 when the id in the CastError's message contains "quota" or "API key") |
| `NoteProperties.SummarizeSameGuards` | server/controllers/noteController.js:98-121 | when unlocking would fail, summarising fails with the very same error, so also the same status |
| `NoteProperties.GuardsBeforeAiCall` | server/controllers/noteController.js:98-138 | when the three checks fail or the API key is missing, the answer does not depend on the AI |
| `NoteProperties.SummarizeWithoutApiKey` | server/controllers/noteController.js:124-129 | after the checks pass, a missing API key is answered 500 with its own message |
| `NoteProperties.SummarizeAiFailure` | server/controllers/noteController.js:138-165 | an AI failure is answered 500 for "API key" or status 401, else 429 for "quota" or status 429, else 502 |
| `NoteProperties.SummarizeBlankAnswer` | server/controllers/noteController.js:142-146 | a blank AI answer is answered 502 with the empty-response message |
| `NoteProperties.SummarizeAnswer` | server/controllers/noteController.js:148-153 | any other AI answer is answered 200 with that answer trimmed |
| `NoteProperties.SummarizeStatusSet` | server/controllers/noteController.js:96-168 | a summary request is only ever answered 200, 400, 401, 404, 429, 500 or 502 |
| `NoteProperties.CreateUnlockSummarize` | server/controllers/noteController.js:10-168 | on a fresh collection: create answers 201 with the id, path and password; unlocking with that password answers 200 with the trimmed text; summarising answers 200 with the AI's trimmed answer |

## Left out

- bcrypt is abstract. Salting, the cost factor of 10, timing behaviour and the 72-byte
  input limit are not modelled. Two assumptions stand in for it: `Sound` (a hash
  matches its own password) and `Exclusive` (no other password matches). An error
  thrown by `bcrypt.compare` on a malformed stored hash is not modelled.
- `crypto.randomBytes` is not modelled. Its 9 bytes are an input.
- MongoDB and Mongoose internals are not modelled. The id `Note.create` assigns is an
  input that is not already in the store. A CastError for a malformed id is not
  produced by the model: it is only an input to the error handler and the catch block
  (`CastErrorSurvivesCatch`). Connection failures are not modelled.
- The Gemini client, model name, system instruction and prompt wording are not
  modelled. The AI receives the note text, and the `"Note content:\n"` prefix is
  dropped. An error it throws has the name "Error" and no `statusCode`.
- Environment lookups are not modelled. The presence of `GEMINI_API_KEY` is a boolean.
- `Respond` assumes that the function `errorHandler.js` defines is mounted as
  `server.js:36` intends. `errorHandler.js:28` exports it with `export default`,
  while `server.js:6` loads it with `require`; what Node makes of that mismatch is not
  modelled.
- Express wiring is not modelled: routing, JSON body parsing, CORS, the health
  endpoint, the cached database connection and the `console.error` logging.
- Request bodies whose `noteText` or `password` is not a string (a number or an
  object) are not modelled. The model reads each field as an optional string. In the
  code, such a `noteText` makes `trim` throw a TypeError, answered 500. A truthy
  non-string password makes `bcrypt.compare` throw: `unlockNote` answers 500, while
  the catch block of `summarizeNote` turns the error into 502.
- Ids are matched as exact strings. Mongoose casts the id in the path to an ObjectId,
  so another spelling of an existing id (upper-case hexadecimal) finds the note in the
  code, while `UnlockNote` answers 404 for it.
- Strings are sequences of Unicode scalar values. Lone UTF-16 surrogates cannot be
  represented.
- Note expiry is not modelled: the schema defines no time-to-live, so notes live forever.
- Two accesses at the same time are not modelled. Unlock and summarize only read, and
  `CreateNote` changes a single map entry.
- The React client is not modelled. Its checks are not the server's: it trims the
  note text before sending it, and it refuses a password that is only whitespace,
  which the server accepts as a (wrong) password.
