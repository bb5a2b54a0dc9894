# Registration service model

A Dafny model of the user-registration service of a movie-recommendation
backend (`backend/registration/registerService.py`). It covers three things:

- **The three string validators.** `validateUserId`, `validatePassword` and `validateEmail` are written as
  hand-coded character-class scans (`Text.FindFirst`, `Text.FindLast`). Each
  is proved equal to a declarative reading of the regular expression it
  uses. For the email, that reading is "there is a split local@domain.tld".
- **The in-memory verification-code store `emailAuthMemory`.** It is a
  `map<string, string>` from email to code (`AuthCodes`). Issuing a code
  overwrites the entry. Checking a code only reads it, so a code stays
  valid until it is overwritten.
- **The six stages** REG-01 to REG-05. These are `registerBasic`,
  `checkEmailDuplicate`, `sendEmailAuthCode`, `verifyEmailAuthCode`,
  `savePreferences` and `completeRegistration` (`Registration`). Each
  returns the `{success, message, data}` envelope, or the `ValueError` it
  raises as a `RegError`. `Service.Handle` runs one request against the
  store. `Service.Run` runs a sequence of requests.

Modelling choices:

- **Python's `$`.** A pattern ending in `$` under `re.match` also matches
  before one final newline. The model keeps this: `"abc\n"` passes the id
  validator, because the length check counts the newline. `"a@b.com\n"`
  passes the email validator.
- **Collaborators.** The duplicate queries (`isUserIdDuplicate`,
  `isEmailDuplicate`) are function-valued fields of `UserStore`.
- **Collaborator calls as effects.** `saveUserToDatabase` and
  `sendAuthCodeEmail` are not performed. The stage returns them as `Effect`
  values, so "saved exactly once" is a statement about that list.
- **Random code.** The six picks of `random.choices(string.digits, k=6)`
  are an input of type `Draws`: six indices below 10.
- **Clock.** `datetime.now().isoformat()` is an input string `now`.
- **Error messages.** Every raise site has its own `RegError` constructor.
  `Errors.Message` gives the exact message text the source raises.
- **HTTP boundary.** The routing layer turns every `ValueError` into an
  HTTP 400 whose detail is that message. `Errors.MessageInjective` shows
  the detail identifies the failing check.
- **Lists stay lists.** Genres and OTT services are `seq<string>`, as the
  code's `List[str]` fields are. They are kept in order and with duplicates,
  not turned into sets.

## Model

| member | source | states |
|---|---|---|
| Validators.UserIdMatches | backend/registration/registerService.py:36 | the scan accepts exactly the strings `^[a-zA-Z0-9_]+$` matches under `re.match`: one or more id characters, optionally followed by one final newline |
| Validators.ValidateUserId | backend/registration/registerService.py:33-37 | ids shorter than 4 fail with the length error; ids of length 4 or more fail with the character error exactly when the pattern does not match; everything else passes |
| Validators.UserIdCharacterRule | backend/registration/registerService.py:33-37 | for ids of length 4 or more, acceptance is exactly "every character is in `[A-Za-z0-9_]`" once one final newline is set aside |
| Validators.UserIdTrailingNewline | backend/registration/registerService.py:34-36 | three id characters followed by a newline are accepted, although the same three characters alone are rejected |
| Validators.ValidatePassword | backend/registration/registerService.py:40-46 | length below 6 gives the length error; otherwise no ASCII digit anywhere gives the digit error; otherwise no ASCII letter anywhere gives the letter error; it passes exactly when all three hold |
| Validators.PasswordExamples | backend/registration/registerService.py:40-46 | "abc123" passes, "abcdef" fails for lack of a digit, "123456" fails for lack of a letter |
| Validators.EmailShapeMatchesCorrect | backend/registration/registerService.py:50 | the first-'@'/last-'.' scan accepts a string exactly when it splits as nonempty `[\w.-]` local part, '@', nonempty `[\w.-]` domain, '.', nonempty `\w` top-level label |
| Validators.EmailMatches | backend/registration/registerService.py:50 | the executable check equals the `re.match` reading of `^[\w\.-]+@[\w\.-]+\.\w+$`, the split above on the string or on the string without one final newline |
| Validators.ValidateEmail | backend/registration/registerService.py:49-51 | passes exactly when the email pattern matches; the only failure is the email-format error |
| Validators.EmailExamples | backend/registration/registerService.py:49-51 | "a@b.com" passes and "not-an-email" fails |
| Errors.Message | backend/registration/registerService.py:35-147 | the text of each raise site's `ValueError`; reading that text back gives the raise site it came from |
| Errors.MessageInjective | backend/registration/registerService.py:35-147 | two raise sites with the same message are the same raise site, so the client-visible message determines the failed check |
| AuthCodes.GenerateCode | backend/registration/registerService.py:122 | six picks from `string.digits` give a string of exactly six ASCII digits |
| AuthCodes.GenerateCodeCovers | backend/registration/registerService.py:122 | every six-digit string, leading zeros included, is the code of some picks |
| AuthCodes.GenerateCodeInjective | backend/registration/registerService.py:122 | different picks give different codes |
| AuthCodes.Issue | backend/registration/registerService.py:125 | after issuing, the email maps to the new code, and every other email's presence and code are unchanged |
| AuthCodes.CheckCode | backend/registration/registerService.py:143-147 | "not issued" exactly when the email has no entry; "matched" exactly when the stored code equals the candidate as a string |
| AuthCodes.IssuePreservesWellFormed | backend/registration/registerService.py:122-125 | issuing a six-digit code keeps every entry of the store a six-digit code |
| AuthCodes.IssueThenCheck | backend/registration/registerService.py:125-147 | right after issuing, the issued code matches and every other candidate is a mismatch |
| AuthCodes.ReissueOverwrites | backend/registration/registerService.py:125 | issuing twice for one email is the same as issuing only the second code |
| AuthCodes.IssueCommutes | backend/registration/registerService.py:125 | issuing for two different emails gives the same store in either order, and each email matches its own code |
| AuthCodes.IssueFrame | backend/registration/registerService.py:125 | issuing for one email does not change the check outcome of any other email |
| Registration.RegisterBasic | backend/registration/registerService.py:63-93 | the id, password and email checks run in that order, then the confirmation, then the id duplicate query, then the email duplicate query; each error is raised exactly when its check fails and all earlier ones pass; success exactly when all pass, echoing only userId, userName and userEmail |
| Registration.MismatchExample | backend/registration/registerService.py:70-77 | a valid id, password and email with a differing confirmation are rejected as a password mismatch, whatever the duplicate queries answer |
| Registration.CheckEmailDuplicate | backend/registration/registerService.py:99-110 | a malformed email gives the format error, a taken one gives the in-use error, and success otherwise, with no data |
| Registration.SendEmailAuthCode | backend/registration/registerService.py:116-133 | a malformed email fails with the store untouched and nothing sent; otherwise the email's entry becomes a six-digit code, exactly that code is sent to that email once, and all other entries are unchanged |
| Registration.VerifyEmailAuthCode | backend/registration/registerService.py:139-152 | fails "not issued" exactly when the email has no entry, fails "mismatch" exactly when the stored code differs, and succeeds otherwise |
| Registration.OnlySecondCodeVerifies | backend/registration/registerService.py:116-152 | after two code requests for one email, a candidate verifies exactly when it is the second code |
| Registration.SavePreferences | backend/registration/registerService.py:158-166 | succeeds and returns both lists exactly as submitted |
| Registration.CompleteRegistration | backend/registration/registerService.py:172-191 | always succeeds; the record's id, password, name, email, genres and OTT fields equal the payload's and its timestamp is the clock reading; the record is saved exactly once |
| Registration.CompletionExample | backend/registration/registerService.py:172-191 | completing "alice01" / "abc123" / "Alice" / "alice@example.com" / ["drama"] / ["netflix"] yields exactly that record with the clock reading as timestamp, and makes one save request |
| Service.Handle | backend/registration/registerService.py:57-191 | only the code-issuing stage changes the store, and only at its own email; every stage keeps every entry a six-digit code; failed stages make no save or send call; a code email is only sent by the issuing stage, carrying the stored code |
| Service.Run | backend/registration/registerService.py:57-152 | running any sequence of requests against the shared store never removes an entry, and keeps every entry a six-digit code |
| Service.StoreHoldsLastSent | backend/registration/registerService.py:116-152 | after any sequence of requests, each email's entry is the code in the most recent call to the code-email sender for it, or its prior entry if there was no such call |
| Service.VerifiesIffLastSent | backend/registration/registerService.py:139-152 | starting from an empty store, a code verifies for an email exactly when it is the code most recently handed to the code-email sender for that email; codes are never consumed or expired |

## Left out

- Validators.ValidateEmail: `\w` is read as ASCII `[A-Za-z0-9_]`. Python's `\w` on `str` also accepts non-ASCII letters and digits. So the model rejects some non-ASCII addresses that the code accepts. The id and password patterns use explicit ASCII ranges and are exact.
- Validators.EmailMatches: the same ASCII reading of `\w` applies.
- Validators.EmailShapeMatchesCorrect: the same ASCII reading of `\w` applies.
- Registration.RegisterBasic: its email step uses the same ASCII reading of `\w`. So a non-ASCII address the code accepts gets the email-format error here, where the code would go on to the duplicate queries.
- Registration.CheckEmailDuplicate: the same ASCII reading of `\w` decides the email-format error.
- Registration.SendEmailAuthCode: the same ASCII reading of `\w` decides rejection. So no code is issued here for some non-ASCII addresses the code issues one for.
- Registration.OnlySecondCodeVerifies: it is stated for addresses matching the ASCII reading of the email pattern.
- Randomness: the distribution of `random.choices` is not modelled. The picks are an input, and the model states only their range.
- `sendAuthCodeEmail` (`backend/emailSender.py`) and `saveUserToDatabase` are recorded as effects, not performed. Failures of either would propagate as unclassified errors; that is not modelled. An effect records the call, not a delivery. The code is stored before the sender is called, so a failing sender would leave a stored code that was never delivered.
- The stub bodies of `isEmailDuplicate`, `isUserIdDuplicate` and `saveUserToDatabase` are not modelled, because they are placeholders. The duplicate queries are arbitrary given functions.
- `backend/registerRoute.py`: the FastAPI routing is not modelled. It only maps each `ValueError` to an HTTP 400 carrying the message.
- `backend/registerSchema.py`: pydantic validation, including `EmailStr` on the email fields, is a library the model does not see. Payload fields are plain strings and string lists.
- `backend/scripts/insert_data.py`: the MySQL loader is I/O and SQL with no logic to verify.
- Concurrency: the shared dictionary under concurrent requests is not modelled. Requests are handled one at a time.
- Password hashing is not modelled, because the source stores the plaintext (it is marked TODO there).
