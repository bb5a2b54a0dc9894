/** The registration stages (REG-01 … REG-05) of the service.

    Each stage takes its payload and returns the `{success, message, data}`
    envelope or the `ValueError` it raises. The process-wide code store is
    threaded through explicitly, and the calls the stages make to their
    collaborators (saving the user, sending the code email) are returned
    as a list of effects rather than performed. */
module Registration {
  import opened Results
  import opened Text
  import opened Errors
  import opened Validators
  import opened AuthCodes

  // ---------------------------------------------------------------------
  // Payloads, records and responses

  datatype BasicRequest = BasicRequest(
    userId: string, userPassword: string, userPasswordCheck: string,
    userName: string, userEmail: string)

  datatype PreferenceRequest = PreferenceRequest(
    userPreferredGenre: seq<string>, userOwnedOtt: seq<string>)

  datatype CompleteRequest = CompleteRequest(
    userId: string, userPassword: string, userName: string, userEmail: string,
    userPreferredGenre: seq<string>, userOwnedOtt: seq<string>)

  /** The record handed to the user store at completion (password still plaintext). */
  datatype UserRecord = UserRecord(
    userId: string, userPassword: string, userName: string, userEmail: string,
    preferredGenre: seq<string>, ownedOtt: seq<string>, createdAt: string)

  /** The `data` field of a response envelope. */
  datatype Data =
    | NoData
    | BasicInfo(userId: string, userName: string, userEmail: string)
    | Preferences(preferredGenre: seq<string>, ownedOtt: seq<string>)
    | Account(record: UserRecord)

  datatype Envelope = Envelope(success: bool, message: string, data: Data)

  type Response = Result<Envelope, RegError>

  /** A call into a collaborator the model does not see. */
  datatype Effect =
    | SaveUser(record: UserRecord)                    // saveUserToDatabase
    | SendAuthCodeEmail(email: string, code: string)  // sendAuthCodeEmail

  /** The duplicate queries of the user store, as given functions. */
  datatype UserStore = UserStore(
    isUserIdDuplicate: string -> bool, isEmailDuplicate: string -> bool)

  const BasicOkMessage := "기본 정보 검증 완료"
  const EmailAvailableMessage := "사용 가능한 이메일입니다."
  const CodeSentMessage := "인증코드가 이메일로 발송되었습니다."
  const EmailVerifiedMessage := "이메일 인증이 완료되었습니다."
  const PreferencesSavedMessage := "선호 장르 및 OTT 정보가 저장되었습니다."
  const RegistrationDoneMessage := "회원가입이 완료되었습니다."

  // ---------------------------------------------------------------------
  // REG-01

  /** The five checks of REG-01, conjoined, without regard to order. */
  ghost predicate BasicInfoAcceptable(p: BasicRequest, users: UserStore) {
    && |p.userId| >= MinUserIdLength && UserIdPattern(p.userId)
    && |p.userPassword| >= MinPasswordLength
    && SomeIn(p.userPassword, IsAsciiDigit) && SomeIn(p.userPassword, IsAsciiLetter)
    && EmailPattern(p.userEmail)
    && p.userPassword == p.userPasswordCheck
    && !users.isUserIdDuplicate(p.userId)
    && !users.isEmailDuplicate(p.userEmail)
  }

  /** The three validators pass on the submitted fields. */
  ghost predicate FieldsWellFormed(p: BasicRequest) {
    && ValidateUserId(p.userId).Pass?
    && ValidatePassword(p.userPassword).Pass?
    && ValidateEmail(p.userEmail).Pass?
  }

  /** `registerBasic`: id, password and email validation, then the
      confirmation, then the id and email duplicate queries. Every error
      is raised exactly when its own check fails and all earlier ones pass. */
  function RegisterBasic(users: UserStore, p: BasicRequest): (r: Response)
    ensures r.Success? <==> BasicInfoAcceptable(p, users)
    ensures r.Success? ==> r.value == Envelope(true, BasicOkMessage, BasicInfo(p.userId, p.userName, p.userEmail))
    ensures ValidateUserId(p.userId).Fail? ==> r == Failure(ValidateUserId(p.userId).error)
    ensures ValidateUserId(p.userId).Pass? && ValidatePassword(p.userPassword).Fail? ==>
              r == Failure(ValidatePassword(p.userPassword).error)
    ensures r == Failure(EmailMalformed) <==>
              && ValidateUserId(p.userId).Pass? && ValidatePassword(p.userPassword).Pass?
              && !EmailPattern(p.userEmail)
    ensures r == Failure(PasswordMismatch) <==>
              FieldsWellFormed(p) && p.userPassword != p.userPasswordCheck
    ensures r == Failure(UserIdTaken) <==>
              && FieldsWellFormed(p) && p.userPassword == p.userPasswordCheck
              && users.isUserIdDuplicate(p.userId)
    ensures r == Failure(EmailTaken) <==>
              && FieldsWellFormed(p) && p.userPassword == p.userPasswordCheck
              && !users.isUserIdDuplicate(p.userId) && users.isEmailDuplicate(p.userEmail)
    ensures r.Failure? ==> r.error !in {EmailInUse, CodeNotIssued, CodeMismatch}
  {
    var idCheck := ValidateUserId(p.userId);
    var passwordCheck := ValidatePassword(p.userPassword);
    var emailCheck := ValidateEmail(p.userEmail);
    if idCheck.Fail? then Failure(idCheck.error)
    else if passwordCheck.Fail? then Failure(passwordCheck.error)
    else if emailCheck.Fail? then Failure(emailCheck.error)
    else if p.userPassword != p.userPasswordCheck then Failure(PasswordMismatch)
    else if users.isUserIdDuplicate(p.userId) then Failure(UserIdTaken)
    else if users.isEmailDuplicate(p.userEmail) then Failure(EmailTaken)
    else Success(Envelope(true, BasicOkMessage, BasicInfo(p.userId, p.userName, p.userEmail)))
  }

  /** A confirmation that differs from an otherwise valid password is
      rejected as a mismatch, whatever the user store answers. */
  lemma MismatchExample(users: UserStore)
    ensures RegisterBasic(users, BasicRequest("alice01", "abc123", "abc124", "Alice", "alice@example.com"))
            == Failure(PasswordMismatch)
  {
    var id := "alice01";
    assert forall i :: 0 <= i < |id| ==> IsWordChar(id[i]);
    var pw := "abc123";
    assert IsAsciiDigit(pw[3]) && IsAsciiLetter(pw[0]);
    assert EmailSplit("alice@example.com", 5, 13);
  }

  // ---------------------------------------------------------------------
  // REG-02

  /** `checkEmailDuplicate`: email validation, then the duplicate query. */
  function CheckEmailDuplicate(users: UserStore, email: string): (r: Response)
    ensures r.Success? <==> EmailPattern(email) && !users.isEmailDuplicate(email)
    ensures r.Success? ==> r.value == Envelope(true, EmailAvailableMessage, NoData)
    ensures r == Failure(EmailMalformed) <==> !EmailPattern(email)
    ensures r == Failure(EmailInUse) <==> EmailPattern(email) && users.isEmailDuplicate(email)
  {
    var emailCheck := ValidateEmail(email);
    if emailCheck.Fail? then Failure(emailCheck.error)
    else if users.isEmailDuplicate(email) then Failure(EmailInUse)
    else Success(Envelope(true, EmailAvailableMessage, NoData))
  }

  // ---------------------------------------------------------------------
  // REG-03

  /** What a stage returns alongside its response: the code store after it
      and the collaborator calls it made, in order. */
  datatype Outcome = Outcome(response: Response, store: Store, effects: seq<Effect>)

  /** What a stage that does not see the code store returns alongside its response. */
  datatype Reply = Reply(response: Response, effects: seq<Effect>)

  /** `sendEmailAuthCode`: a malformed email raises before the store is
      touched; otherwise a fresh code replaces the email's entry and is sent. */
  function SendEmailAuthCode(store: Store, email: string, draws: Draws): (o: Outcome)
    ensures !EmailPattern(email) ==> o == Outcome(Failure(EmailMalformed), store, [])
    ensures EmailPattern(email) ==>
              && o.response == Success(Envelope(true, CodeSentMessage, NoData))
              && email in o.store && IsAuthCode(o.store[email])
              && o.effects == [SendAuthCodeEmail(email, o.store[email])]
    ensures forall other :: other != email ==> (other in o.store <==> other in store)
    ensures forall other :: other != email && other in store ==> o.store[other] == store[other]
  {
    var emailCheck := ValidateEmail(email);
    if emailCheck.Fail? then Outcome(Failure(emailCheck.error), store, [])
    else
      var code := GenerateCode(draws);
      Outcome(Success(Envelope(true, CodeSentMessage, NoData)),
              Issue(store, email, code), [SendAuthCodeEmail(email, code)])
  }

  /** `verifyEmailAuthCode`: fails when no code was issued, fails when the
      stored code differs, and succeeds otherwise. It only reads the store,
      so a matching code keeps matching. */
  function VerifyEmailAuthCode(store: Store, email: string, inputCode: string): (r: Response)
    ensures r == Failure(CodeNotIssued) <==> email !in store
    ensures r == Failure(CodeMismatch) <==> email in store && store[email] != inputCode
    ensures r.Success? <==> email in store && store[email] == inputCode
    ensures r.Success? ==> r.value == Envelope(true, EmailVerifiedMessage, NoData)
  {
    match CheckCode(store, email, inputCode)
    case NotIssued => Failure(CodeNotIssued)
    case Mismatch => Failure(CodeMismatch)
    case Matched => Success(Envelope(true, EmailVerifiedMessage, NoData))
  }

  /** Requesting a code twice for the same email leaves only the second
      code valid; the first is rejected unless the two happen to coincide. */
  lemma OnlySecondCodeVerifies(store: Store, email: string, first: Draws, second: Draws, candidate: string)
    requires EmailPattern(email)
    ensures var s1 := SendEmailAuthCode(store, email, first).store;
            var s2 := SendEmailAuthCode(s1, email, second).store;
            VerifyEmailAuthCode(s2, email, candidate).Success? <==> candidate == GenerateCode(second)
  {
  }

  // ---------------------------------------------------------------------
  // REG-04 and REG-05

  /** `savePreferences`: nothing is stored; both lists come back as given. */
  function SavePreferences(p: PreferenceRequest): (r: Response)
    ensures r.Success? && r.value.success
    ensures r.value.data.Preferences?
    ensures r.value.data.preferredGenre == p.userPreferredGenre
    ensures r.value.data.ownedOtt == p.userOwnedOtt
  {
    Success(Envelope(true, PreferencesSavedMessage, Preferences(p.userPreferredGenre, p.userOwnedOtt)))
  }

  /** `completeRegistration`: the record is built from the payload and the
      clock reading `now`, saved once, and returned. No earlier stage is
      re-checked, so every payload completes. */
  function CompleteRegistration(p: CompleteRequest, now: string): (o: Reply)
    ensures o.response.Success? && o.response.value.success
    ensures o.response.value.data.Account?
    ensures var rec := o.response.value.data.record;
            && rec.userId == p.userId && rec.userPassword == p.userPassword
            && rec.userName == p.userName && rec.userEmail == p.userEmail
            && rec.preferredGenre == p.userPreferredGenre && rec.ownedOtt == p.userOwnedOtt
            && rec.createdAt == now
            && o.effects == [SaveUser(rec)]
  {
    var rec := UserRecord(p.userId, p.userPassword, p.userName, p.userEmail,
                          p.userPreferredGenre, p.userOwnedOtt, now);
    Reply(Success(Envelope(true, RegistrationDoneMessage, Account(rec))), [SaveUser(rec)])
  }

  /** Completing "alice01" echoes every field, stamps the clock reading
      and makes exactly one save request. */
  lemma CompletionExample(now: string)
    ensures var o := CompleteRegistration(
              CompleteRequest("alice01", "abc123", "Alice", "alice@example.com", ["drama"], ["netflix"]), now);
            && o.response.Success?
            && o.response.value.data == Account(UserRecord(
                 "alice01", "abc123", "Alice", "alice@example.com", ["drama"], ["netflix"], now))
            && |o.effects| == 1 && o.effects[0].SaveUser?
  {
  }
}
