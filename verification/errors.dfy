/** The reasons a registration stage raises `ValueError`, one per raise
    site, with the exact message the boundary layer returns as the detail
    of its HTTP 400 response. */
module Errors {
  import opened Results

  datatype RegError =
    | UserIdTooShort      // validateUserId, length below 4
    | UserIdBadChars      // validateUserId, character outside [A-Za-z0-9_]
    | PasswordTooShort    // validatePassword, length below 6
    | PasswordNoDigit     // validatePassword, no [0-9]
    | PasswordNoLetter    // validatePassword, no [A-Za-z]
    | EmailMalformed      // validateEmail
    | PasswordMismatch    // registerBasic, confirmation differs
    | UserIdTaken         // registerBasic, id already registered
    | EmailTaken          // registerBasic, email already registered
    | EmailInUse          // checkEmailDuplicate, email already registered
    | CodeNotIssued       // verifyEmailAuthCode, no code for the email
    | CodeMismatch        // verifyEmailAuthCode, code differs

  const UserIdTooShortText := "아이디는 최소 4자리여야 합니다."
  const UserIdBadCharsText := "아이디는 영문, 숫자, 밑줄만 사용할 수 있습니다."
  const PasswordTooShortText := "비밀번호는 최소 6자리여야 합니다."
  const PasswordNoDigitText := "비밀번호에 숫자가 포함되어야 합니다."
  const PasswordNoLetterText := "비밀번호에 영문이 포함되어야 합니다."
  const EmailMalformedText := "이메일 형식이 올바르지 않습니다."
  const PasswordMismatchText := "비밀번호가 일치하지 않습니다."
  const UserIdTakenText := "이미 존재하는 아이디입니다."
  const EmailTakenText := "이미 존재하는 이메일입니다."
  const EmailInUseText := "이미 사용 중인 이메일입니다."
  const CodeNotIssuedText := "인증코드가 발급되지 않았습니다."
  const CodeMismatchText := "인증코드가 일치하지 않습니다."

  /** How a client reads the detail of a 400 response back into the check
      that failed; `None` for a text no raise site produces. */
  function ErrorOf(detail: string): Option<RegError> {
    if detail == UserIdTooShortText then Some(UserIdTooShort)
    else if detail == UserIdBadCharsText then Some(UserIdBadChars)
    else if detail == PasswordTooShortText then Some(PasswordTooShort)
    else if detail == PasswordNoDigitText then Some(PasswordNoDigit)
    else if detail == PasswordNoLetterText then Some(PasswordNoLetter)
    else if detail == EmailMalformedText then Some(EmailMalformed)
    else if detail == PasswordMismatchText then Some(PasswordMismatch)
    else if detail == UserIdTakenText then Some(UserIdTaken)
    else if detail == EmailTakenText then Some(EmailTaken)
    else if detail == EmailInUseText then Some(EmailInUse)
    else if detail == CodeNotIssuedText then Some(CodeNotIssued)
    else if detail == CodeMismatchText then Some(CodeMismatch)
    else None
  }

  /** The message carried by the `ValueError`; reading it back gives the
      raise site it came from. */
  function Message(e: RegError): (detail: string)
    ensures ErrorOf(detail) == Some(e)
  {
    match e
    case UserIdTooShort => UserIdTooShortText
    case UserIdBadChars => UserIdBadCharsText
    case PasswordTooShort => PasswordTooShortText
    case PasswordNoDigit => PasswordNoDigitText
    case PasswordNoLetter => PasswordNoLetterText
    case EmailMalformed => EmailMalformedText
    case PasswordMismatch => PasswordMismatchText
    case UserIdTaken => UserIdTakenText
    case EmailTaken => EmailTakenText
    case EmailInUse => EmailInUseText
    case CodeNotIssued => CodeNotIssuedText
    case CodeMismatch => CodeMismatchText
  }

  /** Every raise site has its own message, so the detail of a 400 response
      tells the client exactly which check failed. */
  lemma MessageInjective(e1: RegError, e2: RegError)
    requires Message(e1) == Message(e2)
    ensures e1 == e2
  {
  }
}
