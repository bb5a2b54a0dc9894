/** The three string validators of the registration service.

    Each is written as a hand-coded scan over character classes and proved
    equal to a declarative reading of the regular expression the source
    uses. Python's `re.match` with a trailing `$` also accepts the string
    with one final newline; the readings below keep that behaviour. */
module Validators {
  import opened Results
  import opened Text
  import opened Errors

  const MinUserIdLength := 4
  const MinPasswordLength := 6

  // ---------------------------------------------------------------------
  // Declarative readings of the patterns

  /** `^[a-zA-Z0-9_]+$` as `re.match` reads it: one or more id characters,
      optionally followed by a single final newline. */
  ghost predicate UserIdPattern(s: string) {
    || (|s| > 0 && AllIn(s, IsWordChar))
    || (|s| > 1 && s[|s| - 1] == '\n' && AllIn(s[..|s| - 1], IsWordChar))
  }

  /** `t` splits as local@domain.tld at positions `at` and `dot`, with
      local and domain in `[\w.-]+` and tld in `\w+`. */
  ghost predicate EmailSplit(t: string, at: int, dot: int) {
    && 0 < at && at + 1 < dot && dot + 1 < |t|
    && t[at] == '@' && t[dot] == '.'
    && AllIn(t[..at], IsAddressChar)
    && AllIn(t[at + 1..dot], IsAddressChar)
    && AllIn(t[dot + 1..], IsWordChar)
  }

  ghost predicate EmailShape(t: string) {
    exists at, dot :: EmailSplit(t, at, dot)
  }

  /** `^[\w\.-]+@[\w\.-]+\.\w+$` as `re.match` reads it. */
  ghost predicate EmailPattern(s: string) {
    || EmailShape(s)
    || (|s| > 0 && s[|s| - 1] == '\n' && EmailShape(s[..|s| - 1]))
  }

  // ---------------------------------------------------------------------
  // Hand-coded scans

  /** Executable match of `^[a-zA-Z0-9_]+$`. */
  function UserIdMatches(s: string): (b: bool)
    ensures b <==> UserIdPattern(s)
  {
    var t := DollarBody(s);
    assert !IsWordChar('\n');
    |t| > 0 && AllSatisfy(t, IsWordChar)
  }

  predicate IsAtSign(c: char) { c == '@' }
  predicate IsDot(c: char) { c == '.' }

  /** The domain after '@': all `[\w.-]`, and the text after its last dot
      is a nonempty run of `\w` preceded by at least one character. */
  function DomainMatches(d: string): bool {
    && AllSatisfy(d, IsAddressChar)
    && match FindLast(d, IsDot)
       case None => false
       case Some(k) => 0 < k < |d| - 1 && AllSatisfy(d[k + 1..], IsWordChar)
  }

  /** Executable match of `[\w.-]+@[\w.-]+\.\w+` against the whole of `t`:
      the first '@' ends a nonempty local part and the rest is a domain. */
  function EmailShapeMatches(t: string): bool {
    match FindFirst(t, IsAtSign)
    case None => false
    case Some(at) => 0 < at && AllSatisfy(t[..at], IsAddressChar) && DomainMatches(t[at + 1..])
  }

  lemma EmailShapeSound(t: string)
    requires EmailShapeMatches(t)
    ensures EmailShape(t)
  {
    var at := FindFirst(t, IsAtSign).value;
    var d := t[at + 1..];
    var k := FindLast(d, IsDot).value;
    var dot := at + 1 + k;
    assert t[at + 1..dot] == d[..k];
    assert t[dot + 1..] == d[k + 1..];
    assert EmailSplit(t, at, dot);
  }

  /** A local part of address characters holds no '@', so the first '@'
      is the one that ends it. */
  lemma FirstAtSign(t: string, at: int)
    requires 0 <= at < |t| && t[at] == '@' && AllIn(t[..at], IsAddressChar)
    ensures FindFirst(t, IsAtSign) == Some(at)
  {
    assert forall j :: 0 <= j < at ==> t[j] == t[..at][j];
  }

  /** A domain of the form `[\w.-]+\.\w+` passes the domain scan; its
      last dot is the one before the top-level label. */
  lemma DomainComplete(d: string, k: int)
    requires 0 < k < |d| - 1 && d[k] == '.'
    requires AllIn(d[..k], IsAddressChar) && AllIn(d[k + 1..], IsWordChar)
    ensures DomainMatches(d)
  {
    assert forall j :: 0 <= j < k ==> d[j] == d[..k][j];
    assert forall j :: k < j < |d| ==> d[j] == d[k + 1..][j - k - 1];
    assert AllIn(d, IsAddressChar);
    assert FindLast(d, IsDot) == Some(k);
  }

  lemma EmailShapeComplete(t: string, at: int, dot: int)
    requires EmailSplit(t, at, dot)
    ensures EmailShapeMatches(t)
  {
    FirstAtSign(t, at);
    var d := t[at + 1..];
    var k := dot - at - 1;
    assert d[..k] == t[at + 1..dot];
    assert d[k + 1..] == t[dot + 1..];
    DomainComplete(d, k);
  }

  /** The scan recognises exactly the strings of the declarative shape. */
  lemma EmailShapeMatchesCorrect(t: string)
    ensures EmailShapeMatches(t) <==> EmailShape(t)
  {
    if EmailShapeMatches(t) {
      EmailShapeSound(t);
    }
    if EmailShape(t) {
      var at, dot :| EmailSplit(t, at, dot);
      EmailShapeComplete(t, at, dot);
    }
  }

  /** Executable match of `^[\w\.-]+@[\w\.-]+\.\w+$`. */
  function EmailMatches(s: string): (b: bool)
    ensures b <==> EmailPattern(s)
  {
    var t := DollarBody(s);
    EmailShapeMatchesCorrect(t);
    EmailNoNewline(s);
    EmailShapeMatches(t)
  }

  /** No address contains a newline, so a string ending in one is never
      itself of the email shape. */
  lemma EmailNoNewline(s: string)
    ensures |s| > 0 && s[|s| - 1] == '\n' ==> !EmailShape(s)
  {
    if |s| > 0 && s[|s| - 1] == '\n' {
      forall at, dot
        ensures !EmailSplit(s, at, dot)
      {
        if 0 < at && at + 1 < dot && dot + 1 < |s| {
          assert s[dot + 1..][|s| - 1 - (dot + 1)] == '\n';
        }
      }
    }
  }

  // ---------------------------------------------------------------------
  // The validators

  /** `validateUserId`: length first, then the character pattern. */
  function ValidateUserId(userId: string): (r: Check<RegError>)
    ensures |userId| < MinUserIdLength ==> r == Fail(UserIdTooShort)
    ensures r == Fail(UserIdBadChars) <==> |userId| >= MinUserIdLength && !UserIdPattern(userId)
    ensures r.Pass? <==> |userId| >= MinUserIdLength && UserIdPattern(userId)
  {
    if |userId| < MinUserIdLength then Fail(UserIdTooShort)
    else if !UserIdMatches(userId) then Fail(UserIdBadChars)
    else Pass
  }

  /** `validatePassword`: length, then a digit anywhere, then an ASCII letter anywhere. */
  function ValidatePassword(password: string): (r: Check<RegError>)
    ensures |password| < MinPasswordLength ==> r == Fail(PasswordTooShort)
    ensures r == Fail(PasswordNoDigit) <==>
              |password| >= MinPasswordLength && !SomeIn(password, IsAsciiDigit)
    ensures r == Fail(PasswordNoLetter) <==>
              && |password| >= MinPasswordLength && SomeIn(password, IsAsciiDigit)
              && !SomeIn(password, IsAsciiLetter)
    ensures r.Pass? <==>
              && |password| >= MinPasswordLength
              && SomeIn(password, IsAsciiDigit) && SomeIn(password, IsAsciiLetter)
  {
    if |password| < MinPasswordLength then Fail(PasswordTooShort)
    else if !AnySatisfies(password, IsAsciiDigit) then Fail(PasswordNoDigit)
    else if !AnySatisfies(password, IsAsciiLetter) then Fail(PasswordNoLetter)
    else Pass
  }

  /** `validateEmail`: the pattern alone decides. */
  function ValidateEmail(email: string): (r: Check<RegError>)
    ensures r.Pass? <==> EmailPattern(email)
    ensures r.Fail? ==> r.error == EmailMalformed
  {
    if EmailMatches(email) then Pass else Fail(EmailMalformed)
  }

  // ---------------------------------------------------------------------
  // Consequences

  /** Ids of length at least 4 pass exactly when every character is an id
      character, once a single final newline is set aside. */
  lemma UserIdCharacterRule(userId: string)
    requires |userId| >= MinUserIdLength
    ensures ValidateUserId(userId).Pass? <==> AllIn(DollarBody(userId), IsWordChar)
  {
  }

  /** The length check counts the final newline that `$` then skips, so a
      three-character id followed by a newline is accepted. */
  lemma UserIdTrailingNewline(body: string)
    requires |body| == MinUserIdLength - 1 && AllIn(body, IsWordChar)
    ensures ValidateUserId(body + "\n").Pass?
    ensures ValidateUserId(body).Fail?
  {
    var s := body + "\n";
    assert s[..|s| - 1] == body;
  }

  lemma PasswordExamples()
    ensures ValidatePassword("abc123").Pass?
    ensures ValidatePassword("abcdef") == Fail(PasswordNoDigit)
    ensures ValidatePassword("123456") == Fail(PasswordNoLetter)
  {
    assert IsAsciiDigit("abc123"[3]);
    assert IsAsciiLetter("abc123"[0]);
    assert IsAsciiLetter("123456"[0]) == false;
  }

  lemma EmailExamples()
    ensures ValidateEmail("a@b.com").Pass?
    ensures ValidateEmail("not-an-email") == Fail(EmailMalformed)
  {
    assert EmailSplit("a@b.com", 1, 3);
    var bad := "not-an-email";
    assert forall i :: 0 <= i < |bad| ==> bad[i] != '@';
    assert bad[|bad| - 1] == 'l';
  }
}
