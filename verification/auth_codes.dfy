/** The in-memory verification-code store `emailAuthMemory`: a map from
    email to the code most recently issued for it. */
module AuthCodes {
  import opened Text

  /** `string.digits` */
  const Digits: string := "0123456789"
  const CodeLength := 6

  type Store = map<string, string>

  /** A verification code: exactly six ASCII digits, leading zeros allowed. */
  predicate IsAuthCode(code: string) {
    |code| == CodeLength && forall i :: 0 <= i < |code| ==> IsAsciiDigit(code[i])
  }

  /** The six picks `random.choices(string.digits, k=6)` makes: indices into
      `Digits`. The randomness itself is not modelled, only its range. */
  type Draws = d: seq<nat> | |d| == CodeLength && forall i :: 0 <= i < |d| ==> d[i] < |Digits|
    witness [0, 0, 0, 0, 0, 0]

  /** The code built from six picks. */
  function GenerateCode(d: Draws): (code: string)
    ensures IsAuthCode(code)
  {
    seq(CodeLength, i requires 0 <= i < CodeLength => Digits[d[i]])
  }

  /** Every six-digit string is a possible code. */
  lemma GenerateCodeCovers(code: string)
    requires IsAuthCode(code)
    ensures exists d: Draws :: GenerateCode(d) == code
  {
    var d: seq<nat> := seq(CodeLength, i requires 0 <= i < CodeLength => (code[i] as int) - ('0' as int));
    assert forall i :: 0 <= i < CodeLength ==> Digits[d[i]] == code[i];
    var dd: Draws := d;
    assert GenerateCode(dd) == code;
  }

  /** Different picks give different codes. */
  lemma GenerateCodeInjective(d1: Draws, d2: Draws)
    requires GenerateCode(d1) == GenerateCode(d2)
    ensures d1 == d2
  {
    forall i | 0 <= i < CodeLength
      ensures d1[i] == d2[i]
    {
      assert GenerateCode(d1)[i] == GenerateCode(d2)[i];
    }
  }

  /** Every entry of the store is a verification code. */
  predicate WellFormed(store: Store) {
    forall email :: email in store ==> IsAuthCode(store[email])
  }

  /** `emailAuthMemory[email] = code`: the entry is created or overwritten
      and every other entry is left as it was. */
  function Issue(store: Store, email: string, code: string): (store': Store)
    ensures email in store' && store'[email] == code
    ensures forall other :: other != email ==> (other in store' <==> other in store)
    ensures forall other :: other != email && other in store ==> store'[other] == store[other]
  {
    store[email := code]
  }

  /** The three outcomes of looking a candidate code up. */
  datatype Lookup = NotIssued | Mismatch | Matched

  /** The check made by `verifyEmailAuthCode`: absence first, then exact
      string equality. It only reads the store. */
  function CheckCode(store: Store, email: string, candidate: string): (r: Lookup)
    ensures r == NotIssued <==> email !in store
    ensures r == Matched <==> email in store && store[email] == candidate
  {
    if email !in store then NotIssued
    else if store[email] != candidate then Mismatch
    else Matched
  }

  lemma IssuePreservesWellFormed(store: Store, email: string, code: string)
    requires WellFormed(store) && IsAuthCode(code)
    ensures WellFormed(Issue(store, email, code))
  {
  }

  /** Right after issuing, exactly the issued code is accepted. */
  lemma IssueThenCheck(store: Store, email: string, code: string, candidate: string)
    ensures CheckCode(Issue(store, email, code), email, candidate) ==
            (if candidate == code then Matched else Mismatch)
  {
  }

  /** Issuing twice for the same email leaves only the second code valid. */
  lemma ReissueOverwrites(store: Store, email: string, first: string, second: string)
    ensures Issue(Issue(store, email, first), email, second) == Issue(store, email, second)
  {
  }

  /** Issuing for two different emails does not interfere: the order does
      not matter and each email keeps its own code. */
  lemma IssueCommutes(store: Store, a: string, ca: string, b: string, cb: string)
    requires a != b
    ensures Issue(Issue(store, a, ca), b, cb) == Issue(Issue(store, b, cb), a, ca)
    ensures CheckCode(Issue(Issue(store, a, ca), b, cb), a, ca) == Matched
    ensures CheckCode(Issue(Issue(store, a, ca), b, cb), b, cb) == Matched
  {
  }

  /** Issuing for one email does not change how any other email checks. */
  lemma IssueFrame(store: Store, email: string, code: string, other: string, candidate: string)
    requires other != email
    ensures CheckCode(Issue(store, email, code), other, candidate) == CheckCode(store, other, candidate)
  {
  }
}
