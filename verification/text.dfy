/** Character classes and the two searches the validators are built from.

    The classes are the ASCII ones written in the source's regular
    expressions; `\w` is read as ASCII `[A-Za-z0-9_]` (see README). */
module Text {
  import opened Results

  /** `[A-Za-z]` */
  predicate IsAsciiLetter(c: char) {
    ('a' <= c <= 'z') || ('A' <= c <= 'Z')
  }

  /** `[0-9]` */
  predicate IsAsciiDigit(c: char) {
    '0' <= c <= '9'
  }

  /** `[a-zA-Z0-9_]`, which is also `\w` restricted to ASCII. */
  predicate IsWordChar(c: char) {
    IsAsciiLetter(c) || IsAsciiDigit(c) || c == '_'
  }

  /** `[\w\.-]`, the class of the local part and of the domain of an email. */
  predicate IsAddressChar(c: char) {
    IsWordChar(c) || c == '.' || c == '-'
  }

  /** Every character of `s` is in class `p` (declarative reading). */
  ghost predicate AllIn(s: string, p: char -> bool) {
    forall i :: 0 <= i < |s| ==> p(s[i])
  }

  /** Some character of `s` is in class `p` (declarative reading). */
  ghost predicate SomeIn(s: string, p: char -> bool) {
    exists i :: 0 <= i < |s| && p(s[i])
  }

  /** Index of the first character of `s` in class `p`, scanning left to right. */
  function FindFirst(s: string, p: char -> bool): (r: Option<nat>)
    ensures r.Some? ==> r.value < |s| && p(s[r.value])
    ensures r.Some? ==> forall j :: 0 <= j < r.value ==> !p(s[j])
    ensures r.None? ==> forall j :: 0 <= j < |s| ==> !p(s[j])
  {
    if |s| == 0 then None
    else if p(s[0]) then Some(0)
    else match FindFirst(s[1..], p)
      case None => None
      case Some(k) => Some(k + 1)
  }

  /** Index of the last character of `s` in class `p`, scanning right to left. */
  function FindLast(s: string, p: char -> bool): (r: Option<nat>)
    ensures r.Some? ==> r.value < |s| && p(s[r.value])
    ensures r.Some? ==> forall j :: r.value < j < |s| ==> !p(s[j])
    ensures r.None? ==> forall j :: 0 <= j < |s| ==> !p(s[j])
  {
    if |s| == 0 then None
    else if p(s[|s| - 1]) then Some(|s| - 1)
    else FindLast(s[..|s| - 1], p)
  }

  /** Executable "every character is in class `p`": no character outside it is found. */
  function AllSatisfy(s: string, p: char -> bool): (b: bool)
    ensures b <==> AllIn(s, p)
  {
    FindFirst(s, c => !p(c)).None?
  }

  /** Executable `re.search` of a one-character class. */
  function AnySatisfies(s: string, p: char -> bool): (b: bool)
    ensures b <==> SomeIn(s, p)
  {
    FindFirst(s, p).Some?
  }

  /** The text that Python's `$` (without MULTILINE) lets a pattern end on:
      the whole string, or the string without one final newline. For a
      pattern whose classes exclude '\n' only this candidate can match. */
  function DollarBody(s: string): (t: string)
    ensures |s| > 0 && s[|s| - 1] == '\n' ==> s == t + "\n"
    ensures !(|s| > 0 && s[|s| - 1] == '\n') ==> t == s
  {
    if |s| > 0 && s[|s| - 1] == '\n' then s[..|s| - 1] else s
  }
}
