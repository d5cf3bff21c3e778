/** Text operations on ASCII strings: case, trimming. */
module Text {
  predicate IsSpace(c: char) {
    c == ' ' || '\t' <= c <= '\r' || '\U{1c}' <= c <= '\U{1f}'
  }

  predicate IsDigit(c: char) {
    '0' <= c <= '9'
  }

  function DigitChar(d: int): char
    requires 0 <= d < 10
  {
    (('0' as int) + d) as char
  }

  predicate IsWordChar(c: char) {
    'a' <= c <= 'z' || 'A' <= c <= 'Z' || IsDigit(c) || c == '_'
  }

  function UpperChar(c: char): char {
    if 'a' <= c <= 'z' then c - 'a' + 'A' else c
  }

  function LowerChar(c: char): char {
    if 'A' <= c <= 'Z' then c - 'A' + 'a' else c
  }

  function Upper(s: string): string {
    seq(|s|, i requires 0 <= i < |s| => UpperChar(s[i]))
  }

  function Lower(s: string): string {
    seq(|s|, i requires 0 <= i < |s| => LowerChar(s[i]))
  }

  function StripLeft(s: string): string {
    if s != [] && IsSpace(s[0]) then StripLeft(s[1..]) else s
  }

  function StripRight(s: string): string {
    if s != [] && IsSpace(s[|s| - 1]) then StripRight(s[..|s| - 1]) else s
  }

  function Strip(s: string): string {
    StripRight(StripLeft(s))
  }

  /** The leading spaces, and nothing else, are gone. */
  lemma {:induction false} StripLeftExactly(s: string)
    ensures |StripLeft(s)| <= |s| && StripLeft(s) == s[|s| - |StripLeft(s)|..]
    ensures StripLeft(s) == [] || !IsSpace(StripLeft(s)[0])
    ensures forall i :: 0 <= i < |s| - |StripLeft(s)| ==> IsSpace(s[i])
  {
    if s != [] && IsSpace(s[0]) {
      StripLeftExactly(s[1..]);
      assert forall i :: 1 <= i < |s| ==> s[i] == s[1..][i - 1];
    }
  }

  /** The trailing spaces, and nothing else, are gone. */
  lemma {:induction false} StripRightExactly(s: string)
    ensures StripRight(s) <= s
    ensures StripRight(s) == [] || !IsSpace(StripRight(s)[|StripRight(s)| - 1])
    ensures forall i :: |StripRight(s)| <= i < |s| ==> IsSpace(s[i])
  {
    if s != [] && IsSpace(s[|s| - 1]) {
      StripRightExactly(s[..|s| - 1]);
      assert forall i :: 0 <= i < |s| - 1 ==> s[i] == s[..|s| - 1][i];
    }
  }

  /** What is left after trimming: a slice with no space at its ends and nothing but spaces around it. */
  lemma StripIsTrim(s: string) returns (i: nat, j: nat)
    ensures i <= j <= |s| && Strip(s) == s[i..j]
    ensures forall k :: 0 <= k < i || j <= k < |s| ==> IsSpace(s[k])
    ensures i < j ==> !IsSpace(s[i]) && !IsSpace(s[j - 1])
  {
    var left := StripLeft(s);
    StripLeftExactly(s);
    StripRightExactly(left);
    i := |s| - |left|;
    j := i + |StripRight(left)|;
    assert forall k :: i <= k < |s| ==> s[k] == left[k - i];
  }

  // -------------------------------------------------------- by ASCII code

  lemma DigitsExactly(c: char)
    ensures IsDigit(c) <==> 48 <= c as int <= 57
  {
  }

  lemma DigitCharsExactly(d: nat)
    requires d < 10
    ensures DigitChar(d) as int == 48 + d
  {
  }

  lemma WordCharsExactly(c: char)
    ensures IsWordChar(c)
       <==> 97 <= c as int <= 122 || 65 <= c as int <= 90 || 48 <= c as int <= 57 || c as int == 95
  {
  }

  /** A letter and its other case are 32 apart; everything else stays. */
  lemma CaseExactly(c: char)
    ensures UpperChar(c) as int == if 97 <= c as int <= 122 then c as int - 32 else c as int
    ensures LowerChar(c) as int == if 65 <= c as int <= 90 then c as int + 32 else c as int
  {
  }

  lemma SpacesExactly(c: char)
    ensures IsSpace(c) <==> 9 <= c as int <= 13 || 28 <= c as int <= 32
  {
  }

  // ------------------------------------------------------------- numbers

  ghost predicate AllDigits(s: string) {
    s != "" && forall i :: 0 <= i < |s| ==> IsDigit(s[i])
  }

  /** The number a string of digits stands for. */
  function Value(digits: string): int {
    if digits == "" then 0 else 10 * Value(digits[..|digits| - 1]) + (digits[|digits| - 1] as int - 48)
  }
}
