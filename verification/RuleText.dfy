/**
 Characters of the alert-rule language. Sources are ASCII: a character above 127
 is neither a letter nor a digit here.
 */
module RuleText {

  predicate IsSpace(c: char) {
    c == ' ' || c == '\t' || c == '\n' || c == '\r'
  }

  predicate IsDigit(c: char) {
    '0' <= c <= '9'
  }

  predicate IsLetter(c: char) {
    'a' <= c <= 'z' || 'A' <= c <= 'Z'
  }

  predicate IsIdentStart(c: char) {
    IsLetter(c) || c == '_'
  }

  predicate IsIdentPart(c: char) {
    IsLetter(c) || IsDigit(c) || c == '_'
  }

  predicate IsNumberPart(c: char) {
    IsDigit(c) || c == '.'
  }

  predicate IsSign(c: char) {
    c == '+' || c == '-'
  }

  predicate IsExponentMark(c: char) {
    c == 'e' || c == 'E'
  }

  function LowerChar(c: char): (r: char)
    ensures IsLetter(c) ==> 'a' <= r <= 'z'
    ensures !('A' <= c <= 'Z') ==> r == c
  {
    if 'A' <= c <= 'Z' then (c as int - 'A' as int + 'a' as int) as char else c
  }

  function Lower(s: string): (r: string)
    ensures |r| == |s|
    ensures forall i :: 0 <= i < |s| ==> r[i] == LowerChar(s[i])
  {
    seq(|s|, i requires 0 <= i < |s| => LowerChar(s[i]))
  }

  lemma LowerIdempotent(s: string)
    ensures Lower(Lower(s)) == Lower(s)
  {
  }

  predicate EqualFold(s: string, t: string) {
    Lower(s) == Lower(t)
  }

  predicate AllOf(s: string, p: char -> bool) {
    forall i :: 0 <= i < |s| ==> p(s[i])
  }

  /** The end of the longest run of p-characters that starts at i. */
  function RunEnd(s: string, i: nat, p: char -> bool): (j: nat)
    requires i <= |s|
    ensures i <= j <= |s|
    ensures forall k :: i <= k < j ==> p(s[k])
    ensures j < |s| ==> !p(s[j])
    decreases |s| - i
  {
    if i < |s| && p(s[i]) then RunEnd(s, i + 1, p) else i
  }

  lemma {:induction false} RunEndIs(s: string, i: nat, p: char -> bool, j: nat)
    requires i <= j <= |s| && (forall k :: i <= k < j ==> p(s[k])) && (j < |s| ==> !p(s[j]))
    ensures RunEnd(s, i, p) == j
    decreases j - i
  {
    if i < j {
      RunEndIs(s, i + 1, p, j);
    }
  }
}
