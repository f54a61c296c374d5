/** The two string operations the rate lookup relies on: case folding of currency
    codes and the replacement of the first comma of a localised decimal. */
module Text {

  predicate IsUpper(c: char) {
    'A' <= c <= 'Z'
  }

  /** `str.lower()` restricted to ASCII: currency codes are ISO 4217 alphabetic codes. */
  function LowerChar(c: char): char {
    if IsUpper(c) then (c as int + 32) as char else c
  }

  /** `str.lower()` on ASCII: every upper-case letter becomes its lower-case partner,
      and every other character is kept. */
  function Lower(s: string): (r: string)
    ensures |r| == |s|
    ensures forall i :: 0 <= i < |s| ==> !IsUpper(r[i])
    ensures forall i :: 0 <= i < |s| && !IsUpper(s[i]) ==> r[i] == s[i]
    ensures forall i :: 0 <= i < |s| && IsUpper(s[i]) ==> r[i] as int - s[i] as int == 'a' as int - 'A' as int
  {
    seq(|s|, i requires 0 <= i < |s| => LowerChar(s[i]))
  }

  /** Two codes name the same currency when they agree after lower-casing. */
  predicate SameIgnoringCase(a: string, b: string) {
    Lower(a) == Lower(b)
  }

  /** The strings that lower-case to "rub" are exactly the eight spellings of RUB. */
  lemma LowerIsRub(s: string)
    ensures Lower(s) == "rub" <==>
              |s| == 3 && s[0] in "rR" && s[1] in "uU" && s[2] in "bB"
  {
  }

  /** No occurrence of `a` in `s` before position `i`. */
  predicate NoneBefore(s: string, i: int, a: char)
    requires 0 <= i <= |s|
  {
    forall j :: 0 <= j < i ==> s[j] != a
  }

  /** `s.replace(a, b, 1)`: the first occurrence of `a`, if any, becomes `b`;
      every other position keeps its character. */
  function ReplaceFirst(s: string, a: char, b: char): (r: string)
    ensures |r| == |s|
    ensures forall i :: 0 <= i < |s| ==>
              r[i] == (if s[i] == a && NoneBefore(s, i, a) then b else s[i])
    decreases |s|
  {
    if |s| == 0 then []
    else if s[0] == a then [b] + s[1..]
    else [s[0]] + ReplaceFirst(s[1..], a, b)
  }

  /** Replacing in a string that does not contain `a` changes nothing. */
  lemma ReplaceFirstAbsent(s: string, a: char, b: char)
    requires a !in s
    ensures ReplaceFirst(s, a, b) == s
  {
  }

  /** With a single occurrence of `a` (and `b` different from it), the result has
      no `a` left and holds `b` exactly where `a` was. */
  lemma ReplaceFirstSole(s: string, k: nat, a: char, b: char)
    requires k < |s| && s[k] == a && a != b
    requires forall j :: 0 <= j < |s| && j != k ==> s[j] != a
    ensures a !in ReplaceFirst(s, a, b)
    ensures ReplaceFirst(s, a, b) == s[..k] + [b] + s[k + 1..]
  {
  }
}
