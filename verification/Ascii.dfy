/** Characters as the C locale classifies them, told from the alphabet. */
module Ascii {

  predicate IsSpace(c: char) { c == ' ' || '\t' <= c <= '\r' }

  function Lower(c: char): char { if 'A' <= c <= 'Z' then (c as int + 32) as char else c }

  predicate IsLetter(c: char) { 'a' <= c <= 'z' || 'A' <= c <= 'Z' }

  const SMALL := "abcdefghijklmnopqrstuvwxyz"
  const CAPITAL := "ABCDEFGHIJKLMNOPQRSTUVWXYZ"
  const DIGITS := "0123456789"
  /** Blank, tab, line feed, vertical tab, form feed and carriage return. */
  const BLANKS := [' ', '\t', '\n', '\U{0B}', '\U{0C}', '\r']

  /** The same letter, small and capital. */
  predicate Pair(a: char, b: char) { exists i :: 0 <= i < |SMALL| && a == SMALL[i] && b == CAPITAL[i] }

  /** The same character, letter case aside. */
  predicate SameLetter(a: char, b: char) { a == b || Pair(a, b) || Pair(b, a) }

  /** The same text, letter case aside. */
  predicate Alike(s: string, t: string) {
    |s| == |t| && forall i :: 0 <= i < |s| ==> SameLetter(s[i], t[i])
  }

  predicate AllBlank(s: string) { forall i :: 0 <= i < |s| ==> s[i] in BLANKS }

  lemma AlphabetAt(i: nat)
    requires i < 26
    ensures |SMALL| == |CAPITAL| == 26
    ensures SMALL[i] as int == 'a' as int + i && CAPITAL[i] as int == 'A' as int + i
  {
  }

  lemma PairIff(a: char, b: char)
    ensures Pair(a, b) <==> 'a' <= a <= 'z' && a as int == b as int + 32
  {
    hide SMALL, CAPITAL;
    AlphabetAt(0);
    if i :| 0 <= i < |SMALL| && a == SMALL[i] && b == CAPITAL[i] { AlphabetAt(i); }
    if 'a' <= a <= 'z' && a as int == b as int + 32 {
      AlphabetAt(a as int - 'a' as int);
    }
  }

  /** Two characters are compared equal exactly when they are, letter case aside. */
  lemma LowerIff(a: char, b: char)
    ensures Lower(a) == Lower(b) <==> SameLetter(a, b)
  {
    hide Pair;
    PairIff(a, b);
    PairIff(b, a);
  }

  /** The lower case of a character is the same letter and no capital. */
  lemma LowerIsSmall(c: char)
    ensures SameLetter(Lower(c), c) && Lower(c) !in CAPITAL
  {
    hide Pair, CAPITAL, SMALL;
    PairIff(Lower(c), c);
    AlphabetAt(0);
    if i :| 0 <= i < 26 && Lower(c) == CAPITAL[i] { AlphabetAt(i); }
  }

  lemma IsSpaceIff(c: char)
    ensures IsSpace(c) <==> c in BLANKS
  {
    assert BLANKS[0] == ' ' && BLANKS[1] == '\t' && BLANKS[2] == '\n' && BLANKS[5] == '\r';
    assert BLANKS[3] as int == 11 && BLANKS[4] as int == 12;
  }

  lemma DigitAt(i: nat)
    requires i < 10
    ensures |DIGITS| == 10 && DIGITS[i] as int == '0' as int + i
  {
  }

  lemma AlikeLength(s: string, t: string)
    requires Alike(s, t)
    ensures |s| == |t|
  {
  }

  lemma AlikeTail(s: string, t: string, n: nat)
    requires Alike(s, t) && n <= |s|
    ensures Alike(s[n..], t[n..])
  {
    hide SameLetter;
  }

  lemma AlikeCons(a: char, b: char, s: string, t: string)
    requires SameLetter(a, b) && Alike(s, t)
    ensures Alike([a] + s, [b] + t)
  {
    hide SameLetter;
  }

  lemma AlikeSelf(s: string)
    ensures Alike(s, s)
  {
  }
}
