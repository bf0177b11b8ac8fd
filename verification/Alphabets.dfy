/** Character classes of the regular expressions, as ranges and as alphabets. */
module Alphabets {
  predicate Digit(c: char) {
    '0' <= c <= '9'
  }

  predicate LowerOrDigit(c: char) {
    'a' <= c <= 'z' || Digit(c)
  }

  predicate Lower(c: char) {
    'a' <= c <= 'z'
  }

  const DIGITS := {'0', '1', '2', '3', '4', '5', '6', '7', '8', '9'}
  const LOWER := {'a', 'b', 'c', 'd', 'e', 'f', 'g', 'h', 'i', 'j', 'k', 'l', 'm',
                  'n', 'o', 'p', 'q', 'r', 's', 't', 'u', 'v', 'w', 'x', 'y', 'z'}

  const UPPER := {'A', 'B', 'C', 'D', 'E', 'F', 'G', 'H', 'I', 'J', 'K', 'L', 'M',
                  'N', 'O', 'P', 'Q', 'R', 'S', 'T', 'U', 'V', 'W', 'X', 'Y', 'Z'}

  const ALNUM := LOWER + DIGITS

  lemma LettersMean(c: char)
    ensures Digit(c) <==> c in DIGITS
    ensures Lower(c) <==> c in LOWER
    ensures LowerOrDigit(c) <==> c in ALNUM
    ensures 'A' <= c <= 'Z' <==> c in UPPER
  {
  }

  ghost predicate Over(s: string, alphabet: set<char>) {
    forall i :: 0 <= i < |s| ==> s[i] in alphabet
  }

  /** A text whose first character is from one alphabet and the others from a larger one. */
  lemma LedOver(s: string, leader: char -> bool, leaders: set<char>, other: char -> bool, others: set<char>)
    requires s != "" && leaders <= others
    requires forall c :: leader(c) <==> c in leaders
    requires forall c :: other(c) <==> c in others
    ensures leader(s[0]) && (forall i :: 1 <= i < |s| ==> other(s[i])) <==> s[0] in leaders && Over(s, others)
  {
  }

  lemma {:induction false} AllOver(s: string, alphabet: set<char>, ok: char -> bool)
    requires forall c :: ok(c) <==> c in alphabet
    ensures (forall i :: 0 <= i < |s| ==> ok(s[i])) <==> Over(s, alphabet)
  {
  }
}
