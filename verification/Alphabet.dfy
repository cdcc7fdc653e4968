/** The 67-character frame alphabet; its first 64 characters are the channel alphabet. */
module Alphabet {

  /** `0-9A-Za-z-+/?.` in order. */
  function AlphabetChar(i: nat): (c: char)
    requires i < 67
  {
    if i < 10 then '0' + i as char
    else if i < 36 then 'A' + (i - 10) as char
    else if i < 62 then 'a' + (i - 36) as char
    else if i == 62 then '-'
    else if i == 63 then '+'
    else if i == 64 then '/'
    else if i == 65 then '?'
    else '.'
  }

  predicate InAlphabet(c: char) {
    '0' <= c <= '9' || 'A' <= c <= 'Z' || 'a' <= c <= 'z' || c in {'-', '+', '/', '?', '.'}
  }

  /** The index table: position in the alphabet, zero for every other character. */
  function AlphabetIndex(c: char): (i: nat)
    ensures i < 67
    ensures InAlphabet(c) ==> AlphabetChar(i) == c
    ensures !InAlphabet(c) ==> i == 0
  {
    if '0' <= c <= '9' then (c - '0') as nat
    else if 'A' <= c <= 'Z' then (c - 'A') as nat + 10
    else if 'a' <= c <= 'z' then (c - 'a') as nat + 36
    else if c == '-' then 62
    else if c == '+' then 63
    else if c == '/' then 64
    else if c == '?' then 65
    else if c == '.' then 66
    else 0
  }

  /** Upper case, for ASCII letters only. */
  function ToUpper(c: char): char {
    if 'a' <= c <= 'z' then c - 'a' + 'A' else c
  }

  lemma {:induction false} IndexOfChar(i: nat)
    requires i < 67
    ensures InAlphabet(AlphabetChar(i)) && AlphabetIndex(AlphabetChar(i)) == i
  {
  }
}
