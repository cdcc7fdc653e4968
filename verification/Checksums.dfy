/** Checksum texts: a 16-bit value as three characters of a 41-letter alphabet. The CRCs are arbitrary functions. */
module Checksums {
  import opened Arith

  /** The two cyclic redundancy checks of a text. */
  datatype Crcs = Crcs(crc16: string -> nat, crc32: string -> nat)

  const LETTERS: string := "0123456789ABCDEFGHIJKLMNOPQRSTUVWXYZ+-./?"

  /** The place of a letter in the alphabet. */
  function Place(c: char): (i: nat)
    requires c in LETTERS
    ensures i < 41 && LETTERS[i] == c
  {
    PlaceFrom(c, 0)
  }

  function PlaceFrom(c: char, k: nat): (i: nat)
    requires k <= 41 && c in LETTERS[k..]
    ensures i < 41 && LETTERS[i] == c
    decreases 41 - k
  {
    if LETTERS[k] == c then k else PlaceFrom(c, k + 1)
  }

  /** Three letters that spell a number, the most significant first. */
  predicate Spells(text: string, v: nat) {
    && |text| == 3 && text[0] in LETTERS && text[1] in LETTERS && text[2] in LETTERS
    && Place(text[0]) * 1681 + Place(text[1]) * 41 + Place(text[2]) == v
  }

  /** `0-9A-Z+-./?` in order. */
  function Letter(i: nat): (c: char)
    requires i < 41
    ensures c != ' '
  {
    if i < 10 then '0' + i as char
    else if i < 36 then 'A' + (i - 10) as char
    else if i == 36 then '+'
    else if i == 37 then '-'
    else if i == 38 then '.'
    else if i == 39 then '/'
    else '?'
  }

  lemma {:induction false} LetterInjective(i: nat, j: nat)
    requires i < 41 && j < 41 && Letter(i) == Letter(j)
    ensures i == j
  {
  }

  function Pack16Bits(v: nat): (s: string)
    ensures |s| == 3
    ensures forall i :: 0 <= i < |s| ==> s[i] != ' '
  {
    ThreeLetters(v % 0x1_0000)
  }

  /** Three letters for a value below 2^16. */
  function ThreeLetters(p: nat): (s: string)
    requires p < 0x1_0000
    ensures |s| == 3
    ensures forall i :: 0 <= i < |s| ==> s[i] != ' '
  {
    var tmp0 := p / 1681;
    var tmp1 := (p - tmp0 * 1681) / 41;
    [Letter(tmp0), Letter(tmp1), Letter(p % 41)]
  }

  /** Different values have different texts. */
  lemma {:induction false} Pack16Injective(v: nat, w: nat)
    requires v < 0x1_0000 && w < 0x1_0000 && ThreeLetters(v) == ThreeLetters(w)
    ensures v == w
  {
    var x, y := ThreeLetters(v), ThreeLetters(w);
    assert x[0] == y[0] && x[1] == y[1] && x[2] == y[2];
    var a, b := v / 1681, w / 1681;
    LetterInjective(a, b);
    var c, d := (v - a * 1681) / 41, (w - b * 1681) / 41;
    LetterInjective(c, d);
    LetterInjective(v % 41, w % 41);
    Digits41(v, a, c);
    Digits41(w, b, d);
  }

  lemma {:induction false} Digits41(v: nat, a: nat, c: nat)
    requires a == v / 1681 && c == (v - a * 1681) / 41
    ensures v == a * 1681 + c * 41 + v % 41
  {
    var r := v - a * 1681;
    assert r == c * 41 + r % 41;
    DivModIs(v, a * 41 + c, r % 41, 41);
  }

  function Pack32Bits(v: nat): (s: string)
    ensures |s| == 6
  {
    Pack16Bits(v % 0x1_0000_0000 / 0x1_0000) + Pack16Bits(v % 0x1_0000)
  }

  function Checksum16(crcs: Crcs, input: string): (s: string)
    ensures |s| == 3
  {
    Pack16Bits(crcs.crc16(input))
  }

  function Checksum32(crcs: Crcs, input: string): (s: string)
    ensures |s| == 6
  {
    Pack32Bits(crcs.crc32(input))
  }

  // ---- what the letters say

  lemma {:induction false} LetterAt(i: nat)
    requires i < 41
    ensures Letter(i) == LETTERS[i]
  {
  }

  lemma {:induction false} LetterPlace(i: nat)
    requires i < 41
    ensures Letter(i) in LETTERS && Place(Letter(i)) == i
  {
    LetterAt(i);
    var j := Place(Letter(i));
    LetterAt(j);
    LetterInjective(i, j);
  }

  lemma {:induction false} LettersSpell(a: nat, b: nat, c: nat, v: nat, text: string)
    requires a < 41 && b < 41 && c < 41 && v == a * 1681 + b * 41 + c
    requires text == [Letter(a), Letter(b), Letter(c)]
    ensures Spells(text, v)
  {
    LetterPlace(a);
    LetterPlace(b);
    LetterPlace(c);
  }

  lemma {:induction false} ThreeLettersSpell(p: nat, text: string)
    requires p < 0x1_0000 && text == ThreeLetters(p)
    ensures Spells(text, p)
  {
    var a := p / 1681;
    var b, c := (p - a * 1681) / 41, p % 41;
    Digits41(p, a, b);
    LettersSpell(a, b, c, p, text);
  }

  lemma {:induction false} SameDigits(a: nat, b: nat, c: nat, d: nat, e: nat, f: nat)
    requires a < 41 && b < 41 && c < 41 && d < 41 && e < 41 && f < 41
    requires a * 1681 + b * 41 + c == d * 1681 + e * 41 + f
    ensures a == d && b == e && c == f
  {
    assert (a - d) * 1681 == (e - b) * 41 + (f - c);
  }

  lemma {:induction false} SameLetter(c: char, d: char, i: nat)
    requires c in LETTERS && d in LETTERS && Place(c) == i && Place(d) == i
    ensures c == d
  {
  }

  lemma {:induction false} SameThree(x: string, y: string)
    requires |x| == |y| == 3 && x[0] == y[0] && x[1] == y[1] && x[2] == y[2]
    ensures x == y
  {
  }

  lemma {:induction false} SpellsOnce(x: string, y: string, v: nat)
    requires Spells(x, v) && Spells(y, v)
    ensures x == y
  {
    SameDigits(Place(x[0]), Place(x[1]), Place(x[2]), Place(y[0]), Place(y[1]), Place(y[2]));
    SameLetter(x[0], y[0], Place(x[0]));
    SameLetter(x[1], y[1], Place(x[1]));
    SameLetter(x[2], y[2], Place(x[2]));
    SameThree(x, y);
  }

  lemma {:induction false} Pack16Spells(v: nat, p: nat, text: string)
    requires p == v % 0x1_0000
    ensures text == Pack16Bits(v) <==> Spells(text, p)
  {
    var packed := ThreeLetters(p);
    ThreeLettersSpell(p, packed);
    if Spells(text, p) {
      SpellsOnce(text, packed, p);
    }
  }

  lemma {:induction false} Pack32Spells(v: nat, h: nat, l: nat, text: string)
    requires h == v % 0x1_0000_0000 / 0x1_0000 && l == v % 0x1_0000
    ensures text == Pack32Bits(v) <==> |text| == 6 && Spells(text[..3], h) && Spells(text[3..], l)
  {
    SmallHalf(v, h);
    if |text| == 6 {
      assert text == text[..3] + text[3..];
      Pack16Spells(h, h, text[..3]);
      Pack16Spells(l, l, text[3..]);
    }
  }

  lemma {:induction false} SmallHalf(v: nat, h: nat)
    requires h == v % 0x1_0000_0000 / 0x1_0000
    ensures h < 0x1_0000 && h % 0x1_0000 == h
  {
  }

  /** A text is the short checksum exactly if its three letters spell the low 16 bits of the CRC. */
  lemma {:induction false} Checksum16Spells(crcs: Crcs, input: string, text: string)
    ensures text == Checksum16(crcs, input) <==> Spells(text, crcs.crc16(input) % 0x1_0000)
  {
    Pack16Spells(crcs.crc16(input), crcs.crc16(input) % 0x1_0000, text);
  }

  /** A text is the long checksum exactly if it spells the two halves of the low 32 bits of the CRC. */
  lemma {:induction false} Checksum32Spells(crcs: Crcs, input: string, text: string)
    ensures text == Checksum32(crcs, input) <==>
      && |text| == 6 && Spells(text[..3], crcs.crc32(input) % 0x1_0000_0000 / 0x1_0000)
      && Spells(text[3..], crcs.crc32(input) % 0x1_0000)
  {
    var v := crcs.crc32(input);
    Pack32Spells(v, v % 0x1_0000_0000 / 0x1_0000, v % 0x1_0000, text);
  }

  /** Two texts have one short checksum exactly if their CRCs agree in 16 bits. */
  lemma {:induction false} Checksum16Agrees(crcs: Crcs, s: string, t: string)
    ensures Checksum16(crcs, s) == Checksum16(crcs, t) <==> crcs.crc16(s) % 0x1_0000 == crcs.crc16(t) % 0x1_0000
  {
    Checksum16Spells(crcs, s, Checksum16(crcs, s));
    Checksum16Spells(crcs, t, Checksum16(crcs, s));
  }
}
