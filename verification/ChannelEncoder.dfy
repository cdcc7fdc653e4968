/** The channel code: twelve characters and a frame type as 79 tones, and reading the message back. */
module ChannelEncoder {
  import opened Wrappers
  import opened Words
  import opened Gf2
  import opened BitWords
  import opened Alphabet
  import opened Crc12
  import opened CrcCheck

  datatype Checked<+T> = Fine(value: T) | Failed(error: EncodeError)

  datatype EncodeError = InvalidCharacter(byte: nat) | InvalidMessageLength(length: nat)

  // ---- characters as six-bit words

  /** A byte is valid when it is one of the first 64 alphabet characters. */
  predicate ValidChar(c: char) {
    InAlphabet(c) && AlphabetIndex(c) < 64
  }

  predicate ValidChars(message: string) {
    forall i :: 0 <= i < |message| ==> ValidChar(message[i])
  }

  const INVALID_WORD: nat := 0xFF

  /** The inverse of the alphabet as a table over bytes. */
  method BuildAlphabetWords() returns (words: array<nat>)
    ensures fresh(words) && WordTable(words[..])
  {
    words := new nat[256](_ => INVALID_WORD);
    for i := 0 to 64
      invariant forall b: nat :: b < 256 ==>
        words[b] ==
        if ValidChar(b as char) && AlphabetIndex(b as char) < i then AlphabetIndex(b as char) else INVALID_WORD
    {
      IndexOfChar(i);
      words[AlphabetChar(i) as nat] := i;
    }
  }

  ghost predicate WordTable(words: seq<nat>) {
    |words| == 256 &&
    forall b: nat :: b < 256 ==>
      words[b] == if ValidChar(b as char) then AlphabetIndex(b as char) else INVALID_WORD
  }

  method AlphabetWord(words: array<nat>, value: char) returns (r: Checked<nat>)
    requires WordTable(words[..]) && value as nat < 256
    ensures r == if ValidChar(value) then Fine(AlphabetIndex(value)) else Failed(InvalidCharacter(value as nat))
  {
    var w := words[value as nat];
    assert w == words[..][value as nat];
    if w == INVALID_WORD {
      r := Failed(InvalidCharacter(value as nat));
    } else {
      r := Fine(w);
    }
  }

  /** Six bits for every character. */
  function MessageBits(message: string): (s: seq<bool>)
    ensures |s| == 6 * |message|
  {
    if message == "" then [] else MessageBits(message[..|message| - 1]) + CharBits(message[|message| - 1])
  }

  function CharBits(c: char): (s: seq<bool>)
    ensures |s| == 6
  {
    Bits(AlphabetIndex(c), 6)
  }

  lemma {:induction false} MessageBitsPush(s: string, c: char)
    ensures MessageBits(s + [c]) == MessageBits(s) + CharBits(c)
  {
    assert (s + [c])[..|s|] == s;
  }

  /** The 87 bits of a frame: message, type and checksum. */
  function Codeword(message: string, typ: nat): (s: seq<bool>)
    requires |message| == 12
    ensures |s| == 87 && s[..72] == MessageBits(message) && s[72..75] == Bits(typ, 3) && Accepted(s)
  {
    var head := MessageBits(message) + Bits(typ, 3);
    var s := head + Checksum(head + Zeros(13));
    assert s[..75] == head && s[75..87] == s[75..];
    s
  }

  // ---- packing four characters into three bytes

  /** `(w0 << 18) | (w1 << 12) | (w2 << 6) | w3` in 32 bits. */
  function PackFour(w0: nat, w1: nat, w2: nat, w3: nat): (s: seq<bool>)
    ensures |s| == 32
  {
    Or(Or(Or(ShiftLeft(Bits(w0, 32), 18), ShiftLeft(Bits(w1, 32), 12)), ShiftLeft(Bits(w2, 32), 6)), Bits(w3, 32))
  }

  lemma {:induction false} PackFourIs(w0: nat, w1: nat, w2: nat, w3: nat)
    requires w0 < 64 && w1 < 64 && w2 < 64 && w3 < 64
    ensures PackFour(w0, w1, w2, w3) == Zeros(8) + (Bits(w0, 6) + Bits(w1, 6) + Bits(w2, 6) + Bits(w3, 6))
  {
    var a, b, c, e := Bits(w0, 6), Bits(w1, 6), Bits(w2, 6), Bits(w3, 6);
    FieldAt(w0, 18);
    FieldAt(w1, 12);
    FieldAt(w2, 6);
    FieldAt(w3, 0);
    JoinFields(8, a, b, 12);
    JoinFields(8, a + b, c, 6);
    JoinFields(8, a + b + c, e, 0);
    assert ShiftLeft(Bits(w3, 32), 0) == Bits(w3, 32);
    assert Zeros(8) + (a + b + c + e) + Zeros(0) == Zeros(8) + (a + b + c + e);
  }

  lemma {:induction false} FieldAt(w: nat, k: nat)
    requires w < 64 && k <= 26
    ensures ShiftLeft(Bits(w, 32), k) == Zeros(26 - k) + Bits(w, 6) + Zeros(k)
  {
    Pow2Values();
    HighBitsOfSmall(w, 26, 6);
    ZerosAppend(k, 26 - k);
    assert Bits(w, 32)[k..] == Zeros(26 - k) + Bits(w, 6);
  }

  /** `|` of two adjacent fields. */
  lemma {:induction false} JoinFields(n: nat, a: seq<bool>, b: seq<bool>, k: nat)
    ensures Or(Zeros(n) + a + Zeros(|b| + k), Zeros(n + |a|) + b + Zeros(k)) == Zeros(n) + (a + b) + Zeros(k)
  {
    var left, right := Zeros(n) + a, b + Zeros(k);
    forall i | 0 <= i < n + |a| + |b| + k
      ensures Or(left + Zeros(|b| + k), Zeros(n + |a|) + b + Zeros(k))[i] == (Zeros(n) + (a + b) + Zeros(k))[i]
    {
      if i < n + |a| {
        ZerosAt(n + |a|, i);
      } else {
        ZerosAt(|b| + k, i - n - |a|);
      }
    }
  }

  /** The three bytes cut from 24 bits. */
  function Cut(w: seq<bool>, shift: nat): (b: Byte)
    requires |w| == 32 && shift <= 16
  {
    Cast(ShiftRight(w, shift), 8)
  }

  lemma {:induction false} CutIs(w: seq<bool>, shift: nat)
    requires |w| == 32 && shift <= 16
    ensures Cut(w, shift) == w[24 - shift..32 - shift]
  {
  }

  lemma {:induction false} MessageBitsAppend(a: string, b: string)
    ensures MessageBits(a + b) == MessageBits(a) + MessageBits(b)
  {
    if b == "" {
      assert a + b == a;
    } else {
      var init, c := b[..|b| - 1], b[|b| - 1];
      MessageBitsAppend(a, init);
      assert b == init + [c];
      MessageBitsStep(a, init, c);
    }
  }

  lemma {:induction false} MessageBitsStep(a: string, init: string, c: char)
    requires MessageBits(a + init) == MessageBits(a) + MessageBits(init)
    ensures MessageBits(a + (init + [c])) == MessageBits(a) + MessageBits(init + [c])
  {
    Associate(a, init, [c]);
    MessageBitsPush(a + init, c);
    MessageBitsPush(init, c);
    Associate(MessageBits(a), MessageBits(init), CharBits(c));
  }

  lemma {:induction false} Associate<T>(a: seq<T>, b: seq<T>, c: seq<T>)
    ensures a + (b + c) == a + b + c
  {
  }

  lemma {:induction false} FourChars(s: string)
    requires |s| == 4
    ensures MessageBits(s) == CharBits(s[0]) + CharBits(s[1]) + CharBits(s[2]) + CharBits(s[3])
  {
    var s1: string := [s[0]];
    var s2: string := s1 + [s[1]];
    var s3: string := s2 + [s[2]];
    var none: string := [];
    MessageBitsPush(none, s[0]);
    assert none + [s[0]] == s1 && MessageBits(none) + CharBits(s[0]) == CharBits(s[0]);
    MessageBitsPush(s1, s[1]);
    MessageBitsPush(s2, s[2]);
    MessageBitsPush(s3, s[3]);
    assert s == s3 + [s[3]];
  }

  lemma {:induction false} BytesBitsAppend(a: seq<Byte>, b: seq<Byte>)
    ensures BytesBits(a + b) == BytesBits(a) + BytesBits(b)
  {
    if b == [] {
      assert a + b == a;
    } else {
      var init := b[..|b| - 1];
      BytesBitsAppend(a, init);
      assert (a + b)[..|a + b| - 1] == a + init;
    }
  }

  lemma {:induction false} BytesBitsPush(s: seq<Byte>, b: Byte)
    ensures BytesBits(s + [b]) == BytesBits(s) + b
  {
    assert (s + [b])[..|s|] == s;
  }

  lemma {:induction false} ThreeBytes(a: Byte, b: Byte, c: Byte)
    ensures BytesBits([a, b, c]) == a + b + c
  {
    var none: seq<Byte> := [];
    BytesBitsPush(none, a);
    BytesBitsPush([a], b);
    BytesBitsPush([a, b], c);
    assert none + [a] == [a] && [a] + [b] == [a, b] && [a, b] + [c] == [a, b, c];
    assert BytesBits(none) + a == a;
  }

  lemma {:induction false} SplitThree(w: seq<bool>, field: seq<bool>)
    requires |w| == 32 && |field| == 24 && w == Zeros(8) + field
    ensures w[8..16] + w[16..24] + w[24..32] == field
  {
    assert w[8..16] == field[..8] && w[16..24] == field[8..16] && w[24..32] == field[16..];
    assert field[..8] + field[8..16] == field[..16];
  }

  /** The three bytes of one group of four characters carry its 24 bits. */
  lemma {:induction false} GroupBits(chars: string, w: seq<bool>, bytes: seq<Byte>)
    requires |chars| == 4 && ValidChars(chars)
    requires w == PackFour(AlphabetIndex(chars[0]), AlphabetIndex(chars[1]),
                           AlphabetIndex(chars[2]), AlphabetIndex(chars[3]))
    requires bytes == [Cut(w, 16), Cut(w, 8), Cut(w, 0)]
    ensures BytesBits(bytes) == MessageBits(chars)
  {
    PackFourChars(chars, AlphabetIndex(chars[0]), AlphabetIndex(chars[1]), AlphabetIndex(chars[2]),
                  AlphabetIndex(chars[3]));
    CutThree(w, MessageBits(chars), bytes);
  }

  lemma {:induction false} PackFourChars(chars: string, w0: nat, w1: nat, w2: nat, w3: nat)
    requires |chars| == 4 && ValidChars(chars)
    requires w0 == AlphabetIndex(chars[0]) && w1 == AlphabetIndex(chars[1])
    requires w2 == AlphabetIndex(chars[2]) && w3 == AlphabetIndex(chars[3])
    ensures PackFour(w0, w1, w2, w3) == Zeros(8) + MessageBits(chars)
  {
    assert w0 < 64 && w1 < 64 && w2 < 64 && w3 < 64;
    PackFourIs(w0, w1, w2, w3);
    FourChars(chars);
  }

  lemma {:induction false} CutThree(w: seq<bool>, field: seq<bool>, bytes: seq<Byte>)
    requires |w| == 32 && |field| == 24 && w == Zeros(8) + field
    requires bytes == [Cut(w, 16), Cut(w, 8), Cut(w, 0)]
    ensures BytesBits(bytes) == field
  {
    var a, b, c := Cut(w, 16), Cut(w, 8), Cut(w, 0);
    CutIs(w, 16);
    CutIs(w, 8);
    CutIs(w, 0);
    ThreeBytes(a, b, c);
    SplitThree(w, field);
  }

  /** The first character that is not in the alphabet. */
  function FirstInvalid(message: string): (r: Option<char>)
    ensures r.None? <==> ValidChars(message)
  {
    if message == "" then None
    else if !ValidChar(message[0]) then Some(message[0])
    else FirstInvalid(message[1..])
  }

  lemma {:induction false} FirstInvalidAt(message: string, i: nat)
    requires i < |message| && ValidChars(message[..i]) && !ValidChar(message[i])
    ensures FirstInvalid(message) == Some(message[i])
  {
    if i > 0 {
      assert message[0] == message[..i][0];
      assert message[1..][..i - 1] == message[..i][1..];
      FirstInvalidAt(message[1..], i - 1);
    }
  }

  /** Packs the characters of one group, or reports its first invalid one. */
  method PackGroup(words: array<nat>, message: string, i: nat) returns (r: Checked<seq<bool>>)
    requires WordTable(words[..]) && i + 4 <= |message| && ValidChars(message[..i])
    requires forall k :: 0 <= k < |message| ==> message[k] as nat < 256
    ensures r.Fine? ==> ValidChars(message[..i + 4]) && r.value == PackFour(
      AlphabetIndex(message[i]), AlphabetIndex(message[i + 1]),
      AlphabetIndex(message[i + 2]), AlphabetIndex(message[i + 3]))
    ensures r.Failed? ==> FirstInvalid(message).Some? && r.error == InvalidCharacter(FirstInvalid(message).value as nat)
  {
    var ws: seq<nat> := [];
    for k := 0 to 4
      invariant |ws| == k && ValidChars(message[..i + k])
      invariant forall j :: 0 <= j < k ==> ws[j] == AlphabetIndex(message[i + j])
    {
      var w := AlphabetWord(words, message[i + k]);
      if w.Failed? {
        FirstInvalidAt(message, i + k);
        return Failed(w.error);
      }
      ws := ws + [w.value];
    }
    r := Fine(PackFour(ws[0], ws[1], ws[2], ws[3]));
  }

  method PackMessage(message: string) returns (r: Checked<seq<Byte>>)
    requires |message| == 12
    requires forall k :: 0 <= k < |message| ==> message[k] as nat < 256
    ensures match FirstInvalid(message)
            case Some(c) => r == Failed(InvalidCharacter(c as nat))
            case None => r.Fine? && |r.value| == 9 && BytesBits(r.value) == MessageBits(message)
  {
    var words := BuildAlphabetWords();
    var bytes: seq<Byte> := [];
    for g := 0 to 3
      invariant WordTable(words[..])
      invariant |bytes| == 3 * g && ValidChars(message[..4 * g])
      invariant BytesBits(bytes) == MessageBits(message[..4 * g])
    {
      var i: nat := 4 * g;
      var group := PackGroup(words, message, i);
      if group.Failed? {
        return Failed(group.error);
      }
      var w := group.value;
      var cut := [Cut(w, 16), Cut(w, 8), Cut(w, 0)];
      NextGroup(message, i, w, cut, bytes);
      bytes := bytes + cut;
    }
    assert message[..12] == message;
    r := Fine(bytes);
  }

  lemma {:induction false} NextGroup(message: string, i: nat, w: seq<bool>, cut: seq<Byte>, bytes: seq<Byte>)
    requires i + 4 <= |message| && ValidChars(message[..i + 4])
    requires w == PackFour(AlphabetIndex(message[i]), AlphabetIndex(message[i + 1]),
                           AlphabetIndex(message[i + 2]), AlphabetIndex(message[i + 3]))
    requires cut == [Cut(w, 16), Cut(w, 8), Cut(w, 0)] && BytesBits(bytes) == MessageBits(message[..i])
    ensures BytesBits(bytes + cut) == MessageBits(message[..i + 4])
  {
    var chars := message[i..i + 4];
    NextFour(message, i, chars);
    GroupBits(chars, w, cut);
    BytesBitsAppend(bytes, cut);
    MessageBitsAppend(message[..i], chars);
  }

  lemma {:induction false} NextFour(message: string, i: nat, chars: string)
    requires i + 4 <= |message| && ValidChars(message[..i + 4]) && chars == message[i..i + 4]
    ensures ValidChars(chars) && message[..i] + chars == message[..i + 4]
    ensures chars == [message[i], message[i + 1], message[i + 2], message[i + 3]]
  {
    forall k | 0 <= k < 4
      ensures ValidChar(chars[k])
    {
      assert chars[k] == message[..i + 4][i + k];
    }
  }
}
