/** Laying out a codeword and its parity as tones, and reading a message back from received bits. */
module ChannelTones {
  import opened Wrappers
  import opened Words
  import opened Gf2
  import opened BitWords
  import opened Alphabet
  import opened Crc12
  import opened CrcCheck
  import opened ChannelEncoder
  import opened CheckGraph

  // ---- type and checksum bytes

  /** `(typ & 0b111) << 5`. */
  function TypeByte(typ: nat): (b: Byte) {
    ShiftLeft(And(Bits(typ, 8), LowMask(8, 3)), 5)
  }

  lemma {:induction false} TypeByteIs(typ: nat)
    ensures TypeByte(typ) == Bits(typ, 3) + Zeros(5)
  {
    AndLowMask(Bits(typ, 8), 3);
    LowBits(typ, 8, 3);
    assert (Zeros(5) + Bits(typ, 3))[5..] == Bits(typ, 3);
  }

  /** `((c >> 7) as u8) & 0x1F`. */
  function HighSum(c: Word16): (b: Byte) {
    And(Cast(ShiftRight(c, 7), 8), LowMask(8, 5))
  }

  /** `((c & 0x7F) as u8) << 1`. */
  function LowSum(c: Word16): (b: Byte) {
    ShiftLeft(Cast(And(c, LowMask(16, 7)), 8), 1)
  }

  lemma {:induction false} HighSumIs(c: Word16, a: seq<bool>, b: seq<bool>)
    requires |a| == 5 && |b| == 7 && c == Zeros(4) + a + b
    ensures HighSum(c) == Zeros(3) + a
  {
    var high := Cast(ShiftRight(c, 7), 8);
    assert high == c[1..9];
    AndLowMask(high, 5);
    assert high[3..] == a;
  }

  lemma {:induction false} LowSevenBits(c: Word16, a: seq<bool>, b: seq<bool>)
    requires |a| == 5 && |b| == 7 && c == Zeros(4) + a + b
    ensures And(c, LowMask(16, 7)) == Zeros(9) + b
  {
    AndLowMask(c, 7);
    assert c[9..] == b;
  }

  lemma {:induction false} LowSumIs(c: Word16, a: seq<bool>, b: seq<bool>)
    requires |a| == 5 && |b| == 7 && c == Zeros(4) + a + b
    ensures LowSum(c) == b + [false]
  {
    LowSevenBits(c, a, b);
    ZerosAppend(8, 1);
    var zero := Zeros(1);
    assert zero == [false];
    assert (Zeros(8) + zero + b)[8..] == zero + b;
    assert (zero + b)[1..] == b;
  }

  lemma {:induction false} SumBytes(c: Word16, sum: seq<bool>)
    requires |sum| == 12 && c == Zeros(4) + sum
    ensures HighSum(c) == Zeros(3) + sum[..5] && LowSum(c) == sum[5..] + [false]
  {
    var a, b := sum[..5], sum[5..];
    assert Zeros(4) + a + b == c;
    HighSumIs(c, a, b);
    LowSumIs(c, a, b);
  }

  method CodewordBytes(message: string, typ: nat) returns (r: Checked<seq<Byte>>)
    requires |message| == 12
    requires forall k :: 0 <= k < |message| ==> message[k] as nat < 256
    ensures match FirstInvalid(message)
            case Some(c) => r == Failed(InvalidCharacter(c as nat))
            case None => r.Fine? && |r.value| == 11 && BytesBits(r.value) == Codeword(message, typ) + [false]
  {
    var packed := PackMessage(message);
    if packed.Failed? {
      return packed;
    }
    var bytes := packed.value + [TypeByte(typ), Zeros(8)];
    BeforeSum(packed.value, MessageBits(message), typ, bytes);
    var c := Crc12.Crc12(bytes);
    bytes := packed.value + [Or(bytes[9], HighSum(c)), LowSum(c)];
    AfterSum(packed.value, MessageBits(message), typ, c, bytes);
    r := Fine(bytes);
  }

  lemma {:induction false} TwoBytes(head: seq<Byte>, a: Byte, b: Byte)
    ensures BytesBits(head + [a, b]) == BytesBits(head) + a + b
  {
    BytesBitsPush(head, a);
    BytesBitsPush(head + [a], b);
    assert head + [a] + [b] == head + [a, b];
  }

  lemma {:induction false} BeforeSum(head: seq<Byte>, message: seq<bool>, typ: nat, bytes: seq<Byte>)
    requires BytesBits(head) == message && bytes == head + [TypeByte(typ), Zeros(8)]
    ensures BytesBits(bytes) == message + Bits(typ, 3) + Zeros(13)
  {
    TwoBytes(head, TypeByte(typ), Zeros(8));
    TypeByteIs(typ);
    ZerosAppend(5, 8);
    Gather(message, Bits(typ, 3), Zeros(5), Zeros(8));
  }

  lemma {:induction false} Gather(a: seq<bool>, b: seq<bool>, c: seq<bool>, e: seq<bool>)
    ensures a + (b + c) + e == a + b + (c + e)
  {
  }

  lemma {:induction false} AfterSum(head: seq<Byte>, message: seq<bool>, typ: nat, c: Word16, bytes: seq<Byte>)
    requires BytesBits(head) == message && |message| == 72
    requires c == Zeros(4) + Checksum(message + Bits(typ, 3) + Zeros(13))
    requires bytes == head + [Or(TypeByte(typ), HighSum(c)), LowSum(c)]
    ensures BytesBits(bytes) == message + Bits(typ, 3) + Checksum(message + Bits(typ, 3) + Zeros(13)) + [false]
  {
    var sum := Checksum(message + Bits(typ, 3) + Zeros(13));
    SumBytes(c, sum);
    TypeByteIs(typ);
    OrFields(Bits(typ, 3), sum[..5]);
    TwoBytes(head, Bits(typ, 3) + sum[..5], sum[5..] + [false]);
    Rejoin(message, Bits(typ, 3), sum, 5);
  }

  lemma {:induction false} Rejoin(a: seq<bool>, b: seq<bool>, c: seq<bool>, k: nat)
    requires k <= |c|
    ensures a + (b + c[..k]) + (c[k..] + [false]) == a + b + c + [false]
  {
    assert c == c[..k] + c[k..];
  }

  // ---- parity

  function CountOnes(s: seq<bool>): nat {
    if s == [] then 0 else CountOnes(s[..|s| - 1]) + if s[|s| - 1] then 1 else 0
  }

  /** Whether a mask selects an odd number of ones. */
  predicate ParityBit(mask: seq<bool>, w: seq<bool>)
    requires |mask| == |w|
  {
    CountOnes(And(mask, w)) % 2 == 1
  }

  /** The parity of a sum is the sum of the parities. */
  lemma {:induction false} ParityLinear(mask: seq<bool>, a: seq<bool>, b: seq<bool>)
    requires |mask| == |a| == |b|
    ensures ParityBit(mask, Xor(a, b)) == (ParityBit(mask, a) != ParityBit(mask, b))
  {
    if mask != [] {
      var n := |mask| - 1;
      ParityLinear(mask[..n], a[..n], b[..n]);
      ParityLast(mask, a);
      ParityLast(mask, b);
      ParityLast(mask, Xor(a, b));
      assert Xor(a, b)[..n] == Xor(a[..n], b[..n]);
    }
  }

  lemma {:induction false} ParityLast(mask: seq<bool>, w: seq<bool>)
    requires |mask| == |w| > 0
    ensures var n := |w| - 1;
            ParityBit(mask, w) == (ParityBit(mask[..n], w[..n]) != (mask[n] && w[n]))
  {
    AndLast(mask, w);
  }

  lemma {:induction false} AndLast(mask: seq<bool>, w: seq<bool>)
    requires |mask| == |w| > 0
    ensures And(mask, w)[..|w| - 1] == And(mask[..|w| - 1], w[..|w| - 1])
    ensures CountOnes(And(mask, w)) ==
            CountOnes(And(mask[..|w| - 1], w[..|w| - 1])) + if mask[|w| - 1] && w[|w| - 1] then 1 else 0
  {
    assert And(mask, w)[..|w| - 1] == And(mask[..|w| - 1], w[..|w| - 1]);
  }

  predicate IsMatrix(matrix: seq<seq<bool>>) {
    |matrix| == 87 && forall r :: 0 <= r < 87 ==> |matrix[r]| == 128
  }

  /** The 128-bit word that holds a codeword in its high bits. */
  function Wide(word: seq<bool>): (w: seq<bool>)
    requires |word| == 87
    ensures |w| == 128
  {
    word + Zeros(41)
  }

  function ParityBits(matrix: seq<seq<bool>>, word: seq<bool>): (p: seq<bool>)
    requires IsMatrix(matrix) && |word| == 87
    ensures |p| == 87
  {
    seq(87, r requires 0 <= r < 87 => ParityBit(matrix[r], Wide(word)))
  }

  /** Encoding is linear. */
  lemma {:induction false} ParityBitsLinear(matrix: seq<seq<bool>>, a: seq<bool>, b: seq<bool>)
    requires IsMatrix(matrix) && |a| == 87 && |b| == 87
    ensures ParityBits(matrix, Xor(a, b)) == Xor(ParityBits(matrix, a), ParityBits(matrix, b))
  {
    XorWithZeros(Zeros(41));
    XorAppend(a, b, Zeros(41), Zeros(41));
    forall r | 0 <= r < 87
      ensures ParityBits(matrix, Xor(a, b))[r] == Xor(ParityBits(matrix, a), ParityBits(matrix, b))[r]
    {
      ParityLinear(matrix[r], Wide(a), Wide(b));
    }
  }

  /** The whole code word: parity bits and then the message word. */
  function FullWord(matrix: seq<seq<bool>>, word: seq<bool>): (cw: seq<bool>)
    requires IsMatrix(matrix) && |word| == 87
    ensures |cw| == 174
  {
    ParityBits(matrix, word) + word
  }

  /** The message with a single one. */
  function Unit(n: nat, j: nat): (s: seq<bool>)
    requires j < n
    ensures |s| == n
  {
    Zeros(j) + [true] + Zeros(n - j - 1)
  }

  /** The first `k` bits of a message, the others cleared. */
  function Truncated(word: seq<bool>, k: nat): (s: seq<bool>)
    requires k <= |word|
    ensures |s| == |word|
  {
    word[..k] + Zeros(|word| - k)
  }

  lemma {:induction false} AddUnit(word: seq<bool>, k: nat)
    requires k < |word|
    ensures Truncated(word, k + 1) == if word[k] then Xor(Truncated(word, k), Unit(|word|, k)) else Truncated(word, k)
  {
    var n := |word| - k - 1;
    ZerosAppend(1, n);
    assert |Zeros(1)| == 1 && Zeros(1) == [false];
    assert word[..k + 1] == word[..k] + [word[k]];
    AddOne(word[..k], n);
    Regroup(word[..k], Zeros(n));
  }

  lemma {:induction false} AddOne(a: seq<bool>, n: nat)
    ensures Xor(a + ([false] + Zeros(n)), Zeros(|a|) + [true] + Zeros(n)) == a + [true] + Zeros(n)
  {
    var zeros := Zeros(n);
    Regroup(a, zeros);
    XorWithZeros(a);
    XorWithZeros(zeros);
    XorAppend(a, Zeros(|a|), [false], [true]);
    XorAppend(a + [false], Zeros(|a|) + [true], zeros, zeros);
    assert Xor([false], [true]) == [true];
  }

  lemma {:induction false} Regroup(a: seq<bool>, zeros: seq<bool>)
    ensures a + ([false] + zeros) == a + [false] + zeros
  {
  }

  lemma {:induction false} FullWordLinear(matrix: seq<seq<bool>>, a: seq<bool>, b: seq<bool>)
    requires IsMatrix(matrix) && |a| == 87 && |b| == 87
    ensures FullWord(matrix, Xor(a, b)) == Xor(FullWord(matrix, a), FullWord(matrix, b))
  {
    ParityBitsLinear(matrix, a, b);
    XorAppend(ParityBits(matrix, a), ParityBits(matrix, b), a, b);
  }

  lemma {:induction false} FullWordOfZeros(matrix: seq<seq<bool>>)
    requires IsMatrix(matrix)
    ensures FullWord(matrix, Zeros(87)) == Zeros(174)
  {
    XorWithZeros(Zeros(87));
    FullWordLinear(matrix, Zeros(87), Zeros(87));
    XorWithZeros(FullWord(matrix, Zeros(87)));
  }

  lemma {:induction false} TruncatedSatisfies(matrix: seq<seq<bool>>, nm: seq<CheckNode>, word: seq<bool>, k: nat)
    requires IsMatrix(matrix) && NodesFit(nm, 174) && |word| == 87 && k <= 87
    requires forall j :: 0 <= j < 87 ==> Satisfies(FullWord(matrix, Unit(87, j)), nm)
    ensures Satisfies(FullWord(matrix, Truncated(word, k)), nm)
  {
    if k == 0 {
      assert Truncated(word, 0) == Zeros(87);
      FullWordOfZeros(matrix);
      ZerosSatisfy(174, nm);
    } else {
      TruncatedSatisfies(matrix, nm, word, k - 1);
      AddUnit(word, k - 1);
      if word[k - 1] {
        var a, u := Truncated(word, k - 1), Unit(87, k - 1);
        FullWordLinear(matrix, a, u);
        SatisfiesSum(FullWord(matrix, a), FullWord(matrix, u), nm);
      }
    }
  }

  /** If the 87 unit messages satisfy a check graph, every message does. */
  lemma {:induction false} UnitsSuffice(matrix: seq<seq<bool>>, nm: seq<CheckNode>, word: seq<bool>)
    requires IsMatrix(matrix) && NodesFit(nm, 174) && |word| == 87
    requires forall j :: 0 <= j < 87 ==> Satisfies(FullWord(matrix, Unit(87, j)), nm)
    ensures Satisfies(FullWord(matrix, word), nm)
  {
    TruncatedSatisfies(matrix, nm, word, 87);
    assert Truncated(word, 87) == word;
  }

  /** The checks determine the parity: only zero parity bits go with the zero message. */
  ghost predicate ParityIsDetermined(nm: seq<CheckNode>)
    requires NodesFit(nm, 174)
  {
    forall parity: seq<bool> :: |parity| == 87 && Satisfies(parity + Zeros(87), nm) ==> parity == Zeros(87)
  }

  /** Then the words that satisfy the checks are exactly the encodings. */
  lemma {:induction false} SatisfyingIsEncoded(matrix: seq<seq<bool>>, nm: seq<CheckNode>, w: seq<bool>)
    requires IsMatrix(matrix) && NodesFit(nm, 174) && |w| == 174 && ParityIsDetermined(nm)
    requires forall j :: 0 <= j < 87 ==> Satisfies(FullWord(matrix, Unit(87, j)), nm)
    ensures Satisfies(w, nm) <==> w == FullWord(matrix, w[87..])
  {
    var message := w[87..];
    UnitsSuffice(matrix, nm, message);
    if Satisfies(w, nm) {
      var parity, sent := w[..87], ParityBits(matrix, message);
      SatisfiesSum(w, FullWord(matrix, message), nm);
      assert w == parity + message;
      XorAppend(parity, sent, message, message);
      XorWithZeros(message);
      SameParity(nm, parity, sent, Xor(parity, sent));
    }
  }

  lemma {:induction false} SameParity(nm: seq<CheckNode>, parity: seq<bool>, sent: seq<bool>, sum: seq<bool>)
    requires NodesFit(nm, 174) && ParityIsDetermined(nm) && |parity| == |sent| == 87 && sum == Xor(parity, sent)
    requires Satisfies(sum + Zeros(87), nm)
    ensures parity == sent
  {
    assert sum == Zeros(87);
    forall i | 0 <= i < 87
      ensures parity[i] == sent[i]
    {
      ZerosAt(87, i);
      assert sum[i] == (parity[i] != sent[i]);
    }
  }
}
