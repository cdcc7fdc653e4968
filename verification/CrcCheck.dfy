/** The CRC-12 check of a received word, and the error patterns it detects. */
module CrcCheck {
  import opened Words
  import opened Gf2
  import opened BitWords
  import opened Crc12

  /** The 88 bits the check looks at: non-zero entries are ones, missing entries zeros, later entries ignored. */
  function Received(decodedBits: seq<int>): (s: seq<bool>)
    ensures |s| == 88
  {
    seq(88, i requires 0 <= i < 88 => i < |decodedBits| && decodedBits[i] != 0)
  }

  /** 75 message and type bits followed by their 12-bit checksum. */
  predicate Accepted(word: seq<bool>)
    requires |word| >= 87
  {
    word[75..87] == Checksum(word[..75] + Zeros(13))
  }

  /** Byte `j` holds those of its received bits that come before position `i`. */
  predicate Collected(bytes: seq<Byte>, word: seq<bool>, i: nat)
    requires |word| == 88
  {
    |bytes| == 11 && forall j, k :: 0 <= j < 11 && 0 <= k < 8 ==> (bytes[j][k] <==> 8 * j + k < i && word[8 * j + k])
  }

  /** The byte `1 << (7 - k)`. */
  function BitAt(k: nat): (b: Byte)
    requires k < 8
  {
    Zeros(k) + [true] + Zeros(7 - k)
  }

  lemma {:induction false} SetBitAt(b: Byte, k: nat, i: nat)
    requires k < 8 && i < 8
    ensures Or(b, BitAt(k))[i] == (b[i] || i == k)
  {
    if i < k {
      ZerosAt(k, i);
    } else if i > k {
      ZerosAt(7 - k, i - k - 1);
    }
  }

  lemma {:induction false} CollectBit(bytes: seq<Byte>, word: seq<bool>, i: nat, next: seq<Byte>)
    requires |word| == 88 && i < 88 && Collected(bytes, word, i)
    requires next == if word[i] then bytes[i / 8 := Or(bytes[i / 8], BitAt(i % 8))] else bytes
    ensures Collected(next, word, i + 1)
  {
    forall j, k | 0 <= j < 11 && 0 <= k < 8
      ensures next[j][k] <==> 8 * j + k < i + 1 && word[8 * j + k]
    {
      if j == i / 8 {
        SetBitAt(bytes[j], i % 8, k);
      }
    }
  }

  lemma {:induction false} CollectedBytes(bytes: seq<Byte>, word: seq<bool>, j: nat)
    requires |word| == 88 && Collected(bytes, word, 88) && j < 11
    ensures bytes[j] == word[8 * j..8 * j + 8]
  {
  }

  method CollectBytes(decodedBits: seq<int>) returns (bytes: array<Byte>)
    ensures fresh(bytes) && Collected(bytes[..], Received(decodedBits), 88)
  {
    bytes := new Byte[11](_ => Zeros(8));
    ghost var word := Received(decodedBits);
    NothingCollected(bytes[..], word);
    var i: nat := 0;
    while i < |decodedBits|
      invariant i <= |decodedBits|
      invariant Collected(bytes[..], word, i)
    {
      ghost var before := bytes[..];
      if decodedBits[i] != 0 {
        var byte := i / 8;
        if byte >= bytes.Length {
          break;
        }
        bytes[byte] := Or(bytes[byte], BitAt(i % 8));
      }
      if i < 88 {
        CollectBit(before, word, i, bytes[..]);
      }
      i := i + 1;
    }
  }

  lemma {:induction false} NothingCollected(bytes: seq<Byte>, word: seq<bool>)
    requires |word| == 88 && |bytes| == 11 && forall j :: 0 <= j < 11 ==> bytes[j] == Zeros(8)
    ensures Collected(bytes, word, 0)
  {
    forall j, k | 0 <= j < 11 && 0 <= k < 8
      ensures !bytes[j][k]
    {
      ZerosAt(8, k);
    }
  }

  method CheckCrc12(decodedBits: seq<int>) returns (ok: bool)
    ensures ok <==> Accepted(Received(decodedBits))
  {
    ghost var word := Received(decodedBits);
    var bytes := CollectBytes(decodedBits);
    ghost var collected := bytes[..];
    var received := Or(ShiftLeft(Cast(And(bytes[9], LowMask(8, 5)), 16), 7), ShiftRight(Cast(bytes[10], 16), 1));
    ReceivedIs(collected, word, received);
    bytes[9] := And(bytes[9], HighMask());
    bytes[10] := Zeros(8);
    ClearedBytes(collected, word, bytes[..]);
    var crc := Crc12.Crc12(bytes[..]);
    ok := received == crc;
    SameField(word, received, Checksum(BytesBits(bytes[..])), crc);
  }

  lemma {:induction false} ReceivedIs(bytes: seq<Byte>, word: seq<bool>, received: seq<bool>)
    requires |word| == 88 && Collected(bytes, word, 88)
    requires received == Or(ShiftLeft(Cast(And(bytes[9], LowMask(8, 5)), 16), 7), ShiftRight(Cast(bytes[10], 16), 1))
    ensures received == Zeros(4) + word[75..80] + word[80..87]
  {
    var high, low := bytes[9], bytes[10];
    CollectedBytes(bytes, word, 9);
    CollectedBytes(bytes, word, 10);
    ReceivedField(high, low, received);
    assert high[3..] == word[75..80] && low[..7] == word[80..87];
  }

  lemma {:induction false} SameField(word: seq<bool>, received: seq<bool>, sum: seq<bool>, crc: seq<bool>)
    requires |word| == 88 && |sum| == 12
    requires received == Zeros(4) + word[75..80] + word[80..87] && crc == Zeros(4) + sum
    ensures received == crc <==> word[75..87] == sum
  {
    assert received == Zeros(4) + word[75..87];
    assert received[4..] == word[75..87] && crc[4..] == sum;
  }

  /** 0xE0. */
  function HighMask(): Byte {
    Ones(3) + Zeros(5)
  }

  lemma {:induction false} WidenAndShift(zeros: nat, field: seq<bool>, extra: nat, k: nat)
    requires k <= zeros + extra
    ensures ShiftLeft(Cast(Zeros(zeros) + field, zeros + |field| + extra), k) ==
            Zeros(zeros + extra - k) + field + Zeros(k)
  {
    WidenZeros(zeros, field, extra);
    ShiftZeros(zeros + extra, field, k, Zeros(zeros + extra - k));
  }

  lemma {:induction false} ShiftZeros(zeros: nat, field: seq<bool>, k: nat, rest: seq<bool>)
    requires k <= zeros && rest == Zeros(zeros - k)
    ensures ShiftLeft(Zeros(zeros) + field, k) == rest + field + Zeros(k)
  {
    ZerosAppend(k, zeros - k);
    DropFront(Zeros(k), rest, field);
  }

  lemma {:induction false} DropFront(front: seq<bool>, rest: seq<bool>, field: seq<bool>)
    ensures (front + rest + field)[|front|..] == rest + field
  {
  }

  lemma {:induction false} WidenZeros(zeros: nat, field: seq<bool>, extra: nat)
    ensures Cast(Zeros(zeros) + field, zeros + |field| + extra) == Zeros(zeros + extra) + field
  {
    ZerosAppend(extra, zeros);
    assert Zeros(extra) + (Zeros(zeros) + field) == Zeros(extra) + Zeros(zeros) + field;
    assert extra == 0 ==> Zeros(zeros) + field == Zeros(zeros + extra) + field;
  }

  lemma {:induction false} WidenAndShiftRight(byte: seq<bool>, extra: nat)
    requires byte != []
    ensures ShiftRight(Cast(byte, |byte| + extra), 1) == Zeros(extra + 1) + byte[..|byte| - 1]
  {
    ZerosAppend(1, extra);
    assert |Zeros(1)| == 1;
    assert extra == 0 ==> Zeros(extra) + byte == byte;
    assert Cast(byte, |byte| + extra) == Zeros(extra) + byte;
    assert (Zeros(extra) + byte)[..|byte| + extra - 1] == Zeros(extra) + byte[..|byte| - 1];
    assert Zeros(1) + (Zeros(extra) + byte[..|byte| - 1]) == Zeros(1) + Zeros(extra) + byte[..|byte| - 1];
  }

  lemma {:induction false} ReceivedField(b9: Byte, b10: Byte, received: seq<bool>)
    requires received == Or(ShiftLeft(Cast(And(b9, LowMask(8, 5)), 16), 7), ShiftRight(Cast(b10, 16), 1))
    ensures received == Zeros(4) + b9[3..] + b10[..7]
  {
    AndLowMask(b9, 5);
    WidenAndShift(3, b9[3..], 8, 7);
    WidenAndShiftRight(b10, 8);
    OrFields(Zeros(4) + b9[3..], b10[..7]);
  }

  lemma {:induction false} AndHighMask(b: Byte)
    ensures And(b, HighMask()) == b[..3] + Zeros(5)
  {
    forall i | 0 <= i < 8
      ensures And(b, HighMask())[i] == (b[..3] + Zeros(5))[i]
    {
      if i < 3 {
        OnesAt(3, i);
      } else {
        ZerosAt(5, i - 3);
      }
    }
  }

  /** The bits of a byte string stand at eight times the byte positions. */
  lemma {:induction false} BytesBitsAt(data: seq<Byte>, j: nat)
    requires j < |data|
    ensures BytesBits(data)[8 * j..8 * j + 8] == data[j]
  {
    if j < |data| - 1 {
      BytesBitsAt(data[..|data| - 1], j);
      assert BytesBits(data)[8 * j..8 * j + 8] == BytesBits(data[..|data| - 1])[8 * j..8 * j + 8];
    }
  }

  /** With the checksum field cleared the bytes spell the message and type bits and thirteen zeros. */
  lemma {:induction false} ClearedBytes(collected: seq<Byte>, word: seq<bool>, cleared: seq<Byte>)
    requires |word| == 88 && Collected(collected, word, 88)
    requires cleared == collected[9 := And(collected[9], HighMask())][10 := Zeros(8)]
    ensures BytesBits(cleared) == word[..75] + Zeros(13)
  {
    AndHighMask(collected[9]);
    ZerosAppend(5, 8);
    forall i | 0 <= i < 88
      ensures BytesBits(cleared)[i] == (word[..75] + Zeros(13))[i]
    {
      var j, k := i / 8, i % 8;
      BytesBitsAt(cleared, j);
      assert BytesBits(cleared)[i] == BytesBits(cleared)[8 * j..8 * j + 8][k];
      if i < 75 {
        assert cleared[j][k] == collected[j][k];
      } else {
        ZerosAt(13, i - 75);
        if j == 9 {
          ZerosAt(5, k - 3);
        } else {
          ZerosAt(8, k);
        }
      }
    }
  }

  // ---- errors in the message and type bits

  /** An accepted word changed by an error pattern in its 75 message and type bits. */
  function Changed(word: seq<bool>, error: seq<bool>): (s: seq<bool>)
    requires |word| >= 87 && |error| == 75
    ensures |s| == |word|
  {
    Xor(word[..75], error) + word[75..]
  }

  /** An error goes undetected if and only if the degree-11 factor of the divisor divides it. */
  lemma {:induction false} UndetectedErrors(word: seq<bool>, error: seq<bool>)
    requires |word| >= 87 && |error| == 75 && Accepted(word)
    ensures Accepted(Changed(word, error)) <==> Remainder(error, Factor()) == Zeros(11)
  {
    var changed, message := Changed(word, error), word[..75];
    assert changed[..75] == Xor(message, error) && changed[75..87] == word[75..87];
    XorWithZeros(Zeros(13));
    XorAppend(message, error, Zeros(13), Zeros(13));
    RemainderLinear(message + Zeros(13), error + Zeros(13), Divisor());
    SumChanges(Remainder(message + Zeros(13), Divisor()), Remainder(error + Zeros(13), Divisor()), Bits(42, 12));
    RemainderOfError(error);
  }

  lemma {:induction false} SumChanges(r: seq<bool>, e: seq<bool>, flip: seq<bool>)
    requires |r| == |e| == |flip|
    ensures Xor(r, flip) == Xor(Xor(r, e), flip) <==> e == Zeros(|e|)
  {
    forall i | 0 <= i < |e|
      ensures !Zeros(|e|)[i] && Xor(Xor(r, e), flip)[i] == (Xor(r, flip)[i] != e[i])
    {
      ZerosAt(|e|, i);
    }
    if Xor(r, flip) == Xor(Xor(r, e), flip) {
      forall i | 0 <= i < |e|
        ensures e[i] == Zeros(|e|)[i]
      {
        assert Xor(r, flip)[i] == Xor(Xor(r, e), flip)[i];
      }
    }
  }

  lemma {:induction false} RemainderOfError(error: seq<bool>)
    ensures Remainder(error + Zeros(13), Divisor()) == Zeros(12) <==> Remainder(error, Factor()) == Zeros(11)
  {
    var padded := error + Zeros(12);
    assert error + Zeros(13) == padded + [false];
    ShiftedDivisor(padded, false, Factor());
    TrailingZerosKeepNonZero(error, 12, Factor());
    AppendZero(Remainder(padded, Factor()));
  }

  lemma {:induction false} AppendZero(r: seq<bool>)
    ensures r + [false] == Zeros(|r| + 1) <==> r == Zeros(|r|)
  {
    assert r == (r + [false])[..|r|] && Zeros(|r| + 1)[..|r|] == Zeros(|r|);
  }

  /** An error pattern standing at position `at` of the 75 bits. */
  function Burst(at: nat, pattern: seq<bool>): (error: seq<bool>)
    requires at + |pattern| <= 75
    ensures |error| == 75
  {
    Zeros(at) + pattern + Zeros(75 - at - |pattern|)
  }

  lemma {:induction false} RemainderOfBurst(at: nat, pattern: seq<bool>)
    requires at + |pattern| <= 75
    ensures Remainder(Burst(at, pattern), Factor()) == Zeros(11) <==> Remainder(pattern, Factor()) == Zeros(11)
  {
    TrailingZerosKeepNonZero(Zeros(at) + pattern, 75 - at - |pattern|, Factor());
    LeadingZeros(at, pattern, Factor());
  }

  /** Every burst of at most 11 bits is detected: only the empty change is accepted. */
  lemma {:induction false} ShortBurstsAreDetected(word: seq<bool>, at: nat, pattern: seq<bool>)
    requires |word| >= 87 && Accepted(word) && at + |pattern| <= 75 && |pattern| <= 11
    ensures Accepted(Changed(word, Burst(at, pattern))) <==> pattern == Zeros(|pattern|)
  {
    UndetectedErrors(word, Burst(at, pattern));
    RemainderOfBurst(at, pattern);
    ShortRemainder(pattern, Factor());
    var n := 11 - |pattern|;
    ZerosAppend(n, |pattern|);
    assert (Zeros(n) + pattern)[n..] == pattern && (Zeros(n) + Zeros(|pattern|))[n..] == Zeros(|pattern|);
  }

  /** Of the bursts that span exactly 12 bits one is accepted: the factor's own coefficients. */
  lemma {:induction false} TwelveBitBurst(word: seq<bool>, at: nat, pattern: seq<bool>)
    requires |word| >= 87 && Accepted(word) && at + 12 <= 75 && |pattern| == 12 && pattern[0]
    ensures Accepted(Changed(word, Burst(at, pattern))) <==> pattern == Factor()
  {
    UndetectedErrors(word, Burst(at, pattern));
    RemainderOfBurst(at, pattern);
    var p, init := Factor(), pattern[..11];
    ShortRemainder(init, p);
    assert Zeros(0) + init == init && init + [pattern[11]] == pattern;
    assert Remainder(pattern, p) == Xor(pattern, p)[1..];
    SumVanishes(pattern, p);
  }

  lemma {:induction false} SumVanishes(a: seq<bool>, b: seq<bool>)
    requires |a| == |b| > 0 && a[0] == b[0]
    ensures Xor(a, b)[1..] == Zeros(|a| - 1) <==> a == b
  {
    var n := |a| - 1;
    forall i | 0 <= i < n
      ensures !Zeros(n)[i] && Xor(a, b)[1..][i] == (a[i + 1] != b[i + 1])
    {
      ZerosAt(n, i);
    }
    if Xor(a, b)[1..] == Zeros(n) {
      forall i | 0 <= i < |a|
        ensures a[i] == b[i]
      {
        if i > 0 {
          assert Xor(a, b)[1..][i - 1] == Zeros(n)[i - 1];
        }
      }
    }
  }
}
