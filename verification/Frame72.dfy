/** Frames of 72 bits as twelve alphabet characters, and the self-delimiting padding. */
module Frame72 {
  import opened Wrappers
  import opened Words
  import opened Alphabet

  /** Base-64 digits, most significant first. */
  function Sextets(v: nat, n: nat): (ds: seq<nat>)
    ensures |ds| == n && Plain(ds)
  {
    if n == 0 then [] else Sextets(v / 64, n - 1) + [v % 64]
  }

  function FromSextets(ds: seq<nat>): nat {
    if ds == [] then 0 else FromSextets(ds[..|ds| - 1]) * 64 + ds[|ds| - 1]
  }

  lemma {:induction false} FromSextetsOfSextets(v: nat, n: nat)
    requires v < Pow2(6 * n)
    ensures FromSextets(Sextets(v, n)) == v
  {
    if n > 0 {
      assert Pow2(6 * n) == 64 * Pow2(6 * (n - 1)) by {
        Pow2Values();
        Pow2Add(6, 6 * (n - 1));
      }
      FromSextetsOfSextets(v / 64, n - 1);
      assert Sextets(v, n)[..n - 1] == Sextets(v / 64, n - 1);
    }
  }

  lemma {:induction false} FromSextetsBound(ds: seq<nat>)
    requires Plain(ds)
    ensures FromSextets(ds) < Pow2(6 * |ds|)
  {
    if ds != [] {
      FromSextetsBound(ds[..|ds| - 1]);
      Pow2Values();
      Pow2Add(6, 6 * (|ds| - 1));
    }
  }

  function Text(ds: seq<nat>): (s: string)
    requires Plain(ds)
    ensures |s| == |ds|
  {
    seq(|ds|, i requires 0 <= i < |ds| => AlphabetChar(ds[i]))
  }

  function Indices(text: string): (ds: seq<nat>)
    ensures |ds| == |text| && forall i :: 0 <= i < |ds| ==> ds[i] < 67
  {
    seq(|text|, i requires 0 <= i < |text| => AlphabetIndex(text[i]))
  }

  method Pack72Bits(value: nat, rem: nat) returns (s: string)
    requires value < U64 && rem < 256
    ensures s == Text(Sextets(value * 256 + rem, 12))
  {
    var packed := new char[12];
    var remHigh := BitOr(Shl(value % 16, 2), rem / 64);
    var remLow := rem % 64;
    assert remHigh == value % 16 * 4 + rem / 64 by {
      ShlIsMultiple(value % 16, 2);
      OrOfDisjointFields(value % 16, 2, rem / 64);
    }
    LastTwoSextets(value, rem);
    var v: nat := value / 16;
    packed[11] := AlphabetChar(remLow);
    packed[10] := AlphabetChar(remHigh);
    for i := 0 to 10
      invariant packed[10] == AlphabetChar(remHigh) && packed[11] == AlphabetChar(remLow)
      invariant Sextets(value / 16, 10)[..10 - i] == Sextets(v, 10 - i)
      invariant forall k :: 10 - i <= k < 10 ==> packed[k] == AlphabetChar(Sextets(value / 16, 10)[k])
    {
      assert Sextets(value / 16, 10)[9 - i] == Sextets(v, 10 - i)[9 - i];
      assert Sextets(value / 16, 10)[..9 - i] == Sextets(v, 10 - i)[..9 - i];
      packed[9 - i] := AlphabetChar(v % 64);
      v := v / 64;
    }
    return packed[..];
  }

  lemma {:induction false} LastTwoSextets(value: nat, rem: nat)
    requires rem < 256
    ensures Sextets(value * 256 + rem, 12) ==
            Sextets(value / 16, 10) + [value % 16 * 4 + rem / 64, rem % 64]
  {
    var total := value * 256 + rem;
    assert total % 64 == rem % 64 && total / 64 == value * 4 + rem / 64;
    assert (total / 64) % 64 == value % 16 * 4 + rem / 64 && (total / 64) / 64 == value / 16;
    assert Sextets(total, 12) == Sextets(total / 64, 11) + [total % 64];
    assert Sextets(total / 64, 11) == Sextets(total / 64 / 64, 10) + [total / 64 % 64];
  }

  /** Sextet `i` shifted to its place, bits beyond the word being lost. */
  function Field(encoded: seq<nat>, i: nat): nat
    requires i < 10 && i < |encoded|
  {
    Shl(encoded[i], 58 - 6 * i) % U64
  }

  /** The first `n` fields merged; indices 64 to 66 spill into their neighbour's field. */
  function Fields(encoded: seq<nat>, n: nat): nat
    requires n <= 10 && n <= |encoded|
  {
    if n == 0 then 0 else BitOr(Fields(encoded, n - 1), Field(encoded, n - 1))
  }

  /** The 64-bit value and 8-bit remainder twelve alphabet indices stand for. */
  function Unpacked(encoded: seq<nat>): (nat, nat)
    requires |encoded| == 12
  {
    (BitOr(Fields(encoded, 10), encoded[10] / 4), BitOr(Shl(encoded[10] % 4, 6), encoded[11]) % 256)
  }

  /** Characters outside the alphabet read as index 0. */
  method Unpack72Bits(text: string) returns (value: nat, rem: nat)
    requires |text| >= 12
    ensures (value, rem) == Unpacked(Indices(text[..12]))
  {
    var encoded := Indices(text[..12]);
    value := 0;
    for i := 0 to 10
      invariant value == Fields(encoded, i)
    {
      value := BitOr(value, Shl(encoded[i], 58 - 6 * i) % U64);
    }
    var remHigh := encoded[10];
    value := BitOr(value, remHigh / 4);
    rem := BitOr(Shl(remHigh % 4, 6), encoded[11]) % 256;
  }

  /** A word whose top `6 * i` bits are the first sextets. */
  function HighWord(encoded: seq<nat>, i: nat): nat
    requires i <= 10 && i <= |encoded|
  {
    Shl(FromSextets(encoded[..i]), 64 - 6 * i)
  }

  lemma {:induction false} FieldsArePrefix(encoded: seq<nat>, n: nat)
    requires |encoded| == 12 && n <= 10 && Plain(encoded)
    ensures Fields(encoded, n) == HighWord(encoded, n)
  {
    if n == 0 {
      ShlOfZero(64);
    } else {
      FieldsArePrefix(encoded, n - 1);
      AddSextet(encoded, n - 1);
    }
  }

  /** Without spilling indices, unpacking is reading base-64 digits. */
  lemma {:induction false} UnpackedPlain(encoded: seq<nat>)
    requires |encoded| == 12 && Plain(encoded)
    ensures var (value, rem) := Unpacked(encoded);
            value * 256 + rem == FromSextets(encoded) && value < U64 && rem < 256
  {
    FieldsArePrefix(encoded, 10);
    AddFinalSextets(encoded);
  }

  lemma {:induction false} IndicesOfText(ds: seq<nat>)
    requires Plain(ds)
    ensures Indices(Text(ds)) == ds
  {
    forall i | 0 <= i < |ds|
      ensures Indices(Text(ds))[i] == ds[i]
    {
      IndexOfChar(ds[i]);
    }
  }

  lemma {:induction false} UnpackedSextets(total: nat)
    requires total < U64 * 256
    ensures var (value, rem) := Unpacked(Sextets(total, 12));
            value * 256 + rem == total && rem < 256
  {
    assert Pow2(72) == U64 * 256 by {
      U64IsPow2();
      Pow2Values();
      Pow2Add(64, 8);
    }
    FromSextetsOfSextets(total, 12);
    UnpackedPlain(Sextets(total, 12));
  }

  /** Unpacking undoes packing, for every value and remainder. */
  lemma {:induction false} PackedIsUnpacked(value: nat, rem: nat)
    requires value < U64 && rem < 256
    ensures Unpacked(Indices(Text(Sextets(value * 256 + rem, 12)))) == (value, rem)
  {
    var total := value * 256 + rem;
    IndicesOfText(Sextets(total, 12));
    UnpackedSextets(total);
    var unpacked := Unpacked(Sextets(total, 12));
    SplitIsUnique(unpacked.0, unpacked.1, value, rem);
  }

  lemma {:induction false} SplitIsUnique(v1: nat, r1: nat, v2: nat, r2: nat)
    requires v1 * 256 + r1 == v2 * 256 + r2 && r1 < 256 && r2 < 256
    ensures v1 == v2 && r1 == r2
  {
  }

  predicate Plain(encoded: seq<nat>) {
    forall i :: 0 <= i < |encoded| ==> encoded[i] < 64
  }

  lemma {:induction false} AddSextet(encoded: seq<nat>, i: nat)
    requires |encoded| == 12 && i < 10 && Plain(encoded)
    ensures BitOr(HighWord(encoded, i), Field(encoded, i)) == HighWord(encoded, i + 1)
  {
    var k := 58 - 6 * i;
    var high := FromSextets(encoded[..i]);
    var w := encoded[i];
    assert Pow2(6) == 64 by {
      Pow2Values();
    }
    assert Field(encoded, i) == Shl(w, k) by {
      ShlBound(w, 6, k);
      Pow2Monotone(6 + k, 64);
      U64IsPow2();
    }
    assert FromSextets(encoded[..i + 1]) == Shl(high, 6) + w by {
      FromSextetsLast(encoded, i + 1);
      ShlIsMultiple(high, 6);
    }
    ShlSum(high, 6, k, w);
    OrOfShifted(high, 6, w, k);
    assert 6 + k == 64 - 6 * i && 64 - 6 * (i + 1) == k;
  }

  lemma {:induction false} AddFinalSextets(encoded: seq<nat>)
    requires |encoded| == 12 && Plain(encoded)
    ensures var value := BitOr(HighWord(encoded, 10), encoded[10] / 4);
            var rem := BitOr(Shl(encoded[10] % 4, 6), encoded[11]) % 256;
            value * 256 + rem == FromSextets(encoded) && value < U64
  {
    var high := FromSextets(encoded[..10]);
    var w10, w11 := encoded[10], encoded[11];
    assert BitOr(Shl(high, 4), w10 / 4) == high * 16 + w10 / 4 by {
      Pow2Values();
      ShlIsMultiple(high, 4);
      OrOfDisjointFields(high, 4, w10 / 4);
    }
    assert BitOr(Shl(w10 % 4, 6), w11) == w10 % 4 * 64 + w11 by {
      Pow2Values();
      ShlIsMultiple(w10 % 4, 6);
      OrOfDisjointFields(w10 % 4, 6, w11);
    }
    assert high * 16 + w10 / 4 < U64 by {
      Pow2Values();
      FromSextetsBound(encoded[..10]);
      Pow2Add(60, 4);
      U64IsPow2();
    }
    FromSextetsLast(encoded, 12);
    FromSextetsLast(encoded, 11);
    assert encoded[..12] == encoded;
    assert FromSextets(encoded) == (high * 16 + w10 / 4) * 256 + (w10 % 4 * 64 + w11);
  }

  lemma {:induction false} FromSextetsLast(ds: seq<nat>, n: nat)
    requires 0 < n <= |ds|
    ensures FromSextets(ds[..n]) == FromSextets(ds[..n - 1]) * 64 + ds[n - 1]
  {
    assert ds[..n][..n - 1] == ds[..n - 1];
  }

  // ---- the bits of a frame

  /** All 72 bits of a value and remainder. */
  function FrameBits(value: nat, rem: nat): (bits: seq<bool>)
    ensures |bits| == 72
  {
    Bits(value, 64) + Bits(rem, 8)
  }

  method Bits72(value: nat, rem: nat) returns (s: seq<bool>)
    ensures s == FrameBits(value, rem)
  {
    var bits := new bool[72](_ => false);
    for index := 0 to 64
      invariant forall k :: 0 <= k < index ==> bits[k] == Bits(value, 64)[k]
    {
      MaskedBit(value, 64, index);
      bits[index] := BitAnd(value, Pow2(63 - index)) != 0;
    }
    for index := 0 to 8
      invariant forall k :: 0 <= k < 64 ==> bits[k] == Bits(value, 64)[k]
      invariant forall k :: 64 <= k < 64 + index ==> bits[k] == Bits(rem, 8)[k - 64]
    {
      MaskedBit(rem, 8, index);
      bits[64 + index] := BitAnd(rem, Pow2(7 - index)) != 0;
    }
    s := bits[..];
  }

  /** The last position holding a zero. */
  function LastIndexOfZero(bits: seq<bool>): (n: Option<nat>)
    ensures n.Some? ==> n.value < |bits| && !bits[n.value]
    ensures forall i :: (if n.Some? then n.value + 1 else 0) <= i < |bits| ==> bits[i]
  {
    if bits == [] then None
    else if !bits[|bits| - 1] then Some(|bits| - 1)
    else LastIndexOfZero(bits[..|bits| - 1])
  }

  // ---- padding

  /** A zero and then ones, so that the last zero of the frame marks the end of the message. */
  function Padded(message: seq<bool>): (frame: seq<bool>)
    requires |message| <= 72
    ensures |frame| == 72
  {
    if |message| == 72 then message else message + [false] + Ones(71 - |message|)
  }

  lemma {:induction false} OnesToNat(n: nat)
    ensures ToNat(Ones(n)) == Pow2(n) - 1
  {
    if n > 0 {
      OnesToNat(n - 1);
      assert Ones(n)[..n - 1] == Ones(n - 1);
    }
  }

  lemma {:induction false} LastZeroBeforeOnes(message: seq<bool>, n: nat)
    ensures LastIndexOfZero(message + [false] + Ones(n)) == Some(|message|)
  {
    var s := message + [false];
    if n == 0 {
      assert s + Ones(0) == s;
    } else {
      LastZeroBeforeOnes(message, n - 1);
      assert (s + Ones(n))[..|s + Ones(n)| - 1] == s + Ones(n - 1);
    }
  }

  /** The padding delimits itself: the message is what precedes the last zero. */
  lemma {:induction false} PaddingIsSelfDelimiting(message: seq<bool>)
    requires |message| < 72
    ensures LastIndexOfZero(Padded(message)) == Some(|message|) && Padded(message)[..|message|] == message
  {
    LastZeroBeforeOnes(message, 71 - |message|);
  }

  /** Pads `bitLen` message bits to a frame: its 64-bit value and 8-bit remainder. */
  method FinishFrame(bits: nat, bitLen: nat, ghost message: seq<bool>) returns (value: nat, rem: nat)
    requires bitLen == |message| <= 72 && bits == ToNat(message)
    ensures value < U64 && rem < 256 && FrameBits(value, rem) == Padded(message)
  {
    var frame := bits;
    var pad := 72 - bitLen;
    if pad != 0 {
      frame := BitOr(Shl(bits, pad), Pow2(pad - 1) - 1);
      PadAsNumber(message);
    }
    value, rem := frame / 256, frame % 256;
    SplitFrame(frame);
    BitsOfToNat(Padded(message));
  }

  lemma {:induction false} PadAsNumber(message: seq<bool>)
    requires |message| < 72
    ensures var pad := 72 - |message|;
            BitOr(Shl(ToNat(message), pad), Pow2(pad - 1) - 1) == ToNat(Padded(message))
  {
    var n := 71 - |message|;
    PaddedValue(message, n);
    OrOfOnes(ToNat(message), n);
  }

  lemma {:induction false} OrOfOnes(value: nat, n: nat)
    ensures BitOr(Shl(value, n + 1), Pow2(n) - 1) == Shl(value, n + 1) + (Pow2(n) - 1)
  {
    OrOfDisjointFields(value, n + 1, Pow2(n) - 1);
  }

  /** A message, a zero and ones as a number. */
  lemma {:induction false} PaddedValue(message: seq<bool>, n: nat)
    requires |message| < 72 && n == 71 - |message|
    ensures ToNat(Padded(message)) == Shl(ToNat(message), n + 1) + (Pow2(n) - 1)
  {
    var zero := message + [false];
    assert zero[..|message|] == message;
    OnesToNat(n);
    ToNatAppend(zero, Ones(n));
    ShlDouble(ToNat(message), n);
    assert Padded(message) == zero + Ones(n);
  }

  lemma {:induction false} SplitFrame(frame: nat)
    requires frame < Pow2(72)
    ensures frame / 256 < U64 && FrameBits(frame / 256, frame % 256) == Bits(frame, 72)
  {
    var value, rem := frame / 256, frame % 256;
    assert Pow2(8) == 256 && Pow2(72) == U64 * 256 by {
      Pow2Values();
      U64IsPow2();
      Pow2Add(64, 8);
    }
    assert Shl(value, 8) + rem == frame by {
      ShlIsMultiple(value, 8);
    }
    BitsAppend(value, 64, rem, 8);
  }
}
