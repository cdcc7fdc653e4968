/** The table-driven CRC-12 and its meaning as a remainder of polynomial division over GF(2). */
module Crc12 {
  import opened Words
  import opened Gf2
  import opened BitWords

  /** A truncated 16-bit register and its twelve bits that count. */
  type Word16 = s: seq<bool> | |s| == 16 witness Zeros(16)
  type Byte = s: seq<bool> | |s| == 8 witness Zeros(8)

  /** x^11 + x^10 + x^9 + x + 1. */
  function Factor(): (p: seq<bool>)
    ensures |p| == 12
  {
    [true, true, true, false, false, false, false, false, false, false, true, true]
  }

  /** x^12 + x^11 + x^10 + x^2 + x, which is x times the factor above. */
  function Divisor(): (p: seq<bool>)
    ensures |p| == 13
  {
    Factor() + [false]
  }

  /** 0x0C06 as a word, the divisor without its leading term. */
  function TruncatedDivisor(): Word16 {
    Zeros(4) + Divisor()[1..]
  }

  const XOR_OUT: nat := 42

  lemma {:induction false} AppendNibble(s: seq<bool>, a: bool, b: bool, c: bool, e: bool)
    ensures ToNat(s + [a, b, c, e]) ==
            16 * ToNat(s) + (if a then 8 else 0) + (if b then 4 else 0) + (if c then 2 else 0) + (if e then 1 else 0)
  {
    var s1 := s + [a];
    var s2 := s1 + [b];
    var s3 := s2 + [c];
    ToNatPush(s, a);
    ToNatPush(s1, b);
    ToNatPush(s2, c);
    ToNatPush(s3, e);
    assert s + [a, b, c, e] == s3 + [e];
  }

  lemma {:induction false} ToNatPush(s: seq<bool>, b: bool)
    ensures ToNat(s + [b]) == 2 * ToNat(s) + if b then 1 else 0
  {
    assert (s + [b])[..|s|] == s;
  }

  lemma {:induction false} DivisorIs1C06(s: seq<bool>)
    requires s == Divisor()
    ensures ToNat(s) == 0x1C06
  {
    var one := [true];
    ToNatPush([], true);
    AppendNibble(one, true, true, false, false);
    AppendNibble(one + [true, true, false, false], false, false, false, false);
    AppendNibble(one + [true, true, false, false] + [false, false, false, false], false, true, true, false);
    assert s == one + [true, true, false, false] + [false, false, false, false] + [false, true, true, false];
  }

  // ---- registers

  /** The twelve register bits that count; the four above them are debris of truncated shifts. */
  function Reg(w: Word16): (r: seq<bool>)
    ensures |r| == 12
  {
    w[4..]
  }

  /** Dividing eight more bits: the table entry of the top byte, plus the rest of the register and the new byte. */
  lemma {:induction false} ByteStep(r: seq<bool>, byte: Byte)
    requires |r| == 12
    ensures Run(r, byte, Divisor()) == Xor(r[8..] + byte, Remainder(r[..8] + Zeros(12), Divisor()))
  {
    var p, low := Divisor(), r[8..] + byte;
    ShortRemainder(r, p);
    assert Zeros(0) + r == r;
    RunAppend(Zeros(12), r, byte, p);
    assert r + byte == r[..8] + low;
    SumRemainder(r[..8], low, p);
    XorGroups(low, Remainder(r[..8] + Zeros(12), p), low);
  }

  // ---- building the table

  /** The bits not yet shifted out. */
  predicate ShiftedBy(bits: Word16, from: Word16, i: nat) {
    forall k :: i <= k < 16 ==> bits[k] == from[k - i]
  }

  lemma {:induction false} ShiftOne(bits: Word16, from: Word16, i: nat, shifted: Word16)
    requires i < 16 && ShiftedBy(bits, from, i) && shifted == ShiftRight(bits, 1)
    ensures ShiftedBy(shifted, from, i + 1) && bits[15] == from[15 - i]
  {
    forall k | i + 1 <= k < 16
      ensures shifted[k] == from[k - (i + 1)]
    {
      assert shifted[k] == bits[k - 1];
    }
  }

  /** The low `i` bits of `r` are the low `i` bits of `x` in reverse, the others are zero. */
  predicate Reflected(r: Word16, x: Word16, i: nat)
    requires i <= 16
  {
    forall k :: 0 <= k < 16 ==> (r[k] <==> k >= 16 - i && x[31 - i - k])
  }

  method ReflectBits(x0: Word16, len: nat) returns (r: Word16)
    requires len <= 16
    ensures Reflected(r, x0, len)
  {
    var x := x0;
    r := Zeros(16);
    NothingReflected(r, x);
    for i := 0 to len
      invariant ShiftedBy(x, x0, i) && Reflected(r, x0, i)
    {
      var next: Word16, shifted: Word16 := Or(ShiftLeft(r, 1), And(x, LowMask(16, 1))), ShiftRight(x, 1);
      TakeLowBit(r, x);
      ShiftOne(x, x0, i, shifted);
      ReflectStep(r, x0, i, x[15], next);
      r, x := next, shifted;
    }
  }

  lemma {:induction false} ReflectStep(r: Word16, x: Word16, i: nat, b: bool, next: Word16)
    requires i < 16 && Reflected(r, x, i) && b == x[15 - i] && next == r[1..] + [b]
    ensures Reflected(next, x, i + 1)
  {
    forall k | 0 <= k < 16
      ensures next[k] <==> k >= 15 - i && x[30 - i - k]
    {
      if k < 15 {
        assert next[k] == r[k + 1];
      }
    }
  }

  lemma {:induction false} NothingReflected(r: Word16, x: Word16)
    requires r == Zeros(16)
    ensures Reflected(r, x, 0)
  {
    forall k | 0 <= k < 16
      ensures !r[k]
    {
      ZerosAt(16, k);
    }
  }

  /** `(r << 1) | (x & 1)` appends the low bit of `x` to `r`. */
  lemma {:induction false} TakeLowBit(r: Word16, x: Word16)
    ensures Or(ShiftLeft(r, 1), And(x, LowMask(16, 1))) == r[1..] + [x[15]]
  {
    AndLowMask(x, 1);
    assert x[15..] == [x[15]];
    OrFields(r[1..], [x[15]]);
  }

  /** The bits of an `n`-bit register; those above them are debris of truncated shifts. */
  function Low(w: Word16, n: nat): (r: seq<bool>)
    requires n <= 16
    ensures |r| == n
  {
    w[16 - n..]
  }

  /** The divisor of a register of `n` bits, given without its leading term. */
  function Poly(n: nat, truncated: Word16): (p: seq<bool>)
    requires n <= 16
    ensures |p| == n + 1 && p[0]
  {
    [true] + Low(truncated, n)
  }

  /** `1 << (n - 1)`. */
  function TopMask(n: nat): Word16
    requires 1 <= n <= 16
  {
    Zeros(16 - n) + [true] + Zeros(n - 1)
  }

  /** Shifts the register and subtracts the divisor if the top bit was set. */
  function Reduce(n: nat, truncated: Word16, r: Word16): (next: Word16)
    requires 1 <= n <= 16
  {
    var shifted := ShiftLeft(r, 1);
    if And(r, TopMask(n)) != Zeros(16) then Xor(shifted, truncated) else shifted
  }

  /** One iteration of the word update. */
  function Update(n: nat, truncated: Word16, w: Word16, b: bool): (next: Word16)
    requires 1 <= n <= 16
  {
    Reduce(n, truncated, if b then Xor(w, TopMask(n)) else w)
  }

  lemma {:induction false} UpdateIsTopPush(n: nat, truncated: Word16, w: Word16, b: bool)
    requires 1 <= n <= 16
    ensures Low(Update(n, truncated, w, b), n) == TopPush(Low(w, n), b, Poly(n, truncated))
  {
    var r := if b then Xor(w, TopMask(n)) else w;
    AddTop(n, w, b, Zeros(16 - n), Zeros(n - 1));
    ReduceIsPush(n, truncated, r);
    TopIsPush(Low(w, n), b, Poly(n, truncated), Low(r, n), Zeros(n - 1));
  }

  lemma {:induction false} TopIsPush(r: seq<bool>, b: bool, p: seq<bool>, sum: seq<bool>, low: seq<bool>)
    requires r != [] && |p| == |r| + 1 && low == Zeros(|r| - 1) && sum == Xor(r, [b] + low)
    ensures TopPush(r, b, p) == Push(sum, false, p)
  {
  }

  lemma {:induction false} ReduceIsPush(n: nat, truncated: Word16, r: Word16)
    requires 1 <= n <= 16
    ensures Low(Reduce(n, truncated, r), n) == Push(Low(r, n), false, Poly(n, truncated))
  {
    TestBit(r, 16 - n, TopMask(n));
    ShiftIsPush(n, truncated, r, ShiftLeft(r, 1), Poly(n, truncated));
  }

  lemma {:induction false} ShiftIsPush(n: nat, truncated: Word16, r: Word16, shifted: Word16, p: seq<bool>)
    requires 1 <= n <= 16 && shifted == ShiftLeft(r, 1) && p == Poly(n, truncated)
    ensures Low(if r[16 - n] then Xor(shifted, truncated) else shifted, n) == Push(Low(r, n), false, p)
  {
    var t := Low(r, n) + [false];
    assert Zeros(1) == [false];
    assert shifted == r[1..] + [false] && Low(shifted, n) == t[1..];
    XorTail(t, p);
    assert Low(truncated, n) == p[1..];
    assert Low(Xor(shifted, truncated), n) == Xor(Low(shifted, n), p[1..]);
  }

  lemma {:induction false} XorTail(a: seq<bool>, b: seq<bool>)
    requires |a| == |b| > 0
    ensures Xor(a, b)[1..] == Xor(a[1..], b[1..])
  {
  }

  lemma {:induction false} FlipOne(head: seq<bool>, bit: bool, tail: seq<bool>, high: seq<bool>, low: seq<bool>)
    requires |head| == |high| && |tail| == |low| && low == Zeros(|tail|)
    ensures Xor(head + [bit] + tail, high + [true] + low)[|head|..] == [!bit] + tail
    ensures Xor([bit] + tail, [true] + low) == [!bit] + tail && Xor([bit] + tail, [false] + low) == [bit] + tail
  {
    XorWithZeros(tail);
    XorAppend([bit], [true], tail, low);
    XorAppend([bit], [false], tail, low);
    XorAppend(head + [bit], high + [true], tail, low);
    XorAppend(head, high, [bit], [true]);
    assert Xor([bit], [true]) == [!bit] && Xor([bit], [false]) == [bit];
  }

  lemma {:induction false} AddTop(n: nat, w: Word16, b: bool, high: seq<bool>, low: seq<bool>)
    requires 1 <= n <= 16 && high == Zeros(16 - n) && low == Zeros(n - 1)
    ensures Low(if b then Xor(w, high + [true] + low) else w, n) == Xor(Low(w, n), [b] + low)
  {
    var head, bit, tail := w[..16 - n], w[16 - n], w[17 - n..];
    FlipOne(head, bit, tail, high, low);
    assert w == head + [bit] + tail && Low(w, n) == [bit] + tail;
  }

  /** `r & (1 << k) != 0` tests one bit. */
  lemma {:induction false} TestBit(r: seq<bool>, i: nat, mask: seq<bool>)
    requires |mask| == |r| && i < |r| && mask == Zeros(i) + [true] + Zeros(|r| - 1 - i)
    ensures And(r, mask) != Zeros(|r|) <==> r[i]
  {
    forall k | 0 <= k < |r|
      ensures mask[k] == (k == i) && !Zeros(|r|)[k]
    {
      ZerosAt(|r|, k);
      if k < i {
        ZerosAt(i, k);
      } else if k > i {
        ZerosAt(|r| - 1 - i, k - i - 1);
      }
    }
    if r[i] {
      assert And(r, mask)[i];
    }
  }

  /** The dividend bits in the order in which they are divided. */
  function Dividend(x: Word16, n: nat, reflect: bool): (s: seq<bool>)
    requires n <= 16
  {
    if reflect then Reverse(x[16 - n..]) else x[16 - n..]
  }

  method CrcModuloWordUpdate(n: nat, remainder0: Word16, newDividendBits: Word16, truncated: Word16, wordLength: nat,
                             reflect: bool)
      returns (remainder: Word16)
    requires 1 <= n <= 16 && wordLength <= 16
    ensures Low(remainder, n) ==
            TopRun(Low(remainder0, n), Dividend(newDividendBits, wordLength, reflect), Poly(n, truncated))
  {
    var bits := newDividendBits;
    if !reflect {
      bits := ReflectBits(bits, wordLength);
    }
    ghost var from := bits;
    ghost var order := Dividend(newDividendBits, wordLength, reflect);
    remainder := remainder0;
    ghost var r0, p := Low(remainder0, n), Poly(n, truncated);
    OrderOfBits(newDividendBits, bits, wordLength, reflect);
    for i := 0 to wordLength
      invariant ShiftedBy(bits, from, i)
      invariant Low(remainder, n) == TopRun(r0, order[..i], p)
    {
      var b, shifted := bits[15], ShiftRight(bits, 1);
      ShiftOne(bits, from, i, shifted);
      var next := Update(n, truncated, remainder, b);
      UpdateStep(n, truncated, r0, remainder, order, i, b, next);
      remainder, bits := next, shifted;
    }
    assert order[..wordLength] == order;
  }

  lemma {:induction false} UpdateStep(n: nat, truncated: Word16, r0: seq<bool>, w: Word16, order: seq<bool>, i: nat,
                                      b: bool, next: Word16)
    requires 1 <= n <= 16 && |r0| == n && i < |order| && b == order[i] && next == Update(n, truncated, w, b)
    requires Low(w, n) == TopRun(r0, order[..i], Poly(n, truncated))
    ensures Low(next, n) == TopRun(r0, order[..i + 1], Poly(n, truncated))
  {
    UpdateIsTopPush(n, truncated, w, b);
    assert order[..i + 1][..i] == order[..i];
  }

  lemma {:induction false} OrderOfBits(x: Word16, from: Word16, n: nat, reflect: bool)
    requires n <= 16 && (if reflect then from == x else Reflected(from, x, n))
    ensures |Dividend(x, n, reflect)| == n
    ensures forall i :: 0 <= i < n ==> Dividend(x, n, reflect)[i] == from[15 - i]
  {
  }

  /** What a table entry has to be: the remainder of the index byte followed by twelve zeros. */
  function Entry(d: Byte): (r: seq<bool>)
    ensures |r| == 12
  {
    Remainder(d + Zeros(12), Divisor())
  }

  /** Every entry is right in its low twelve bits; nothing is said of the bits above them. */
  ghost predicate ValidTable(table: seq<Word16>) {
    |table| == 256 && forall d: nat :: d < 256 ==> IsEntry(table[d], d)
  }

  predicate IsEntry(w: Word16, d: nat) {
    Reg(w) == Entry(Bits(d, 8))
  }

  lemma {:induction false} TruncatedPoly(truncated: Word16)
    requires truncated == TruncatedDivisor()
    ensures Poly(12, truncated) == Divisor()
  {
    assert Low(truncated, 12) == Divisor()[1..];
  }

  method TableEntry(d: nat) returns (w: Word16)
    requires d < 256
    ensures IsEntry(w, d)
  {
    var zero: Word16 := Zeros(16);
    w := CrcModuloWordUpdate(12, zero, Bits(d, 16), TruncatedDivisor(), 8, false);
    LowByte(d);
    TruncatedPoly(TruncatedDivisor());
    ZerosAppend(4, 12);
    TopRunIsRemainder(Bits(d, 8), Divisor(), 12);
  }

  method MakeCrc12Table() returns (table: array<Word16>)
    ensures fresh(table) && ValidTable(table[..])
  {
    table := new Word16[256](_ => Zeros(16));
    for d := 0 to 256
      invariant forall k: nat :: k < d ==> IsEntry(table[k], k)
    {
      var w := TableEntry(d);
      table[d] := w;
    }
  }

  lemma {:induction false} LowByte(d: nat)
    ensures Bits(d, 16)[8..] == Bits(d, 8)
  {
    LowBits(d, 16, 8);
  }

  lemma {:induction false} LowBits(v: nat, n: nat, k: nat)
    requires k <= n
    ensures Bits(v, n)[n - k..] == Bits(v, k)
  {
    if k > 0 {
      LowBits(v / 2, n - 1, k - 1);
    }
  }

  // ---- the table-driven remainder

  /** The bits of a byte string. */
  function BytesBits(data: seq<Byte>): (s: seq<bool>)
    ensures |s| == 8 * |data|
  {
    if data == [] then [] else BytesBits(data[..|data| - 1]) + data[|data| - 1]
  }

  lemma {:induction false} ToNatSkipsZeros(n: nat, s: seq<bool>)
    ensures ToNat(Zeros(n) + s) == ToNat(s)
  {
    ToNatAppend(Zeros(n), s);
    ZeroToNat(n);
    ShlOfZero(|s|);
  }

  lemma {:induction false} ZeroToNat(n: nat)
    ensures ToNat(Zeros(n)) == 0
  {
    if n > 0 {
      ZeroToNat(n - 1);
      assert Zeros(n)[..n - 1] == Zeros(n - 1);
    }
  }

  /** The table index is the top byte of the twelve-bit register, whatever is above it. */
  lemma {:induction false} IndexIsTopByte(w: Word16, index: seq<bool>)
    requires index == And(ShiftRight(w, 4), LowMask(16, 8))
    ensures ToNat(index) < 256 && Bits(ToNat(index), 8) == Reg(w)[..8]
  {
    var top: seq<bool> := w[4..12];
    AndLowMask(ShiftRight(w, 4), 8);
    assert ShiftRight(w, 4)[8..] == top;
    assert Reg(w)[..8] == top;
    ToNatSkipsZeros(8, top);
    BitsOfToNat(top);
    Pow2Values();
  }

  lemma {:induction false} AppendByte(w: Word16, byte: Byte, t: Word16, next: Word16)
    requires Reg(t) == Entry(Reg(w)[..8])
    requires next == Xor(Or(ShiftLeft(w, 8), Cast(byte, 16)), t)
    ensures Reg(next) == Run(Reg(w), byte, Divisor())
  {
    var high := w[8..];
    OrFields(high, byte);
    assert Or(ShiftLeft(w, 8), Cast(byte, 16)) == high + byte;
    ByteStep(Reg(w), byte);
    assert (high + byte)[4..] == Reg(w)[8..] + byte;
    XorSuffix(high + byte, t, 4);
  }

  lemma {:induction false} XorSuffix(a: seq<bool>, b: seq<bool>, k: nat)
    requires |a| == |b| && k <= |a|
    ensures Xor(a, b)[k..] == Xor(a[k..], b[k..])
  {
  }

  lemma {:induction false} NextByte(data: seq<Byte>, i: nat, r: seq<bool>)
    requires i < |data| && r == Remainder(BytesBits(data[..i]), Divisor())
    ensures Run(r, data[i], Divisor()) == Remainder(BytesBits(data[..i + 1]), Divisor())
  {
    assert data[..i + 1][..i] == data[..i];
    RunAppend(Zeros(12), BytesBits(data[..i]), data[i], Divisor());
  }

  method AugmentedCrc12(table: array<Word16>, data: seq<Byte>) returns (crc: Word16)
    requires ValidTable(table[..])
    ensures crc == Zeros(4) + Remainder(BytesBits(data), Divisor())
  {
    var remainder: Word16 := Zeros(16);
    ZerosAppend(4, 12);
    for i := 0 to |data|
      invariant Reg(remainder) == Remainder(BytesBits(data[..i]), Divisor())
    {
      var index := And(ShiftRight(remainder, 4), LowMask(16, 8));
      IndexIsTopByte(remainder, index);
      var t := table[ToNat(index)];
      assert IsEntry(table[..][ToNat(index)], ToNat(index));
      var next: Word16 := Xor(Or(ShiftLeft(remainder, 8), Cast(data[i], 16)), t);
      AppendByte(remainder, data[i], t, next);
      NextByte(data, i, Reg(remainder));
      remainder := next;
    }
    assert data[..|data|] == data;
    AndLowMask(remainder, 12);
    crc := And(remainder, LowMask(16, 12));
  }

  /** The checksum of a bit string: its remainder with the bits of 42 flipped. */
  function Checksum(bits: seq<bool>): (c: seq<bool>)
    ensures |c| == 12
  {
    Xor(Remainder(bits, Divisor()), Bits(42, 12))
  }

  method Crc12(data: seq<Byte>) returns (crc: Word16)
    ensures crc == Zeros(4) + Checksum(BytesBits(data))
  {
    var table := MakeCrc12Table();
    var augmented := AugmentedCrc12(table, data);
    crc := Xor(augmented, Bits(XOR_OUT, 16));
    HighBitsOfSmall(XOR_OUT, 4, 12);
    XorWithZeros(Zeros(4));
    XorAppend(Zeros(4), Zeros(4), Remainder(BytesBits(data), Divisor()), Bits(XOR_OUT, 12));
  }

  lemma {:induction false} HighBitsOfSmall(v: nat, m: nat, n: nat)
    requires v < Pow2(n)
    ensures Bits(v, m + n) == Zeros(m) + Bits(v, n)
  {
    if n == 0 {
      ZeroBits(m);
    } else {
      HighBitsOfSmall(v / 2, m, n - 1);
      assert Zeros(m) + (Bits(v / 2, n - 1) + [v % 2 == 1]) == Zeros(m) + Bits(v / 2, n - 1) + [v % 2 == 1];
    }
  }

  lemma {:induction false} ZeroBits(n: nat)
    ensures Bits(0, n) == Zeros(n)
  {
    if n > 0 {
      ZeroBits(n - 1);
    }
  }

  /** Without its final flip the checksum is the remainder of polynomial division, and only that. */
  lemma {:induction false} ChecksumIsRemainder(data: seq<Byte>, r: seq<bool>)
    ensures IsRemainder(BytesBits(data), Divisor(), r) <==> r == Xor(Checksum(BytesBits(data)), Bits(42, 12))
  {
    RemainderIsUnique(BytesBits(data), Divisor(), r);
    var rem := Remainder(BytesBits(data), Divisor());
    XorGroups(rem, Bits(42, 12), Bits(42, 12));
    XorWithZeros(Bits(42, 12));
    XorWithZeros(rem);
  }
}
