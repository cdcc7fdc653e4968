/** Machine words as natural numbers, and their bit sequences (most significant bit first). */
module Words {

  function Pow2(n: nat): (p: nat)
    ensures p > 0
  {
    if n == 0 then 1 else 2 * Pow2(n - 1)
  }

  lemma {:induction false} Pow2Add(a: nat, b: nat)
    ensures Pow2(a + b) == Pow2(a) * Pow2(b)
  {
    if b > 0 {
      Pow2Add(a, b - 1);
    }
  }

  lemma {:induction false} Pow2Monotone(a: nat, b: nat)
    requires a <= b
    ensures Pow2(a) <= Pow2(b)
  {
    if a < b {
      Pow2Monotone(a, b - 1);
    }
  }

  /** The powers used by the frame formats. */
  lemma {:induction false} Pow2Values()
    ensures Pow2(4) == 0x10 && Pow2(5) == 0x20 && Pow2(6) == 0x40 && Pow2(8) == 0x100
    ensures Pow2(16) == 0x1_0000 && Pow2(18) == 0x4_0000 && Pow2(31) == 0x8000_0000
  {
    assert Pow2(3) == 8;
    assert Pow2(6) == 64;
    Pow2Add(8, 8);
    Pow2Add(16, 2);
    Pow2Add(16, 15);
    Pow2Add(8, 7);
  }

  const U64: nat := 0x1_0000_0000_0000_0000

  lemma {:induction false} U64IsPow2()
    ensures Pow2(64) == U64
  {
    Pow2Values();
    Pow2Add(16, 16);
    Pow2Add(32, 32);
  }

  /** The bitwise `|` of two words. */
  function BitOr(a: nat, b: nat): nat {
    if a == 0 then b
    else 2 * BitOr(a / 2, b / 2) + (if a % 2 == 1 || b % 2 == 1 then 1 else 0)
  }

  /** `v << k`, before any truncation. */
  function Shl(v: nat, k: nat): nat {
    if k == 0 then v else 2 * Shl(v, k - 1)
  }

  lemma {:induction false} ShlIsMultiple(v: nat, k: nat)
    ensures Shl(v, k) == v * Pow2(k)
  {
    if k > 0 {
      ShlIsMultiple(v, k - 1);
      DoubleFactor(v, Pow2(k - 1));
    }
  }

  lemma {:induction false} DoubleFactor(x: nat, y: nat)
    ensures 2 * (x * y) == x * (2 * y)
  {
  }

  /** Shifting is linear and composes. */
  lemma {:induction false} ShlDouble(v: nat, k: nat)
    ensures Shl(2 * v, k) == 2 * Shl(v, k)
    ensures Shl(2 * v + 1, k) == 2 * Shl(v, k) + Pow2(k)
  {
    if k > 0 {
      ShlDouble(v, k - 1);
    }
  }

  lemma {:induction false} ShlOfZero(k: nat)
    ensures Shl(0, k) == 0
  {
    if k > 0 {
      ShlOfZero(k - 1);
    }
  }

  lemma {:induction false} ShlBound(v: nat, n: nat, k: nat)
    requires v < Pow2(n)
    ensures Shl(v, k) < Pow2(n + k)
  {
    if k > 0 {
      ShlBound(v, n, k - 1);
    }
  }

  lemma {:induction false} ShlSum(v: nat, m: nat, k: nat, w: nat)
    ensures Shl(v, m + k) + Shl(w, k) == Shl(Shl(v, m) + w, k)
  {
    if k > 0 {
      ShlSum(v, m, k - 1, w);
    }
  }

  /** `|` of fields that do not overlap is their sum. */
  lemma {:induction false} OrOfDisjointFields(a: nat, k: nat, b: nat)
    requires b < Pow2(k)
    ensures BitOr(Shl(a, k), b) == Shl(a, k) + b
  {
    if k == 0 {
      OrWithZero(a);
    } else {
      OrOfDisjointFields(a, k - 1, b / 2);
    }
  }

  lemma {:induction false} OrOfShifted(v: nat, m: nat, w: nat, k: nat)
    requires w < Pow2(m)
    ensures BitOr(Shl(v, m + k), Shl(w, k)) == Shl(v, m + k) + Shl(w, k)
  {
    if k == 0 {
      OrOfDisjointFields(v, m, w);
    } else {
      OrOfShifted(v, m, w, k - 1);
    }
  }

  lemma {:induction false} OrIsCommutative(a: nat, b: nat)
    ensures BitOr(a, b) == BitOr(b, a)
    decreases a + b
  {
    if a > 0 && b > 0 {
      OrIsCommutative(a / 2, b / 2);
    } else if a > 0 {
      OrWithZero(a);
    } else if b > 0 {
      OrWithZero(b);
    }
  }

  lemma {:induction false} OrWithZero(a: nat)
    ensures BitOr(a, 0) == a
  {
    if a > 0 {
      OrWithZero(a / 2);
    }
  }

  /** The `n` low bits of `v`, most significant first. */
  function Bits(v: nat, n: nat): (s: seq<bool>)
    ensures |s| == n
  {
    if n == 0 then [] else Bits(v / 2, n - 1) + [v % 2 == 1]
  }

  /** The number a bit sequence spells, most significant bit first. */
  function ToNat(s: seq<bool>): (v: nat)
    ensures v < Pow2(|s|)
  {
    if s == [] then 0 else 2 * ToNat(s[..|s| - 1]) + (if s[|s| - 1] then 1 else 0)
  }

  lemma {:induction false} BitsOfToNat(s: seq<bool>)
    ensures Bits(ToNat(s), |s|) == s
  {
    if s != [] {
      BitsOfToNat(s[..|s| - 1]);
    }
  }

  lemma {:induction false} ToNatOfBits(v: nat, n: nat)
    requires v < Pow2(n)
    ensures ToNat(Bits(v, n)) == v
  {
    if n > 0 {
      ToNatOfBits(v / 2, n - 1);
      assert Bits(v, n)[..n - 1] == Bits(v / 2, n - 1);
    }
  }

  lemma {:induction false} ToNatAppend(a: seq<bool>, b: seq<bool>)
    ensures ToNat(a + b) == Shl(ToNat(a), |b|) + ToNat(b)
  {
    if b == [] {
      assert a + b == a;
    } else {
      var init := b[..|b| - 1];
      ToNatAppend(a, init);
      assert (a + b)[..|a + b| - 1] == a + init && (a + b)[|a + b| - 1] == b[|b| - 1];
    }
  }

  lemma {:induction false} BitsAppend(v: nat, m: nat, w: nat, n: nat)
    requires w < Pow2(n)
    ensures Bits(Shl(v, n) + w, m + n) == Bits(v, m) + Bits(w, n)
  {
    if n > 0 {
      var t := Shl(v, n) + w;
      assert t / 2 == Shl(v, n - 1) + w / 2 && t % 2 == w % 2;
      BitsAppend(v, m, w / 2, n - 1);
      assert Bits(v, m) + (Bits(w / 2, n - 1) + [w % 2 == 1]) == Bits(v, m) + Bits(w / 2, n - 1) + [w % 2 == 1];
    }
  }

  /** The bitwise `&` of two words. */
  function BitAnd(a: nat, b: nat): nat {
    if a == 0 || b == 0 then 0
    else 2 * BitAnd(a / 2, b / 2) + (if a % 2 == 1 && b % 2 == 1 then 1 else 0)
  }

  /** Whether bit `i` (counted from the least significant) of `m` is set. */
  predicate HasBit(m: nat, i: nat) {
    if i == 0 then m % 2 == 1 else HasBit(m / 2, i - 1)
  }

  /** The index of the lowest set bit. */
  function TrailingZeros(m: nat): (k: nat)
    requires m > 0
    ensures HasBit(m, k)
    ensures forall i: nat :: i < k ==> !HasBit(m, i)
  {
    if m % 2 == 1 then 0 else 1 + TrailingZeros(m / 2)
  }

  lemma {:induction false} AndWithSelf(m: nat)
    ensures BitAnd(m, m) == m
  {
    if m > 0 {
      AndWithSelf(m / 2);
    }
  }

  /** `m & (m - 1)` clears exactly the lowest set bit. */
  lemma {:induction false} ClearLowestBit(m: nat, i: nat)
    requires m > 0
    ensures BitAnd(m, m - 1) < m
    ensures HasBit(BitAnd(m, m - 1), i) <==> HasBit(m, i) && i != TrailingZeros(m)
  {
    if m % 2 == 1 {
      AndWithSelf(m / 2);
      assert m == 1 || (m - 1) / 2 == m / 2;
    } else {
      assert (m - 1) / 2 == m / 2 - 1;
      ClearLowestBit(m / 2, if i > 0 then i - 1 else 0);
    }
  }

  /** `m | (1 << k)` sets exactly bit `k`. */
  lemma {:induction false} SetBit(m: nat, k: nat, i: nat)
    ensures HasBit(BitOr(m, Pow2(k)), i) <==> HasBit(m, i) || i == k
  {
    if m == 0 {
      SingleBit(k, i);
      NoBits(i);
    } else {
      if k == 0 {
        OrWithZero(m / 2);
      } else if i > 0 {
        SetBit(m / 2, k - 1, i - 1);
      }
    }
  }

  lemma {:induction false} NoBits(i: nat)
    ensures !HasBit(0, i)
  {
    if i > 0 {
      NoBits(i - 1);
    }
  }

  lemma {:induction false} SingleBit(k: nat, i: nat)
    ensures HasBit(Pow2(k), i) <==> i == k
  {
    if i > 0 {
      if k > 0 {
        SingleBit(k - 1, i - 1);
      } else {
        NoBits(i - 1);
      }
    }
  }

  lemma {:induction false} AndWithPow2(m: nat, k: nat)
    ensures BitAnd(m, Pow2(k)) != 0 <==> HasBit(m, k)
  {
    if m == 0 {
      NoBits(k);
    } else if k > 0 {
      AndWithPow2(m / 2, k - 1);
    }
  }

  lemma {:induction false} BitsAreHasBit(v: nat, n: nat, i: nat)
    requires i < n
    ensures Bits(v, n)[i] == HasBit(v, n - 1 - i)
  {
    if i < n - 1 {
      BitsAreHasBit(v / 2, n - 1, i);
    }
  }

  /** Bit `i` of an `n`-bit word is the one selected by the mask `1 << (n - 1 - i)`. */
  lemma {:induction false} MaskedBit(v: nat, n: nat, i: nat)
    requires i < n
    ensures Bits(v, n)[i] <==> BitAnd(v, Pow2(n - 1 - i)) != 0
  {
    AndWithPow2(v, n - 1 - i);
    BitsAreHasBit(v, n, i);
  }

  /** `v >> k`. */
  function Shr(v: nat, k: nat): nat {
    if k == 0 then v else Shr(v / 2, k - 1)
  }

  lemma {:induction false} ShrOfShl(v: nat, k: nat, w: nat)
    requires w < Pow2(k)
    ensures Shr(Shl(v, k) + w, k) == v
  {
    if k > 0 {
      assert (Shl(v, k) + w) / 2 == Shl(v, k - 1) + w / 2;
      ShrOfShl(v, k - 1, w / 2);
    }
  }

  lemma {:induction false} ShrTwice(v: nat, a: nat, b: nat)
    ensures Shr(v, a + b) == Shr(Shr(v, a), b)
  {
    if a > 0 {
      ShrTwice(v / 2, a - 1, b);
    }
  }

  /** `v & ((1 << k) - 1)`. */
  function LowBitsOf(v: nat, k: nat): nat {
    if k == 0 then 0 else 2 * LowBitsOf(v / 2, k - 1) + v % 2
  }

  lemma {:induction false} LowOfShl(v: nat, k: nat, w: nat)
    requires w < Pow2(k)
    ensures LowBitsOf(Shl(v, k) + w, k) == w
  {
    if k > 0 {
      assert (Shl(v, k) + w) / 2 == Shl(v, k - 1) + w / 2;
      LowOfShl(v, k - 1, w / 2);
    }
  }

  function Ones(n: nat): (s: seq<bool>)
    ensures |s| == n
  {
    if n == 0 then [] else Ones(n - 1) + [true]
  }
}
