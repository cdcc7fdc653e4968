/** Directed header frames: sender, target and command in 72 bits. */
module DirectedFrame {
  import opened Wrappers
  import opened Words
  import opened Alphabet
  import opened Frame72
  import opened Callsign
  import opened Commands

  const FRAME_DIRECTED: nat := 3

  /** The widths of the callsign and command fields; a frame is [3][call][call][code] and [2][6]. */
  datatype Widths = Widths(call: nat, code: nat)

  const WIDTHS: Widths := Widths(28, 5)

  datatype Fields = Fields(from: nat, target: nat, code: nat, portableFrom: bool, portableTo: bool, number: nat)

  predicate FieldsFit(w: Widths, f: Fields) {
    f.from < Pow2(w.call) && f.target < Pow2(w.call) && f.code < Pow2(w.code) && f.code < 32 && f.number < 64
  }

  /** `(flag << 61) | (from << 33) | (target << 5) | (code % 32)`, the shifts being sums of the widths below. */
  function PackValue(w: Widths, f: Fields): nat {
    var low := w.call + w.code;
    BitOr(BitOr(BitOr(Shl(FRAME_DIRECTED, w.call + low), Shl(f.from, low)), Shl(f.target, w.code)), f.code % 32)
  }

  function PackExtra(f: Fields): nat {
    ((if f.portableFrom then 128 else 0) + (if f.portableTo then 64 else 0) + f.number) % 256
  }

  /** The frame flag: `value >> 61`. */
  function FlagOf(w: Widths, value: nat): nat { Shr(value, w.code + w.call + w.call) }

  function UnpackFields(w: Widths, value: nat, extra: nat): Fields {
    Fields(LowBitsOf(Shr(value, w.code + w.call), w.call),
           LowBitsOf(Shr(value, w.code), w.call), LowBitsOf(value, w.code),
           extra / 128 % 2 == 1, extra / 64 % 2 == 1, extra % 64)
  }

  /** Shifting three fields into place and merging them is nesting them. */
  lemma {:induction false} NestedValue(flag: nat, from: nat, target: nat, code: nat, a: nat, b: nat, low: nat)
    requires from < Pow2(a) && target < Pow2(a) && code < Pow2(b) && low == a + b
    ensures BitOr(BitOr(BitOr(Shl(flag, a + low), Shl(from, low)), Shl(target, b)), code) ==
            Shl(Shl(Shl(flag, a) + from, a) + target, b) + code
  {
    var v1 := Shl(flag, a) + from;
    var v2 := Shl(v1, a) + target;
    assert BitOr(Shl(flag, a + low), Shl(from, low)) == Shl(v1, low) by {
      OrOfShifted(flag, a, from, low);
      ShlSum(flag, a, low, from);
    }
    assert BitOr(Shl(v1, low), Shl(target, b)) == Shl(v2, b) by {
      OrOfShifted(v1, a, target, b);
      ShlSum(v1, a, b, target);
    }
    OrOfDisjointFields(v2, b, code);
  }

  lemma {:induction false} NestedReadBack(flag: nat, from: nat, target: nat, code: nat, a: nat, b: nat, value: nat)
    requires from < Pow2(a) && target < Pow2(a) && code < Pow2(b)
    requires value == Shl(Shl(Shl(flag, a) + from, a) + target, b) + code
    ensures LowBitsOf(value, b) == code && LowBitsOf(Shr(value, b), a) == target
    ensures LowBitsOf(Shr(value, b + a), a) == from && Shr(value, b + a + a) == flag
  {
    var v1 := Shl(flag, a) + from;
    var v2 := Shl(v1, a) + target;
    LowOfShl(v2, b, code);
    ShrOfShl(v2, b, code);
    LowOfShl(v1, a, target);
    ShrOfShl(v1, a, target);
    ShrTwice(value, b, a);
    LowOfShl(flag, a, from);
    ShrOfShl(flag, a, from);
    ShrTwice(value, b + a, a);
  }

  lemma {:induction false} NestedBound(flag: nat, from: nat, target: nat, code: nat, a: nat, b: nat, n: nat)
    requires flag < Pow2(n) && from < Pow2(a) && target < Pow2(a) && code < Pow2(b)
    ensures Shl(Shl(Shl(flag, a) + from, a) + target, b) + code < Pow2(n + a + a + b)
  {
    ShlAddBound(flag, n, a, from);
    ShlAddBound(Shl(flag, a) + from, n + a, a, target);
    ShlAddBound(Shl(Shl(flag, a) + from, a) + target, n + a + a, b, code);
  }

  lemma {:induction false} ShlAddBound(v: nat, n: nat, k: nat, w: nat)
    requires v < Pow2(n) && w < Pow2(k)
    ensures Shl(v, k) + w < Pow2(n + k)
  {
    if k > 0 {
      ShlAddBound(v, n, k - 1, w / 2);
    }
  }

  /** Every header's fields are read back, with the directed flag. */
  lemma {:induction false} FieldsReadBack(w: Widths, f: Fields)
    requires FieldsFit(w, f)
    ensures PackValue(w, f) < Pow2(2 + w.call + w.call + w.code) && PackExtra(f) < 256
    ensures FlagOf(w, PackValue(w, f)) == FRAME_DIRECTED && UnpackFields(w, PackValue(w, f), PackExtra(f)) == f
  {
    var a, b := w.call, w.code;
    assert Pow2(2) == 4 by {
      assert Pow2(1) == 2;
    }
    NestedValue(FRAME_DIRECTED, f.from, f.target, f.code, a, b, a + b);
    NestedReadBack(FRAME_DIRECTED, f.from, f.target, f.code, a, b, PackValue(w, f));
    NestedBound(FRAME_DIRECTED, f.from, f.target, f.code, a, b, 2);
    ExtraReadBack(f);
  }

  lemma {:induction false} ExtraReadBack(f: Fields)
    requires f.number < 64
    ensures var extra := PackExtra(f);
            && extra < 256 && (extra / 128 % 2 == 1) == f.portableFrom && (extra / 64 % 2 == 1) == f.portableTo
            && extra % 64 == f.number
  {
  }
}
