/** Bit strings as polynomials over GF(2), most significant coefficient first. */
module Gf2 {

  function Zeros(n: nat): (s: seq<bool>)
    ensures |s| == n
  {
    if n == 0 then [] else Zeros(n - 1) + [false]
  }

  function Xor(a: seq<bool>, b: seq<bool>): (s: seq<bool>)
    requires |a| == |b|
    ensures |s| == |a|
  {
    seq(|a|, i requires 0 <= i < |a| => a[i] != b[i])
  }

  lemma {:induction false} XorAppend(a: seq<bool>, b: seq<bool>, c: seq<bool>, e: seq<bool>)
    requires |a| == |b| && |c| == |e|
    ensures Xor(a + c, b + e) == Xor(a, b) + Xor(c, e)
  {
  }

  lemma {:induction false} XorLast(a: seq<bool>, b: seq<bool>)
    requires |a| == |b| > 0
    ensures Xor(a, b) == Xor(a[..|a| - 1], b[..|b| - 1]) + [a[|a| - 1] != b[|b| - 1]]
  {
  }

  lemma {:induction false} XorGroups(a: seq<bool>, b: seq<bool>, c: seq<bool>)
    requires |a| == |b| == |c|
    ensures Xor(Xor(a, b), c) == Xor(a, Xor(b, c))
    ensures Xor(a, b) == Xor(b, a)
  {
  }

  lemma {:induction false} ZerosAt(n: nat, i: nat)
    requires i < n
    ensures !Zeros(n)[i]
  {
    if i < n - 1 {
      ZerosAt(n - 1, i);
    }
  }

  lemma {:induction false} ZerosAppend(m: nat, n: nat)
    ensures Zeros(m) + Zeros(n) == Zeros(m + n)
  {
    if n > 0 {
      ZerosAppend(m, n - 1);
    }
  }

  lemma {:induction false} XorWithZeros(a: seq<bool>)
    ensures Xor(a, Zeros(|a|)) == a && Xor(Zeros(|a|), a) == a
    ensures Xor(a, a) == Zeros(|a|)
  {
    forall i | 0 <= i < |a|
      ensures !Zeros(|a|)[i]
    {
      ZerosAt(|a|, i);
    }
  }

  // ---- the divider, one bit at a time

  /** Appends one dividend bit to a remainder and reduces by the divisor `p`. */
  function Push(r: seq<bool>, b: bool, p: seq<bool>): (next: seq<bool>)
    requires |p| == |r| + 1
    ensures |next| == |r|
  {
    var t := r + [b];
    if t[0] then Xor(t, p)[1..] else t[1..]
  }

  function Run(r: seq<bool>, bits: seq<bool>, p: seq<bool>): (next: seq<bool>)
    requires |p| == |r| + 1
    ensures |next| == |r|
  {
    if bits == [] then r else Push(Run(r, bits[..|bits| - 1], p), bits[|bits| - 1], p)
  }

  function Remainder(bits: seq<bool>, p: seq<bool>): (r: seq<bool>)
    requires p != []
    ensures |r| == |p| - 1
  {
    Run(Zeros(|p| - 1), bits, p)
  }

  lemma {:induction false} PushLinear(r: seq<bool>, s: seq<bool>, a: bool, b: bool, p: seq<bool>)
    requires |r| == |s| && |p| == |r| + 1
    ensures Push(Xor(r, s), a != b, p) == Xor(Push(r, a, p), Push(s, b, p))
  {
  }

  lemma {:induction false} RunAppend(r: seq<bool>, a: seq<bool>, b: seq<bool>, p: seq<bool>)
    requires |p| == |r| + 1
    ensures Run(r, a + b, p) == Run(Run(r, a, p), b, p)
  {
    if b == [] {
      assert a + b == a;
    } else {
      var init := b[..|b| - 1];
      RunAppend(r, a, init, p);
      assert (a + b)[..|a + b| - 1] == a + init;
    }
  }

  /** The divider is linear in its register and its input. */
  lemma {:induction false} RunLinear(r: seq<bool>, s: seq<bool>, a: seq<bool>, b: seq<bool>, p: seq<bool>)
    requires |a| == |b| && |r| == |s| && |p| == |r| + 1
    ensures Run(Xor(r, s), Xor(a, b), p) == Xor(Run(r, a, p), Run(s, b, p))
  {
    if a != [] {
      var last := |a| - 1;
      RunLinear(r, s, a[..last], b[..last], p);
      XorLast(a, b);
      PushLinear(Run(r, a[..last], p), Run(s, b[..last], p), a[last], b[last], p);
      assert Xor(a, b)[..last] == Xor(a[..last], b[..last]);
    }
  }

  lemma {:induction false} RemainderLinear(a: seq<bool>, b: seq<bool>, p: seq<bool>)
    requires |a| == |b| && p != []
    ensures Remainder(Xor(a, b), p) == Xor(Remainder(a, p), Remainder(b, p))
  {
    var zeros := Zeros(|p| - 1);
    XorWithZeros(zeros);
    RunLinear(zeros, zeros, a, b, p);
  }

  /** A string no longer than the register is its own remainder. */
  lemma {:induction false} ShortRemainder(w: seq<bool>, p: seq<bool>)
    requires |w| < |p|
    ensures Remainder(w, p) == Zeros(|p| - 1 - |w|) + w
  {
    if w == [] {
      assert Zeros(|p| - 1) + w == Zeros(|p| - 1);
    } else {
      var init, n := w[..|w| - 1], |p| - 1 - |w|;
      ShortRemainder(init, p);
      ZerosAppend(1, n);
      ZerosAt(n + 1, 0);
      assert Zeros(1)[0] == false && |Zeros(1)| == 1;
      assert (Zeros(1) + Zeros(n) + init + [w[|w| - 1]])[1..] == Zeros(n) + w;
    }
  }

  lemma {:induction false} PushOfZero(p: seq<bool>)
    requires p != []
    ensures Push(Zeros(|p| - 1), false, p) == Zeros(|p| - 1)
  {
    var t := Zeros(|p| - 1) + [false];
    assert t == Zeros(|p|);
    ZerosAt(|p|, 0);
    ZerosAppend(1, |p| - 1);
    assert |Zeros(1)| == 1 && t[1..] == Zeros(|p| - 1);
  }

  lemma {:induction false} ZerosRun(n: nat, p: seq<bool>)
    requires p != []
    ensures Remainder(Zeros(n), p) == Zeros(|p| - 1)
  {
    if n > 0 {
      ZerosRun(n - 1, p);
      PushOfZero(p);
    }
  }

  lemma {:induction false} LeadingZeros(n: nat, s: seq<bool>, p: seq<bool>)
    requires p != []
    ensures Remainder(Zeros(n) + s, p) == Remainder(s, p)
  {
    ZerosRun(n, p);
    RunAppend(Zeros(|p| - 1), Zeros(n), s, p);
  }

  /** The product of `q` and the polynomial with coefficients `p`, by Horner's rule. */
  function Times(q: seq<bool>, p: seq<bool>): (s: seq<bool>)
    requires p != []
    ensures |s| == |q| + |p| - 1
  {
    if q == [] then Zeros(|p| - 1)
    else
      var shifted := Times(q[..|q| - 1], p) + [false];
      if q[|q| - 1] then Xor(shifted, Zeros(|q| - 1) + p) else shifted
  }

  /** `r` is the remainder of `s` on division by `p`: `s` is a multiple of `p` plus `r`, of smaller degree than `p`. */
  ghost predicate IsRemainder(s: seq<bool>, p: seq<bool>, r: seq<bool>) {
    p != [] && |r| == |p| - 1 && exists q: seq<bool> :: Divides(s, p, q, r)
  }

  /** `s == q * p + r`, written with as many coefficients as the product has. */
  ghost predicate Divides(s: seq<bool>, p: seq<bool>, q: seq<bool>, r: seq<bool>)
    requires p != [] && |r| == |p| - 1
  {
    |q| == |s| && Zeros(|p| - 1) + s == Xor(Times(q, p), Zeros(|s|) + r)
  }

  // ---- the divider computes the remainder

  /** The bits at which the divider subtracts the divisor. */
  function Quotient(s: seq<bool>, p: seq<bool>): (q: seq<bool>)
    requires p != []
    ensures |q| == |s|
  {
    if s == [] then []
    else
      var init, last := s[..|s| - 1], s[|s| - 1];
      Quotient(init, p) + [(Remainder(init, p) + [last])[0]]
  }

  lemma {:induction false} QuotientStart(p: seq<bool>)
    requires p != []
    ensures Divides([], p, [], Zeros(|p| - 1))
  {
    var d := |p| - 1;
    XorWithZeros(Zeros(d));
    assert Zeros(d) + [] == Zeros(d) && Zeros(0) + Zeros(d) == Zeros(d);
  }

  /** Bringing down the next bit extends the quotient by the leading bit of the partial remainder. */
  lemma {:induction false} QuotientStep(init: seq<bool>, last: bool, p: seq<bool>, q: seq<bool>, r: seq<bool>,
                                        t: seq<bool>)
    requires p != [] && p[0] && |r| == |p| - 1 && t == r + [last] && Divides(init, p, q, r)
    ensures Divides(init + [last], p, q + [t[0]], if t[0] then Xor(t, p)[1..] else t[1..])
  {
    var n := |init|;
    var shifted := Times(q, p) + [false];
    assert Xor(Times(q, p), Zeros(n) + r) + [last] == Xor(shifted, Zeros(n) + t);
    DivisionStep(shifted, n, t, p);
    assert Zeros(|p| - 1) + (init + [last]) == Zeros(|p| - 1) + init + [last];
    assert (q + [t[0]])[..n] == q;
  }

  lemma {:induction false} QuotientDivides(s: seq<bool>, p: seq<bool>)
    requires p != [] && p[0]
    ensures Divides(s, p, Quotient(s, p), Remainder(s, p))
  {
    if s == [] {
      QuotientStart(p);
    } else {
      var init, last := s[..|s| - 1], s[|s| - 1];
      var q, r := Quotient(init, p), Remainder(init, p);
      QuotientDivides(init, p);
      QuotientStep(init, last, p, q, r, r + [last]);
      assert s == init + [last];
    }
  }

  /** Subtracting the divisor when the leading bit is set leaves the dividend's sum unchanged. */
  lemma {:induction false} DivisionStep(shifted: seq<bool>, n: nat, t: seq<bool>, p: seq<bool>)
    requires p != [] && p[0] && |t| == |p| && |shifted| == n + |p|
    ensures var more := if t[0] then Xor(shifted, Zeros(n) + p) else shifted;
            var r := if t[0] then Xor(t, p)[1..] else t[1..];
            Xor(shifted, Zeros(n) + t) == Xor(more, Zeros(n + 1) + r)
  {
    var r := if t[0] then Xor(t, p)[1..] else t[1..];
    var more := if t[0] then Xor(shifted, Zeros(n) + p) else shifted;
    forall i | 0 <= i < n + |p|
      ensures Xor(shifted, Zeros(n) + t)[i] == Xor(more, Zeros(n + 1) + r)[i]
    {
      if i < n {
        ZerosAt(n, i);
      }
      if i < n + 1 {
        ZerosAt(n + 1, i);
      }
    }
  }

  lemma {:induction false} MultipleHasNoRemainder(q: seq<bool>, p: seq<bool>)
    requires p != [] && p[0]
    ensures Remainder(Times(q, p), p) == Zeros(|p| - 1)
  {
    var d := |p| - 1;
    if q == [] {
      ZerosRun(d, p);
    } else {
      var init := q[..|q| - 1];
      var shifted := Times(init, p) + [false];
      MultipleHasNoRemainder(init, p);
      assert shifted[..|shifted| - 1] == Times(init, p);
      PushOfZero(p);
      assert Remainder(shifted, p) == Zeros(d);
      if q[|q| - 1] {
        RemainderLinear(shifted, Zeros(|q| - 1) + p, p);
        LeadingZeros(|q| - 1, p, p);
        DivisorHasNoRemainder(p);
        XorWithZeros(Zeros(d));
      }
    }
  }

  lemma {:induction false} DivisorHasNoRemainder(p: seq<bool>)
    requires p != [] && p[0]
    ensures Remainder(p, p) == Zeros(|p| - 1)
  {
    var d := |p| - 1;
    ShortRemainder(p[..d], p);
    assert Zeros(0) + p[..d] == p[..d];
    assert p[..d] + [p[d]] == p;
    XorWithZeros(p);
    ZerosAppend(1, d);
    assert |Zeros(1)| == 1 && Zeros(|p|)[1..] == Zeros(d);
  }

  /** The divider's register is the remainder of polynomial division, and nothing else is. */
  lemma {:induction false} RemainderIsUnique(s: seq<bool>, p: seq<bool>, r: seq<bool>)
    requires p != [] && p[0]
    ensures IsRemainder(s, p, r) <==> r == Remainder(s, p)
  {
    if IsRemainder(s, p, r) {
      var q: seq<bool> :| Divides(s, p, q, r);
      LeadingZeros(|p| - 1, s, p);
      RemainderLinear(Times(q, p), Zeros(|s|) + r, p);
      MultipleHasNoRemainder(q, p);
      LeadingZeros(|s|, r, p);
      ShortRemainder(r, p);
      assert Zeros(0) + r == r;
      XorWithZeros(r);
    }
    if r == Remainder(s, p) {
      QuotientDivides(s, p);
    }
  }

  // ---- divisors with a factor x, and divisors with constant term 1

  /** Dividing by `x * p`: the last dividend bit passes through. */
  lemma {:induction false} ShiftedDivisor(s: seq<bool>, b: bool, p: seq<bool>)
    requires p != []
    ensures Remainder(s + [b], p + [false]) == Remainder(s, p) + [b]
  {
    var d := |p| - 1;
    assert (s + [b])[..|s|] == s;
    if s == [] {
      ShortRemainder([b], p + [false]);
    } else {
      var init, last := s[..|s| - 1], s[|s| - 1];
      ShiftedDivisor(init, last, p);
      assert s == init + [last];
    }
  }

  /** With constant term 1, shifting in a zero never loses a non-zero remainder. */
  lemma {:induction false} PushKeepsNonZero(r: seq<bool>, p: seq<bool>)
    requires |p| == |r| + 1 && |r| > 0 && p[|r|]
    ensures Push(r, false, p) == Zeros(|r|) <==> r == Zeros(|r|)
  {
    var d := |r|;
    var t := r + [false];
    PushOfZero(p);
    ZerosAt(d, d - 1);
    if Push(r, false, p) == Zeros(d) {
      assert !t[0];
      forall i | 0 <= i < d
        ensures t[i] == Zeros(d)[i]
      {
        ZerosAt(d, i);
        assert i > 0 ==> t[i] == t[1..][i - 1];
        if i > 0 {
          ZerosAt(d, i - 1);
        }
      }
    }
  }

  lemma {:induction false} TrailingZerosKeepNonZero(s: seq<bool>, n: nat, p: seq<bool>)
    requires |p| > 1 && p[|p| - 1]
    ensures Remainder(s + Zeros(n), p) == Zeros(|p| - 1) <==> Remainder(s, p) == Zeros(|p| - 1)
  {
    if n == 0 {
      assert s + Zeros(0) == s;
    } else {
      TrailingZerosKeepNonZero(s, n - 1, p);
      assert (s + Zeros(n))[..|s| + n - 1] == s + Zeros(n - 1);
      PushKeepsNonZero(Remainder(s + Zeros(n - 1), p), p);
    }
  }

  // ---- the divider fed from the top of the register

  /** One step of the word update: the dividend bit enters at the top of the register. */
  function TopPush(r: seq<bool>, b: bool, p: seq<bool>): (next: seq<bool>)
    requires |p| == |r| + 1 && r != []
    ensures |next| == |r|
  {
    Push(Xor(r, [b] + Zeros(|r| - 1)), false, p)
  }

  function TopRun(r: seq<bool>, bits: seq<bool>, p: seq<bool>): (next: seq<bool>)
    requires |p| == |r| + 1 && r != []
    ensures |next| == |r|
  {
    if bits == [] then r else TopPush(TopRun(r, bits[..|bits| - 1], p), bits[|bits| - 1], p)
  }

  /** The word update divides the dividend followed by as many zeros as the register has bits. */
  lemma {:induction false} TopRunIsRemainder(bits: seq<bool>, p: seq<bool>, n: nat)
    requires n + 1 == |p| && n > 0
    ensures TopRun(Zeros(n), bits, p) == Remainder(bits + Zeros(n), p)
  {
    if bits == [] {
      ZerosRun(n, p);
      assert [] + Zeros(n) == Zeros(n);
    } else {
      var init, b := bits[..|bits| - 1], bits[|bits| - 1];
      TopRunIsRemainder(init, p, n);
      TopPushStep(init, b, p, n);
      assert bits == init + [b];
    }
  }

  /** One dividend bit more: `init . b . 0^n` is `init . 0^n` plus `b . 0^(n-1)`, followed by a zero. */
  lemma {:induction false} TopPushStep(init: seq<bool>, b: bool, p: seq<bool>, n: nat)
    requires n + 1 == |p| && n > 0
    ensures Remainder(init + [b] + Zeros(n), p) == TopPush(Remainder(init + Zeros(n), p), b, p)
  {
    var low := [b] + Zeros(n - 1);
    SumRemainder(init, low, p);
    MoveZero(init, b, Zeros(n - 1));
    RemainderOfPush(init + low, false, p);
  }

  /** The high part alone, plus the low part that fills the register. */
  lemma {:induction false} SumRemainder(high: seq<bool>, low: seq<bool>, p: seq<bool>)
    requires |low| + 1 == |p|
    ensures Remainder(high + low, p) == Xor(Remainder(high + Zeros(|low|), p), low)
  {
    AddLow(high, low);
    RemainderLinear(high + Zeros(|low|), Zeros(|high|) + low, p);
    LeadingZeros(|high|, low, p);
    ShortRemainder(low, p);
    assert Zeros(0) + low == low;
  }

  lemma {:induction false} MoveZero(init: seq<bool>, b: bool, zeros: seq<bool>)
    ensures init + [b] + (zeros + [false]) == init + ([b] + zeros) + [false]
  {
  }

  lemma {:induction false} RemainderOfPush(s: seq<bool>, b: bool, p: seq<bool>)
    requires p != []
    ensures Remainder(s + [b], p) == Push(Remainder(s, p), b, p)
  {
    assert (s + [b])[..|s|] == s;
  }

  lemma {:induction false} AddLow(high: seq<bool>, low: seq<bool>)
    ensures Xor(high + Zeros(|low|), Zeros(|high|) + low) == high + low
  {
    XorWithZeros(high);
    XorWithZeros(low);
    XorAppend(high, Zeros(|high|), Zeros(|low|), low);
  }
}
