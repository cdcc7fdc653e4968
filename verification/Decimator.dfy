/**
 * The 49-tap filter that keeps one of four samples, over exact reals: a delay line stored twice
 * so that its window is always contiguous, and a sum folded over the symmetric coefficients.
 */
module Decimator {

  const NTAPS: nat := 49
  const NDOWN: nat := 4

  /** The last 49 inputs, newest first, zeros standing for those before the first. */
  function Taps(history: seq<int>): (t: seq<real>)
    ensures |t| == NTAPS
  {
    seq(NTAPS, k requires 0 <= k < NTAPS => if k < |history| then history[|history| - 1 - k] as real else 0.0)
  }

  /** The sum of `h[k] * s[k]` over `lo <= k < hi`. */
  function Dot(h: seq<real>, s: seq<real>, lo: nat, hi: nat): real
    requires lo <= hi <= |h| == |s|
  {
    if lo == hi then 0.0 else Dot(h, s, lo, hi - 1) + h[hi - 1] * s[hi - 1]
  }

  predicate Symmetric(h: seq<real>) {
    |h| == NTAPS && forall k :: 0 <= k < NTAPS ==> h[k] == h[NTAPS - 1 - k]
  }

  /** `y` is the integer next to `a` on the side of zero, or the nearest 16-bit number if `a` is out of their range. */
  predicate Truncates(a: real, y: int) {
    if a >= 32768.0 then y == 32767
    else if a <= -32769.0 then y == -32768
    else if a >= 0.0 then 0.0 <= y as real <= a < y as real + 1.0
    else y as real - 1.0 < a <= y as real <= 0.0
  }

  /** Truncation toward zero, saturated to 16 bits. */
  function ToI16(acc: real): (y: int)
    ensures -32768 <= y <= 32767 && Truncates(acc, y)
  {
    var yi := if acc >= 0.0 then acc.Floor else -(-acc).Floor;
    if yi > 32767 then 32767 else if yi < -32768 then -32768 else yi
  }

  /** One output sample: the plain convolution of the coefficients with the last 49 inputs. */
  function Output(h: seq<real>, history: seq<int>): (y: int)
    requires |h| == NTAPS
    ensures Truncates(Dot(h, Taps(history), 0, NTAPS), y)
  {
    ToI16(Dot(h, Taps(history), 0, NTAPS))
  }

  /** The first `n` pairs from both ends, each with one coefficient. */
  function Folded(h: seq<real>, s: seq<real>, n: nat): real
    requires |h| == |s| == NTAPS && n <= NTAPS / 2
  {
    if n == 0 then 0.0 else Folded(h, s, n - 1) + h[n - 1] * (s[n - 1] + s[NTAPS - n])
  }

  lemma {:induction false} DotSplit(h: seq<real>, s: seq<real>, lo: nat, mid: nat, hi: nat)
    requires lo <= mid <= hi <= |h| == |s|
    ensures Dot(h, s, lo, hi) == Dot(h, s, lo, mid) + Dot(h, s, mid, hi)
  {
    if mid < hi {
      DotSplit(h, s, lo, mid, hi - 1);
    }
  }

  lemma {:induction false} DistributeReal(a: real, b: real, c: real)
    ensures a * (b + c) == a * b + a * c
  {
  }

  /** Folding pairs is summing both ends, for symmetric coefficients. */
  lemma {:induction false} FoldedIsEnds(h: seq<real>, s: seq<real>, n: nat)
    requires Symmetric(h) && |s| == NTAPS && n <= NTAPS / 2
    ensures Folded(h, s, n) == Dot(h, s, 0, n) + Dot(h, s, NTAPS - n, NTAPS)
  {
    if n > 0 {
      var a, b := n - 1, NTAPS - n;
      FoldedIsEnds(h, s, n - 1);
      DotSplit(h, s, b, b + 1, NTAPS);
      assert Dot(h, s, b, b + 1) == h[b] * s[b];
      assert h[a] == h[b];
      DistributeReal(h[a], s[a], s[b]);
    }
  }

  lemma {:induction false} FoldedIsDot(h: seq<real>, s: seq<real>)
    requires Symmetric(h) && |s| == NTAPS
    ensures Folded(h, s, NTAPS / 2) + h[NTAPS / 2] * s[NTAPS / 2] == Dot(h, s, 0, NTAPS)
  {
    var m := NTAPS / 2;
    FoldedIsEnds(h, s, m);
    DotSplit(h, s, 0, m + 1, NTAPS);
  }

  lemma {:induction false} TapsPush(history: seq<int>, x: int, k: nat)
    requires k < NTAPS
    ensures Taps(history + [x])[k] == if k == 0 then x as real else Taps(history)[k - 1]
  {
  }

  /** The total of the four partial sums. */
  function Lanes(sums: seq<real>): real
    requires |sums| == 4
  {
    (sums[0] + sums[1]) + (sums[2] + sums[3])
  }

  lemma {:induction false} AddLane(h: seq<real>, s: seq<real>, k: nat, sums: seq<real>, lane: nat, pair: real,
                                   next: seq<real>)
    requires |h| == |s| == NTAPS && k < NTAPS / 2 && |sums| == 4 && lane < 4
    requires Lanes(sums) == Folded(h, s, k) && pair == s[k] + s[NTAPS - 1 - k]
    requires next == sums[lane := h[k] * pair + sums[lane]]
    ensures Lanes(next) == Folded(h, s, k + 1)
  {
    var product := h[k] * pair;
    assert next == sums[lane := product + sums[lane]];
    assert Lanes(next) == Lanes(sums) + product;
  }

  /** Folded products in four interleaved lanes, then the middle term. */
  method FoldLanes(h: seq<real>, samples: seq<real>) returns (acc: real)
    requires Symmetric(h) && |samples| == NTAPS
    ensures acc == Dot(h, samples, 0, NTAPS)
  {
    var sums := [0.0, 0.0, 0.0, 0.0];
    for k := 0 to NTAPS / 2
      invariant |sums| == 4 && Lanes(sums) == Folded(h, samples, k)
    {
      var pair := samples[k] + samples[NTAPS - 1 - k];
      var lane := k % 4;
      var next := sums[lane := h[k] * pair + sums[lane]];
      AddLane(h, samples, k, sums, lane, pair, next);
      sums := next;
    }
    acc := (sums[0] + sums[1]) + (sums[2] + sums[3]);
    acc := h[NTAPS / 2] * samples[NTAPS / 2] + acc;
    FoldedIsDot(h, samples);
  }

  class Fir {
    const h: seq<real>
    const z: array<real>
    var w: nat

    /** The window that starts at `w` holds the last 49 inputs, and both halves of the line agree. */
    ghost predicate Valid(history: seq<int>)
      reads this, z
    {
      && Symmetric(h) && z.Length == 2 * NTAPS && w < NTAPS
      && (forall k :: 0 <= k < NTAPS ==> z[k] == z[k + NTAPS])
      && (forall k :: 0 <= k < NTAPS ==> z[w + k] == Taps(history)[k])
    }

    constructor (h: seq<real>)
      requires Symmetric(h)
      ensures Valid([]) && this.h == h && fresh(z)
    {
      this.h := h;
      z := new real[2 * NTAPS](_ => 0.0);
      w := 0;
    }

    method Push(x: int, ghost history: seq<int>)
      requires Valid(history)
      modifies this, z
      ensures Valid(history + [x])
    {
      if w == 0 {
        w := NTAPS - 1;
      } else {
        w := w - 1;
      }
      z[w] := x as real;
      z[w + NTAPS] := x as real;
      forall k | 0 <= k < NTAPS
        ensures z[w + k] == Taps(history + [x])[k]
      {
        TapsPush(history, x, k);
        if k > 0 {
          assert old(z[w + (k - 1)]) == Taps(history)[k - 1];
          assert w == old(w) - 1 || old(z[k - 1]) == old(z[k - 1 + NTAPS]);
        }
      }
    }

    /** The sum over the window. */
    method Convolve(ghost history: seq<int>) returns (acc: real)
      requires Valid(history)
      ensures acc == Dot(h, Taps(history), 0, NTAPS)
    {
      var samples := z[w..w + NTAPS];
      assert samples == Taps(history);
      acc := FoldLanes(h, samples);
    }

    /** Takes four samples and yields one. */
    method DownSample(x4: seq<int>, ghost history: seq<int>) returns (y: int)
      requires Valid(history) && |x4| == NDOWN
      modifies this, z
      ensures Valid(history + x4) && y == Output(h, history + x4)
      ensures Truncates(Dot(h, Taps(history + x4), 0, NTAPS), y)
    {
      assert history + x4[..0] == history;
      for i := 0 to NDOWN
        invariant Valid(history + x4[..i])
      {
        Push(x4[i], history + x4[..i]);
        assert history + x4[..i] + [x4[i]] == history + x4[..i + 1];
      }
      assert x4[..NDOWN] == x4;
      var acc := Convolve(history + x4);
      y := ToI16(acc);
    }
  }
}
