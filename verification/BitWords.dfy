/** Fixed-width machine words as bit strings, most significant bit first. */
module BitWords {
  import opened Words
  import opened Gf2

  /** `w << k`: bits shifted out at the top are lost. */
  function ShiftLeft(w: seq<bool>, k: nat): (s: seq<bool>)
    requires k <= |w|
    ensures |s| == |w|
  {
    w[k..] + Zeros(k)
  }

  function ShiftRight(w: seq<bool>, k: nat): (s: seq<bool>)
    requires k <= |w|
    ensures |s| == |w|
  {
    Zeros(k) + w[..|w| - k]
  }

  function And(a: seq<bool>, b: seq<bool>): (s: seq<bool>)
    requires |a| == |b|
    ensures |s| == |a|
  {
    seq(|a|, i requires 0 <= i < |a| => a[i] && b[i])
  }

  function Or(a: seq<bool>, b: seq<bool>): (s: seq<bool>)
    requires |a| == |b|
    ensures |s| == |a|
  {
    seq(|a|, i requires 0 <= i < |a| => a[i] || b[i])
  }

  /** Conversion to a width of `n` bits: truncates, or extends with zeros. */
  function Cast(w: seq<bool>, n: nat): (s: seq<bool>)
    ensures |s| == n
  {
    if |w| >= n then w[|w| - n..] else Zeros(n - |w|) + w
  }

  /** The `n`-bit word whose `k` low bits are ones: the literal `(1 << k) - 1`. */
  function LowMask(n: nat, k: nat): (s: seq<bool>)
    requires k <= n
    ensures |s| == n
  {
    Zeros(n - k) + Ones(k)
  }

  lemma {:induction false} OnesAt(n: nat, i: nat)
    requires i < n
    ensures Ones(n)[i]
  {
    if i < n - 1 {
      OnesAt(n - 1, i);
    }
  }

  /** Masking with `(1 << k) - 1` keeps the `k` low bits. */
  lemma {:induction false} AndLowMask(w: seq<bool>, k: nat)
    requires k <= |w|
    ensures And(w, LowMask(|w|, k)) == Zeros(|w| - k) + w[|w| - k..]
  {
    forall i | 0 <= i < |w|
      ensures And(w, LowMask(|w|, k))[i] == (Zeros(|w| - k) + w[|w| - k..])[i]
    {
      if i < |w| - k {
        ZerosAt(|w| - k, i);
      } else {
        OnesAt(k, i - (|w| - k));
      }
    }
  }

  /** `|` with a word that is zero where the other is not appends their fields. */
  lemma {:induction false} OrFields(a: seq<bool>, b: seq<bool>)
    ensures Or(a + Zeros(|b|), Zeros(|a|) + b) == a + b
  {
    forall i | 0 <= i < |a| + |b|
      ensures Or(a + Zeros(|b|), Zeros(|a|) + b)[i] == (a + b)[i]
    {
      if i < |a| {
        ZerosAt(|a|, i);
      } else {
        ZerosAt(|b|, i - |a|);
      }
    }
  }

  function Reverse(w: seq<bool>): (s: seq<bool>)
    ensures |s| == |w|
  {
    seq(|w|, i requires 0 <= i < |w| => w[|w| - 1 - i])
  }
}
