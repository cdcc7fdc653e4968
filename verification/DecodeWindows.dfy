/** Decode windows cut from the sample ring. */
module DecodeWindows {
  import opened Spectrum
  import opened Arith

  /** The window that ends at `kinEnd` and has at most `nmax` samples: its start and length. */
  function WindowFromKin(kinEnd: nat, nmax: nat): (w: (nat, nat))
    ensures w.0 + w.1 == kinEnd && w.1 == if kinEnd < nmax then kinEnd else nmax
  {
    var span := if kinEnd < nmax then kinEnd else nmax;
    (kinEnd - span, span)
  }

  /** Ring slot `k mod size` holds sample `k` for each of the last `size` samples before `end`. */
  ghost predicate Holds(ring: seq<int>, stream: nat -> real, end: nat) {
    ring != [] && forall k: nat :: k < end && end <= k + |ring| ==> ring[k % |ring|] as real == stream(k)
  }

  /** Copies `sz` samples from ring position `pos` on, around the end of the ring, and clears the rest. */
  method LoadWindow(z: Sizes, ring: seq<int>, pos: nat, sz: nat) returns (dd: seq<real>)
    requires sz <= z.nmax && sz <= |ring| && pos <= |ring|
    ensures |dd| == z.nmax
    ensures forall i :: 0 <= i < sz ==> dd[i] == ring[if pos + i < |ring| then pos + i else pos + i - |ring|] as real
    ensures forall i :: sz <= i < z.nmax ==> dd[i] == 0.0
  {
    dd := seq(z.nmax, _ => 0.0);
    if |ring| - pos < sz {
      var first := |ring| - pos;
      var second := sz - first;
      for i := 0 to first
        invariant |dd| == z.nmax && forall k :: i <= k < z.nmax ==> dd[k] == 0.0
        invariant forall k :: 0 <= k < i ==> dd[k] == ring[pos + k] as real
      {
        dd := dd[i := ring[pos + i] as real];
      }
      for i := 0 to second
        invariant |dd| == z.nmax && forall k :: first + i <= k < z.nmax ==> dd[k] == 0.0
        invariant forall k :: 0 <= k < first ==> dd[k] == ring[pos + k] as real
        invariant forall k :: 0 <= k < i ==> dd[first + k] == ring[k] as real
      {
        dd := dd[first + i := ring[i] as real];
      }
      forall i | first <= i < sz
        ensures dd[i] == ring[pos + i - |ring|] as real
      {
        assert dd[first + (i - first)] == ring[i - first] as real;
      }
    } else {
      for i := 0 to sz
        invariant |dd| == z.nmax && forall k :: i <= k < z.nmax ==> dd[k] == 0.0
        invariant forall k :: 0 <= k < i ==> dd[k] == ring[pos + k] as real
      {
        dd := dd[i := ring[pos + i] as real];
      }
    }
  }

  lemma {:induction false} WrapIsMod(start: nat, i: nat, size: nat)
    requires 0 < size && i < size
    ensures (start + i) % size == if start % size + i < size then start % size + i else start % size + i - size
  {
    var q, r := start / size, start % size;
    Distribute(q, 1, size);
    if r + i < size {
      DivModIs(start + i, q, r + i, size);
    } else {
      DivModIs(start + i, q + 1, r + i - size, size);
    }
  }

  /** What is loaded for a window that ends at `end`. */
  function Loaded(z: Sizes, ring: seq<int>, end: nat): (dd: seq<real>)
    requires ring != []
    ensures |dd| == z.nmax
  {
    var (pos, size) := WindowFromKin(end, if z.nmax < |ring| then z.nmax else |ring|);
    var p := pos % |ring|;
    seq(z.nmax, i requires 0 <= i < z.nmax =>
      if i >= size then 0.0 else ring[if p + i < |ring| then p + i else p + i - |ring|] as real)
  }

  method LoadAt(z: Sizes, ring: seq<int>, end: nat) returns (dd: seq<real>)
    requires ring != []
    ensures dd == Loaded(z, ring, end)
  {
    var (pos, size) := WindowFromKin(end, if z.nmax < |ring| then z.nmax else |ring|);
    dd := LoadWindow(z, ring, pos % |ring|, size);
  }

  lemma {:induction false} LoadedAt(z: Sizes, ring: seq<int>, end: nat, i: nat, p: nat)
    requires ring != [] && i < z.nmax <= end && z.nmax <= |ring| && p == (end - z.nmax) % |ring|
    ensures p < |ring| && Loaded(z, ring, end)[i] == ring[if p + i < |ring| then p + i else p + i - |ring|] as real
  {
  }

  lemma {:induction false} HeldAt(ring: seq<int>, stream: nat -> real, end: nat, k: nat, slot: nat)
    requires Holds(ring, stream, end) && k < end <= k + |ring| && slot == k % |ring|
    ensures slot < |ring| && ring[slot] as real == stream(k)
  {
  }

  /** A complete window loaded from a ring that holds the stream is that stretch of the stream. */
  lemma {:induction false} CompleteWindow(z: Sizes, ring: seq<int>, end: nat, stream: nat -> real)
    requires z.nmax <= end && z.nmax <= |ring| && Holds(ring, stream, end)
    ensures WindowOf(z, stream, end - z.nmax, Loaded(z, ring, end))
  {
    var start := end - z.nmax;
    forall i | 0 <= i < z.nmax
      ensures Loaded(z, ring, end)[i] == stream(start + i)
    {
      WrapIsMod(start, i, |ring|);
      LoadedAt(z, ring, end, i, start % |ring|);
      HeldAt(ring, stream, end, start + i, (start + i) % |ring|);
    }
  }

  lemma {:induction false} LoadedEarly(z: Sizes, ring: seq<int>, end: nat, i: nat, zero: nat)
    requires ring != [] && end <= z.nmax <= |ring| && i < z.nmax && zero == 0 % |ring| == 0
    ensures Loaded(z, ring, end)[i] == if i < end then ring[i] as real else 0.0
  {
  }

  /** A window that is not complete yet is the whole stream so far, and then zeros. */
  lemma {:induction false} PartialWindow(z: Sizes, ring: seq<int>, end: nat, stream: nat -> real, i: nat)
    requires end <= z.nmax <= |ring| && i < z.nmax && Holds(ring, stream, end)
    ensures Loaded(z, ring, end)[i] == if i < end then stream(i) else 0.0
  {
    DivModIs(0, 0, 0, |ring|);
    LoadedEarly(z, ring, end, i, 0);
    if i < end {
      DivModIs(i, 0, i, |ring|);
      HeldAt(ring, stream, end, i, i);
    }
  }
}
