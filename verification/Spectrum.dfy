/**
 * Reuse of power spectra between overlapping decode windows of one sample stream.
 * Samples and powers are exact reals; the transform of a segment is an arbitrary function.
 */
module Spectrum {
  import opened Wrappers
  import opened Arith

  /** Window length, transform length, step between columns, rows, and columns stored for each row. */
  datatype Sizes = Sizes(nmax: nat, nfft1: nat, nstep: nat, nsps: nat, nhsym: nat)

  predicate GoodSizes(z: Sizes) {
    0 < z.nstep && z.nfft1 <= z.nmax && Spectra(z) <= z.nhsym
  }

  /** The number of columns of a full window. */
  function Spectra(z: Sizes): (n: nat)
    requires 0 < z.nstep && z.nfft1 <= z.nmax
  {
    (z.nmax - z.nfft1) / z.nstep + 1
  }

  /** The columns are as many as fit into the window. */
  lemma {:induction false} SpectraIsMost(z: Sizes)
    requires 0 < z.nstep && z.nfft1 <= z.nmax
    ensures (Spectra(z) - 1) * z.nstep + z.nfft1 <= z.nmax < Spectra(z) * z.nstep + z.nfft1
  {
    var q := (z.nmax - z.nfft1) / z.nstep;
    assert z.nmax - z.nfft1 == q * z.nstep + (z.nmax - z.nfft1) % z.nstep;
    Distribute(q, 1, z.nstep);
  }

  lemma {:induction false} SegmentFits(z: Sizes, j: nat)
    requires GoodSizes(z) && j < Spectra(z)
    ensures j * z.nstep + z.nfft1 <= z.nmax
  {
    var q := (z.nmax - z.nfft1) / z.nstep;
    MulMonotone(j, q, z.nstep);
    assert q * z.nstep <= z.nmax - z.nfft1;
  }

  /** The power in row `i` of a segment of samples. */
  type Transform = (nat, seq<real>) -> real

  /** The segment of a window that column `j` transforms. */
  function Segment(z: Sizes, dd: seq<real>, j: nat): (s: seq<real>)
    requires GoodSizes(z) && |dd| == z.nmax && j < Spectra(z)
    ensures |s| == z.nfft1
  {
    SegmentFits(z, j);
    dd[j * z.nstep..j * z.nstep + z.nfft1]
  }

  /** The segments of a window, one for each column. */
  function Segments(z: Sizes, dd: seq<real>): (c: seq<seq<real>>)
    requires GoodSizes(z) && |dd| == z.nmax
    ensures |c| == Spectra(z) && forall j :: 0 <= j < |c| ==> c[j] == Segment(z, dd, j)
  {
    seq(Spectra(z), j requires 0 <= j < Spectra(z) => Segment(z, dd, j))
  }

  function Sum(s: seq<real>): real {
    if s == [] then 0.0 else Sum(s[..|s| - 1]) + s[|s| - 1]
  }

  lemma {:induction false} SumAppend(a: seq<real>, b: seq<real>)
    ensures Sum(a + b) == Sum(a) + Sum(b)
  {
    if b == [] {
      assert a + b == a;
    } else {
      SumAppend(a, b[..|b| - 1]);
      assert (a + b)[..|a + b| - 1] == a + b[..|b| - 1];
    }
  }

  /** The first `n` columns of a row are the powers of the first `n` segments. */
  ghost predicate RowIs(z: Sizes, power: Transform, segments: seq<seq<real>>, row: seq<real>, i: nat, n: nat)
    requires n <= |segments| && n <= z.nhsym
  {
    |row| == z.nhsym && forall j :: 0 <= j < n ==> row[j] == power(i, segments[j])
  }

  /** Rows that show all segments of a window. */
  ghost predicate Shows(z: Sizes, power: Transform, segments: seq<seq<real>>, rows: seq<seq<real>>) {
    && GoodSizes(z) && |segments| == Spectra(z) && |rows| == z.nsps
    && forall i :: 0 <= i < z.nsps ==> RowIs(z, power, segments, rows[i], i, Spectra(z))
  }

  /** The window of a stream that starts at sample `start`. */
  ghost predicate WindowOf(z: Sizes, stream: nat -> real, start: nat, dd: seq<real>) {
    |dd| == z.nmax && forall i :: 0 <= i < z.nmax ==> dd[i] == stream(start + i)
  }

  /** Segment `j` of a window is segment `j + shift` of the window `shift` steps earlier. */
  lemma {:induction false} ShiftedColumn(z: Sizes, stream: nat -> real, start: nat, shift: nat, old_: seq<real>,
                                         new_: seq<real>, j: nat)
    requires GoodSizes(z) && j + shift < Spectra(z)
    requires WindowOf(z, stream, start, old_) && WindowOf(z, stream, start + shift * z.nstep, new_)
    ensures Segment(z, old_, j + shift) == Segment(z, new_, j)
  {
    SegmentFits(z, j);
    SegmentFits(z, j + shift);
    Distribute(j, shift, z.nstep);
    var a, b := Segment(z, old_, j + shift), Segment(z, new_, j);
    forall k | 0 <= k < z.nfft1
      ensures a[k] == b[k]
    {
      assert a[k] == old_[(j + shift) * z.nstep + k];
      assert b[k] == new_[j * z.nstep + k];
    }
  }

  /** What the columns show after an update: those that are kept and moved, and then those of the new samples. */
  function Updated<C>(kept: seq<C>, current: seq<C>, shift: Option<nat>): (c: seq<C>)
    requires shift.Some? && shift.value < |current| ==> |kept| == |current|
    ensures |c| == |current|
  {
    if shift.Some? && shift.value < |current| then kept[shift.value..] + current[|current| - shift.value..] else current
  }

  /** Within one stream an update shows the current window, whatever was kept. */
  lemma {:induction false} UpdatedIsCurrent(z: Sizes, stream: nat -> real, start: nat, shift: nat, old_: seq<real>,
                                            new_: seq<real>)
    requires GoodSizes(z) && WindowOf(z, stream, start, old_) && WindowOf(z, stream, start + shift * z.nstep, new_)
    ensures Updated(Segments(z, old_), Segments(z, new_), Some(shift)) == Segments(z, new_)
  {
    if shift < Spectra(z) {
      forall j: nat | j + shift < Spectra(z)
        ensures Segment(z, old_, j + shift) == Segment(z, new_, j)
      {
        ShiftedColumn(z, stream, start, shift, old_, new_, j);
      }
    }
  }

  /** A row moved left by `shift` columns, its freed columns cleared. */
  function MoveRow(row: seq<real>, shift: nat, spectra: nat): (r: seq<real>)
    requires shift <= spectra <= |row|
    ensures |r| == |row|
  {
    row[shift..spectra] + seq(|row| - (spectra - shift), _ => 0.0)
  }

  /** Subtracts the columns that leave a row's sum and moves the others left. */
  method ShiftRow(row: seq<real>, sum0: real, shift: nat, spectra: nat) returns (moved: seq<real>, sum: real)
    requires shift <= spectra <= |row| && sum0 == Sum(row[..spectra])
    ensures moved == MoveRow(row, shift, spectra) && sum == Sum(moved[..spectra - shift])
  {
    sum := sum0;
    for k := 0 to shift
      invariant sum == Sum(row[k..spectra])
    {
      SumAppend([row[k]], row[k + 1..spectra]);
      assert row[k..spectra] == [row[k]] + row[k + 1..spectra];
      assert Sum([row[k]]) == row[k] by {
        assert [row[k]][..0] == [];
      }
      sum := sum - row[k];
    }
    moved := MoveRow(row, shift, spectra);
    assert moved[..spectra - shift] == row[shift..spectra];
  }

  lemma {:induction false} MovedRow(z: Sizes, power: Transform, c: seq<seq<real>>, row: seq<real>, i: nat, shift: nat,
                                    spectra: nat, rest: seq<seq<real>>)
    requires shift <= spectra <= |c| && spectra <= z.nhsym && RowIs(z, power, c, row, i, spectra) && rest == c[shift..]
    ensures RowIs(z, power, rest, MoveRow(row, shift, spectra), i, spectra - shift)
  {
  }

  lemma {:induction false} PushedRow(z: Sizes, power: Transform, c: seq<seq<real>>, row: seq<real>, i: nat, j: nat,
                                     p: real)
    requires j < |c| && j < z.nhsym && RowIs(z, power, c, row, i, j) && p == power(i, c[j])
    ensures RowIs(z, power, c, row[j := p], i, j + 1) && Sum(row[j := p][..j + 1]) == Sum(row[..j]) + p
  {
    SumPush(row, j, p);
  }

  lemma {:induction false} SumPush(row: seq<real>, j: nat, v: real)
    requires j < |row|
    ensures Sum(row[j := v][..j + 1]) == Sum(row[..j]) + v
  {
    assert row[j := v][..j + 1][..j] == row[..j];
  }

  /** How many steps a window is after an earlier one, if that is a whole number. */
  function ShiftOf(z: Sizes, previous: Option<nat>, current: Option<nat>): (shift: Option<nat>)
    requires 0 < z.nstep
    ensures shift.Some? ==>
      previous.Some? && current.Some? && current.value == previous.value + shift.value * z.nstep
  {
    if previous.Some? && current.Some? && current.value >= previous.value
       && (current.value - previous.value) % z.nstep == 0
    then Some((current.value - previous.value) / z.nstep)
    else None
  }

  /** The spectra of one decoder and the bookkeeping of their reuse. */
  class SpectrumCache {
    const z: Sizes
    const power: Transform
    const s: array<seq<real>>
    const spectrumSum: array<real>
    const savg: array<real>
    var dd: seq<real>
    var start: Option<nat>
    var updates: nat

    /** The segments that the last first pass has searched; the columns show them while a start is recorded. */
    ghost var segments: seq<seq<real>>

    /** The work arrays have their sizes. */
    ghost predicate Shaped()
      reads this, s, spectrumSum, savg
    {
      && GoodSizes(z) && |dd| == z.nmax && updates <= 32
      && s.Length == spectrumSum.Length == savg.Length == z.nsps && spectrumSum != savg
      && forall i :: 0 <= i < s.Length ==> |s[i]| == z.nhsym
    }

    /** The first `n` columns of the rows `lo..hi` show the first `n` segments, and the sums are over these columns. */
    ghost predicate Rows(c: seq<seq<real>>, n: nat, lo: nat, hi: nat)
      requires n <= z.nhsym && n <= |c| && lo <= hi <= s.Length == spectrumSum.Length
      reads this, s, spectrumSum
    {
      forall i :: lo <= i < hi ==> RowIs(z, power, c, s[i], i, n) && spectrumSum[i] == Sum(s[i][..n])
    }

    /** The same of all rows. */
    ghost predicate Columns(c: seq<seq<real>>, n: nat)
      requires GoodSizes(z) && n <= Spectra(z) && n <= |c|
      reads this, s, spectrumSum
    {
      s.Length == spectrumSum.Length == z.nsps && Rows(c, n, 0, z.nsps)
    }

    ghost predicate Valid()
      reads this, s, spectrumSum, savg
    {
      && Shaped() && updates < 32
      && (start.Some? ==> |segments| == Spectra(z) && Columns(segments, Spectra(z)))
    }

    constructor (z: Sizes, power: Transform)
      requires GoodSizes(z)
      ensures Valid() && updates == 0 && start.None? && this.z == z && this.power == power
      ensures fresh(s) && fresh(spectrumSum) && fresh(savg)
    {
      this.z := z;
      this.power := power;
      s := new seq<real>[z.nsps](_ => seq(z.nhsym, _ => 0.0));
      spectrumSum := new real[z.nsps](_ => 0.0);
      savg := new real[z.nsps](_ => 0.0);
      dd := seq(z.nmax, _ => 0.0);
      start := None;
      updates := 0;
      segments := [];
    }

    /** Stores a row and its sum; the other rows stay as they are. */
    method SetRow(i: nat, row: seq<real>, sum: real)
      requires Shaped() && i < z.nsps && |row| == z.nhsym
      modifies s, spectrumSum
      ensures Shaped() && s[i] == row && spectrumSum[i] == sum
      ensures forall r :: 0 <= r < z.nsps && r != i ==> s[r] == old(s[r]) && spectrumSum[r] == old(spectrumSum[r])
    {
      s[i] := row;
      spectrumSum[i] := sum;
    }

    /** Moves every row left, keeping the sums over the columns that remain. */
    method ShiftRows(shift: nat, ghost c: seq<seq<real>>)
      requires Shaped() && shift < Spectra(z) == |c| && Columns(c, Spectra(z))
      modifies s, spectrumSum
      ensures Shaped() && Columns(c[shift..], Spectra(z) - shift)
    {
      var n := Spectra(z);
      ghost var rest := c[shift..];
      for i := 0 to z.nsps
        invariant Shaped() && Rows(c, n, i, z.nsps) && Rows(rest, n - shift, 0, i)
      {
        ghost var row := s[i];
        var moved, sum := ShiftRow(s[i], spectrumSum[i], shift, n);
        SetRow(i, moved, sum);
        MovedRow(z, power, c, row, i, shift, n, rest);
        assert Rows(rest, n - shift, 0, i);
      }
    }

    method ClearSums(ghost c: seq<seq<real>>)
      requires Shaped()
      modifies spectrumSum
      ensures Shaped() && Columns(c, 0)
    {
      for i := 0 to z.nsps
        invariant Shaped() && forall r :: 0 <= r < i ==> spectrumSum[r] == 0.0
      {
        spectrumSum[i] := 0.0;
      }
    }

    /** Computes column `j` of every row from the current samples. */
    method AddColumn(j: nat, ghost c: seq<seq<real>>)
      requires Shaped() && j < Spectra(z) == |c| && Columns(c, j) && c[j] == Segment(z, dd, j)
      modifies s, spectrumSum
      ensures Shaped() && Columns(c, j + 1)
    {
      var segment := Segment(z, dd, j);
      for i := 0 to z.nsps
        invariant Shaped() && Rows(c, j, i, z.nsps) && Rows(c, j + 1, 0, i)
      {
        var p := power(i, segment);
        PushedRow(z, power, c, s[i], i, j, p);
        SetRow(i, s[i][j := p], spectrumSum[i] + p);
        assert Rows(c, j + 1, 0, i);
      }
    }

    /** Recomputes the sums from the rows; in exact arithmetic nothing changes. */
    method RefreshSums(ghost c: seq<seq<real>>)
      requires Shaped() && Spectra(z) <= |c| && Columns(c, Spectra(z))
      modifies spectrumSum
      ensures Shaped() && Columns(c, Spectra(z))
    {
      for i := 0 to z.nsps
        invariant Shaped() && Columns(c, Spectra(z))
      {
        spectrumSum[i] := Sum(s[i][..Spectra(z)]);
      }
    }

    /** Brings the spectra up to date: columns that are kept are moved, the others are those of the current samples. */
    method Sync(spectrumShift: Option<nat>, ghost kept: seq<seq<real>>)
      requires Shaped() && updates < 32
      requires spectrumShift.Some? && spectrumShift.value < Spectra(z) ==>
        |kept| == Spectra(z) && Columns(kept, Spectra(z))
      modifies this`updates, s, spectrumSum, savg
      ensures Shaped() && updates < 32 && savg[..] == spectrumSum[..]
      ensures Columns(Updated(kept, Segments(z, dd), spectrumShift), Spectra(z))
    {
      var n := Spectra(z);
      var first := 0;
      ghost var c := Updated(kept, Segments(z, dd), spectrumShift);
      if spectrumShift.Some? && spectrumShift.value < n {
        ShiftRows(spectrumShift.value, kept);
        updates := updates + 1;
        first := n - spectrumShift.value;
      } else {
        ClearSums(c);
        updates := 0;
      }
      for j := first to n
        invariant Shaped() && Columns(c, j)
      {
        AddColumn(j, c);
      }
      if updates == 32 {
        RefreshSums(c);
        updates := 0;
      }
      for i := 0 to z.nsps
        invariant Shaped() && updates < 32 && Columns(c, n)
        invariant forall r :: 0 <= r < i ==> savg[r] == spectrumSum[r]
      {
        savg[i] := spectrumSum[i];
      }
    }

    // ---- decoding a window

    /**
     * Tries the candidates of one pass in two bands. A decode in a subtracting pass changes the
     * samples arbitrarily and may leave an alternative; any other attempt leaves the samples alone.
     */
    method TryCandidates(bands: seq<seq<Attempt>>, ipass: nat, alt0: Option<seq<real>>, valid0: bool)
        returns (improved: bool, alt: Option<seq<real>>, valid: bool)
      requires |dd| == z.nmax && WellSized(bands, z.nmax) && (alt0.Some? ==> |alt0.value| == z.nmax)
      modifies this`dd
      ensures |dd| == z.nmax && (alt.Some? ==> |alt.value| == z.nmax)
      ensures !AnyDecodes(bands) || ipass >= 3 ==> dd == old(dd) && alt == alt0 && valid == valid0
      ensures AnyDecodes(bands) && ipass < 3 ==> !valid
      ensures improved ==> AnyDecodes(bands)
    {
      improved, alt, valid := false, alt0, valid0;
      var subtract := ipass < 3;
      for band := 0 to |bands|
        invariant |dd| == z.nmax && (alt.Some? ==> |alt.value| == z.nmax)
        invariant !DecodesBefore(bands, band, 0) || !subtract ==> dd == old(dd) && alt == alt0 && valid == valid0
        invariant DecodesBefore(bands, band, 0) && subtract ==> !valid
        invariant improved ==> DecodesBefore(bands, band, 0)
      {
        var deep := band == 1;
        if !(deep && improved && ipass < 3) {
          for c := 0 to |bands[band]|
            invariant |dd| == z.nmax && (alt.Some? ==> |alt.value| == z.nmax)
            invariant !DecodesBefore(bands, band, c) || !subtract ==> dd == old(dd) && alt == alt0 && valid == valid0
            invariant DecodesBefore(bands, band, c) && subtract ==> !valid
            invariant improved ==> DecodesBefore(bands, band, c)
          {
            var attempt := bands[band][c];
            if attempt.decoded {
              if subtract {
                dd := attempt.dd;
                alt := if attempt.alt.Some? then attempt.alt else alt;
                valid := false;
              }
              improved := improved || attempt.improves;
            }
          }
        }
      }
    }

    /**
     * Up to four passes over the current samples. The first searches what is kept and the columns of these samples;
     * the spectra stay valid if it decodes nothing.
     */
    method Passes(streamStart: Option<nat>, shift: Option<nat>, script: Script, ghost c: seq<seq<real>>)
        returns (valid: bool, ghost searched: seq<seq<real>>)
      requires Shaped() && updates < 32 && GoodScript(script, z.nmax)
      requires shift.Some? && shift.value < Spectra(z) ==> |segments| == Spectra(z) && Columns(segments, Spectra(z))
      requires c == Updated(segments, Segments(z, dd), shift)
      modifies this`dd, this`updates, s, spectrumSum, savg
      ensures Shaped() && updates < 32 && Shows(z, power, c, searched)
      ensures valid <==> streamStart.Some? && !AnyDecodes(script[0])
      ensures valid ==> dd == old(dd) && Columns(c, Spectra(z))
    {
      searched := [];
      valid := streamStart.Some?;
      var stalled := false;
      var alt: Option<seq<real>> := None;
      var improved;
      var ipass: nat := 1;
      while ipass <= 4
        invariant 1 <= ipass <= 5 && Shaped() && updates < 32 && (alt.Some? ==> |alt.value| == z.nmax)
        invariant if ipass == 1 then valid == streamStart.Some? && dd == old(dd) && alt.None?
                  else !valid && (streamStart.None? || AnyDecodes(script[0]))
        invariant if ipass == 1 then
                    !stalled && (shift.Some? && shift.value < Spectra(z) ==> Columns(segments, Spectra(z)))
                  else Shows(z, power, c, searched)
      {
        var retry := ipass == 4;
        if !(stalled && !retry) {
          if retry {
            if alt.None? {
              break;
            }
            dd := alt.value;
            alt := None;
            valid := false;
          }
          Sync(if ipass == 1 then shift else None, segments);
          if ipass == 1 {
            searched := s[..];
          }
          if NoCandidates(script[ipass - 1]) {
            if retry || alt.None? {
              break;
            }
            stalled := true;
          } else {
            improved, alt, valid := TryCandidates(script[ipass - 1], ipass, alt, valid);
            if !improved {
              if retry || alt.None? {
                break;
              }
              stalled := true;
            }
          }
        }
        ipass := ipass + 1;
      }
    }

    /**
     * Decodes one window in up to four passes. The first pass searches the columns that are kept of the recorded
     * window and those of the new samples; they stay recorded if that pass decodes nothing.
     */
    method Decode(window: seq<real>, streamStart: Option<nat>, script: Script)
        returns (ghost searched: seq<seq<real>>)
      requires Valid() && |window| == z.nmax && GoodScript(script, z.nmax)
      modifies this`dd, this`start, this`updates, this`segments, s, spectrumSum, savg
      ensures Valid()
      ensures old(start.Some?) ==> old(|segments|) == Spectra(z)
      ensures segments == Updated(old(segments), Segments(z, window), ShiftOf(z, old(start), streamStart))
      ensures Shows(z, power, segments, searched)
      ensures start == if AnyDecodes(script[0]) then None else streamStart
      ensures start.Some? ==> dd == window
    {
      dd := window;
      var shift := ShiftOf(z, start, streamStart);
      start := streamStart;
      ghost var c := Updated(segments, Segments(z, window), shift);
      var valid;
      valid, searched := Passes(streamStart, shift, script, c);
      segments := c;
      if !valid {
        start := None;
      }
    }
  }

  /** The outcome of trying one candidate; the samples and the alternative matter only after subtraction. */
  datatype Attempt = Attempt(decoded: bool, improves: bool, dd: seq<real>, alt: Option<seq<real>>)

  /** Whether any attempt decodes among the first `n` bands and the first `m` attempts of the band after them. */
  predicate DecodesBefore(bands: seq<seq<Attempt>>, n: nat, m: nat) {
    exists b, c :: 0 <= b < |bands| && 0 <= c < |bands[b]| && bands[b][c].decoded && (b < n || (b == n && c < m))
  }

  predicate AnyDecodes(bands: seq<seq<Attempt>>) { DecodesBefore(bands, |bands|, 0) }

  predicate NoCandidates(bands: seq<seq<Attempt>>) {
    forall b :: 0 <= b < |bands| ==> |bands[b]| == 0
  }

  /** The attempts of the four passes over a window, by band. */
  type Script = seq<seq<seq<Attempt>>>

  predicate GoodScript(script: Script, n: nat) {
    |script| == 4 && forall i :: 0 <= i < 4 ==> WellSized(script[i], n)
  }

  predicate WellSized(bands: seq<seq<Attempt>>, n: nat) {
    forall b, c :: 0 <= b < |bands| && 0 <= c < |bands[b]| ==>
      |bands[b][c].dd| == n && (bands[b][c].alt.Some? ==> |bands[b][c].alt.value| == n)
  }
}
