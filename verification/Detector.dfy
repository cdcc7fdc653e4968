/** The continuous detector: a staging block, the decimator, and the ring of its outputs. */
module Detector {
  import opened Arith
  import opened Decimator

  datatype InputFormat = Mono | StereoLeft | StereoAverage

  datatype WriteStats = WriteStats(framesIn: nat, framesAccepted: nat, framesDropped: nat, blocksWritten: nat,
                                   kinAfter: nat)

  /** Half of a sum, rounded toward zero. */
  function Midpoint(l: int, r: int): (m: int)
    ensures if l + r >= 0 then 0 <= 2 * m <= l + r <= 2 * m + 1 else 2 * m - 1 <= l + r <= 2 * m <= 0
  {
    if l + r >= 0 then (l + r) / 2 else -(-(l + r) / 2)
  }

  function FrameCount(data: seq<int>, fmt: InputFormat): (n: nat) {
    if fmt.Mono? then |data| else |data| / 2
  }

  /** The single-channel frame `j` of the input; an odd last sample of stereo input is ignored. */
  function Frame(data: seq<int>, fmt: InputFormat, j: nat): int
    requires j < FrameCount(data, fmt)
  {
    match fmt
    case Mono => data[j]
    case StereoLeft => data[2 * j]
    case StereoAverage => Midpoint(data[2 * j], data[2 * j + 1])
  }

  function Frames(data: seq<int>, fmt: InputFormat): (s: seq<int>)
    ensures |s| == FrameCount(data, fmt)
  {
    seq(FrameCount(data, fmt), j requires 0 <= j < FrameCount(data, fmt) => Frame(data, fmt, j))
  }

  /** Of interleaved channels one is taken or both are averaged toward zero; an odd last sample is ignored. */
  lemma {:induction false} FramesOfChannels(data: seq<int>, left: seq<int>, right: seq<int>)
    requires |left| == |right| == |data| / 2
    requires forall j :: 0 <= j < |left| ==> data[2 * j] == left[j] && data[2 * j + 1] == right[j]
    ensures Frames(data, Mono) == data && Frames(data, StereoLeft) == left
    ensures |Frames(data, StereoAverage)| == |left|
    ensures forall j :: 0 <= j < |left| ==>
      var sum, m := left[j] + right[j], Frames(data, StereoAverage)[j];
      if sum >= 0 then m == sum / 2 else m == -(-sum / 2)
  {
  }

  /** Output `k` of the decimator on an input stream: it sees the inputs up to its own group of four. */
  function OutputAt(h: seq<real>, inputs: seq<int>, k: nat): (y: int)
    requires |h| == NTAPS && NDOWN * (k + 1) <= |inputs|
    ensures Truncates(Dot(h, Taps(inputs[..NDOWN * (k + 1)]), 0, NTAPS), y)
  {
    Output(h, inputs[..NDOWN * (k + 1)])
  }

  class Detector {
    const h: seq<real>
    const d2: array<int>
    var block: nat
    var kin: nat
    var bufferPos: nat
    var buffer: seq<int>
    var filter: Fir
    /** Inputs that went through the decimator since the reset, inputs staged, and the ring at the reset. */
    ghost var done: seq<int>
    ghost var staged: seq<int>
    ghost var base: seq<int>

    /** Ring slot `k mod size` holds output `k` for each of the last `size` outputs; others are as at the reset. */
    ghost predicate RingIs(inputs: seq<int>, n: nat)
      requires |h| == NTAPS && |inputs| == NDOWN * n
      reads this, d2
    {
      && d2.Length > 0 && |base| == d2.Length
      && (forall k: nat :: k < n && n <= k + d2.Length ==> d2[k % d2.Length] == OutputAt(h, inputs, k))
      && (forall j :: n <= j < d2.Length ==> d2[j] == base[j])
    }

    ghost predicate Valid()
      reads this, d2, filter, filter.z
    {
      && Symmetric(h) && filter.h == h && filter.Valid(done)
      && |buffer| == NDOWN * block && bufferPos == |staged| <= |buffer| && buffer[..bufferPos] == staged
      && (block > 0 ==> bufferPos < |buffer|)
      && |done| == NDOWN * kin && RingIs(done, kin)
    }

    constructor (h: seq<real>, block: nat, size: nat)
      requires Symmetric(h) && size > 0
      ensures Valid() && this.block == block && this.h == h && d2.Length == size && done == [] && staged == []
      ensures fresh(d2) && fresh(filter) && fresh(filter.z)
    {
      this.h := h;
      this.block := block;
      d2 := new int[size](_ => 0);
      kin, bufferPos := 0, 0;
      buffer := seq(NDOWN * block, _ => 0);
      filter := new Fir(h);
      done, staged := [], [];
      base := seq(size, _ => 0);
    }

    /** Starts a new stream: the count, the staging block and the decimator, but not the ring's content. */
    method ResetPosition()
      requires Valid()
      modifies this
      ensures Valid() && done == [] && staged == [] && kin == 0 && block == old(block) && base == d2[..]
      ensures fresh(filter) && fresh(filter.z)
    {
      kin, bufferPos := 0, 0;
      filter := new Fir(h);
      done, staged := [], [];
      base := d2[..];
    }

    /** Changes the staging block, dropping what was staged. */
    method SetBlockSize(n: nat)
      requires Valid()
      modifies this`block, this`bufferPos, this`buffer, this`staged
      ensures Valid() && block == n && staged == []
    {
      block := n;
      bufferPos := 0;
      buffer := if NDOWN * n <= |buffer| then buffer[..NDOWN * n] else buffer + seq(NDOWN * n - |buffer|, _ => 0);
      staged := [];
    }

    /** Decimates one group of four and stores the output in the ring. */
    method Emit(group: seq<int>)
      requires Symmetric(h) && filter.h == h && filter.Valid(done) && |done| == NDOWN * kin && RingIs(done, kin)
      requires |group| == NDOWN
      modifies this`kin, this`done, d2, filter, filter.z
      ensures filter.Valid(done) && done == old(done) + group && kin == old(kin) + 1 && RingIs(done, kin)
    {
      ghost var before, n := done, kin;
      var out := filter.DownSample(group, done);
      done := done + group;
      d2[kin % d2.Length] := out;
      kin := kin + 1;
      assert done[..NDOWN * (n + 1)] == done;
      forall k: nat | k < n + 1 && n + 1 <= k + d2.Length
        ensures d2[k % d2.Length] == OutputAt(h, done, k)
      {
        if k < n {
          ModDistinct(k, n, d2.Length);
          assert done[..NDOWN * (k + 1)] == before[..NDOWN * (k + 1)];
        }
      }
      forall j | n + 1 <= j < d2.Length
        ensures d2[j] == base[j]
      {
        DivModIs(n, 0, n, d2.Length);
      }
    }

    /** Decimates the whole staging block. */
    method EmitBlock()
      requires Symmetric(h) && filter.h == h && filter.Valid(done) && |done| == NDOWN * kin && RingIs(done, kin)
      requires |buffer| == NDOWN * block
      modifies this`kin, this`done, d2, filter, filter.z
      ensures filter.Valid(done) && done == old(done) + buffer && kin == old(kin) + block && RingIs(done, kin)
    {
      ghost var before := done;
      assert before + buffer[..0] == before;
      for i := 0 to block
        invariant filter.Valid(done) && done == before + buffer[..NDOWN * i] && kin == old(kin) + i
        invariant |done| == NDOWN * kin && RingIs(done, kin)
      {
        var group := [buffer[NDOWN * i], buffer[NDOWN * i + 1], buffer[NDOWN * i + 2], buffer[NDOWN * i + 3]];
        Emit(group);
        assert buffer[..NDOWN * (i + 1)] == buffer[..NDOWN * i] + group;
      }
      assert buffer[..NDOWN * block] == buffer;
    }

    /** Copies frames into the staging block. */
    method Stage(data: seq<int>, fmt: InputFormat, startFrame: nat, num: nat)
      requires startFrame + num <= FrameCount(data, fmt) && bufferPos + num <= |buffer|
      modifies this`buffer, this`bufferPos
      ensures |buffer| == |old(buffer)| && bufferPos == old(bufferPos) + num
      ensures buffer[..bufferPos] == old(buffer[..bufferPos]) + Frames(data, fmt)[startFrame..startFrame + num]
    {
      ghost var frames := Frames(data, fmt);
      for j := 0 to num
        invariant |buffer| == |old(buffer)| && bufferPos == old(bufferPos)
        invariant buffer[..bufferPos + j] == old(buffer[..bufferPos]) + frames[startFrame..startFrame + j]
      {
        ghost var before := buffer[..bufferPos + j];
        var sample := Frame(data, fmt, startFrame + j);
        buffer := buffer[bufferPos + j := sample];
        assert buffer[..bufferPos + j + 1] == before + [sample];
        assert frames[startFrame..startFrame + j + 1] == frames[startFrame..startFrame + j] + [sample];
      }
      bufferPos := bufferPos + num;
    }

    /** Stages some frames and decimates the block if that fills it. */
    method TakeFrames(data: seq<int>, fmt: InputFormat, startFrame: nat, num: nat) returns (full: bool)
      requires Valid() && block > 0
      requires startFrame + num <= FrameCount(data, fmt) && bufferPos + num <= NDOWN * block
      modifies this`kin, this`bufferPos, this`buffer, this`done, this`staged, d2, filter, filter.z
      ensures Valid()
      ensures done + staged == old(done) + old(staged) + Frames(data, fmt)[startFrame..startFrame + num]
      ensures |done| == |old(done)| + if full then NDOWN * block else 0
    {
      ghost var part := Frames(data, fmt)[startFrame..startFrame + num];
      ghost var done0, staged0 := done, staged;
      Stage(data, fmt, startFrame, num);
      full := bufferPos == block * NDOWN;
      staged := staged0 + part;
      if full {
        assert buffer[..bufferPos] == buffer;
        EmitBlock();
        bufferPos := 0;
        staged := [];
        Gather(done0, staged0, part);
        assert done + staged == done;
      } else {
        Gather(done0, staged0, part);
      }
    }

    /** Feeds samples: whole blocks are decimated, the rest stays staged. */
    method WriteI16(data: seq<int>, fmt: InputFormat) returns (stats: WriteStats)
      requires Valid() && block > 0
      modifies this`kin, this`bufferPos, this`buffer, this`done, this`staged, d2, filter, filter.z
      ensures Valid()
      ensures done + staged == old(done) + old(staged) + Frames(data, fmt)
      ensures |done| == |old(done)| + Multiple(NDOWN * block, stats.blocksWritten)
      ensures stats.framesIn == stats.framesAccepted == FrameCount(data, fmt) && stats.framesDropped == 0
      ensures stats.kinAfter == kin
    {
      var framesIn := FrameCount(data, fmt);
      ghost var frames, unit := Frames(data, fmt), NDOWN * block;
      var blocks: nat := 0;
      var remaining: nat := framesIn;
      ghost var before, done0 := done + staged, |done|;
      assert before + frames[..0] == before;
      while remaining != 0
        invariant Valid() && remaining <= framesIn
        invariant done + staged == before + frames[..framesIn - remaining]
        invariant |done| == done0 + Multiple(unit, blocks)
      {
        var cap: nat := block * NDOWN - bufferPos;
        var num := if cap < remaining then cap else remaining;
        var startFrame: nat := framesIn - remaining;
        var full := TakeFrames(data, fmt, startFrame, num);
        MoreFrames(before, frames, startFrame, num);
        if full {
          blocks := blocks + 1;
        }
        remaining := remaining - num;
      }
      assert frames[..framesIn] == frames;
      stats := WriteStats(framesIn, framesIn, 0, blocks, kin);
    }
  }

  lemma {:induction false} Gather(done: seq<int>, staged: seq<int>, part: seq<int>)
    ensures done + (staged + part) == done + staged + part
  {
  }

  lemma {:induction false} MoreFrames(before: seq<int>, frames: seq<int>, start: nat, num: nat)
    requires start + num <= |frames|
    ensures before + frames[..start] + frames[start..start + num] == before + frames[..start + num]
  {
    assert frames[..start + num] == frames[..start] + frames[start..start + num];
  }

  // ---- the state after a stream

  /** All frames of a sequence of writes. */
  function AllFrames(chunks: seq<(seq<int>, InputFormat)>): (s: seq<int>) {
    if chunks == [] then []
    else
      var last := chunks[|chunks| - 1];
      AllFrames(chunks[..|chunks| - 1]) + Frames(last.0, last.1)
  }

  /** Total, block size and the number of whole blocks. */
  lemma {:induction false} WholeBlocks(total: nat, unit: nat, blocks: nat, rest: nat)
    requires total == unit * blocks + rest && rest < unit
    ensures blocks == total / unit && rest == total % unit
  {
    DivModIs(total, blocks, rest, unit);
  }

  /**
   * Feeds a stream in any pieces to a detector just reset. What it then holds is a function of the
   * concatenated frames alone: how they were split cannot be seen.
   */
  method WriteStream(d: Detector, chunks: seq<(seq<int>, InputFormat)>)
    requires d.Valid() && d.block > 0 && d.done == [] && d.staged == []
    modifies d, d.d2, d.filter, d.filter.z
    ensures d.Valid() && d.block == old(d.block) && d.base == old(d.base)
    ensures var all, unit := AllFrames(chunks), NDOWN * d.block;
            && d.kin == d.block * (|all| / unit) && d.bufferPos == |all| % unit
            && d.done == all[..|all| - d.bufferPos] && d.buffer[..d.bufferPos] == all[|all| - d.bufferPos..]
    ensures forall k: nat :: k < d.kin && d.kin <= k + d.d2.Length ==>
      Truncates(Dot(d.h, Taps(d.done[..NDOWN * (k + 1)]), 0, NTAPS), d.d2[k % d.d2.Length])
  {
    ghost var unit, blocks: nat := NDOWN * d.block, 0;
    for i := 0 to |chunks|
      invariant d.Valid() && d.block == old(d.block) && d.base == old(d.base) && d.filter == old(d.filter)
      invariant d.done + d.staged == AllFrames(chunks[..i])
      invariant |d.done| == Multiple(unit, blocks)
    {
      var stats := d.WriteI16(chunks[i].0, chunks[i].1);
      NextChunk(chunks, i);
      MultipleSum(unit, blocks, stats.blocksWritten);
      blocks := blocks + stats.blocksWritten;
    }
    assert chunks[..|chunks|] == chunks;
    WholeStream(AllFrames(chunks), d.done, d.staged, d.block, blocks, d.kin);
  }

  lemma {:induction false} NextChunk(chunks: seq<(seq<int>, InputFormat)>, i: nat)
    requires i < |chunks|
    ensures AllFrames(chunks[..i + 1]) == AllFrames(chunks[..i]) + Frames(chunks[i].0, chunks[i].1)
  {
    assert chunks[..i + 1][..i] == chunks[..i];
  }

  lemma {:induction false} WholeStream(all: seq<int>, done: seq<int>, staged: seq<int>, block: nat, blocks: nat,
                                       kin: nat)
    requires done + staged == all && |done| == Multiple(NDOWN * block, blocks)
    requires |staged| < NDOWN * block && |done| == NDOWN * kin
    ensures kin == block * (|all| / (NDOWN * block)) && |staged| == |all| % (NDOWN * block)
    ensures done == all[..|all| - |staged|] && staged == all[|all| - |staged|..]
  {
    MultipleIs(NDOWN * block, blocks);
    WholeBlocks(|all|, NDOWN * block, blocks, |staged|);
    Quarter(block, blocks, kin);
  }

  lemma {:induction false} Quarter(block: nat, blocks: nat, kin: nat)
    requires (NDOWN * block) * blocks == NDOWN * kin
    ensures kin == block * blocks
  {
    assert (NDOWN * block) * blocks == NDOWN * (block * blocks);
  }
}
