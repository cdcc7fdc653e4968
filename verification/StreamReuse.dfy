/** Runs over several streams, decoded in several modes: whose columns are searched when spectra are reused. */
module StreamReuse {
  import opened Wrappers
  import opened Spectrum
  import opened DecodeWindows
  import opened Arith

  /**
   * One call of the stream decoder: which of the streams is decoded, the ring at some end of it, and for each
   * enabled mode what it decodes.
   */
  datatype Step = Step(stream: nat, ring: seq<int>, end: nat, enabled: seq<bool>, scripts: seq<Script>)

  /** A step whose parts are as many as the modes. */
  predicate Fits(step: Step, zs: seq<Sizes>) {
    && step.ring != [] && |step.enabled| == |step.scripts| == |zs|
    && forall i :: 0 <= i < |zs| ==> GoodSizes(zs[i]) && GoodScript(step.scripts[i], zs[i].nmax)
  }

  /** The streams that are decoded, by number. */
  type Streams = nat -> (nat -> real)

  ghost predicate HoldsStep(streams: Streams, step: Step) {
    Holds(step.ring, streams(step.stream), step.end)
  }

  /** Whether a call offers window starts: every enabled mode advances over a complete window. */
  predicate Offers(zs: seq<Sizes>, ends: seq<nat>, step: Step)
    requires |zs| == |ends| == |step.enabled|
  {
    forall i :: 0 <= i < |zs| && step.enabled[i] ==>
      ends[i] < step.end && zs[i].nmax <= step.end && zs[i].nmax <= |step.ring|
  }

  /** Where a column of the spectra comes from: a stream, and the sample at which the segment starts. */
  datatype Column = Column(stream: nat, at: nat)

  ghost function SegmentAt(z: Sizes, streams: Streams, c: Column): (s: seq<real>)
    ensures |s| == z.nfft1
  {
    var stream := streams(c.stream);
    seq(z.nfft1, k requires 0 <= k < z.nfft1 => stream(c.at + k))
  }

  ghost function SegmentsAt(z: Sizes, streams: Streams, columns: seq<Column>): (s: seq<seq<real>>)
    ensures |s| == |columns|
  {
    seq(|columns|, j requires 0 <= j < |columns| => SegmentAt(z, streams, columns[j]))
  }

  /** The columns of the window at `start` of a stream. */
  function WindowColumns(z: Sizes, stream: nat, start: nat): (columns: seq<Column>)
    requires GoodSizes(z)
    ensures |columns| == Spectra(z)
  {
    seq(Spectra(z), j requires 0 <= j < Spectra(z) => Column(stream, start + j * z.nstep))
  }

  /** A recorded start, the stream it belongs to, and where the columns kept with it come from. */
  datatype Recorded = Recorded(start: nat, stream: nat, columns: seq<Column>)

  /** Where each mode's stream ended, and what its decoder has recorded. */
  datatype ModeState = ModeState(end: nat, recorded: Option<Recorded>)

  function EndsOf(states: seq<ModeState>): (ends: seq<nat>)
    ensures |ends| == |states|
  {
    seq(|states|, i requires 0 <= i < |states| => states[i].end)
  }

  predicate GoodState(z: Sizes, state: ModeState) {
    GoodSizes(z) && (state.recorded.Some? ==> |state.recorded.value.columns| == Spectra(z))
  }

  predicate GoodStates(zs: seq<Sizes>, states: seq<ModeState>) {
    |zs| == |states| && forall i :: 0 <= i < |zs| ==> GoodState(zs[i], states[i])
  }

  function StartOf(state: ModeState): Option<nat> {
    if state.recorded.Some? then Some(state.recorded.value.start) else None
  }

  function KeptColumns(state: ModeState): seq<Column> {
    if state.recorded.Some? then state.recorded.value.columns else []
  }

  /** Where the columns come from that are searched in the window at `start`. */
  function SearchedColumns(z: Sizes, state: ModeState, stream: nat, start: nat): (columns: seq<Column>)
    requires GoodState(z, state)
    ensures |columns| == Spectra(z)
  {
    Updated(KeptColumns(state), WindowColumns(z, stream, start), ShiftOf(z, StartOf(state), Some(start)))
  }

  /** Where the window of a mode starts in a call that offers starts. */
  function WindowStart(z: Sizes, step: Step): (start: nat)
  {
    if z.nmax <= step.end then step.end - z.nmax else 0
  }

  /**
   * The state of a mode after a call: an enabled mode records its window if starts are offered and no attempt of
   * its first pass decodes; the other modes keep what they had.
   */
  function NextState(z: Sizes, state: ModeState, step: Step, i: nat, offers: bool): (next: ModeState)
    requires GoodState(z, state) && i < |step.enabled| == |step.scripts| && GoodScript(step.scripts[i], z.nmax)
    ensures GoodState(z, next)
  {
    if !step.enabled[i] then state
    else if offers && !AnyDecodes(step.scripts[i][0]) then
      var start := WindowStart(z, step);
      ModeState(step.end, Some(Recorded(start, step.stream, SearchedColumns(z, state, step.stream, start))))
    else ModeState(step.end, None)
  }

  function StepStates(zs: seq<Sizes>, states: seq<ModeState>, step: Step): (next: seq<ModeState>)
    requires GoodStates(zs, states) && Fits(step, zs)
    ensures GoodStates(zs, next)
    ensures forall i :: 0 <= i < |zs| ==>
      next[i] == NextState(zs[i], states[i], step, i, Offers(zs, EndsOf(states), step))
  {
    seq(|zs|, i requires 0 <= i < |zs| => NextState(zs[i], states[i], step, i, Offers(zs, EndsOf(states), step)))
  }

  predicate AllFit(steps: seq<Step>, zs: seq<Sizes>) {
    forall n :: 0 <= n < |steps| ==> Fits(steps[n], zs)
  }

  function RunStates(zs: seq<Sizes>, states: seq<ModeState>, steps: seq<Step>): (next: seq<ModeState>)
    requires GoodStates(zs, states) && AllFit(steps, zs)
    ensures GoodStates(zs, next)
  {
    if steps == [] then states
    else StepStates(zs, RunStates(zs, states, steps[..|steps| - 1]), steps[|steps| - 1])
  }

  // ---- when the spectra are those of the current stream

  /** Every enabled mode searches the columns of its own window. */
  predicate SearchesWindows(zs: seq<Sizes>, states: seq<ModeState>, step: Step)
    requires GoodStates(zs, states) && Fits(step, zs)
  {
    Offers(zs, EndsOf(states), step) ==> forall i :: 0 <= i < |zs| && step.enabled[i] ==>
      var start := WindowStart(zs[i], step);
      SearchedColumns(zs[i], states[i], step.stream, start) == WindowColumns(zs[i], step.stream, start)
  }

  /** A start lies fewer than `Spectra` whole steps after one that was recorded on another stream. */
  predicate Crosses(z: Sizes, state: ModeState, step: Step)
    requires GoodSizes(z)
  {
    && state.recorded.Some? && state.recorded.value.stream != step.stream
    && ShiftOf(z, StartOf(state), Some(WindowStart(z, step))).Some?
    && ShiftOf(z, StartOf(state), Some(WindowStart(z, step))).value < Spectra(z)
  }

  predicate NoneCrosses(zs: seq<Sizes>, states: seq<ModeState>, step: Step)
    requires GoodStates(zs, states) && Fits(step, zs)
  {
    Offers(zs, EndsOf(states), step) ==>
      forall i :: 0 <= i < |zs| && step.enabled[i] ==> !Crosses(zs[i], states[i], step)
  }

  /** What is recorded is the window of its own stream. */
  predicate OwnColumns(z: Sizes, state: ModeState)
    requires GoodSizes(z)
  {
    state.recorded.Some? ==>
      var rec := state.recorded.value;
      rec.columns == WindowColumns(z, rec.stream, rec.start)
  }

  predicate AllOwn(zs: seq<Sizes>, states: seq<ModeState>)
    requires GoodStates(zs, states)
  {
    forall i :: 0 <= i < |zs| ==> OwnColumns(zs[i], states[i])
  }

  /** A column of a window is a later column of a window a whole number of steps earlier. */
  lemma {:induction false} ColumnsOverlap(z: Sizes, stream: nat, start: nat, shift: nat, j: nat)
    requires GoodSizes(z) && j + shift < Spectra(z)
    ensures WindowColumns(z, stream, start)[j + shift] == WindowColumns(z, stream, start + shift * z.nstep)[j]
  {
    Distribute(j, shift, z.nstep);
  }

  /** If the recorded window is its own stream's, the searched columns are right exactly if no stream is crossed. */
  lemma {:induction false} OwnIsRight(z: Sizes, state: ModeState, step: Step, start: nat)
    requires GoodState(z, state) && OwnColumns(z, state) && start == WindowStart(z, step)
    ensures SearchedColumns(z, state, step.stream, start) == WindowColumns(z, step.stream, start) <==>
            !Crosses(z, state, step)
  {
    var shift := ShiftOf(z, StartOf(state), Some(start));
    if shift.Some? && shift.value < Spectra(z) {
      var rec := state.recorded.value;
      var searched, window := SearchedColumns(z, state, step.stream, start), WindowColumns(z, step.stream, start);
      if rec.stream == step.stream {
        forall j: nat | j + shift.value < Spectra(z)
          ensures searched[j] == window[j]
        {
          ColumnsOverlap(z, rec.stream, rec.start, shift.value, j);
        }
        assert searched == window;
      } else {
        assert searched[0] == rec.columns[shift.value];
        assert searched[0] != window[0];
      }
    }
  }

  lemma {:induction false} StepKeepsOwn(zs: seq<Sizes>, states: seq<ModeState>, step: Step)
    requires GoodStates(zs, states) && Fits(step, zs) && AllOwn(zs, states)
    ensures SearchesWindows(zs, states, step) <==> NoneCrosses(zs, states, step)
    ensures SearchesWindows(zs, states, step) ==> AllOwn(zs, StepStates(zs, states, step))
  {
    forall i | 0 <= i < |zs|
      ensures var start := WindowStart(zs[i], step);
              SearchedColumns(zs[i], states[i], step.stream, start) == WindowColumns(zs[i], step.stream, start) <==>
              !Crosses(zs[i], states[i], step)
    {
      OwnIsRight(zs[i], states[i], step, WindowStart(zs[i], step));
    }
  }

  /** Every call of a run searches the spectra of its own windows. */
  predicate RunSearchesWindows(zs: seq<Sizes>, first: seq<ModeState>, steps: seq<Step>)
    requires GoodStates(zs, first) && AllFit(steps, zs)
  {
    if steps == [] then true
    else
      var n := |steps| - 1;
      RunSearchesWindows(zs, first, steps[..n]) && SearchesWindows(zs, RunStates(zs, first, steps[..n]), steps[n])
  }

  /** No call of a run offers a start that crosses over from another stream. */
  predicate RunNeverCrosses(zs: seq<Sizes>, first: seq<ModeState>, steps: seq<Step>)
    requires GoodStates(zs, first) && AllFit(steps, zs)
  {
    if steps == [] then true
    else
      var n := |steps| - 1;
      RunNeverCrosses(zs, first, steps[..n]) && NoneCrosses(zs, RunStates(zs, first, steps[..n]), steps[n])
  }

  /**
   * Over any run of calls on any streams, the columns that are searched are all those of the current window of the
   * current stream if and only if no call offers a start that lies fewer than `Spectra` whole steps after a start
   * recorded on another stream.
   */
  lemma {:induction false} ReuseIsRight(zs: seq<Sizes>, first: seq<ModeState>, steps: seq<Step>)
    requires GoodStates(zs, first) && AllFit(steps, zs) && AllOwn(zs, first)
    ensures RunSearchesWindows(zs, first, steps) <==> RunNeverCrosses(zs, first, steps)
    ensures RunSearchesWindows(zs, first, steps) ==> AllOwn(zs, RunStates(zs, first, steps))
  {
    if steps == [] {
    } else {
      var n := |steps| - 1;
      ReuseIsRight(zs, first, steps[..n]);
      if RunSearchesWindows(zs, first, steps[..n]) {
        StepKeepsOwn(zs, RunStates(zs, first, steps[..n]), steps[n]);
      }
    }
  }

  // ---- what a caller has to see to

  /** The last call that enables a mode. */
  function LastOn(steps: seq<Step>, i: nat): (last: Option<Step>)
    requires forall n :: 0 <= n < |steps| ==> i < |steps[n].enabled|
  {
    if steps == [] then None
    else if steps[|steps| - 1].enabled[i] then Some(steps[|steps| - 1])
    else LastOn(steps[..|steps| - 1], i)
  }

  /** For every mode, the first call that enables it on another stream has an end not above that of its last call. */
  predicate Rewinds(zs: seq<Sizes>, steps: seq<Step>)
    requires AllFit(steps, zs)
  {
    if steps == [] then true
    else
      var n := |steps| - 1;
      Rewinds(zs, steps[..n]) && forall i :: 0 <= i < |zs| && steps[n].enabled[i] ==>
        var last := LastOn(steps[..n], i);
        last.Some? && last.value.stream != steps[n].stream ==> steps[n].end <= last.value.end
  }

  /** New decoders. */
  function Initial(zs: seq<Sizes>): (states: seq<ModeState>)
    ensures |states| == |zs|
  {
    seq(|zs|, _ => ModeState(0, None))
  }

  lemma {:induction false} StateIsOfLast(zs: seq<Sizes>, steps: seq<Step>, i: nat)
    requires AllFit(steps, zs) && i < |zs| && GoodStates(zs, Initial(zs))
    ensures var state, last := RunStates(zs, Initial(zs), steps)[i], LastOn(steps, i);
            if last.None? then state == ModeState(0, None)
            else
              && state.end == last.value.end
              && (state.recorded.Some? ==> state.recorded.value.stream == last.value.stream)
  {
    if steps == [] {
    } else {
      StateIsOfLast(zs, steps[..|steps| - 1], i);
    }
  }

  /** Then every call searches the spectra of its own windows. */
  lemma {:induction false} RewoundRunIsRight(zs: seq<Sizes>, steps: seq<Step>)
    requires AllFit(steps, zs) && GoodStates(zs, Initial(zs)) && Rewinds(zs, steps)
    ensures RunNeverCrosses(zs, Initial(zs), steps) && RunSearchesWindows(zs, Initial(zs), steps)
  {
    ReuseIsRight(zs, Initial(zs), steps);
    if steps == [] {
    } else {
      var n := |steps| - 1;
      RewoundRunIsRight(zs, steps[..n]);
      var states := RunStates(zs, Initial(zs), steps[..n]);
      forall i | 0 <= i < |zs| && steps[n].enabled[i] && Offers(zs, EndsOf(states), steps[n])
        ensures !Crosses(zs[i], states[i], steps[n])
      {
        StateIsOfLast(zs, steps[..n], i);
        assert EndsOf(states)[i] < steps[n].end;
      }
    }
  }

  lemma {:induction false} ColumnIsLoaded(z: Sizes, streams: Streams, c: Column, stream: nat -> real, start: nat,
                                          dd: seq<real>, j: nat)
    requires GoodSizes(z) && j < Spectra(z) && WindowOf(z, stream, start, dd) && streams(c.stream) == stream
    requires c.at == start + j * z.nstep
    ensures SegmentAt(z, streams, c) == Segment(z, dd, j)
  {
    SegmentFits(z, j);
    var a, b, at := SegmentAt(z, streams, c), Segment(z, dd, j), j * z.nstep;
    forall k | 0 <= k < z.nfft1
      ensures a[k] == b[k]
    {
      assert dd[at + k] == stream(start + (at + k));
    }
  }

  /** The columns of a complete window show the segments that are loaded for it. */
  lemma {:induction false} WindowIsLoaded(z: Sizes, streams: Streams, step: Step)
    requires GoodSizes(z) && step.ring != [] && HoldsStep(streams, step) && z.nmax <= step.end && z.nmax <= |step.ring|
    ensures SegmentsAt(z, streams, WindowColumns(z, step.stream, WindowStart(z, step))) ==
            Segments(z, Loaded(z, step.ring, step.end))
  {
    var stream, start, dd := streams(step.stream), WindowStart(z, step), Loaded(z, step.ring, step.end);
    var columns := WindowColumns(z, step.stream, start);
    CompleteWindow(z, step.ring, step.end, stream);
    forall j | 0 <= j < Spectra(z)
      ensures SegmentAt(z, streams, columns[j]) == Segment(z, dd, j)
    {
      ColumnIsLoaded(z, streams, columns[j], stream, start, dd, j);
    }
  }

  // ---- a restart that is not rewound

  /** The sizes of the normal mode. */
  const NORMAL := Sizes(180000, 3840, 480, 1920, 372)

  /** A call that decodes nothing. */
  function QuietCall(stream: nat, ring: seq<int>, end: nat): Step {
    Step(stream, ring, end, [true], [[[], [], [], []]])
  }

  lemma {:induction false} NormalSizes()
    ensures GoodSizes(NORMAL) && Spectra(NORMAL) == 368
  {
    DivModIs(176160, 367, 0, 480);
  }

  /** The first call records its window. */
  lemma {:induction false} FirstCall(zs: seq<Sizes>, step: Step, states: seq<ModeState>)
    requires zs == [NORMAL] && Fits(step, zs) && |step.ring| == 720000 && step == QuietCall(0, step.ring, 180000)
    requires states == [ModeState(0, None)]
    ensures GoodStates(zs, states)
    ensures StepStates(zs, states, step) == [ModeState(180000, Some(Recorded(0, 0, WindowColumns(NORMAL, 0, 0))))]
  {
    assert Offers(zs, EndsOf(states), step);
    assert SearchedColumns(NORMAL, states[0], 0, 0) == WindowColumns(NORMAL, 0, 0);
  }

  /** The second one crosses over, and keeps all columns but the first. */
  lemma {:induction false} SecondCall(zs: seq<Sizes>, step: Step, states: seq<ModeState>, old_: seq<Column>,
                                      new_: seq<Column>)
    requires zs == [NORMAL] && Fits(step, zs) && |step.ring| == 720000 && step == QuietCall(1, step.ring, 180480)
    requires |old_| == |new_| == Spectra(NORMAL) == 368
    requires old_ == WindowColumns(NORMAL, 0, 0) && new_ == WindowColumns(NORMAL, 1, 480)
    requires states == [ModeState(180000, Some(Recorded(0, 0, old_)))]
    ensures GoodStates(zs, states) && !NoneCrosses(zs, states, step)
    ensures StepStates(zs, states, step) == [ModeState(180480, Some(Recorded(480, 1, old_[1..] + new_[367..])))]
  {
    assert Offers(zs, EndsOf(states), step);
    assert WindowStart(NORMAL, step) == 480;
    DivModIs(480, 1, 0, 480);
    assert ShiftOf(NORMAL, StartOf(states[0]), Some(480)) == Some(1);
    assert Crosses(NORMAL, states[0], step);
  }

  /**
   * One call at the end of the first window of a stream, and after a restart one that is a step later: all columns
   * but the last are those of the old stream, and their segments differ when the streams do.
   */
  lemma {:induction false} RestartReusesOldColumns(ring: seq<int>, streams: Streams, steps: seq<Step>, j: nat)
    requires |ring| == 720000 && steps == [QuietCall(0, ring, 180000), QuietCall(1, ring, 180480)] && j < 368
    ensures AllFit(steps, [NORMAL]) && GoodStates([NORMAL], Initial([NORMAL]))
    ensures !RunNeverCrosses([NORMAL], Initial([NORMAL]), steps)
    ensures !RunSearchesWindows([NORMAL], Initial([NORMAL]), steps)
    ensures var recorded := RunStates([NORMAL], Initial([NORMAL]), steps)[0].recorded;
            && recorded.Some? && recorded.value.start == 480 && recorded.value.stream == 1
            && |recorded.value.columns| == 368
            && recorded.value.columns[j] == Column(if j < 367 then 0 else 1, 480 + j * 480)
    ensures j < 367 && streams(0)(480 + j * 480) != streams(1)(480 + j * 480) ==>
      SegmentAt(NORMAL, streams, Column(0, 480 + j * 480)) != SegmentAt(NORMAL, streams, Column(1, 480 + j * 480))
  {
    NormalSizes();
    var zs, old_, new_ := [NORMAL], WindowColumns(NORMAL, 0, 0), WindowColumns(NORMAL, 1, 480);
    assert steps[..2] == steps && steps[..1] == [steps[0]] && steps[..1][..0] == [];
    var first := Initial(zs);
    assert first == [ModeState(0, None)];
    FirstCall(zs, steps[0], first);
    var states := RunStates(zs, first, steps[..1]);
    assert states == StepStates(zs, RunStates(zs, first, steps[..1][..0]), steps[0]);
    SecondCall(zs, steps[1], states, old_, new_);
    ReuseIsRight(zs, first, steps);
    Distribute(j, 1, 480);
    assert SegmentAt(NORMAL, streams, Column(0, 480 + j * 480))[0] == streams(0)(480 + j * 480);
    assert SegmentAt(NORMAL, streams, Column(1, 480 + j * 480))[0] == streams(1)(480 + j * 480);
  }
}
