/** The stream decoder: one decoder for each mode, and when their spectra may be reused. */
module StreamDecode {
  import opened Wrappers
  import opened Spectrum
  import opened DecodeWindows
  import opened StreamReuse

  /** Records the new end for every enabled mode, and offers window starts only if all advance over complete windows. */
  method StreamStarts(ends: array<nat>, end: nat, capacity: nat, enabled: seq<bool>, periods: seq<nat>)
      returns (starts: Option<seq<nat>>)
    requires |enabled| == |periods| == ends.Length
    modifies ends
    ensures forall i :: 0 <= i < ends.Length ==> ends[i] == if enabled[i] then end else old(ends[i])
    ensures starts.Some? <==> forall i :: 0 <= i < ends.Length && enabled[i] ==>
      old(ends[i]) < end && periods[i] <= end && periods[i] <= capacity
    ensures starts.Some? ==> |starts.value| == ends.Length
    ensures starts.Some? ==> forall i :: 0 <= i < ends.Length && enabled[i] ==> starts.value[i] + periods[i] == end
  {
    var reuse := true;
    ghost var before := ends[..];
    for i := 0 to ends.Length
      invariant forall k :: 0 <= k < i ==> ends[k] == if enabled[k] then end else before[k]
      invariant forall k :: i <= k < ends.Length ==> ends[k] == before[k]
      invariant reuse <==> forall k :: 0 <= k < i && enabled[k] ==>
        before[k] < end && periods[k] <= end && periods[k] <= capacity
    {
      if enabled[i] {
        reuse := reuse && end > ends[i] && (if end < capacity then end else capacity) >= periods[i];
        ends[i] := end;
      }
    }
    if reuse {
      starts := Some(seq(|periods|, i requires 0 <= i < |periods| =>
        WindowFromKin(end, if periods[i] < capacity then periods[i] else capacity).0));
    } else {
      starts := None;
    }
  }

  // ---- the decoders

  /** The objects of one mode's decoder. */
  function Parts(cache: SpectrumCache): set<object> {
    {cache, cache.s, cache.spectrumSum, cache.savg}
  }

  ghost function AllParts(caches: seq<SpectrumCache>): set<object> {
    set i, o | 0 <= i < |caches| && o in Parts(caches[i]) :: o
  }

  /** Every mode has a decoder of its own, with its own work arrays. */
  ghost predicate Separate(caches: seq<SpectrumCache>, zs: seq<Sizes>) {
    && |caches| == |zs| && (forall i :: 0 <= i < |caches| ==> caches[i].z == zs[i])
    && forall i, j :: 0 <= i < j < |caches| ==> Parts(caches[i]) !! Parts(caches[j])
  }

  /** A decoder has recorded what its state says. */
  ghost predicate Follows(cache: SpectrumCache, streams: Streams, state: ModeState)
    reads Parts(cache)
  {
    && cache.Valid() && GoodState(cache.z, state) && cache.start == StartOf(state)
    && (cache.start.Some? ==> cache.segments == SegmentsAt(cache.z, streams, KeptColumns(state)))
  }

  ghost predicate AllFollow(caches: seq<SpectrumCache>, streams: Streams, states: seq<ModeState>)
    reads AllParts(caches)
  {
    |states| == |caches| && forall i :: 0 <= i < |caches| ==> Follows(caches[i], streams, states[i])
  }

  /** The segments that an enabled mode searches in a call: those of the loaded window, unless columns are kept. */
  ghost function SearchedSegments(z: Sizes, streams: Streams, state: ModeState, step: Step,
                                  offers: bool): (segments: seq<seq<real>>)
    requires GoodState(z, state) && step.ring != []
    ensures |segments| == Spectra(z)
  {
    if offers then SegmentsAt(z, streams, SearchedColumns(z, state, step.stream, WindowStart(z, step)))
    else Segments(z, Loaded(z, step.ring, step.end))
  }

  lemma {:induction false} SegmentsOfUpdated(z: Sizes, streams: Streams, kept: seq<Column>, current: seq<Column>,
                                             shift: Option<nat>)
    requires shift.Some? && shift.value < |current| ==> |kept| == |current|
    ensures SegmentsAt(z, streams, Updated(kept, current, shift)) ==
            Updated(SegmentsAt(z, streams, kept), SegmentsAt(z, streams, current), shift)
  {
  }

  lemma {:induction false} UpdatedSegments(z: Sizes, streams: Streams, state: ModeState, step: Step,
                                           kept: seq<seq<real>>)
    requires GoodState(z, state) && step.ring != [] && HoldsStep(streams, step)
    requires z.nmax <= step.end && z.nmax <= |step.ring|
    requires state.recorded.Some? ==> kept == SegmentsAt(z, streams, KeptColumns(state))
    ensures Updated(kept, Segments(z, Loaded(z, step.ring, step.end)),
                    ShiftOf(z, StartOf(state), Some(WindowStart(z, step)))) ==
            SearchedSegments(z, streams, state, step, true)
  {
    var start := WindowStart(z, step);
    var shift := ShiftOf(z, StartOf(state), Some(start));
    WindowIsLoaded(z, streams, step);
    SegmentsOfUpdated(z, streams, KeptColumns(state), WindowColumns(z, step.stream, start), shift);
  }

  /** Loads and decodes the window of one mode. */
  method DecodeMode(cache: SpectrumCache, step: Step, i: nat, start: Option<nat>, ghost streams: Streams,
                    ghost state: ModeState)
      returns (ghost searched: seq<seq<real>>)
    requires Follows(cache, streams, state) && step.ring != [] && HoldsStep(streams, step)
    requires i < |step.enabled| == |step.scripts| && step.enabled[i] && GoodScript(step.scripts[i], cache.z.nmax)
    requires start.Some? ==>
      cache.z.nmax <= step.end && cache.z.nmax <= |step.ring| && start.value == WindowStart(cache.z, step)
    modifies Parts(cache)
    ensures Follows(cache, streams, NextState(cache.z, state, step, i, start.Some?))
    ensures Shows(cache.z, cache.power, SearchedSegments(cache.z, streams, state, step, start.Some?), searched)
  {
    var dd := LoadAt(cache.z, step.ring, step.end);
    if start.Some? {
      UpdatedSegments(cache.z, streams, state, step, cache.segments);
    }
    searched := cache.Decode(dd, start, step.scripts[i]);
  }

  /** The same for mode `i` of several; the other modes' decoders are not touched. */
  method DecodeOne(caches: seq<SpectrumCache>, zs: seq<Sizes>, i: nat, step: Step, start: Option<nat>,
                   ghost streams: Streams, ghost states: seq<ModeState>)
      returns (ghost searched: seq<seq<real>>)
    requires Separate(caches, zs) && Fits(step, zs) && HoldsStep(streams, step) && |states| == |zs|
    requires i < |zs| && step.enabled[i] && Follows(caches[i], streams, states[i])
    requires start.Some? ==>
      zs[i].nmax <= step.end && zs[i].nmax <= |step.ring| && start.value == WindowStart(zs[i], step)
    modifies Parts(caches[i])
    ensures Follows(caches[i], streams, NextState(zs[i], states[i], step, i, start.Some?))
    ensures Shows(zs[i], caches[i].power, SearchedSegments(zs[i], streams, states[i], step, start.Some?), searched)
    ensures forall j, state :: 0 <= j < |caches| && j != i && old(Follows(caches[j], streams, state)) ==>
      Follows(caches[j], streams, state)
  {
    searched := DecodeMode(caches[i], step, i, start, streams, states[i]);
    forall j, state | 0 <= j < |caches| && j != i && old(Follows(caches[j], streams, state))
      ensures Follows(caches[j], streams, state)
    {
      assert Parts(caches[i]) !! Parts(caches[j]);
    }
  }

  /** The rows that the enabled modes search in a call show what the states say. */
  ghost predicate CallShows(caches: seq<SpectrumCache>, zs: seq<Sizes>, streams: Streams, states: seq<ModeState>,
                            step: Step, offers: bool, searched: seq<seq<seq<real>>>, from: nat)
    requires |caches| == |zs| && GoodStates(zs, states) && Fits(step, zs)
  {
    |searched| == |zs| && forall i :: from <= i < |zs| && step.enabled[i] ==>
      Shows(zs[i], caches[i].power, SearchedSegments(zs[i], streams, states[i], step, offers), searched[i])
  }

  /** Decodes every enabled mode, the last one first. */
  method DecodePass(caches: seq<SpectrumCache>, zs: seq<Sizes>, step: Step, starts: Option<seq<nat>>,
                    ghost streams: Streams, ghost states: seq<ModeState>)
      returns (ghost searched: seq<seq<seq<real>>>)
    requires Separate(caches, zs) && Fits(step, zs) && HoldsStep(streams, step)
    requires GoodStates(zs, states) && AllFollow(caches, streams, states)
    requires starts.Some? ==> |starts.value| == |zs| && forall i :: 0 <= i < |zs| && step.enabled[i] ==>
      zs[i].nmax <= step.end && zs[i].nmax <= |step.ring| && starts.value[i] == WindowStart(zs[i], step)
    modifies AllParts(caches)
    ensures forall i :: 0 <= i < |caches| ==>
      Follows(caches[i], streams, NextState(zs[i], states[i], step, i, starts.Some?))
    ensures CallShows(caches, zs, streams, states, step, starts.Some?, searched, 0)
  {
    searched := seq(|zs|, _ => []);
    for i := |caches| downto 0
      invariant forall j :: 0 <= j < i ==> Follows(caches[j], streams, states[j])
      invariant forall j :: i <= j < |caches| ==>
        Follows(caches[j], streams, NextState(zs[j], states[j], step, j, starts.Some?))
      invariant CallShows(caches, zs, streams, states, step, starts.Some?, searched, i)
    {
      if step.enabled[i] {
        var start := if starts.Some? then Some(starts.value[i]) else None;
        ghost var rows := DecodeOne(caches, zs, i, step, start, streams, states);
        searched := searched[i := rows];
      }
    }
  }

  function Periods(zs: seq<Sizes>): (periods: seq<nat>)
    ensures |periods| == |zs|
  {
    seq(|zs|, i requires 0 <= i < |zs| => zs[i].nmax)
  }

  /** Offers starts to a call, and records its end. */
  method OfferStarts(zs: seq<Sizes>, ends: array<nat>, step: Step, ghost states: seq<ModeState>)
      returns (starts: Option<seq<nat>>)
    requires Fits(step, zs) && GoodStates(zs, states) && ends[..] == EndsOf(states)
    modifies ends
    ensures ends[..] == EndsOf(StepStates(zs, states, step))
    ensures starts.Some? <==> Offers(zs, EndsOf(states), step)
    ensures starts.Some? ==> |starts.value| == |zs| && forall i :: 0 <= i < |zs| && step.enabled[i] ==>
      zs[i].nmax <= step.end && zs[i].nmax <= |step.ring| && starts.value[i] == WindowStart(zs[i], step)
  {
    ghost var before := ends[..];
    starts := StreamStarts(ends, step.end, |step.ring|, step.enabled, Periods(zs));
    assert forall i :: 0 <= i < |zs| ==> before[i] == states[i].end;
  }

  method DecodeStep(caches: seq<SpectrumCache>, zs: seq<Sizes>, ends: array<nat>, step: Step,
                    ghost streams: Streams, ghost states: seq<ModeState>)
      returns (ghost searched: seq<seq<seq<real>>>)
    requires Separate(caches, zs) && Fits(step, zs) && HoldsStep(streams, step) && ends !in AllParts(caches)
    requires GoodStates(zs, states) && AllFollow(caches, streams, states)
    requires ends[..] == EndsOf(states)
    modifies ends, AllParts(caches)
    ensures AllFollow(caches, streams, StepStates(zs, states, step))
    ensures ends[..] == EndsOf(StepStates(zs, states, step))
    ensures CallShows(caches, zs, streams, states, step, Offers(zs, EndsOf(states), step), searched, 0)
  {
    var starts := OfferStarts(zs, ends, step, states);
    searched := DecodePass(caches, zs, step, starts, streams, states);
  }

  /** The rows that the enabled modes search in a call show the loaded windows, as without any reuse. */
  ghost predicate ShowsLoaded(caches: seq<SpectrumCache>, zs: seq<Sizes>, step: Step, searched: seq<seq<seq<real>>>)
    requires |caches| == |zs| && Fits(step, zs)
  {
    |searched| == |zs| && forall i :: 0 <= i < |zs| && step.enabled[i] ==>
      Shows(zs[i], caches[i].power, Segments(zs[i], Loaded(zs[i], step.ring, step.end)), searched[i])
  }

  lemma {:induction false} RightIsLoaded(caches: seq<SpectrumCache>, zs: seq<Sizes>, streams: Streams,
                                         states: seq<ModeState>, step: Step, searched: seq<seq<seq<real>>>)
    requires |caches| == |zs| && GoodStates(zs, states) && Fits(step, zs) && HoldsStep(streams, step)
    requires CallShows(caches, zs, streams, states, step, Offers(zs, EndsOf(states), step), searched, 0)
    requires SearchesWindows(zs, states, step)
    ensures ShowsLoaded(caches, zs, step, searched)
  {
    if Offers(zs, EndsOf(states), step) {
      forall i | 0 <= i < |zs| && step.enabled[i]
        ensures SearchedSegments(zs[i], streams, states[i], step, true) ==
                Segments(zs[i], Loaded(zs[i], step.ring, step.end))
      {
        WindowIsLoaded(zs[i], streams, step);
      }
    }
  }

  /** Every call of a run searches what the states say. */
  ghost predicate RunShows(caches: seq<SpectrumCache>, zs: seq<Sizes>, streams: Streams, first: seq<ModeState>,
                           steps: seq<Step>, searched: seq<seq<seq<seq<real>>>>)
    requires |caches| == |zs| && GoodStates(zs, first) && AllFit(steps, zs)
  {
    if steps == [] then searched == []
    else
      var n := |steps| - 1;
      var states := RunStates(zs, first, steps[..n]);
      && |searched| == |steps| && RunShows(caches, zs, streams, first, steps[..n], searched[..n])
      && CallShows(caches, zs, streams, states, steps[n], Offers(zs, EndsOf(states), steps[n]), searched[n], 0)
  }

  lemma {:induction false} RunShowsOneMore(caches: seq<SpectrumCache>, zs: seq<Sizes>, streams: Streams,
                                           first: seq<ModeState>, steps: seq<Step>, n: nat,
                                           searched: seq<seq<seq<seq<real>>>>, rows: seq<seq<seq<real>>>)
    requires |caches| == |zs| && GoodStates(zs, first) && AllFit(steps, zs) && n < |steps|
    requires RunShows(caches, zs, streams, first, steps[..n], searched)
    requires var states := RunStates(zs, first, steps[..n]);
             CallShows(caches, zs, streams, states, steps[n], Offers(zs, EndsOf(states), steps[n]), rows, 0)
    ensures RunShows(caches, zs, streams, first, steps[..n + 1], searched + [rows])
    ensures RunStates(zs, first, steps[..n + 1]) == StepStates(zs, RunStates(zs, first, steps[..n]), steps[n])
  {
    assert steps[..n + 1][..n] == steps[..n];
    assert |searched| == n by {
      if n > 0 {
        assert steps[..n] != [];
      }
    }
    assert (searched + [rows])[..n] == searched;
  }

  lemma {:induction false} RunShowsLast(caches: seq<SpectrumCache>, zs: seq<Sizes>, streams: Streams,
                                        first: seq<ModeState>, steps: seq<Step>, earlier: seq<Step>,
                                        states: seq<ModeState>, searched: seq<seq<seq<seq<real>>>>)
    requires |caches| == |zs| && GoodStates(zs, first) && AllFit(steps, zs) && steps != [] && AllOwn(zs, first)
    requires earlier == steps[..|steps| - 1] && states == RunStates(zs, first, earlier)
    requires RunShows(caches, zs, streams, first, steps, searched) && RunNeverCrosses(zs, first, steps)
    ensures |searched| == |steps| && AllFit(earlier, zs) && RunNeverCrosses(zs, first, earlier)
    ensures RunShows(caches, zs, streams, first, earlier, searched[..|steps| - 1])
    ensures var step, rows := steps[|steps| - 1], searched[|steps| - 1];
            && CallShows(caches, zs, streams, states, step, Offers(zs, EndsOf(states), step), rows, 0)
            && SearchesWindows(zs, states, step)
  {
    ReuseIsRight(zs, first, steps);
  }

  /** Every call of a run searches the spectra of its loaded windows. */
  ghost predicate RunShowsLoaded(caches: seq<SpectrumCache>, zs: seq<Sizes>, steps: seq<Step>,
                                 searched: seq<seq<seq<seq<real>>>>)
    requires |caches| == |zs| && AllFit(steps, zs)
  {
    if steps == [] then searched == []
    else
      var n := |steps| - 1;
      && |searched| == |steps| && RunShowsLoaded(caches, zs, steps[..n], searched[..n])
      && ShowsLoaded(caches, zs, steps[n], searched[n])
  }

  /** As long as no call crosses over from another stream, every call searches what it would have computed anew. */
  lemma {:induction false} ReuseIsInvisible(caches: seq<SpectrumCache>, zs: seq<Sizes>, streams: Streams,
                                            first: seq<ModeState>, steps: seq<Step>,
                                            searched: seq<seq<seq<seq<real>>>>)
    requires |caches| == |zs| && GoodStates(zs, first) && AllFit(steps, zs) && AllOwn(zs, first)
    requires forall n :: 0 <= n < |steps| ==> HoldsStep(streams, steps[n])
    requires RunShows(caches, zs, streams, first, steps, searched) && RunNeverCrosses(zs, first, steps)
    ensures RunShowsLoaded(caches, zs, steps, searched)
  {
    if steps == [] {
    } else {
      var n := |steps| - 1;
      var earlier := steps[..n];
      var states := RunStates(zs, first, earlier);
      RunShowsLast(caches, zs, streams, first, steps, earlier, states, searched);
      ReuseIsInvisible(caches, zs, streams, first, earlier, searched[..n]);
      RightIsLoaded(caches, zs, streams, states, steps[n], searched[n]);
    }
  }

  /**
   * Over any run of calls on any streams, in any modes, every mode has recorded what its calls determine, and every
   * call searches the columns that the states say.
   */
  method DecodeAll(caches: seq<SpectrumCache>, zs: seq<Sizes>, steps: seq<Step>, ghost streams: Streams)
      returns (ghost searched: seq<seq<seq<seq<real>>>>)
    requires Separate(caches, zs) && AllFit(steps, zs)
    requires forall n :: 0 <= n < |steps| ==> HoldsStep(streams, steps[n])
    requires forall i :: 0 <= i < |caches| ==> caches[i].Valid() && caches[i].start.None?
    modifies AllParts(caches)
    ensures GoodStates(zs, Initial(zs)) && AllFollow(caches, streams, RunStates(zs, Initial(zs), steps))
    ensures RunShows(caches, zs, streams, Initial(zs), steps, searched)
  {
    var ends := new nat[|zs|](_ => 0);
    ghost var first := Initial(zs);
    ghost var states := first;
    searched := [];
    for n := 0 to |steps|
      invariant fresh(ends) && ends !in AllParts(caches) && GoodStates(zs, first) && GoodStates(zs, states)
      invariant ends[..] == EndsOf(states) && states == RunStates(zs, first, steps[..n])
      invariant AllFollow(caches, streams, states)
      invariant RunShows(caches, zs, streams, first, steps[..n], searched)
    {
      ghost var rows := DecodeStep(caches, zs, ends, steps[n], streams, states);
      RunShowsOneMore(caches, zs, streams, first, steps, n, searched, rows);
      searched := searched + [rows];
      states := StepStates(zs, states, steps[n]);
    }
    assert steps[..|steps|] == steps;
  }
}
