/** Choosing decode windows: whole receive slots, and the overlapping windows of a continuous stream. */
module Scheduling {
  import opened Wrappers
  import opened Arith

  datatype Submode = Normal | Fast | Turbo | Slow | Ultra

  const RATE: nat := 12_000
  const SYMBOLS: nat := 79
  /** Samples in the ring: one minute. */
  const RING: nat := 720_000

  function SymbolSamples(m: Submode): nat {
    match m
    case Normal => 1920
    case Fast => 1200
    case Turbo => 600
    case Slow => 3840
    case Ultra => 384
  }

  function PeriodSeconds(m: Submode): nat {
    match m
    case Normal => 15
    case Fast => 10
    case Turbo => 6
    case Slow => 30
    case Ultra => 4
  }

  function StartDelayMs(m: Submode): nat {
    match m
    case Normal => 500
    case Fast => 200
    case Turbo => 100
    case Slow => 500
    case Ultra => 100
  }

  function Period(m: Submode): nat { RATE * PeriodSeconds(m) }

  function FrameSamples(m: Submode): nat { SYMBOLS * SymbolSamples(m) }

  function Needed(m: Submode): nat { FrameSamples(m) + RATE / 2 + StartDelayMs(m) * RATE / 1000 }

  lemma {:induction false} Sizes(m: Submode)
    ensures 0 < FrameSamples(m) + SymbolSamples(m) < Period(m)
    ensures 0 < Needed(m) < Period(m) && RING / Period(m) * Period(m) == RING
    ensures 0 < SymbolSamples(m)
  {
    match m
    case Normal => assert Period(m) == 180_000 && Needed(m) == 163_680;
    case Fast => assert Period(m) == 120_000 && Needed(m) == 103_200;
    case Turbo => assert Period(m) == 72_000 && Needed(m) == 54_600;
    case Slow => assert Period(m) == 360_000 && Needed(m) == 315_360;
    case Ultra => assert Period(m) == 48_000 && Needed(m) == 37_536;
  }

  /** Samples in a period, and how many of them a complete capture needs. */
  datatype Timing = Timing(period: nat, needed: nat)

  predicate GoodTiming(t: Timing) {
    0 < t.needed < t.period && Multiple(t.period, RING / t.period) == RING
  }

  function TimingOf(m: Submode): (t: Timing)
    ensures GoodTiming(t)
  {
    Sizes(m);
    MultipleIs(Period(m), RING / Period(m));
    Timing(Period(m), Needed(m))
  }

  datatype Cursor = Cursor(current: Option<nat>, next: Option<nat>)

  datatype Window = Window(cycle: nat, start: nat, size: nat)

  /** The receive cycle of a sample count in the ring. */
  function CycleForDecode(t: Timing, k: nat): nat
    requires GoodTiming(t)
  {
    (k / t.period) % (RING / t.period)
  }

  /** The first sample of a cycle. */
  function CycleStart(t: Timing, cycle: nat): nat { Multiple(t.period, cycle) }

  /** Below the ring size, a sample count lies in its own cycle. */
  lemma {:induction false} CycleInRing(t: Timing, k: nat)
    requires GoodTiming(t) && k < RING
    ensures CycleStart(t, CycleForDecode(t, k)) <= k < CycleStart(t, CycleForDecode(t, k)) + t.period
    ensures CycleForDecode(t, k) == k / t.period
  {
    var c, n := t.period, RING / t.period;
    MultipleIs(c, n);
    if k / c >= n {
      MulMonotone(n, k / c, c);
    }
    DivModIs(k / c, 0, k / c, n);
    MultipleIs(c, k / c);
  }

  // ---- slots

  predicate DeadAir(t: Timing, k: nat, start: nat) {
    k < start && k < (if start >= t.period then start - t.period else 0) + t.needed
  }

  /** Whether a call starts over at the slot of its own sample count. */
  predicate Realigns(t: Timing, k: nat, k0: nat, c: Cursor) {
    var delta := if k >= k0 then k - k0 else k0 - k;
    c.current.None? || c.next.None? || k < k0 || delta > t.period || DeadAir(t, k, c.current.value)
  }

  /** One call, given the cycle of its sample count: the new cursor, and the window if the slot is complete. */
  function SlotStepAt(t: Timing, cycle: nat, k: nat, k0: nat, c: Cursor): (Cursor, Option<Window>) {
    var start := if Realigns(t, k, k0, c) then CycleStart(t, cycle) else c.current.value;
    var next := if Realigns(t, k, k0, c) then start + t.period else c.next.value;
    if start + t.needed <= k then
      var size := if t.needed >= k - start then t.needed else k - start;
      (Cursor(Some(next), Some(next + t.period)), Some(Window(cycle, start, size)))
    else (Cursor(Some(start), Some(next)), None)
  }

  function SlotStep(t: Timing, k: nat, k0: nat, c: Cursor): (Cursor, Option<Window>)
    requires GoodTiming(t)
  {
    SlotStepAt(t, CycleForDecode(t, k), k, k0, c)
  }

  method NextDecodeWindow(t: Timing, k: nat, k0: nat, cursor0: Cursor) returns (cursor: Cursor, window: Option<Window>)
    requires GoodTiming(t)
    ensures (cursor, window) == SlotStep(t, k, k0, cursor0)
  {
    cursor := cursor0;
    var cycleFrames, framesNeeded := t.period, t.needed;
    var currentCycle := CycleForDecode(t, k);
    MultipleIs(cycleFrames, currentCycle);
    var delta := if k >= k0 then k - k0 else k0 - k;
    var currentStart := if cursor.current.Some? then cursor.current.value else 0;
    var deadAir := k < currentStart
      && k < (if currentStart >= cycleFrames then currentStart - cycleFrames else 0) + framesNeeded;
    if deadAir || k < k0 || delta > cycleFrames || cursor.current.None? || cursor.next.None? {
      var start := currentCycle * cycleFrames;
      cursor := Cursor(Some(start), Some(start + cycleFrames));
    }
    currentStart := cursor.current.value;
    var nextStart := cursor.next.value;
    if currentStart + framesNeeded > k {
      return cursor, None;
    }
    window := Some(Window(currentCycle, currentStart,
      if framesNeeded >= k - currentStart then framesNeeded else k - currentStart));
    cursor := Cursor(Some(nextStart), Some(nextStart + cycleFrames));
  }

  /** One cursor for every submode. */
  class DecodeScheduler {
    var normal: Cursor
    var fast: Cursor
    var turbo: Cursor
    var slow: Cursor
    var ultra: Cursor

    constructor ()
      ensures forall m :: CursorOf(m) == Cursor(None, None)
    {
      normal, fast, turbo := Cursor(None, None), Cursor(None, None), Cursor(None, None);
      slow, ultra := Cursor(None, None), Cursor(None, None);
    }

    function CursorOf(m: Submode): Cursor
      reads this
    {
      match m
      case Normal => normal
      case Fast => fast
      case Turbo => turbo
      case Slow => slow
      case Ultra => ultra
    }

    method SetCursor(m: Submode, c: Cursor)
      modifies this
      ensures CursorOf(m) == c && forall other :: other != m ==> CursorOf(other) == old(CursorOf(other))
    {
      match m
      case Normal => normal := c;
      case Fast => fast := c;
      case Turbo => turbo := c;
      case Slow => slow := c;
      case Ultra => ultra := c;
    }

    /** The next complete slot of a submode; the other submodes' cursors do not move. */
    method NextWindow(m: Submode, k: nat, k0: nat) returns (window: Option<Window>)
      modifies this
      ensures (CursorOf(m), window) == SlotStep(TimingOf(m), k, k0, old(CursorOf(m)))
      ensures forall other :: other != m ==> CursorOf(other) == old(CursorOf(other))
    {
      var cursor;
      cursor, window := NextDecodeWindow(TimingOf(m), k, k0, CursorOf(m));
      SetCursor(m, cursor);
    }
  }

  // ---- whole runs over slots

  /** Sample counts of successive calls: below the ring size, never falling, growing by at most `step` a call. */
  predicate Steady(ks: seq<nat>, step: nat, limit: nat) {
    (forall i :: 0 <= i < |ks| ==> ks[i] < limit) &&
    (forall i :: 0 < i < |ks| ==> ks[i - 1] <= ks[i] <= ks[i - 1] + step)
  }

  lemma {:induction false} SteadyOrder(ks: seq<nat>, step: nat, limit: nat, i: nat, j: nat)
    requires Steady(ks, step, limit) && i <= j < |ks|
    ensures ks[i] <= ks[j]
  {
    if i < j {
      SteadyOrder(ks, step, limit, i, j - 1);
    }
  }

  /** A window and the call that emitted it. */
  datatype Emission = Emission(call: nat, window: Window)

  function Emitted(so_far: seq<Emission>, call: nat, window: Option<Window>): seq<Emission> {
    if window.Some? then so_far + [Emission(call, window.value)] else so_far
  }

  function Previous(ks: seq<nat>, i: nat, before: nat): nat
    requires i < |ks|
  {
    if i == 0 then before else ks[i - 1]
  }

  /** The cursor and the emissions after the first `n` calls from an empty cursor. */
  function SlotRun(t: Timing, ks: seq<nat>, before: nat, n: nat): (Cursor, seq<Emission>)
    requires n <= |ks| && GoodTiming(t)
  {
    if n == 0 then (Cursor(None, None), [])
    else
      var (cursor, emissions) := SlotRun(t, ks, before, n - 1);
      var (next, window) := SlotStep(t, ks[n - 1], Previous(ks, n - 1, before), cursor);
      (next, Emitted(emissions, n - 1, window))
  }

  /** The slot that a sample count lies in. */
  function SlotOf(t: Timing, k: nat): (q: nat)
    requires t.period > 0
  {
    k / t.period
  }

  /** Start of the `j`-th window of a run whose first call is in cycle `q`. */
  function SlotStart(t: Timing, q: nat, j: nat): nat { CycleStart(t, q + j) }

  /**
   * The emission of the slot at `start` comes on the first call that has all its samples, and ends at that call,
   * whose cycle it reports.
   */
  predicate OnTime(t: Timing, ks: seq<nat>, start: nat, e: Emission)
    requires t.period > 0
  {
    && e.call < |ks| && e.window.start == start && start + e.window.size == ks[e.call]
    && ks[e.call] >= start + t.needed && (e.call > 0 ==> ks[e.call - 1] < start + t.needed)
    && e.window.cycle == SlotOf(t, ks[e.call])
    && (CycleStart(t, e.window.cycle) == start <==> ks[e.call] < start + t.period)
  }

  /** The slot has begun, or the one before it is complete. */
  predicate Due(t: Timing, k: nat, start: nat) {
    start <= k || start + t.needed <= k + t.period
  }

  /** The emissions are the successive slots from cycle `q` on. */
  predicate AllOnTime(t: Timing, ks: seq<nat>, q: nat, emissions: seq<Emission>)
    requires t.period > 0
  {
    forall j :: 0 <= j < |emissions| ==> OnTime(t, ks, SlotStart(t, q, j), emissions[j])
  }

  lemma {:induction false} OneMoreOnTime(t: Timing, ks: seq<nat>, q: nat, emissions: seq<Emission>, e: Emission)
    requires t.period > 0 && AllOnTime(t, ks, q, emissions) && OnTime(t, ks, SlotStart(t, q, |emissions|), e)
    ensures AllOnTime(t, ks, q, emissions + [e])
  {
  }

  /** After some calls: the windows so far are the successive slots, and the next one is not complete yet. */
  predicate SlotsSoFar(t: Timing, ks: seq<nat>, q: nat, n: nat, cursor: Cursor, emissions: seq<Emission>)
    requires 0 < n <= |ks| && t.period > 0
  {
    var start := SlotStart(t, q, |emissions|);
    && AllOnTime(t, ks, q, emissions)
    && cursor == Cursor(Some(start), Some(start + t.period))
    && ks[n - 1] < start + t.needed && Due(t, ks[n - 1], start)
  }

  /** The cycle reported with a window is the window's own unless its samples reach into the next one. */
  lemma {:induction false} CycleOfWindow(t: Timing, k: nat, q: nat)
    requires GoodTiming(t) && k < RING && CycleStart(t, q) <= k
    ensures CycleStart(t, CycleForDecode(t, k)) == CycleStart(t, q) <==> k < CycleStart(t, q) + t.period
  {
    CycleInRing(t, k);
    MultipleIs(t.period, q);
    if k < CycleStart(t, q) + t.period {
      DivModIs(k, q, k - CycleStart(t, q), t.period);
    }
  }

  lemma {:induction false} FirstCall(t: Timing, ks: seq<nat>, before: nat, q: nat, empty: seq<Emission>,
                                     next: Cursor, window: Option<Window>)
    requires t.needed < t.period && ks != [] && empty == [] && q == SlotOf(t, ks[0])
    requires CycleStart(t, q) <= ks[0] < CycleStart(t, q) + t.period
    requires (next, window) == SlotStepAt(t, q, ks[0], before, Cursor(None, None))
    ensures SlotsSoFar(t, ks, q, 1, next, Emitted(empty, 0, window))
  {
    if window.Some? {
      assert OnTime(t, ks, CycleStart(t, q), Emission(0, window.value));
    }
  }

  lemma {:induction false} LaterCall(t: Timing, ks: seq<nat>, q: nat, n: nat, cycle: nat, cursor: Cursor,
                                     emissions: seq<Emission>, next: Cursor, window: Option<Window>)
    requires t.needed < t.period && 0 < n < |ks| && ks[n - 1] <= ks[n] <= ks[n - 1] + t.period
    requires cycle == SlotOf(t, ks[n])
    requires SlotsSoFar(t, ks, q, n, cursor, emissions)
    requires var start := SlotStart(t, q, |emissions|);
             start <= ks[n] ==> (CycleStart(t, cycle) == start <==> ks[n] < start + t.period)
    requires (next, window) == SlotStepAt(t, cycle, ks[n], ks[n - 1], cursor)
    ensures SlotsSoFar(t, ks, q, n + 1, next, Emitted(emissions, n, window))
  {
    var start := SlotStart(t, q, |emissions|);
    assert !Realigns(t, ks[n], ks[n - 1], cursor);
    if window.Some? {
      OneMoreOnTime(t, ks, q, emissions, Emission(n, window.value));
      NextSlot(t, q, |emissions|);
    }
  }

  lemma {:induction false} NextSlot(t: Timing, q: nat, j: nat)
    ensures SlotStart(t, q, j + 1) == SlotStart(t, q, j) + t.period
  {
  }

  /** A call after the first, with its cycle. */
  lemma {:induction false} RunCall(t: Timing, ks: seq<nat>, q: nat, i: nat, cycle: nat, cursor: Cursor,
                                   emissions: seq<Emission>, next: Cursor, window: Option<Window>)
    requires GoodTiming(t) && 0 < i < |ks| && ks[i - 1] <= ks[i] <= ks[i - 1] + t.period && ks[i] < RING
    requires cycle == CycleForDecode(t, ks[i]) && SlotsSoFar(t, ks, q, i, cursor, emissions)
    requires (next, window) == SlotStepAt(t, cycle, ks[i], ks[i - 1], cursor)
    ensures SlotsSoFar(t, ks, q, i + 1, next, Emitted(emissions, i, window))
  {
    CycleInRing(t, ks[i]);
    if SlotStart(t, q, |emissions|) <= ks[i] {
      CycleOfWindow(t, ks[i], q + |emissions|);
    }
    LaterCall(t, ks, q, i, cycle, cursor, emissions, next, window);
  }

  /** The same from a call in cycle `q` on. */
  lemma {:induction false} SlotRunFrom(t: Timing, ks: seq<nat>, before: nat, q: nat, n: nat)
    requires 0 < n <= |ks| && GoodTiming(t) && Steady(ks, t.period, RING)
    requires CycleForDecode(t, ks[0]) == q && CycleStart(t, q) <= ks[0] < CycleStart(t, q) + t.period
    ensures var (cursor, emissions) := SlotRun(t, ks, before, n);
            SlotsSoFar(t, ks, q, n, cursor, emissions)
  {
    var i: nat := n - 1;
    var cycle := CycleForDecode(t, ks[i]);
    var (cursor, emissions) := SlotRun(t, ks, before, i);
    var (next, window) := SlotStepAt(t, cycle, ks[i], Previous(ks, i, before), cursor);
    if i == 0 {
      CycleInRing(t, ks[0]);
      FirstCall(t, ks, before, q, emissions, next, window);
    } else {
      SlotRunFrom(t, ks, before, q, i);
      RunCall(t, ks, q, i, cycle, cursor, emissions, next, window);
    }
  }

  /**
   * Over any steady run from an empty cursor the emitted slots are `s`, `s + C`, `s + 2C`, ... with `s` the
   * slot of the first call, each once, on the first call that has its samples, and ending at that call.
   */
  lemma {:induction false} SlotRunEmitsEverySlot(m: Submode, ks: seq<nat>, before: nat, n: nat)
    requires 0 < n <= |ks| && Steady(ks, Period(m), RING)
    ensures var t := TimingOf(m);
            var (cursor, emissions) := SlotRun(t, ks, before, n);
            SlotsSoFar(t, ks, ks[0] / Period(m), n, cursor, emissions)
  {
    CycleInRing(TimingOf(m), ks[0]);
    SlotRunFrom(TimingOf(m), ks, before, ks[0] / Period(m), n);
  }

  /**
   * One call with a slot awaited, whatever its counts: the awaited slot is kept exactly if it is due and the count
   * neither fell nor grew by more than a period, and the slot of the count itself is awaited otherwise.
   */
  lemma {:induction false} AnyCall(t: Timing, k: nat, k0: nat, q: nat, awaited: nat)
    requires GoodTiming(t) && k < RING && awaited == CycleStart(t, q)
    ensures var start := if k0 <= k <= k0 + t.period && Due(t, k, awaited) then awaited
                         else CycleStart(t, SlotOf(t, k));
      SlotStep(t, k, k0, Cursor(Some(awaited), Some(awaited + t.period))) ==
        if start + t.needed <= k
        then (Cursor(Some(start + t.period), Some(start + t.period + t.period)),
              Some(Window(SlotOf(t, k), start, k - start)))
        else (Cursor(Some(start), Some(start + t.period)), None)
  {
    CycleInRing(t, k);
    if 0 < q {
      MultipleIs(t.period, q);
      MulMonotone(1, q, t.period);
    }
  }

  // ---- runs whose counts fall or jump

  /** A call that starts over: the first one, or one whose count fell or grew by more than a period. */
  predicate Restarts(t: Timing, ks: seq<nat>, i: nat)
    requires i < |ks|
  {
    i == 0 || ks[i] < ks[i - 1] || ks[i] > ks[i - 1] + t.period
  }

  /** Emissions of later calls. */
  function Shifted(emissions: seq<Emission>, offset: nat): (s: seq<Emission>)
    ensures |s| == |emissions|
  {
    seq(|emissions|, j requires 0 <= j < |emissions| => emissions[j].(call := offset + emissions[j].call))
  }

  /** Such a call forgets the cursor. */
  lemma {:induction false} RestartForgets(t: Timing, cycle: nat, k: nat, k0: nat, other: nat, c: Cursor)
    requires k < k0 || k > k0 + t.period
    ensures SlotStepAt(t, cycle, k, k0, c) == SlotStepAt(t, cycle, k, other, Cursor(None, None))
  {
  }

  lemma {:induction false} EmitShifted(earlier: seq<Emission>, piece: seq<Emission>, offset: nat, call: nat,
                                       window: Option<Window>)
    ensures Emitted(earlier + Shifted(piece, offset), offset + call, window) ==
            earlier + Shifted(Emitted(piece, call, window), offset)
  {
  }

  /** From such a call on, a run emits what a run that begins there from an empty cursor emits. */
  lemma {:induction false} RestartedRun(t: Timing, ks: seq<nat>, before: nat, c: nat, n: nat)
    requires c < n <= |ks| && GoodTiming(t) && Restarts(t, ks, c)
    ensures var start := Previous(ks, c, before);
            var (cursor, emissions) := SlotRun(t, ks[c..], start, n - c);
            SlotRun(t, ks, before, n) == (cursor, SlotRun(t, ks, before, c).1 + Shifted(emissions, c))
  {
    var i, rest, start := n - 1, ks[c..], Previous(ks, c, before);
    var earlier := SlotRun(t, ks, before, c).1;
    var (cursor, emissions) := SlotRun(t, rest, start, i - c);
    var cycle := CycleForDecode(t, ks[i]);
    var (next, window) := SlotStepAt(t, cycle, rest[i - c], Previous(rest, i - c, start), cursor);
    assert rest[i - c] == ks[i];
    if i == c {
      if c > 0 {
        RestartForgets(t, cycle, ks[c], ks[c - 1], start, SlotRun(t, ks, before, c).0);
      }
      assert earlier == earlier + Shifted([], c);
    } else {
      RestartedRun(t, ks, before, c, i);
      assert Previous(rest, i - c, start) == Previous(ks, i, before);
    }
    EmitShifted(earlier, emissions, c, i - c, window);
  }

  /** The last call before `n` that starts over. */
  function LastRestart(t: Timing, ks: seq<nat>, n: nat): (c: nat)
    requires 0 < n <= |ks|
    ensures c < n && Restarts(t, ks, c) && forall i :: c < i < n ==> !Restarts(t, ks, i)
  {
    if Restarts(t, ks, n - 1) then n - 1 else LastRestart(t, ks, n - 1)
  }

  /**
   * The emissions fall into pieces, one for each call that starts over: the calls from it to the next one emit the
   * successive slots from its own on, each once and on time, and none of them is missed.
   */
  ghost predicate PiecesOnTime(t: Timing, ks: seq<nat>, n: nat, emissions: seq<Emission>)
    requires n <= |ks| && t.period > 0
    decreases n
  {
    if n == 0 then emissions == []
    else
      var c := LastRestart(t, ks, n);
      exists earlier: seq<Emission>, piece: seq<Emission> ::
        && emissions == earlier + Shifted(piece, c) && PiecesOnTime(t, ks, c, earlier)
        && AllOnTime(t, ks[c..n], SlotOf(t, ks[c]), piece)
        && ks[n - 1] < SlotStart(t, SlotOf(t, ks[c]), |piece|) + t.needed
  }

  lemma {:induction false} PieceIsSteady(t: Timing, ks: seq<nat>, c: nat, n: nat)
    requires c < n <= |ks| && (forall i :: 0 <= i < |ks| ==> ks[i] < RING)
    requires forall i :: c < i < n ==> !Restarts(t, ks, i)
    ensures Steady(ks[c..n], t.period, RING)
  {
    forall i | 0 < i < n - c
      ensures ks[c..n][i - 1] <= ks[c..n][i] <= ks[c..n][i - 1] + t.period
    {
      assert !Restarts(t, ks, c + i);
    }
  }

  /** A run takes no notice of the calls after it. */
  lemma {:induction false} RunOfPrefix(t: Timing, ks: seq<nat>, longer: seq<nat>, before: nat, n: nat)
    requires n <= |ks| <= |longer| && GoodTiming(t) && longer[..|ks|] == ks
    ensures SlotRun(t, ks, before, n) == SlotRun(t, longer, before, n)
  {
    if n > 0 {
      RunOfPrefix(t, ks, longer, before, n - 1);
      assert ks[n - 1] == longer[n - 1] && Previous(ks, n - 1, before) == Previous(longer, n - 1, before);
    }
  }

  /** The calls from one that starts over to `n`, when none between starts over. */
  lemma {:induction false} PieceOnTime(t: Timing, ks: seq<nat>, before: nat, c: nat, n: nat)
      returns (piece: seq<Emission>)
    requires c < n <= |ks| && GoodTiming(t) && (forall i :: 0 <= i < |ks| ==> ks[i] < RING)
    requires Restarts(t, ks, c) && forall i :: c < i < n ==> !Restarts(t, ks, i)
    ensures SlotRun(t, ks, before, n).1 == SlotRun(t, ks, before, c).1 + Shifted(piece, c)
    ensures AllOnTime(t, ks[c..n], SlotOf(t, ks[c]), piece)
    ensures ks[n - 1] < SlotStart(t, SlotOf(t, ks[c]), |piece|) + t.needed
  {
    var part, start := ks[c..n], Previous(ks, c, before);
    RestartedRun(t, ks, before, c, n);
    RunOfPrefix(t, part, ks[c..], start, n - c);
    PieceIsSteady(t, ks, c, n);
    CycleInRing(t, ks[c]);
    SlotRunFrom(t, part, start, SlotOf(t, ks[c]), n - c);
    piece := SlotRun(t, part, start, n - c).1;
  }

  /** So over any run from an empty cursor, whatever its counts below the ring size do. */
  lemma {:induction false} AnyRunOnTime(t: Timing, ks: seq<nat>, before: nat, n: nat)
    requires n <= |ks| && GoodTiming(t) && forall i :: 0 <= i < |ks| ==> ks[i] < RING
    ensures PiecesOnTime(t, ks, n, SlotRun(t, ks, before, n).1)
  {
    if n > 0 {
      var c := LastRestart(t, ks, n);
      AnyRunOnTime(t, ks, before, c);
      var piece := PieceOnTime(t, ks, before, c, n);
    }
  }

  /** A run in which the reported cycle is not that of the window: the samples already reach into the next slot. */
  lemma {:induction false} LateWindowReportsNextCycle(ks: seq<nat>)
    requires ks == [160_000, 340_000]
    ensures Steady(ks, Period(Normal), RING)
    ensures SlotRun(TimingOf(Normal), ks, 0, 2).1 == [Emission(1, Window(1, 0, 340_000))]
  {
    var t, empty := TimingOf(Normal), Cursor(None, None);
    assert t == Timing(180_000, 163_680);
    MultipleIs(t.period, 0);
    assert CycleForDecode(t, ks[0]) == 0 && CycleForDecode(t, ks[1]) == 1;
    var first := SlotStepAt(t, 0, ks[0], 0, empty);
    assert first == (Cursor(Some(0), Some(180_000)), None);
    var second := SlotStepAt(t, 1, ks[1], ks[0], first.0);
    assert second.1 == Some(Window(1, 0, 340_000));
    assert SlotRun(t, ks, 0, 0) == (empty, []);
    assert SlotRun(t, ks, 0, 1) == (first.0, []);
  }

  /** The minute's count starts over: the slot at the start of the new minute is emitted once it is complete. */
  lemma {:induction false} NextMinuteIsEmitted(t: Timing, last: nat, k: nat, full: nat, c: Cursor)
    requires t == TimingOf(Normal) && last == 719_520 && k == 480 && full == 163_680
    requires c == Cursor(Some(720_000), Some(900_000))
    ensures var (cursor, window) := SlotStep(t, k, last, c);
            window.None? && SlotStep(t, full, k, cursor).1 == Some(Window(0, 0, full))
  {
    assert t == Timing(180_000, 163_680);
    MultipleIs(t.period, 0);
    assert CycleForDecode(t, k) == 0 && CycleForDecode(t, full) == 0;
    var first := SlotStepAt(t, 0, k, last, c);
    assert first == (Cursor(Some(0), Some(180_000)), None);
    assert SlotStepAt(t, 0, full, k, first.0).1 == Some(Window(0, 0, full));
  }
}
