/** Overlapping windows over a continuous stream. */
module ScanSchedule {
  import opened Wrappers
  import opened Arith
  import opened Scheduling

  /**
   * How far apart windows start: the slack of a frame in a period less one symbol, and in slow mode at most what
   * its search reaches.
   */
  function ScanStride(m: Submode): (stride: nat)
    ensures 0 < stride
  {
    var slack: int := Period(m) - FrameSamples(m);
    var guard_: int := SymbolSamples(m);
    var stride: int := if slack >= guard_ then slack - guard_ else 0;
    var limit: int := 3 * RATE - (3 * RATE) % (SymbolSamples(m) / 4);
    var limited: int := if m.Slow? && limit < stride then limit else stride;
    if limited == 0 then 1 else limited
  }

  /** The strides of the five submodes, and the room they leave for a frame. */
  lemma {:induction false} Strides(m: Submode)
    ensures ScanStride(m) == match m
                             case Normal => 26_400
                             case Fast => 24_000
                             case Turbo => 24_000
                             case Slow => 35_520
                             case Ultra => 17_280
    ensures ScanStride(m) + FrameSamples(m) <= Period(m)
  {
    match m
    case Normal =>
    case Fast =>
    case Turbo =>
    case Slow => assert (3 * RATE) % (SymbolSamples(m) / 4) == 480;
    case Ultra =>
  }

  /** Window length and distance between windows. */
  datatype Scan = Scan(size: nat, stride: nat)

  function ScanOf(m: Submode): (s: Scan)
    ensures s.stride > 0
  {
    Scan(Period(m), ScanStride(m))
  }

  /** The number of the last window that ends by `k`. */
  function LastScan(s: Scan, k: nat): nat
    requires s.stride > 0 && k >= s.size
  {
    (k - s.size) / s.stride
  }

  function ScanStart(s: Scan, n: nat): nat { Multiple(s.stride, n) }

  /** One call: the new cursor, and the last complete window unless it was emitted before. */
  function ScanStep(s: Scan, k: nat, k0: nat, c: Cursor): (Cursor, Option<Window>)
    requires s.stride > 0
  {
    var cursor := if k < k0 then Cursor(None, None) else c;
    if k < s.size then (cursor, None)
    else ScanEmit(s, LastScan(s, k), cursor)
  }

  /** The part of a call that depends on the number of the last complete window. */
  function ScanEmit(s: Scan, n: nat, c: Cursor): (Cursor, Option<Window>) {
    var start := ScanStart(s, n);
    if c.next.Some? && start < c.next.value then (c, None)
    else (Cursor(Some(start), Some(start + s.stride)), Some(Window(n, start, s.size)))
  }

  method NextScanWindow(s: Scan, k: nat, k0: nat, cursor0: Cursor) returns (cursor: Cursor, window: Option<Window>)
    requires s.stride > 0
    ensures (cursor, window) == ScanStep(s, k, k0, cursor0)
  {
    cursor := cursor0;
    if k < k0 {
      cursor := Cursor(None, None);
    }
    if k < s.size {
      return cursor, None;
    }
    var start := (k - s.size) / s.stride * s.stride;
    MultipleIs(s.stride, (k - s.size) / s.stride);
    DivModIs(start, (k - s.size) / s.stride, 0, s.stride);
    if cursor.next.Some? && start < cursor.next.value {
      return cursor, None;
    }
    cursor := Cursor(Some(start), Some(start + s.stride));
    window := Some(Window(start / s.stride, start, s.size));
  }

  // ---- whole runs

  /** The cursor and the windows after the first `n` calls from an empty cursor. */
  function ScanRun(s: Scan, ks: seq<nat>, before: nat, n: nat): (Cursor, seq<Window>)
    requires n <= |ks| && s.stride > 0
  {
    if n == 0 then (Cursor(None, None), [])
    else
      var (cursor, windows) := ScanRun(s, ks, before, n - 1);
      var (next, window) := ScanStep(s, ks[n - 1], Previous(ks, n - 1, before), cursor);
      (next, if window.Some? then windows + [window.value] else windows)
  }

  /** The windows are exactly the successive multiples of the stride. */
  predicate Successive(s: Scan, windows: seq<Window>) {
    forall j :: 0 <= j < |windows| ==> windows[j] == Window(j, ScanStart(s, j), s.size)
  }

  /** After some calls: the windows that end by the last count were emitted, and no others. */
  predicate ScansSoFar(s: Scan, k: nat, cursor: Cursor, windows: seq<Window>) {
    && Successive(s, windows)
    && k < ScanStart(s, |windows|) + s.size
    && cursor == CursorAfter(s, |windows|) && (|windows| > 0 ==> ScanStart(s, |windows|) + s.size <= k + s.stride)
  }

  function CursorAfter(s: Scan, n: nat): Cursor {
    if n == 0 then Cursor(None, None) else Cursor(Some(ScanStart(s, n - 1)), Some(ScanStart(s, n)))
  }

  lemma {:induction false} LastScanIs(s: Scan, k: nat, n: nat)
    requires s.stride > 0 && ScanStart(s, n) + s.size <= k < ScanStart(s, n) + s.size + s.stride
    ensures LastScan(s, k) == n
  {
    MultipleIs(s.stride, n);
    DivModIs(k - s.size, n, k - s.size - ScanStart(s, n), s.stride);
  }

  lemma {:induction false} ScanCall(s: Scan, k0: nat, k: nat, cursor: Cursor, windows: seq<Window>,
                                    next: Cursor, window: Option<Window>)
    requires s.stride > 0 && s.stride <= s.size && k0 <= k <= k0 + s.stride && ScansSoFar(s, k0, cursor, windows)
    requires (next, window) == ScanStep(s, k, k0, cursor)
    ensures ScansSoFar(s, k, next, if window.Some? then windows + [window.value] else windows)
  {
    var n := |windows|;
    if k >= ScanStart(s, n) + s.size {
      LastScanIs(s, k, n);
      assert ScanStart(s, n + 1) == ScanStart(s, n) + s.stride;
    } else if k >= s.size {
      assert n > 0;
      LastScanIs(s, k, n - 1);
    }
  }

  lemma {:induction false} FirstScanCall(s: Scan, k: nat, before: nat, next: Cursor, window: Option<Window>)
    requires s.stride > 0 && k < s.size
    requires (next, window) == ScanStep(s, k, before, Cursor(None, None))
    ensures window.None? && ScansSoFar(s, k, next, [])
  {
  }

  /**
   * If the count starts below one period and grows by at most a stride a call, the emitted windows are
   * exactly those starting at 0, stride, 2 * stride, ... that end by the last count.
   */
  lemma {:induction false} ScanRunEmitsEveryWindow(s: Scan, ks: seq<nat>, before: nat, limit: nat, n: nat)
    requires 0 < n <= |ks| && Steady(ks, s.stride, limit) && s.stride > 0 && s.stride <= s.size && ks[0] < s.size
    ensures var (cursor, windows) := ScanRun(s, ks, before, n);
            ScansSoFar(s, ks[n - 1], cursor, windows)
  {
    var i: nat := n - 1;
    var (cursor, windows) := ScanRun(s, ks, before, i);
    var (next, window) := ScanStep(s, ks[i], Previous(ks, i, before), cursor);
    if i == 0 {
      FirstScanCall(s, ks[0], before, next, window);
    } else {
      ScanRunEmitsEveryWindow(s, ks, before, limit, i);
      ScanCall(s, ks[i - 1], ks[i], cursor, windows, next, window);
    }
  }

  /** The number of the last window that starts at or before a stream position. */
  function ScanOfPosition(s: Scan, position: nat): nat
    requires s.stride > 0
  {
    position / s.stride
  }

  /** A frame at any position lies inside the window that starts at the greatest multiple of the stride not above it. */
  lemma {:induction false} FrameInWindow(s: Scan, frame: nat, position: nat)
    requires s.stride > 0 && s.stride + frame <= s.size
    ensures var start := ScanStart(s, ScanOfPosition(s, position));
            start <= position < start + s.stride && position + frame <= start + s.size
  {
    MultipleIs(s.stride, position / s.stride);
    assert position == position / s.stride * s.stride + position % s.stride;
  }

  /** The emitted window number `n` holds a whole frame at `position`. */
  predicate Covers(s: Scan, windows: seq<Window>, n: nat, frame: nat, position: nat) {
    && n < |windows| && windows[n] == Window(n, ScanStart(s, n), s.size)
    && windows[n].start <= position && position + frame <= windows[n].start + windows[n].size
  }

  /** Every frame of a stream, in every submode, is covered once the samples of its window are there. */
  lemma {:induction false} EveryFrameIsCovered(m: Submode, ks: seq<nat>, before: nat, limit: nat, position: nat)
    requires ks != [] && Steady(ks, ScanOf(m).stride, limit) && ks[0] < ScanOf(m).size
    requires ScanStart(ScanOf(m), ScanOfPosition(ScanOf(m), position)) + ScanOf(m).size <= ks[|ks| - 1]
    ensures var s := ScanOf(m);
            Covers(s, ScanRun(s, ks, before, |ks|).1, ScanOfPosition(s, position), FrameSamples(m), position)
  {
    Strides(m);
    RunCovers(ScanOf(m), FrameSamples(m), ks, before, limit, position);
  }

  lemma {:induction false} RunCovers(s: Scan, frame: nat, ks: seq<nat>, before: nat, limit: nat, position: nat)
    requires s.stride > 0 && s.stride + frame <= s.size
    requires ks != [] && Steady(ks, s.stride, limit) && ks[0] < s.size
    requires ScanStart(s, ScanOfPosition(s, position)) + s.size <= ks[|ks| - 1]
    ensures Covers(s, ScanRun(s, ks, before, |ks|).1, ScanOfPosition(s, position), frame, position)
  {
    ScanRunEmitsEveryWindow(s, ks, before, limit, |ks|);
    FrameInWindow(s, frame, position);
    var n, windows := ScanOfPosition(s, position), ScanRun(s, ks, before, |ks|).1;
    if n >= |windows| {
      StartsGrow(s, |windows|, n);
    }
  }

  lemma {:induction false} StartsGrow(s: Scan, a: nat, b: nat)
    requires a <= b
    ensures ScanStart(s, a) <= ScanStart(s, b)
  {
    MultipleSum(s.stride, a, b - a);
  }

  // ---- runs whose counts jump or fall

  function Appended(windows: seq<Window>, window: Option<Window>): seq<Window> {
    if window.Some? then windows + [window.value] else windows
  }

  /** A number is among the windows. */
  predicate Emitted(windows: seq<Window>, n: nat) {
    exists j :: 0 <= j < |windows| && windows[j].cycle == n
  }

  /** Window number `n` was the last complete one at some call. */
  predicate WasLast(s: Scan, ks: seq<nat>, n: nat)
    requires s.stride > 0
  {
    exists i :: 0 <= i < |ks| && ks[i] >= s.size && LastScan(s, ks[i]) == n
  }

  /** The windows lie at the multiples of the stride that their numbers say, in order. */
  predicate InOrder(s: Scan, windows: seq<Window>) {
    && (forall j :: 0 <= j < |windows| ==>
          windows[j] == Window(windows[j].cycle, ScanStart(s, windows[j].cycle), s.size))
    && (forall j :: 0 < j < |windows| ==> windows[j - 1].cycle < windows[j].cycle)
  }

  /** Only windows that were the last complete one at some call. */
  predicate OnlyLast(s: Scan, ks: seq<nat>, windows: seq<Window>)
    requires s.stride > 0
  {
    forall j :: 0 <= j < |windows| ==> WasLast(s, ks, windows[j].cycle)
  }

  /** Every window that was the last complete one at some call. */
  predicate EveryLast(s: Scan, ks: seq<nat>, windows: seq<Window>)
    requires s.stride > 0
  {
    forall i :: 0 <= i < |ks| && ks[i] >= s.size ==> Emitted(windows, LastScan(s, ks[i]))
  }

  /** The windows are those that were the last complete one at some call, once each and in order. */
  predicate LatestOnce(s: Scan, ks: seq<nat>, windows: seq<Window>)
    requires s.stride > 0
  {
    InOrder(s, windows) && OnlyLast(s, ks, windows) && EveryLast(s, ks, windows)
  }

  /** The cursor stands at the last window, and no later one was complete at the last call. */
  predicate AtLast(s: Scan, k: nat, cursor: Cursor, windows: seq<Window>)
    requires s.stride > 0
  {
    if windows == [] then cursor == Cursor(None, None) && k < s.size
    else
      var n := windows[|windows| - 1].cycle;
      cursor == Cursor(Some(ScanStart(s, n)), Some(ScanStart(s, n + 1))) && k >= s.size && LastScan(s, k) == n
  }

  lemma {:induction false} LastScanGrows(s: Scan, k: nat, later: nat)
    requires s.stride > 0 && s.size <= k <= later
    ensures LastScan(s, k) <= LastScan(s, later)
  {
    var a, b := LastScan(s, k), LastScan(s, later);
    if b < a {
      MulMonotone(b + 1, a, s.stride);
    }
  }

  lemma {:induction false} MoreInOrder(s: Scan, windows: seq<Window>, n: nat)
    requires InOrder(s, windows) && (windows != [] ==> windows[|windows| - 1].cycle < n)
    ensures InOrder(s, windows + [Window(n, ScanStart(s, n), s.size)])
  {
  }

  lemma {:induction false} StillLast(s: Scan, ks: seq<nat>, k: nat, n: nat)
    requires s.stride > 0 && WasLast(s, ks, n)
    ensures WasLast(s, ks + [k], n)
  {
    var i :| 0 <= i < |ks| && ks[i] >= s.size && LastScan(s, ks[i]) == n;
    assert (ks + [k])[i] == ks[i];
  }

  lemma {:induction false} NowLast(s: Scan, ks: seq<nat>, k: nat)
    requires s.stride > 0 && k >= s.size
    ensures WasLast(s, ks + [k], LastScan(s, k))
  {
    assert (ks + [k])[|ks|] == k;
  }

  lemma {:induction false} StillOnlyLast(s: Scan, ks: seq<nat>, k: nat, windows: seq<Window>)
    requires s.stride > 0 && OnlyLast(s, ks, windows)
    ensures OnlyLast(s, ks + [k], windows)
  {
    forall j | 0 <= j < |windows|
      ensures WasLast(s, ks + [k], windows[j].cycle)
    {
      StillLast(s, ks, k, windows[j].cycle);
    }
  }

  lemma {:induction false} MoreOnlyLast(s: Scan, ks: seq<nat>, windows: seq<Window>, window: Window)
    requires s.stride > 0 && OnlyLast(s, ks, windows) && WasLast(s, ks, window.cycle)
    ensures OnlyLast(s, ks, windows + [window])
  {
  }

  lemma {:induction false} StillEmitted(windows: seq<Window>, window: Window, n: nat)
    requires Emitted(windows, n)
    ensures Emitted(windows + [window], n)
  {
    var j :| 0 <= j < |windows| && windows[j].cycle == n;
    assert (windows + [window])[j] == windows[j];
  }

  lemma {:induction false} StillEveryLast(s: Scan, ks: seq<nat>, windows: seq<Window>, window: Window)
    requires s.stride > 0 && EveryLast(s, ks, windows)
    ensures EveryLast(s, ks, windows + [window])
  {
    forall i | 0 <= i < |ks| && ks[i] >= s.size
      ensures Emitted(windows + [window], LastScan(s, ks[i]))
    {
      StillEmitted(windows, window, LastScan(s, ks[i]));
    }
  }

  lemma {:induction false} MoreEveryLast(s: Scan, ks: seq<nat>, k: nat, windows: seq<Window>)
    requires s.stride > 0 && EveryLast(s, ks, windows) && (k >= s.size ==> Emitted(windows, LastScan(s, k)))
    ensures EveryLast(s, ks + [k], windows)
  {
  }

  lemma {:induction false} OneMoreLatest(s: Scan, ks: seq<nat>, k: nat, windows: seq<Window>, window: Window)
    requires s.stride > 0 && LatestOnce(s, ks, windows) && k >= s.size
    requires window == Window(LastScan(s, k), ScanStart(s, LastScan(s, k)), s.size)
    requires windows != [] ==> windows[|windows| - 1].cycle < window.cycle
    ensures LatestOnce(s, ks + [k], windows + [window])
  {
    var all := windows + [window];
    MoreInOrder(s, windows, window.cycle);
    StillOnlyLast(s, ks, k, windows);
    NowLast(s, ks, k);
    MoreOnlyLast(s, ks + [k], windows, window);
    StillEveryLast(s, ks, windows, window);
    assert all[|windows|] == window;
    MoreEveryLast(s, ks, k, all);
  }

  lemma {:induction false} NoMoreLatest(s: Scan, ks: seq<nat>, k: nat, windows: seq<Window>)
    requires s.stride > 0 && LatestOnce(s, ks, windows)
    requires k >= s.size ==> windows != [] && windows[|windows| - 1].cycle == LastScan(s, k)
    ensures LatestOnce(s, ks + [k], windows)
  {
    StillOnlyLast(s, ks, k, windows);
    MoreEveryLast(s, ks, k, windows);
  }

  /** What a call does with the cursor at the last window: a later complete window is emitted. */
  lemma {:induction false} CallAtLast(s: Scan, k0: nat, k: nat, n: nat, cursor: Cursor, next: Cursor,
                                      window: Option<Window>)
    requires s.stride > 0 && s.size <= k0 <= k && LastScan(s, k0) == n
    requires cursor == Cursor(Some(ScanStart(s, n)), Some(ScanStart(s, n + 1)))
    requires (next, window) == ScanStep(s, k, k0, cursor)
    ensures var m := LastScan(s, k);
            if m == n then (next, window) == (cursor, None)
            else n < m && next == Cursor(Some(ScanStart(s, m)), Some(ScanStart(s, m + 1)))
                 && window == Some(Window(m, ScanStart(s, m), s.size))
  {
    var m := LastScan(s, k);
    LastScanGrows(s, k0, k);
    StartsDiffer(s, n);
    if n < m {
      StartsGrow(s, n + 1, m);
    }
  }

  lemma {:induction false} LatestCall(s: Scan, ks: seq<nat>, k0: nat, k: nat, cursor: Cursor, windows: seq<Window>,
                                      next: Cursor, window: Option<Window>)
    requires s.stride > 0 && k0 <= k && LatestOnce(s, ks, windows) && AtLast(s, k0, cursor, windows)
    requires windows != []
    requires (next, window) == ScanStep(s, k, k0, cursor)
    ensures var all := Appended(windows, window);
            LatestOnce(s, ks + [k], all) && AtLast(s, k, next, all)
  {
    CallAtLast(s, k0, k, windows[|windows| - 1].cycle, cursor, next, window);
    if window.Some? {
      OneMoreLatest(s, ks, k, windows, window.value);
    } else {
      NoMoreLatest(s, ks, k, windows);
    }
  }

  /** A call with an empty cursor emits the last complete window, if there is one. */
  lemma {:induction false} EmptyLatest(s: Scan, ks: seq<nat>, k0: nat, k: nat, next: Cursor, window: Option<Window>)
    requires s.stride > 0 && LatestOnce(s, ks, []) && (next, window) == ScanStep(s, k, k0, Cursor(None, None))
    ensures var all := Appended([], window);
            LatestOnce(s, ks + [k], all) && AtLast(s, k, next, all)
  {
    if k >= s.size {
      OneMoreLatest(s, ks, k, [], window.value);
      StartsDiffer(s, LastScan(s, k));
    } else {
      NoMoreLatest(s, ks, k, []);
    }
  }

  lemma {:induction false} StartsDiffer(s: Scan, n: nat)
    requires s.stride > 0
    ensures ScanStart(s, n) < ScanStart(s, n + 1) == ScanStart(s, n) + s.stride
  {
  }

  lemma {:induction false} AppendWindow(earlier: seq<Window>, windows: seq<Window>, window: Option<Window>)
    ensures Appended(earlier + windows, window) == earlier + Appended(windows, window)
  {
  }

  /** From a call whose count fell on, a run emits what a run that begins there from an empty cursor emits. */
  lemma {:induction false} RestartedScan(s: Scan, ks: seq<nat>, before: nat, c: nat, n: nat)
    requires c < n <= |ks| && s.stride > 0 && (c == 0 || ks[c] < ks[c - 1])
    ensures var start := Previous(ks, c, before);
            var (cursor, windows) := ScanRun(s, ks[c..], start, n - c);
            ScanRun(s, ks, before, n) == (cursor, ScanRun(s, ks, before, c).1 + windows)
  {
    var i, rest, start := n - 1, ks[c..], Previous(ks, c, before);
    var earlier := ScanRun(s, ks, before, c).1;
    var (cursor, windows) := ScanRun(s, rest, start, i - c);
    var (next, window) := ScanStep(s, rest[i - c], Previous(rest, i - c, start), cursor);
    assert rest[i - c] == ks[i];
    if i == c {
      assert earlier + [] == earlier;
    } else {
      RestartedScan(s, ks, before, c, i);
      assert Previous(rest, i - c, start) == Previous(ks, i, before);
    }
    AppendWindow(earlier, windows, window);
  }

  /**
   * While the counts do not fall, whatever they grow by, a run emits exactly the windows that were the last complete
   * one at some call, each once and in order.
   */
  lemma {:induction false} ScanRunEmitsLatest(s: Scan, ks: seq<nat>, before: nat, n: nat)
    requires 0 < n <= |ks| && s.stride > 0 && forall i :: 0 < i < n ==> ks[i - 1] <= ks[i]
    ensures var (cursor, windows) := ScanRun(s, ks, before, n);
            LatestOnce(s, ks[..n], windows) && AtLast(s, ks[n - 1], cursor, windows)
  {
    var i, empty := n - 1, Cursor(None, None);
    var (cursor, windows) := ScanRun(s, ks, before, i);
    var (next, window) := ScanStep(s, ks[i], Previous(ks, i, before), cursor);
    assert ks[..n] == ks[..i] + [ks[i]];
    if i > 0 {
      ScanRunEmitsLatest(s, ks, before, i);
    }
    if windows == [] {
      EmptyLatest(s, ks[..i], Previous(ks, i, before), ks[i], next, window);
    } else {
      LatestCall(s, ks[..i], ks[i - 1], ks[i], cursor, windows, next, window);
    }
  }

  /** The last call before `n` whose count fell, or the first call. */
  function LastFall(ks: seq<nat>, n: nat): (c: nat)
    requires 0 < n <= |ks|
    ensures c < n && (c == 0 || ks[c] < ks[c - 1]) && forall i :: c < i < n ==> ks[i - 1] <= ks[i]
  {
    if n == 1 || ks[n - 1] < ks[n - 2] then n - 1 else LastFall(ks, n - 1)
  }

  /** The windows fall into pieces, one from each call whose count fell to the next, as from an empty cursor. */
  ghost predicate PiecesLatest(s: Scan, ks: seq<nat>, n: nat, windows: seq<Window>)
    requires n <= |ks| && s.stride > 0
    decreases n
  {
    if n == 0 then windows == []
    else
      var c := LastFall(ks, n);
      exists earlier: seq<Window>, piece: seq<Window> ::
        windows == earlier + piece && PiecesLatest(s, ks, c, earlier) && LatestOnce(s, ks[c..n], piece)
  }

  /** So over any run from an empty cursor, whatever its counts do. */
  lemma {:induction false} AnyScanEmitsLatest(s: Scan, ks: seq<nat>, before: nat, n: nat)
    requires n <= |ks| && s.stride > 0
    ensures PiecesLatest(s, ks, n, ScanRun(s, ks, before, n).1)
  {
    if n > 0 {
      var c := LastFall(ks, n);
      var rest, start := ks[c..], Previous(ks, c, before);
      AnyScanEmitsLatest(s, ks, before, c);
      RestartedScan(s, ks, before, c, n);
      LatestPiece(s, ks, start, c, n);
    }
  }

  lemma {:induction false} LatestPiece(s: Scan, ks: seq<nat>, start: nat, c: nat, n: nat)
    requires c < n <= |ks| && s.stride > 0 && forall i :: c < i < n ==> ks[i - 1] <= ks[i]
    ensures LatestOnce(s, ks[c..n], ScanRun(s, ks[c..], start, n - c).1)
  {
    var rest := ks[c..];
    forall i | 0 < i < n - c
      ensures rest[i - 1] <= rest[i]
    {
      assert rest[i] == ks[c + i] && rest[i - 1] == ks[c + i - 1];
    }
    ScanRunEmitsLatest(s, rest, start, n - c);
    assert rest[..n - c] == ks[c..n];
  }
}
