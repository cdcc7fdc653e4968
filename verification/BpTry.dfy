/** The decoding attempts of one candidate, with a cache of results that must not show. */
module BpTry {
  import opened Wrappers
  import opened Gf2
  import Ldpc

  type BpRes = Ldpc.BpRes
  type BpOpts = Ldpc.BpOpts

  /** The options of a decoder run; the scale is applied to the channel values before anything else. */
  datatype Opts<F(==)> = Opts(bp: BpOpts, llrScale: F)

  /**
   * What an attempt tests: its floating-point values, where equality of values is equality of their bits,
   * and the checksum of the decoded bits. The cache is invisible whatever these tests are.
   */
  datatype Tests<!F(==)> = Tests(one: F, zero: F, finite: F -> bool, belowTwo: F -> bool, crc: seq<bool> -> bool)

  /** The outcome of a decoder run: the report, the final word, and the decoded bits if it succeeded. */
  datatype Outcome = Outcome(res: BpRes, cw: seq<bool>, dec: Option<seq<bool>>)

  /** A decoder is any function of the channel values and options that yields decoded bits exactly on success. */
  ghost predicate IsDecoder<F(!new)>(decode: (seq<F>, Opts<F>) -> Outcome) {
    forall llr: seq<F>, opts: Opts<F> :: decode(llr, opts).dec.Some? <==> decode(llr, opts).res.hardErr >= 0
  }

  datatype Snap<F> = Snap(llr: seq<F>, res: BpRes, cw: seq<bool>, dec: seq<bool>)

  datatype Call<F(==)> = Call(llr: seq<F>, pass: nat, sync: F, opts: Opts<F>, remember: bool)

  /** Everything of an attempt except its cache. */
  datatype State<F> = State(dec: seq<bool>, cw: seq<bool>, nearLlr: seq<F>, nearCw: seq<bool>,
                            checks: nat, pass: nat, hard: int)

  // ---- the reference: every call runs the decoder

  function Remembered<F>(s: State<F>, call: Call<F>, res: BpRes): State<F> {
    if call.remember && res.bestChecks < s.checks && res.bestCwValid then
      s.(checks := res.bestChecks, pass := call.pass, nearLlr := call.llr, nearCw := res.bestCw)
    else s
  }

  /** The state after a call whose decoder outcome is `o`. */
  function After<F>(s: State<F>, call: Call<F>, o: Outcome): State<F> {
    var decoded := s.(cw := o.cw, dec := if o.dec.Some? then o.dec.value else s.dec);
    Remembered(decoded, call, o.res).(hard := o.res.hardErr)
  }

  /** Whether a state is accepted as a decode. */
  predicate Plausible<F>(tests: Tests<F>, s: State<F>, call: Call<F>) {
    && (exists i :: 0 <= i < |s.cw| && s.cw[i])
    && 0 <= s.hard < 60
    && !(tests.belowTwo(call.sync) && s.hard > 35)
    && !(call.pass > 2 && s.hard > 39)
    && !(call.pass == 4 && s.hard > 30)
    && tests.crc(s.dec)
  }

  function PlainState<F>(decode: (seq<F>, Opts<F>) -> Outcome, s: State<F>, call: Call<F>): State<F> {
    After(s, call, decode(call.llr, call.opts))
  }

  /** The states after each of a sequence of calls. */
  function PlainRun<F>(decode: (seq<F>, Opts<F>) -> Outcome, s: State<F>, calls: seq<Call<F>>): State<F> {
    if calls == [] then s else PlainState(decode, PlainRun(decode, s, calls[..|calls| - 1]), calls[|calls| - 1])
  }

  function Initial<F>(tests: Tests<F>, n: nat, k: nat): State<F> {
    State(Zeros(k), Zeros(n), seq(n, _ => tests.zero), Zeros(n), k + 1, 0, -1)
  }

  // ---- the attempt with its cache

  predicate Cacheable<F(==)>(tests: Tests<F>, opts: Opts<F>) {
    opts.bp == Ldpc.BpOpts(30, true) && opts.llrScale == tests.one
  }

  /** A snapshot is what the decoder yields for its channel values under every cacheable option set. */
  ghost predicate Truthful<F(!new)>(tests: Tests<F>, decode: (seq<F>, Opts<F>) -> Outcome, snap: Snap<F>) {
    var o := decode(snap.llr, Opts(Ldpc.BpOpts(30, true), tests.one));
    snap.res == o.res && snap.cw == o.cw && (o.dec.Some? ==> snap.dec == o.dec.value)
  }

  /** The first snapshot of the same channel values. */
  function Found<F(==)>(cache: seq<Option<Snap<F>>>, llr: seq<F>): Option<Snap<F>> {
    if cache == [] then None
    else if cache[0].Some? && cache[0].value.llr == llr then cache[0]
    else Found(cache[1..], llr)
  }

  /** The cache with a snapshot in its first free place, if there is one. */
  function Stored<F>(cache: seq<Option<Snap<F>>>, snap: Snap<F>): (stored: seq<Option<Snap<F>>>)
    ensures |stored| == |cache|
  {
    if cache == [] then []
    else if cache[0].None? then [Some(snap)] + cache[1..]
    else [cache[0]] + Stored(cache[1..], snap)
  }

  /** The cache after a call: a first-pass result of finite values is kept once, under the common options only. */
  ghost function CacheAfter<F>(tests: Tests<F>, cache: seq<Option<Snap<F>>>, call: Call<F>, o: Outcome, dec: seq<bool>)
    : seq<Option<Snap<F>>>
  {
    if Cacheable(tests, call.opts) && Found(cache, call.llr).None? && call.pass == 1 && call.remember
       && forall i :: 0 <= i < |call.llr| ==> tests.finite(call.llr[i])
    then Stored(cache, Snap(call.llr, o.res, o.cw, dec)) else cache
  }

  lemma {:induction false} StoredServes<F>(cache: seq<Option<Snap<F>>>, snap: Snap<F>, llr: seq<F>)
    requires Found(cache, snap.llr).None?
    ensures Found(Stored(cache, snap), llr) ==
            if llr == snap.llr && None in cache then Some(snap) else Found(cache, llr)
  {
    if cache != [] {
      var stored := Stored(cache, snap);
      if cache[0].Some? {
        StoredServes(cache[1..], snap, llr);
        assert stored[1..] == Stored(cache[1..], snap);
      } else {
        assert stored[1..] == cache[1..];
      }
    }
  }

  /** What the cache serves after a call: also its outcome, if it was a remembered first pass and a place was free. */
  lemma {:induction false} CacheServes<F>(tests: Tests<F>, cache: seq<Option<Snap<F>>>, call: Call<F>, o: Outcome,
                                          dec: seq<bool>, llr: seq<F>)
    requires Found(cache, call.llr).None?
    ensures Found(CacheAfter(tests, cache, call, o, dec), llr) ==
              if llr == call.llr && call.pass == 1 && call.remember && None in cache
                 && call.opts.bp.maxIter == 30 && call.opts.bp.earlyAbort && call.opts.llrScale == tests.one
                 && (forall i :: 0 <= i < |llr| ==> tests.finite(llr[i]))
              then Some(Snap(llr, o.res, o.cw, dec)) else Found(cache, llr)
  {
    StoredServes(cache, Snap(call.llr, o.res, o.cw, dec), llr);
  }

  lemma {:induction false} RunStep<F>(decode: (seq<F>, Opts<F>) -> Outcome, s: State<F>, calls: seq<Call<F>>, i: nat)
    requires i < |calls|
    ensures PlainRun(decode, s, calls[..i + 1]) == PlainState(decode, PlainRun(decode, s, calls[..i]), calls[i])
  {
    assert calls[..i + 1][..i] == calls[..i];
  }

  /** The fewest violated checks of a call's decoder run, when the call may replace the nearest word. */
  function Offer<F>(decode: (seq<F>, Opts<F>) -> Outcome, call: Call<F>): Option<nat> {
    var res := decode(call.llr, call.opts).res;
    if call.remember && res.bestCwValid then Some(res.bestChecks) else None
  }

  /** Call `j` made the first of the best offers, and its channel values and word are the ones kept. */
  ghost predicate IsNearest<F>(decode: (seq<F>, Opts<F>) -> Outcome, s: State<F>, calls: seq<Call<F>>, j: nat) {
    && j < |calls| && Offer(decode, calls[j]) == Some(s.checks)
    && (forall i :: 0 <= i < j && Offer(decode, calls[i]).Some? ==> s.checks < Offer(decode, calls[i]).value)
    && s.pass == calls[j].pass && s.nearLlr == calls[j].llr
    && s.nearCw == decode(calls[j].llr, calls[j].opts).res.bestCw
  }

  /** After any calls the nearest word is that of the first best offer, or what it was if none was better. */
  lemma {:induction false} NearestIsFirstBest<F>(decode: (seq<F>, Opts<F>) -> Outcome, s: State<F>,
                                                 calls: seq<Call<F>>)
    ensures var end := PlainRun(decode, s, calls);
      && end.checks <= s.checks
      && (forall i :: 0 <= i < |calls| && Offer(decode, calls[i]).Some? ==>
            end.checks <= Offer(decode, calls[i]).value)
      && (if end.checks == s.checks
          then end.pass == s.pass && end.nearLlr == s.nearLlr && end.nearCw == s.nearCw
          else exists j :: IsNearest(decode, end, calls, j))
  {
    if calls != [] {
      var n := |calls| - 1;
      NearestIsFirstBest(decode, s, calls[..n]);
      var before, end := PlainRun(decode, s, calls[..n]), PlainRun(decode, s, calls);
      assert forall i :: 0 <= i < n ==> calls[..n][i] == calls[i];
      if end.checks < before.checks {
        assert IsNearest(decode, end, calls, n);
      } else if end.checks < s.checks {
        var j :| IsNearest(decode, before, calls[..n], j);
        assert IsNearest(decode, end, calls, j);
      }
    }
  }

  /** The answers of a sequence of attempts without a cache. */
  ghost predicate Answered<F(!new)>(tests: Tests<F>, decode: (seq<F>, Opts<F>) -> Outcome, s: State<F>,
                                    calls: seq<Call<F>>, results: seq<bool>)
  {
    |results| <= |calls| &&
    forall i :: 0 <= i < |results| ==> results[i] == Plausible(tests, PlainRun(decode, s, calls[..i + 1]), calls[i])
  }

  lemma {:induction false} AnswerStep<F(!new)>(tests: Tests<F>, decode: (seq<F>, Opts<F>) -> Outcome, s: State<F>,
                                               calls: seq<Call<F>>, results: seq<bool>, ok: bool)
    requires Answered(tests, decode, s, calls, results) && |results| < |calls|
    requires ok == Plausible(tests, PlainRun(decode, s, calls[..|results| + 1]), calls[|results|])
    ensures Answered(tests, decode, s, calls, results + [ok])
  {
  }

  class BpTry<F(==, !new)> {
    var dec: seq<bool>
    var cw: seq<bool>
    var nearLlr: seq<F>
    var nearCw: seq<bool>
    var checks: nat
    var pass: nat
    var hard: int
    var cache: seq<Option<Snap<F>>>
    const tests: Tests<F>
    const decode: (seq<F>, Opts<F>) -> Outcome

    ghost predicate Valid()
      reads this
    {
      && IsDecoder(decode) && |cache| == 2
      && forall i :: 0 <= i < 2 && cache[i].Some? ==> Truthful(tests, decode, cache[i].value)
    }

    ghost function Shown(): State<F>
      reads this
    {
      State(dec, cw, nearLlr, nearCw, checks, pass, hard)
    }

    constructor (tests: Tests<F>, decode: (seq<F>, Opts<F>) -> Outcome, n: nat, k: nat)
      requires IsDecoder(decode)
      ensures Valid() && Shown() == Initial(tests, n, k) && this.tests == tests && this.decode == decode
    {
      this.tests := tests;
      this.decode := decode;
      dec, cw, nearLlr, nearCw := Zeros(k), Zeros(n), seq(n, _ => tests.zero), Zeros(n);
      checks, pass, hard := k + 1, 0, -1;
      cache := [None, None];
    }

    method FindSnap(llr: seq<F>) returns (r: Option<Snap<F>>)
      requires Valid()
      ensures r == Found(cache, llr)
      ensures r.Some? ==> r.value.llr == llr && Truthful(tests, decode, r.value)
    {
      for i := 0 to 2
        invariant Found(cache, llr) == Found(cache[i..], llr)
      {
        if cache[i].Some? && cache[i].value.llr == llr {
          return cache[i];
        }
      }
      r := None;
    }

    method Store(snap: Snap<F>)
      requires Valid() && Truthful(tests, decode, snap)
      modifies this`cache
      ensures Valid() && cache == Stored(old(cache), snap)
    {
      for i := 0 to 2
        invariant Valid() && cache == old(cache)
        invariant Stored(cache, snap) == cache[..i] + Stored(cache[i..], snap)
      {
        if cache[i].None? {
          cache := cache[i := Some(snap)];
          return;
        }
      }
    }

    /** The decoder's result for a call, taken from the cache when it is there. */
    method Decode(call: Call<F>) returns (bp: BpRes)
      requires Valid()
      modifies this`cw, this`dec, this`cache
      ensures Valid() && bp == decode(call.llr, call.opts).res && cw == decode(call.llr, call.opts).cw
      ensures dec == var o := decode(call.llr, call.opts); if o.dec.Some? then o.dec.value else old(dec)
      ensures cache == CacheAfter(tests, old(cache), call, decode(call.llr, call.opts), dec)
    {
      var cacheable := Cacheable(tests, call.opts);
      var cached := None;
      if cacheable {
        cached := FindSnap(call.llr);
      }
      if cached.Some? {
        var snap := cached.value;
        cw := snap.cw;
        if snap.res.hardErr >= 0 {
          dec := snap.dec;
        }
        bp := snap.res;
      } else {
        var o := decode(call.llr, call.opts);
        if o.dec.Some? {
          dec := o.dec.value;
        }
        cw, bp := o.cw, o.res;
        if cacheable && call.pass == 1 && call.remember
           && forall i :: 0 <= i < |call.llr| ==> tests.finite(call.llr[i]) {
          Store(Snap(call.llr, bp, cw, dec));
        }
      }
    }

    /** One attempt: nothing it shows or returns depends on the cache. */
    method Run(call: Call<F>) returns (ok: bool)
      requires Valid()
      modifies this
      ensures Valid()
      ensures Shown() == PlainState(decode, old(Shown()), call)
      ensures ok <==> (exists i :: 0 <= i < |cw| && cw[i]) && tests.crc(dec)
                      && 0 <= hard <= (if call.pass == 4 then 30 else if tests.belowTwo(call.sync) then 35
                                       else if call.pass > 2 then 39 else 59)
      ensures cache == CacheAfter(tests, old(cache), call, decode(call.llr, call.opts), dec)
    {
      var bp := Decode(call);
      if call.remember && bp.bestChecks < checks && bp.bestCwValid {
        checks, pass := bp.bestChecks, call.pass;
        nearLlr, nearCw := call.llr, bp.bestCw;
      }
      hard := bp.hardErr;
      ok := (exists i :: 0 <= i < |cw| && cw[i]) && 0 <= hard < 60
            && !(tests.belowTwo(call.sync) && hard > 35) && !(call.pass > 2 && hard > 39)
            && !(call.pass == 4 && hard > 30) && tests.crc(dec);
    }

    /** Any sequence of attempts ends in the state, and returns the answers, of attempts without a cache. */
    method RunAll(calls: seq<Call<F>>) returns (results: seq<bool>)
      requires Valid()
      modifies this
      ensures Valid() && Shown() == PlainRun(decode, old(Shown()), calls)
      ensures |results| == |calls| && Answered(tests, decode, old(Shown()), calls, results)
    {
      results := [];
      ghost var start := Shown();
      for i := 0 to |calls|
        invariant Valid() && Shown() == PlainRun(decode, start, calls[..i])
        invariant |results| == i && Answered(tests, decode, start, calls, results)
      {
        var ok := Run(calls[i]);
        RunStep(decode, start, calls, i);
        assert ok == Plausible(tests, Shown(), calls[i]);
        AnswerStep(tests, decode, start, calls, results, ok);
        results := results + [ok];
      }
      assert calls[..|calls|] == calls;
    }
  }
}
