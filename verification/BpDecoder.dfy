/** The iterative decoder as a function of its channel values and options, and what its accepted words are. */
module BpDecoder {
  import opened Wrappers
  import opened CheckGraph
  import opened BpGraph
  import opened Ldpc
  import BpTry
  import ChannelEncoder
  import ChannelFrame
  import ChannelTones
  import CrcCheck
  import Words

  /** The iteration at which a run ends. */
  ghost function StopFrom<F>(p: Problem<F>, opts: BpOpts, t: nat): (stop: nat)
    requires Valid(p) && t <= opts.maxIter && forall s: nat :: s < t ==> !Stops(p, opts, s)
    ensures Stops(p, opts, stop) && forall s: nat :: s < stop ==> !Stops(p, opts, s)
    decreases opts.maxIter - t
  {
    if Stops(p, opts, t) then t else StopFrom(p, opts, t + 1)
  }

  /** The first of the iterates up to `t` that violate fewest checks. */
  ghost function BestUpTo<F>(p: Problem<F>, t: nat): (best: nat)
    requires Valid(p)
    ensures FirstBest(p, best, t)
  {
    if t == 0 then 0
    else
      var b := BestUpTo(p, t - 1);
      if W(p, t) < W(p, b) then t else b
  }

  /** The report of a run. */
  ghost function ReportOf<F>(p: Problem<F>, llr: seq<F>, opts: BpOpts): (res: BpRes)
    requires Valid(p) && |llr| == |p.ch|
    ensures Reported(p, llr, opts, res, BestUpTo(p, res.iter))
  {
    var t := StopFrom(p, opts, 0);
    var best := BestUpTo(p, t);
    BpRes(if W(p, t) == 0 then Contradicted(p.ops, Hard(p, t), llr, |llr|) else -1, t, W(p, t), W(p, best),
          W(p, t) != 0 && Aborts(p, opts, t), Hard(p, best), true)
  }

  /** A code with its owners, and the arithmetic for each scale of the channel values. */
  datatype Setup<!F> = Setup(code: Code, owner: map<Slot, Edge>, opsOf: F -> Ops<F>)

  ghost function ProblemOf<F>(setup: Setup<F>, llr: seq<F>, scale: F): (p: Problem<F>)
    requires ValidCode(setup.code, setup.owner) && |llr| == |setup.code.mn|
    ensures Valid(p) && |p.ch| == |llr|
  {
    Problem(setup.opsOf(scale), setup.code, setup.owner, Channel(setup.opsOf(scale), llr))
  }

  /** What a run yields: its report, the returned word, and the decoded bits if the word satisfies every check. */
  ghost function OutcomeOf<F>(setup: Setup<F>, llr: seq<F>, opts: BpTry.Opts<F>): (o: BpTry.Outcome)
    requires ValidCode(setup.code, setup.owner) && |llr| == |setup.code.mn|
    ensures o.dec.Some? <==> o.res.hardErr >= 0
  {
    var p := ProblemOf(setup, llr, opts.llrScale);
    var res := ReportOf(p, llr, opts.bp);
    var cw := Hard(p, res.iter);
    BpTry.Outcome(res, cw, if res.hardErr >= 0 then Some(cw[|p.code.nm|..]) else None)
  }

  /** The decoder as a function; values of another length than the code's, which the types exclude, fail. */
  ghost function DecoderOf<F(!new)>(setup: Setup<F>): (decode: (seq<F>, BpTry.Opts<F>) -> BpTry.Outcome)
    requires ValidCode(setup.code, setup.owner)
    ensures BpTry.IsDecoder(decode)
  {
    (llr: seq<F>, opts: BpTry.Opts<F>) =>
      if |llr| == |setup.code.mn| then OutcomeOf(setup, llr, opts)
      else BpTry.Outcome(BpRes(-1, 0, 0, 0, false, [], false), [], None)
  }

  /** Every run of `BpDecode` yields what this function says, and leaves the decoded bits alone when it fails. */
  lemma {:induction false} DecoderIsFunction<F>(setup: Setup<F>, llr: seq<F>, opts: BpTry.Opts<F>, res: BpRes,
                                                best: nat, cw: seq<bool>, before: seq<bool>, after: seq<bool>)
    requires ValidCode(setup.code, setup.owner) && |llr| == |setup.code.mn|
    requires var p := ProblemOf(setup, llr, opts.llrScale);
             Reported(p, llr, opts.bp, res, best) && cw == Hard(p, res.iter) && DecodedIs(p, res, before, after)
    ensures var o := OutcomeOf(setup, llr, opts);
            o.res == res && o.cw == cw && after == if o.dec.Some? then o.dec.value else before
  {
    var p := ProblemOf(setup, llr, opts.llrScale);
    var mine := ReportOf(p, llr, opts.bp);
    ReportIsUnique(p, llr, opts.bp, mine, BestUpTo(p, mine.iter), res, best);
  }

  /**
   * When the unit messages satisfy the checks and the checks determine the parity, a run succeeds exactly
   * if the returned word is the encoding of its decoded bits.
   */
  lemma {:induction false} DecodedIsEncoded<F>(p: Problem<F>, llr: seq<F>, opts: BpOpts, res: BpRes, best: nat,
                                               matrix: seq<seq<bool>>)
    requires Valid(p) && |llr| == |p.ch| == 174 && Reported(p, llr, opts, res, best) && NodesFit(p.code.nm, 174)
    requires ChannelTones.IsMatrix(matrix) && ChannelTones.ParityIsDetermined(p.code.nm)
    requires forall j :: 0 <= j < 87 ==>
      Satisfies(ChannelTones.FullWord(matrix, ChannelTones.Unit(87, j)), p.code.nm)
    ensures var cw := Hard(p, res.iter);
            res.hardErr >= 0 <==> cw == ChannelTones.FullWord(matrix, cw[87..])
  {
    HardErrMeansSatisfied(p, llr, opts, res, best);
    ChannelTones.SatisfyingIsEncoded(matrix, p.code.nm, Hard(p, res.iter));
  }

  /**
   * Then the tones that are encoded again from the decoded bits, when their checksum is right, spell the returned
   * word, parity and all.
   */
  lemma {:induction false} DecodedEncodesBack<F>(p: Problem<F>, llr: seq<F>, opts: BpOpts, res: BpRes, best: nat,
                                                 matrix: seq<seq<bool>>, cw: seq<bool>, word: seq<bool>,
                                                 costas: seq<seq<nat>>, message: string, typ: nat)
    requires Valid(p) && |llr| == |p.ch| == 174 && Reported(p, llr, opts, res, best) && NodesFit(p.code.nm, 174)
    requires ChannelTones.IsMatrix(matrix) && ChannelTones.ParityIsDetermined(p.code.nm)
    requires forall j :: 0 <= j < 87 ==>
      Satisfies(ChannelTones.FullWord(matrix, ChannelTones.Unit(87, j)), p.code.nm)
    requires res.hardErr >= 0 && cw == Hard(p, res.iter) && word == cw[87..] && CrcCheck.Accepted(word)
    requires ChannelFrame.IsCostas(costas) && forall k, j :: 0 <= k < 3 && 0 <= j < 7 ==> costas[k][j] < 8
    requires message == ChannelFrame.FieldText(CrcCheck.Received(ChannelFrame.AsInts(word)), 12)
    requires typ == Words.ToNat(word[72..75])
    ensures ChannelFrame.Refusal(message).None?
    ensures var again := ChannelEncoder.Codeword(message, typ);
            var tones := ChannelFrame.Layout(costas, ChannelTones.ParityBits(matrix, again), again);
            ChannelFrame.ToneBits(tones, 7, 29) + ChannelFrame.ToneBits(tones, 43, 29) == cw
  {
    DecodedIsEncoded(p, llr, opts, res, best, matrix);
    ChannelFrame.AcceptedEncodesBack(word, message, typ, costas, matrix);
  }

  /** The code of 174 bits whose unit messages satisfy the checks, and whose checks determine the parity. */
  ghost predicate IsCode174<F>(setup: Setup<F>, matrix: seq<seq<bool>>) {
    && ValidCode(setup.code, setup.owner) && |setup.code.mn| == 174 && |setup.code.nm| == 87
    && NodesFit(setup.code.nm, 174)
    && ChannelTones.IsMatrix(matrix) && ChannelTones.ParityIsDetermined(setup.code.nm)
    && forall j :: 0 <= j < 87 ==>
         Satisfies(ChannelTones.FullWord(matrix, ChannelTones.Unit(87, j)), setup.code.nm)
  }

  /** The attempts test the checksum of the decoded bits. */
  ghost predicate TestsChecksum<F(!new)>(tests: BpTry.Tests<F>) {
    forall word: seq<bool> :: |word| == 87 ==> (tests.crc(word) <==> CrcCheck.Accepted(word))
  }

  /** The tones that are encoded again from the text and type of a word's 87 bits spell `cw`, parity and all. */
  ghost predicate EncodesBack(matrix: seq<seq<bool>>, costas: seq<seq<nat>>, word: seq<bool>, cw: seq<bool>)
    requires |word| == 87 && ChannelTones.IsMatrix(matrix) && ChannelFrame.IsCostas(costas)
  {
    var message := ChannelFrame.FieldText(CrcCheck.Received(ChannelFrame.AsInts(word)), 12);
    ChannelFrame.Refusal(message).None? &&
    var again := ChannelEncoder.Codeword(message, Words.ToNat(word[72..75]));
    var tones := ChannelFrame.Layout(costas, ChannelTones.ParityBits(matrix, again), again);
    ChannelFrame.ToneBits(tones, 7, 29) + ChannelFrame.ToneBits(tones, 43, 29) == cw
  }

  lemma {:induction false} AttemptDecodes<F(!new)>(setup: Setup<F>, s: BpTry.State<F>, call: BpTry.Call<F>,
                                                   matrix: seq<seq<bool>>)
    requires IsCode174(setup, matrix) && |call.llr| == 174
    ensures var end := BpTry.PlainState(DecoderOf(setup), s, call);
      && |end.cw| == 174
      && (end.hard >= 0 <==> end.cw == ChannelTones.FullWord(matrix, end.cw[87..]))
      && (end.hard >= 0 ==> end.dec == end.cw[87..])
  {
    var p := ProblemOf(setup, call.llr, call.opts.llrScale);
    var res := ReportOf(p, call.llr, call.opts.bp);
    DecodedIsEncoded(p, call.llr, call.opts.bp, res, BestUpTo(p, res.iter), matrix);
  }

  /**
   * In any sequence of attempts, an attempt answers true exactly if its word is the encoding of its last 87 bits,
   * their checksum is right, a bit is set, and the contradicted signs are within the limits.
   */
  lemma {:induction false} AttemptAnswers<F(!new)>(setup: Setup<F>, tests: BpTry.Tests<F>, s: BpTry.State<F>,
                                                   calls: seq<BpTry.Call<F>>, results: seq<bool>, i: nat,
                                                   matrix: seq<seq<bool>>)
    requires IsCode174(setup, matrix) && TestsChecksum(tests)
    requires BpTry.Answered(tests, DecoderOf(setup), s, calls, results)
    requires i < |results| && |calls[i].llr| == 174
    ensures var end := BpTry.PlainRun(DecoderOf(setup), s, calls[..i + 1]);
      && |end.cw| == 174
      && (results[i] <==>
            && end.cw == ChannelTones.FullWord(matrix, end.cw[87..]) && CrcCheck.Accepted(end.cw[87..])
            && true in end.cw
            && end.hard <= if calls[i].pass == 4 then 30 else if tests.belowTwo(calls[i].sync) then 35
                           else if calls[i].pass > 2 then 39 else 59)
  {
    var decode := DecoderOf(setup);
    BpTry.RunStep(decode, s, calls, i);
    AttemptDecodes(setup, BpTry.PlainRun(decode, s, calls[..i]), calls[i], matrix);
  }

  /** The bits of an attempt that answers true are the accepted ones, and the tones encoded again spell its word. */
  lemma {:induction false} AcceptedIsEncoded<F(!new)>(setup: Setup<F>, tests: BpTry.Tests<F>, s: BpTry.State<F>,
                                                      calls: seq<BpTry.Call<F>>, results: seq<bool>, i: nat,
                                                      matrix: seq<seq<bool>>, costas: seq<seq<nat>>)
    requires IsCode174(setup, matrix) && TestsChecksum(tests)
    requires BpTry.Answered(tests, DecoderOf(setup), s, calls, results)
    requires i < |results| && results[i] && |calls[i].llr| == 174
    requires ChannelFrame.IsCostas(costas) && forall k, j :: 0 <= k < 3 && 0 <= j < 7 ==> costas[k][j] < 8
    ensures var end := BpTry.PlainRun(DecoderOf(setup), s, calls[..i + 1]);
      |end.dec| == 87 && CrcCheck.Accepted(end.dec) && EncodesBack(matrix, costas, end.dec, end.cw)
  {
    var call, decode := calls[i], DecoderOf(setup);
    BpTry.RunStep(decode, s, calls, i);
    var end := BpTry.PlainRun(decode, s, calls[..i + 1]);
    var p := ProblemOf(setup, call.llr, call.opts.llrScale);
    var res := ReportOf(p, call.llr, call.opts.bp);
    AttemptDecodes(setup, BpTry.PlainRun(decode, s, calls[..i]), call, matrix);
    var message := ChannelFrame.FieldText(CrcCheck.Received(ChannelFrame.AsInts(end.dec)), 12);
    DecodedEncodesBack(p, call.llr, call.opts.bp, res, BestUpTo(p, res.iter), matrix, end.cw, end.dec, costas, message,
                       Words.ToNat(end.dec[72..75]));
  }
}
