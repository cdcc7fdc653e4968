/** What the first frame of a built message is, and that every frame can be sent. */
module FirstFrame {
  import opened Wrappers
  import opened Framing
  import opened Frame72
  import opened Air
  import JscCompress
  import FastData
  import JscCode
  import FrameParse
  import DirectedFrame
  import Words

  /** A frame that all frames of a run keep in front. */
  lemma {:induction false} RunKeepsFrames(env: Env, forceIdentify: bool, w: Work)
    requires WellBehaved(env)
    ensures w.frames <= Run(env, forceIdentify, w)
    decreases Measure(w), |w.line|
  {
    if w.line != "" {
      var next := Step(env, forceIdentify, w);
      if next.Some? {
        StepKeepsFrames(env, forceIdentify, w, next.value);
        RunKeepsFrames(env, forceIdentify, next.value);
      }
    }
  }

  lemma {:induction false} StepKeepsFrames(env: Env, forceIdentify: bool, w: Work, next: Work)
    requires WellBehaved(env) && Step(env, forceIdentify, w) == Some(next)
    ensures w.frames <= next.frames
  {
  }

  /** The line's header packers find only a directed header, or none. */
  predicate AsksDirected(env: Env, line: string) {
    env.heartbeat(line).1 == 0 && env.compound(line).1 == 0
  }

  /** A plain directed header is the first frame. */
  lemma {:induction false} HeaderIsFirst(env: Env, forceIdentify: bool, line: string, d: Directed)
    requires WellBehaved(env) && line != "" && AsksDirected(env, line) && env.directed(line) == d
    requires d.n > 0 && !env.isCompound && !d.compound
    ensures [Frame(d.frame, NONE)] <= Run(env, forceIdentify, Work(line, false, []))
  {
    var w := Work(line, false, []);
    var next := Work(Payload(env, d, line[d.n..]), true, [Frame(d.frame, NONE)]);
    assert DirectedFrames(env, [], d) == next.frames;
    assert HeaderStep(env, w) == Some(next);
    RunStep(env, forceIdentify, w, next);
    RunKeepsFrames(env, forceIdentify, next);
  }

  predicate AllData(frames: seq<Frame>) {
    forall i :: 0 <= i < |frames| ==> frames[i].flags.data
  }

  lemma {:induction false} DataRun(env: Env, forceIdentify: bool, w: Work)
    requires WellBehaved(env) && w.dataOnly && AllData(w.frames)
    ensures AllData(Run(env, forceIdentify, w))
    decreases |w.line|
  {
    if w.line != "" {
      var next := Step(env, forceIdentify, w);
      if next.Some? {
        DataRun(env, forceIdentify, next.value);
      }
    }
  }

  /** Without a header everything goes out as data. */
  lemma {:induction false} NoHeaderIsData(env: Env, forceIdentify: bool, line: string)
    requires WellBehaved(env) && AsksDirected(env, line) && env.directed(line).n == 0
    ensures AllData(Run(env, forceIdentify, Work(line, false, [])))
  {
    var w := Work(line, false, []);
    if line != "" {
      assert HeaderStep(env, w).None?;
      var next := DataStep(env, forceIdentify, w);
      if next.Some? {
        RunStep(env, forceIdentify, w, next.value);
        DataRun(env, forceIdentify, next.value);
      }
    }
  }

  // ---- every frame can be sent

  /** Every text passes a test. */
  predicate AllPass(frames: seq<Frame>, test: string -> bool) {
    forall i :: 0 <= i < |frames| ==> test(frames[i].text)
  }

  ghost predicate DataPasses(env: Env, test: string -> bool) {
    forall line: string {:trigger env.data(line)} :: test(env.data(line).0)
  }

  lemma {:induction false} DataStepPasses(env: Env, test: string -> bool, forceIdentify: bool, w: Work, next: Work)
    requires WellBehaved(env) && DataPasses(env, test) && AllPass(w.frames, test)
    requires DataStep(env, forceIdentify, w) == Some(next)
    ensures AllPass(next.frames, test)
  {
  }

  lemma {:induction false} DataRunPasses(env: Env, test: string -> bool, forceIdentify: bool, w: Work)
    requires WellBehaved(env) && DataPasses(env, test) && w.dataOnly && AllPass(w.frames, test)
    ensures AllPass(Run(env, forceIdentify, w), test)
    decreases |w.line|
  {
    if w.line != "" {
      var next := DataStep(env, forceIdentify, w);
      if next.Some? {
        DataStepPasses(env, test, forceIdentify, w, next.value);
        DataRunPasses(env, test, forceIdentify, next.value);
      }
    }
  }

  /** The frames of a line that begins with a plain directed header, or with none, pass if header and data do. */
  lemma {:induction false} RunPasses(env: Env, test: string -> bool, forceIdentify: bool, line: string, d: Directed)
    requires WellBehaved(env) && DataPasses(env, test) && AsksDirected(env, line) && env.directed(line) == d
    requires d.n > 0 ==> !env.isCompound && !d.compound && test(d.frame)
    ensures AllPass(Run(env, forceIdentify, Work(line, false, [])), test)
  {
    var w := Work(line, false, []);
    if line != "" {
      if d.n > 0 {
        var next := Work(Payload(env, d, line[d.n..]), true, [Frame(d.frame, NONE)]);
        assert DirectedFrames(env, [], d) == next.frames;
        assert HeaderStep(env, w) == Some(next);
        RunStep(env, forceIdentify, w, next);
        DataRunPasses(env, test, forceIdentify, next);
      } else {
        assert HeaderStep(env, w).None?;
        var next := DataStep(env, forceIdentify, w);
        if next.Some? {
          RunStep(env, forceIdentify, w, next.value);
          DataStepPasses(env, test, forceIdentify, w, next.value);
          DataRunPasses(env, test, forceIdentify, next.value);
        }
      }
    }
  }

  /** Marking the first and the last frame changes neither texts nor data flags. */
  lemma {:induction false} MarkedKeeps(frames: seq<Frame>, test: string -> bool)
    ensures AllPass(frames, test) ==> AllPass(Marked(frames), test)
    ensures AllData(frames) ==> AllData(Marked(frames))
    ensures frames != [] ==>
      Marked(frames)[0].text == frames[0].text && Marked(frames)[0].flags.data == frames[0].flags.data
  {
  }

  lemma {:induction false} BuiltPasses(env: Env, test: string -> bool, text: string, forceIdentify: bool, line: string,
                                       d: Directed)
    requires WellBehaved(env) && DataPasses(env, test) && AsksDirected(env, line) && env.directed(line) == d
    requires d.n > 0 ==> !env.isCompound && !d.compound && test(d.frame)
    requires line == InitialLine(env, false, text)
    ensures AllPass(Build(env, text, forceIdentify, false), test)
  {
    RunPasses(env, test, forceIdentify, line, d);
    MarkedKeeps(Run(env, forceIdentify, Work(line, false, [])), test);
  }

  // ---- header and data frames can be sent

  lemma {:induction false} DataIsEncodable(d: JscCompress.Dictionary, line: string)
    ensures Encodable(FastData.Packed(d, line).0)
  {
    FastData.CodewordsFit(d, line);
    var message := JscCode.Message(JscCompress.Encode(d, line, 0).tokens);
    DigitsAreEncodable(Sextets(Words.ToNat(Padded(message)), 12));
  }

  lemma {:induction false} HeaderIsEncodable(f: DirectedFrame.Fields)
    ensures Encodable(FrameParse.HeaderText(f))
  {
    var v := DirectedFrame.PackValue(DirectedFrame.WIDTHS, f) * 256 + DirectedFrame.PackExtra(f);
    DigitsAreEncodable(Sextets(v, 12));
  }

  /** The data packer is that of a dictionary. */
  ghost predicate PacksWith(env: Env, d: JscCompress.Dictionary) {
    forall line: string {:trigger env.data(line)} :: env.data(line) == FastData.Packed(d, line)
  }

  /** The test of the channel encoder. */
  ghost predicate IsEncodableTest(test: string -> bool) {
    forall text: string {:trigger test(text)} :: test(text) == Encodable(text)
  }

  lemma {:induction false} PackedPasses(env: Env, d: JscCompress.Dictionary, test: string -> bool)
    requires PacksWith(env, d) && IsEncodableTest(test)
    ensures DataPasses(env, test)
  {
    forall line: string
      ensures test(env.data(line).0)
    {
      DataIsEncodable(d, line);
      assert env.data(line) == FastData.Packed(d, line);
    }
  }
}
