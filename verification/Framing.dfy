/** Building the frames of a message: headers first, then data, with flags on the first and the last frame. */
module Framing {
  import opened Wrappers
  import opened Checksums
  import Callsign
  import Reassembly

  type Flags = Reassembly.Flags

  datatype Frame = Frame(text: string, flags: Flags)

  /** What packing a line as a directed message yields; `n` counts the characters it takes, zero for none. */
  datatype Directed = Directed(frame: string, n: nat, target: string, compound: bool, command: string, number: string)

  /**
   * A station and the packers of its headers and data. The packers are arbitrary functions of the line;
   * each returns a frame and the number of characters it takes.
   */
  datatype Env = Env(mycall: string, mygrid: string, selectedCall: string, isCompound: bool,
                     heartbeat: string -> (string, nat), compound: string -> (string, nat),
                     directed: string -> Directed,
                     compoundFrame: string -> string, data: string -> (string, nat),
                     addressed: string -> bool, rules: Reassembly.Rules)

  /** No packer takes more than the line. */
  ghost predicate WellBehaved(env: Env) {
    && (forall line: string :: env.heartbeat(line).1 <= |line|)
    && (forall line: string :: env.compound(line).1 <= |line|)
    && (forall line: string :: env.directed(line).n <= |line|)
    && (forall line: string :: env.data(line).1 <= |line|)
  }

  const NONE: Flags := Reassembly.Flags(false, false, false)
  const DATA: Flags := Reassembly.Flags(false, false, true)

  // ---- text

  function TrimStart(s: string): (t: string)
    ensures t == "" || !Callsign.IsBlank(t[0])
  {
    if s != "" && Callsign.IsBlank(s[0]) then TrimStart(s[1..]) else s
  }

  function TrimEnd(s: string): (t: string)
    ensures t <= s
  {
    if s != "" && Callsign.IsBlank(s[|s| - 1]) then TrimEnd(s[..|s| - 1]) else s
  }

  predicate Contains(s: string, part: string) {
    exists i :: 0 <= i <= |s| && part <= s[i..]
  }

  // ---- the line before framing

  /** Drops the station's own call in front of a colon or space. */
  function WithoutMycall(mycall: string, text: string): string {
    if mycall <= text && |text| > |mycall| && (text[|mycall|] == ':' || text[|mycall|] == ' ')
    then TrimStart(text[|mycall| + 1..]) else text
  }

  /** Drops trailing blanks unless nothing else is there. */
  function WithoutTrailing(line: string): string {
    if TrimEnd(line) != "" then TrimEnd(line) else line
  }

  /** Puts the selected call in front of a line addressed to nobody. */
  function WithSelected(env: Env, forceData: bool, line: string): string {
    if env.selectedCall != "" && !(env.selectedCall <= line) && !("`" <= line) && !forceData && !env.addressed(line)
    then env.selectedCall + (if " " <= line then "" else " ") + line else line
  }

  function InitialLine(env: Env, forceData: bool, text: string): string {
    WithSelected(env, forceData, WithoutTrailing(WithoutMycall(env.mycall, text)))
  }

  // ---- one round of the transmit loop

  /** The rest of the line, whether only data may follow, and the frames so far. */
  datatype Work = Work(line: string, dataOnly: bool, frames: seq<Frame>)

  function AddFrame(frames: seq<Frame>, text: string, flags: Flags): seq<Frame> {
    frames + [Frame(text, flags)]
  }

  function AddUnlessEmpty(frames: seq<Frame>, text: string): seq<Frame> {
    if text == "" then frames else AddFrame(frames, text, NONE)
  }

  /** The frames of a directed header: two compound ones when either call is compound. */
  function DirectedFrames(env: Env, frames: seq<Frame>, d: Directed): seq<Frame> {
    if env.isCompound || d.compound then
      var first := AddUnlessEmpty(frames, env.compoundFrame(TrimEnd("`" + env.mycall + " " + env.mygrid)));
      AddUnlessEmpty(first, env.compoundFrame("`" + d.target + d.command + d.number))
    else AddFrame(frames, d.frame, NONE)
  }

  /** The payload after a directed header, with its checksum if the command carries one. */
  function Payload(env: Env, d: Directed, rest: string): string {
    if env.rules.buffered(d.command) && rest != "" then
      var line := TrimStart(rest);
      var bits := if Reassembly.IsAprs(d.target) && (d.command == " MSG" || d.command == " MSG TO:") then 0
                  else env.rules.checksumBits(d.command);
      if bits == 32 then line + " " + Checksum32(env.rules.crcs, line)
      else if bits == 16 then line + " " + Checksum16(env.rules.crcs, line)
      else line
    else rest
  }

  /** A header in front of the line, if there is one. */
  function HeaderStep(env: Env, w: Work): (next: Option<Work>)
    requires WellBehaved(env)
    ensures next.Some? ==> next.value.dataOnly || |next.value.line| < |w.line|
  {
    var (hb, l) := env.heartbeat(w.line);
    if l > 0 then Some(Work(w.line[l..], false, AddFrame(w.frames, hb, NONE)))
    else
      var (cmp, o) := env.compound(w.line);
      if o > 0 then Some(Work(w.line[o..], false, AddFrame(w.frames, cmp, NONE)))
      else
        var d := env.directed(w.line);
        if d.n > 0 then Some(Work(Payload(env, d, w.line[d.n..]), true, DirectedFrames(env, w.frames, d)))
        else None
  }

  /** The line that goes out as data: identified first if nothing else says who sends. */
  function Identified(env: Env, forceIdentify: bool, w: Work): string {
    if !w.dataOnly && forceIdentify && w.frames == [] && env.selectedCall == "" && env.directed(w.line).target == ""
       && !Contains(w.line, env.mycall)
    then env.mycall + ": " + w.line else w.line
  }

  function DataStep(env: Env, forceIdentify: bool, w: Work): (next: Option<Work>)
    requires WellBehaved(env)
    ensures next.Some? ==> next.value.dataOnly && (w.dataOnly ==> |next.value.line| < |w.line|)
  {
    var line := Identified(env, forceIdentify, w);
    var (frame, m) := env.data(line);
    if m == 0 then None else Some(Work(line[m..], true, AddFrame(w.frames, frame, DATA)))
  }

  /** One round: a header while headers are allowed, else data; none when nothing more can be sent. */
  function Step(env: Env, forceIdentify: bool, w: Work): (next: Option<Work>)
    requires WellBehaved(env)
    ensures next.Some? ==> Measure(next.value) < Measure(w)
                           || (Measure(next.value) == Measure(w) && |next.value.line| < |w.line|)
  {
    if !w.dataOnly && HeaderStep(env, w).Some? then HeaderStep(env, w) else DataStep(env, forceIdentify, w)
  }

  /** Still in header mode counts more than any line length, which is why checksums may lengthen the line. */
  function Measure(w: Work): nat { if w.dataOnly then 0 else 1 }

  function Run(env: Env, forceIdentify: bool, w: Work): seq<Frame>
    requires WellBehaved(env)
    decreases Measure(w), |w.line|
  {
    if w.line == "" then w.frames
    else
      var next := Step(env, forceIdentify, w);
      if next.None? then w.frames else Run(env, forceIdentify, next.value)
  }

  /** Marks the first and the last frame. */
  function Marked(frames: seq<Frame>): (marked: seq<Frame>)
    ensures |marked| == |frames|
  {
    seq(|frames|, i requires 0 <= i < |frames| =>
      frames[i].(flags := frames[i].flags.(first := frames[i].flags.first || i == 0,
                                           last := frames[i].flags.last || i == |frames| - 1)))
  }

  function Build(env: Env, text: string, forceIdentify: bool, forceData: bool): seq<Frame>
    requires WellBehaved(env)
  {
    Marked(Run(env, forceIdentify && !forceData, Work(InitialLine(env, forceData, text), forceData, [])))
  }

  lemma {:induction false} RunStep(env: Env, forceIdentify: bool, w: Work, next: Work)
    requires WellBehaved(env) && w.line != "" && Step(env, forceIdentify, w) == Some(next)
    ensures Run(env, forceIdentify, w) == Run(env, forceIdentify, next)
  {
  }

  /** One header: the line and the frames after it, or nothing when the line does not begin with one. */
  method SendHeader(env: Env, line0: string, frames0: seq<Frame>)
      returns (sent: bool, line: string, dataOnly: bool, frames: seq<Frame>)
    requires WellBehaved(env)
    ensures HeaderStep(env, Work(line0, false, frames0)) == if sent then Some(Work(line, dataOnly, frames)) else None
  {
    line, frames, dataOnly := line0, frames0, false;
    var (hb, l) := env.heartbeat(line);
    if l > 0 {
      return true, line[l..], false, AddFrame(frames, hb, NONE);
    }
    var (cmp, o) := env.compound(line);
    if o > 0 {
      return true, line[o..], false, AddFrame(frames, cmp, NONE);
    }
    var d := env.directed(line);
    if d.n > 0 {
      return true, Payload(env, d, line[d.n..]), true, DirectedFrames(env, frames, d);
    }
    sent := false;
  }

  /**
   * The transmit loop. It ends on every line: the checksum and the identification lengthen it only
   * when header mode ends.
   */
  method Transmit(env: Env, forceIdentify: bool, line0: string, forceData: bool) returns (frames: seq<Frame>)
    requires WellBehaved(env)
    ensures frames == Run(env, forceIdentify, Work(line0, forceData, []))
  {
    frames := [];
    var line, dataOnly := line0, forceData;
    ghost var all := Run(env, forceIdentify, Work(line, dataOnly, frames));
    while line != ""
      invariant all == Run(env, forceIdentify, Work(line, dataOnly, frames))
      decreases if dataOnly then 0 else 1, |line|
    {
      ghost var w := Work(line, dataOnly, frames);
      if !dataOnly {
        var sent, rest, only, more := SendHeader(env, line, frames);
        if sent {
          RunStep(env, forceIdentify, w, Work(rest, only, more));
          line, dataOnly, frames := rest, only, more;
          continue;
        }
        line := Identified(env, forceIdentify, Work(line, dataOnly, frames));
      }
      var (frame, m) := env.data(line);
      if m == 0 {
        break;
      }
      RunStep(env, forceIdentify, w, Work(line[m..], true, AddFrame(frames, frame, DATA)));
      frames := AddFrame(frames, frame, DATA);
      line := line[m..];
      dataOnly := true;
    }
  }

  /** Marks the first and the last frame, if there are any. */
  method MarkEnds(frames0: seq<Frame>) returns (frames: seq<Frame>)
    ensures frames == Marked(frames0)
  {
    frames := frames0;
    if frames != [] {
      var last := |frames| - 1;
      frames := frames[0 := frames[0].(flags := frames[0].flags.(first := true))];
      frames := frames[last := frames[last].(flags := frames[last].flags.(last := true))];
    }
  }

  method BuildMessageFrames(env: Env, text: string, forceIdentifyIn: bool, forceData: bool) returns (frames: seq<Frame>)
    requires WellBehaved(env)
    ensures frames == Build(env, text, forceIdentifyIn, forceData)
  {
    var line := WithoutMycall(env.mycall, text);
    line := WithoutTrailing(line);
    line := WithSelected(env, forceData, line);
    frames := Transmit(env, forceIdentifyIn && !forceData, line, forceData);
    frames := MarkEnds(frames);
  }

  // ---- the shape of every message

  /** Headers come before data, and nothing is marked first or last yet. */
  predicate DataSuffix(frames: seq<Frame>) {
    (forall i :: 0 <= i < |frames| ==> !frames[i].flags.first && !frames[i].flags.last) &&
    (forall i, j :: 0 <= i < j < |frames| && frames[i].flags.data ==> frames[j].flags.data)
  }

  predicate NoData(frames: seq<Frame>) {
    forall i :: 0 <= i < |frames| ==> frames[i].flags == NONE
  }

  lemma {:induction false} HeaderAdded(frames: seq<Frame>, text: string)
    requires NoData(frames)
    ensures NoData(AddFrame(frames, text, NONE)) && NoData(AddUnlessEmpty(frames, text))
  {
  }

  lemma {:induction false} HeadersAdded(env: Env, frames: seq<Frame>, d: Directed)
    requires NoData(frames)
    ensures NoData(DirectedFrames(env, frames, d))
  {
    if env.isCompound || d.compound {
      var a := env.compoundFrame(TrimEnd("`" + env.mycall + " " + env.mygrid));
      HeaderAdded(frames, a);
      HeaderAdded(AddUnlessEmpty(frames, a), env.compoundFrame("`" + d.target + d.command + d.number));
    } else {
      HeaderAdded(frames, d.frame);
    }
  }

  lemma {:induction false} HeadersHaveNoData(env: Env, w: Work)
    requires WellBehaved(env) && NoData(w.frames) && HeaderStep(env, w).Some?
    ensures NoData(HeaderStep(env, w).value.frames)
  {
    HeaderAdded(w.frames, env.heartbeat(w.line).0);
    HeaderAdded(w.frames, env.compound(w.line).0);
    HeadersAdded(env, w.frames, env.directed(w.line));
  }

  lemma {:induction false} RunHasShape(env: Env, forceIdentify: bool, w: Work)
    requires WellBehaved(env) && DataSuffix(w.frames) && (!w.dataOnly ==> NoData(w.frames))
    ensures DataSuffix(Run(env, forceIdentify, w))
    decreases Measure(w), |w.line|
  {
    if w.line != "" {
      var next := Step(env, forceIdentify, w);
      if next.Some? {
        if !w.dataOnly && HeaderStep(env, w).Some? {
          HeadersHaveNoData(env, w);
        }
        RunHasShape(env, forceIdentify, next.value);
      }
    }
  }

  /** Data frames form a suffix, exactly frame 0 is marked first, and exactly the final frame is marked last. */
  lemma {:induction false} BuiltHasShape(env: Env, text: string, forceIdentify: bool, forceData: bool)
    requires WellBehaved(env)
    ensures var frames := Build(env, text, forceIdentify, forceData);
            && (forall i, j :: 0 <= i < j < |frames| && frames[i].flags.data ==> frames[j].flags.data)
            && (forall i :: 0 <= i < |frames| ==> (frames[i].flags.first <==> i == 0))
            && (forall i :: 0 <= i < |frames| ==> (frames[i].flags.last <==> i == |frames| - 1))
  {
    RunHasShape(env, forceIdentify && !forceData, Work(InitialLine(env, forceData, text), forceData, []));
  }
}
