/** What a built message says: its headers, and the text that the parsed data frames spell. */
module OutgoingText {
  import opened Wrappers
  import opened Framing
  import opened Transport
  import Callsign
  import Checksums
  import Reassembly

  // ---- the line a text is prepared to

  predicate AllBlank(s: string) {
    forall i :: 0 <= i < |s| ==> Callsign.IsBlank(s[i])
  }

  /** Exactly the leading blanks go. */
  lemma {:induction false} TrimStartIs(lead: string, body: string)
    requires AllBlank(lead) && (body == "" || !Callsign.IsBlank(body[0]))
    ensures TrimStart(lead + body) == body
  {
    if lead == "" {
      assert lead + body == body;
    } else {
      assert (lead + body)[1..] == lead[1..] + body;
      TrimStartIs(lead[1..], body);
    }
  }

  /** Exactly the trailing blanks go. */
  lemma {:induction false} TrimEndIs(body: string, trail: string)
    requires AllBlank(trail) && (body == "" || !Callsign.IsBlank(body[|body| - 1]))
    ensures TrimEnd(body + trail) == body
  {
    if trail == "" {
      assert body + trail == body;
    } else {
      var n := |trail| - 1;
      assert (body + trail)[..|body| + n] == body + trail[..n];
      TrimEndIs(body, trail[..n]);
    }
  }

  /** The station's own call, a colon or space, and blanks. */
  predicate IsOwnCall(mycall: string, own: string) {
    && mycall < own && own[|mycall|] in {':', ' '} && AllBlank(own[|mycall| + 1..])
  }

  predicate BeginsWithOwnCall(mycall: string, text: string) {
    mycall < text && text[|mycall|] in {':', ' '}
  }

  lemma {:induction false} OwnCallIsDropped(mycall: string, own: string, body: string)
    requires IsOwnCall(mycall, own) && (body == "" || !Callsign.IsBlank(body[0]))
    ensures WithoutMycall(mycall, own + body) == body
  {
    assert (own + body)[|mycall| + 1..] == own[|mycall| + 1..] + body;
    TrimStartIs(own[|mycall| + 1..], body);
  }

  /** A line for nobody in particular is addressed to the selected call. */
  ghost predicate IsAddressed(env: Env, forceData: bool, body: string, line: string) {
    if forceData || env.selectedCall == "" || env.selectedCall <= body || (body != "" && body[0] == '`')
       || env.addressed(body)
    then line == body
    else if body != "" && body[0] == ' ' then line == env.selectedCall + body
    else line == env.selectedCall + " " + body
  }

  lemma {:induction false} SelectedIsAddressed(env: Env, forceData: bool, body: string)
    ensures IsAddressed(env, forceData, body, WithSelected(env, forceData, body))
  {
    if env.selectedCall != "" && !(env.selectedCall <= body) {
      assert "`" <= body <==> body != "" && body[0] == '`';
      assert " " <= body <==> body != "" && body[0] == ' ';
      assert env.selectedCall + "" + body == env.selectedCall + body;
    }
  }

  lemma {:induction false} TrailIsDropped(body: string, trail: string)
    requires body != "" && !Callsign.IsBlank(body[|body| - 1]) && AllBlank(trail)
    ensures WithoutTrailing(body + trail) == body
  {
    TrimEndIs(body, trail);
  }

  /** The parts of a typed text: its own call, if it begins with it, a body, and blanks at the end. */
  ghost predicate IsTyped(mycall: string, own: string, body: string, trail: string) {
    && body != "" && !Callsign.IsBlank(body[|body| - 1]) && AllBlank(trail)
    && if own == "" then !BeginsWithOwnCall(mycall, body + trail)
       else IsOwnCall(mycall, own) && !Callsign.IsBlank(body[0])
  }

  lemma {:induction false} OnlyBodyIsLeft(mycall: string, own: string, body: string, trail: string)
    requires IsTyped(mycall, own, body, trail)
    ensures WithoutMycall(mycall, own + body + trail) == body + trail
  {
    assert own + body + trail == own + (body + trail);
    if own == "" {
      assert own + (body + trail) == body + trail;
    } else {
      OwnCallIsDropped(mycall, own, body + trail);
    }
  }

  /** The body alone goes on. */
  lemma {:induction false} LineIsBody(env: Env, forceData: bool, own: string, body: string, trail: string)
    requires IsTyped(env.mycall, own, body, trail)
    ensures IsAddressed(env, forceData, body, InitialLine(env, forceData, own + body + trail))
  {
    OnlyBodyIsLeft(env.mycall, own, body, trail);
    TrailIsDropped(body, trail);
    SelectedIsAddressed(env, forceData, body);
  }

  /** A text of blanks alone is kept, and nothing is left when they follow the own call. */
  lemma {:induction false} LineIsBlank(env: Env, forceData: bool, text: string)
    requires (AllBlank(text) && !BeginsWithOwnCall(env.mycall, text)) || IsOwnCall(env.mycall, text)
    ensures IsAddressed(env, forceData, if IsOwnCall(env.mycall, text) then "" else text,
                        InitialLine(env, forceData, text))
  {
    var kept := if IsOwnCall(env.mycall, text) then "" else text;
    if IsOwnCall(env.mycall, text) {
      OwnCallIsDropped(env.mycall, text, "");
      assert text + "" == text;
    }
    assert WithoutMycall(env.mycall, text) == kept;
    TrimEndIs("", kept);
    assert "" + kept == kept;
    SelectedIsAddressed(env, forceData, kept);
  }

  // ---- what frames say

  function Messages(parse: Parse, frames: seq<Frame>): (texts: seq<string>)
    ensures |texts| == |frames|
  {
    seq(|frames|, i requires 0 <= i < |frames| => parse(frames[i].text, frames[i].flags.data).message)
  }

  /** Data frames, parsed as nothing but text, whose texts make up a line. */
  predicate Says(parse: Parse, frames: seq<Frame>, line: string) {
    && (forall i :: 0 <= i < |frames| ==> frames[i].flags.data)
    && (forall i :: 0 <= i < |frames| ==> parse(frames[i].text, true).directed == [])
    && (forall i :: 0 <= i < |frames| ==> parse(frames[i].text, true).compound == "")
    && Reassembly.Concat(Messages(parse, frames)) == line
  }

  /** Header frames with given texts, and then data frames that say a line. */
  predicate Sends(parse: Parse, frames: seq<Frame>, headers: seq<string>, line: string) {
    && |headers| <= |frames|
    && (forall i :: 0 <= i < |headers| ==> frames[i].text == headers[i] && !frames[i].flags.data)
    && Says(parse, frames[|headers|..], line)
  }

  lemma {:induction false} PiecesSay(data: string -> (string, nat), parse: Parse, line: string)
    requires Carries(data, parse, line)
    ensures Says(parse, DataFrames(Pieces(data, parse, line)), line)
  {
    PiecesMakeLine(data, parse, line);
    var pieces := Pieces(data, parse, line);
    assert Messages(parse, DataFrames(pieces)) == Texts(pieces);
  }

  lemma {:induction false} MarkedSends(parse: Parse, frames: seq<Frame>, headers: seq<string>, line: string)
    requires Sends(parse, frames, headers, line)
    ensures Sends(parse, Marked(frames), headers, line)
  {
    var k, marked := |headers|, Marked(frames);
    assert Messages(parse, marked[k..]) == Messages(parse, frames[k..]);
    forall i | 0 <= i < |marked[k..]|
      ensures marked[k..][i].flags.data && marked[k..][i].text == frames[k..][i].text
    {
      assert frames[k..][i].flags.data;
    }
  }

  function HeaderFrames(headers: seq<string>): (frames: seq<Frame>)
    ensures |frames| == |headers|
  {
    seq(|headers|, i requires 0 <= i < |headers| => Frame(headers[i], NONE))
  }

  lemma {:induction false} HeadersThenData(env: Env, parse: Parse, headers: seq<string>, line: string,
                                           frames: seq<Frame>)
    requires Carries(env.data, parse, line)
    requires frames == HeaderFrames(headers) + DataFrames(Pieces(env.data, parse, line))
    ensures Sends(parse, Marked(frames), headers, line)
  {
    PiecesSay(env.data, parse, line);
    assert frames[|headers|..] == DataFrames(Pieces(env.data, parse, line));
    MarkedSends(parse, frames, headers, line);
  }

  // ---- what a line sends

  /** The heartbeat and compound headers at the start of a line, one frame each, and the rest of the line. */
  ghost predicate Leads(env: Env, line: string, leading: seq<string>, rest: string)
    requires WellBehaved(env)
    decreases |leading|
  {
    if leading == [] then rest == line && (line == "" || (env.heartbeat(line).1 == 0 && env.compound(line).1 == 0))
    else
      line != "" &&
      var (frame, taken) := if env.heartbeat(line).1 > 0 then env.heartbeat(line) else env.compound(line);
      taken > 0 && frame == leading[0] && Leads(env, line[taken..], leading[1..], rest)
  }

  lemma {:induction false} EveryLineLeads(env: Env, line: string) returns (leading: seq<string>, rest: string)
    requires WellBehaved(env)
    ensures Leads(env, line, leading, rest)
    decreases |line|
  {
    leading, rest := [], line;
    if line != "" && (env.heartbeat(line).1 > 0 || env.compound(line).1 > 0) {
      var (frame, taken) := if env.heartbeat(line).1 > 0 then env.heartbeat(line) else env.compound(line);
      var more;
      more, rest := EveryLineLeads(env, line[taken..]);
      leading := [frame] + more;
      assert leading[1..] == more;
    }
  }

  function NonEmpty(texts: seq<string>): seq<string> {
    if texts == [] then [] else (if texts[0] == "" then [] else [texts[0]]) + NonEmpty(texts[1..])
  }

  /** The header frames of a directed message: one, or two compound ones when either call is compound. */
  function DirectedHeaders(env: Env, d: Directed): seq<string> {
    if env.isCompound || d.compound
    then NonEmpty([env.compoundFrame(TrimEnd("`" + env.mycall + " " + env.mygrid)),
                   env.compoundFrame("`" + d.target + d.command + d.number)])
    else [d.frame]
  }

  /** What goes out after a directed header: a buffered command's text is trimmed, and has its checksum at the end. */
  ghost predicate Follows(env: Env, d: Directed, rest: string, out: string) {
    if rest == "" || !env.rules.buffered(d.command) then out == rest
    else
      var body, bits := TrimStart(rest), env.rules.checksumBits(d.command);
      var n := |body| + 1;
      if bits !in {16, 32} || Reassembly.ToGateway(d.target, d.command) then out == body
      else
        && n <= |out| && out[..n] == body + " "
        && if bits == 16 then Checksums.Spells(out[n..], env.rules.crcs.crc16(body) % 0x1_0000)
           else out[n..] == Checksums.Checksum32(env.rules.crcs, body)
  }

  lemma {:induction false} Summed(crcs: Checksums.Crcs, body: string, n: nat, out: string)
    requires n == |body| + 1 <= |out| && out[..n] == body + " "
    requires Checksums.Spells(out[n..], crcs.crc16(body) % 0x1_0000)
    ensures out == body + " " + Checksums.Checksum16(crcs, body)
  {
    Checksums.Checksum16Spells(crcs, body, out[n..]);
    assert out == out[..n] + out[n..];
  }

  lemma {:induction false} FollowsIsPayload(env: Env, d: Directed, rest: string, out: string)
    requires Follows(env, d, rest, out)
    ensures out == Payload(env, d, rest)
  {
    if rest != "" && env.rules.buffered(d.command) {
      var body, bits := TrimStart(rest), env.rules.checksumBits(d.command);
      if bits in {16, 32} && !Reassembly.ToGateway(d.target, d.command) {
        if bits == 16 {
          Summed(env.rules.crcs, body, |body| + 1, out);
        } else {
          assert out == out[..|body| + 1] + out[|body| + 1..];
        }
      }
    }
  }

  ghost predicate Within(part: string, s: string) {
    exists before: string, after: string :: s == before + part + after
  }

  lemma {:induction false} ContainsIsWithin(s: string, part: string)
    ensures Contains(s, part) <==> Within(part, s)
  {
    if Contains(s, part) {
      var i :| 0 <= i <= |s| && part <= s[i..];
      assert s == s[..i] + part + s[i + |part|..];
    }
    if Within(part, s) {
      var before: string, after: string :| s == before + part + after;
      assert s[|before|..] == part + after;
    }
  }

  /** The station's call goes in front of a text that nothing else says the sender of, when that is asked for. */
  ghost predicate Signs(env: Env, forceIdentify: bool, line: string, out: string) {
    if forceIdentify && env.selectedCall == "" && env.directed(line).target == "" && !Within(env.mycall, line)
    then out == env.mycall + ": " + line else out == line
  }

  /** The headers that follow the leading ones, and the text that goes out as data. */
  ghost predicate Outgoing(env: Env, forceIdentify: bool, alone: bool, rest: string, headers: seq<string>, out: string)
    requires WellBehaved(env)
  {
    if rest == "" then headers == [] && out == ""
    else
      var d := env.directed(rest);
      if d.n > 0 then headers == DirectedHeaders(env, d) && Follows(env, d, rest[d.n..], out)
      else headers == [] && Signs(env, forceIdentify && alone, rest, out)
  }

  // ---- every message

  lemma {:induction false} LeadingStep(env: Env, forceIdentify: bool, line: string, frame: string, taken: nat,
                                       frames: seq<Frame>)
    requires WellBehaved(env) && line != "" && 0 < taken <= |line|
    requires (frame, taken) == if env.heartbeat(line).1 > 0 then env.heartbeat(line) else env.compound(line)
    ensures Run(env, forceIdentify, Work(line, false, frames)) ==
            Run(env, forceIdentify, Work(line[taken..], false, AddFrame(frames, frame, NONE)))
  {
    var w, next := Work(line, false, frames), Work(line[taken..], false, AddFrame(frames, frame, NONE));
    assert HeaderStep(env, w) == Some(next);
    RunStep(env, forceIdentify, w, next);
  }

  /** In header mode a leading header goes in front of what its rest sends, and nothing is identified after it. */
  lemma {:induction false} LeadingRun(env: Env, forceIdentify: bool, line: string, leading: seq<string>, rest: string,
                                      sent: seq<string>)
    requires WellBehaved(env) && Leads(env, line, leading, rest)
    ensures Run(env, forceIdentify, Work(line, false, HeaderFrames(sent))) ==
            Run(env, forceIdentify, Work(rest, false, HeaderFrames(sent + leading)))
    decreases |leading|
  {
    if leading == [] {
      assert sent + leading == sent;
    } else {
      var (frame, taken) := if env.heartbeat(line).1 > 0 then env.heartbeat(line) else env.compound(line);
      var more, tail := sent + [frame], leading[1..];
      LeadingStep(env, forceIdentify, line, frame, taken, HeaderFrames(sent));
      assert AddFrame(HeaderFrames(sent), frame, NONE) == HeaderFrames(more);
      LeadingRun(env, forceIdentify, line[taken..], tail, rest, more);
      MoveFirst(sent, leading);
    }
  }

  lemma {:induction false} MoveFirst(a: seq<string>, b: seq<string>)
    requires b != []
    ensures a + [b[0]] + b[1..] == a + b
  {
  }

  lemma {:induction false} DirectedAdds(env: Env, sent: seq<string>, d: Directed)
    ensures DirectedFrames(env, HeaderFrames(sent), d) == HeaderFrames(sent + DirectedHeaders(env, d))
  {
    if env.isCompound || d.compound {
      var a := env.compoundFrame(TrimEnd("`" + env.mycall + " " + env.mygrid));
      var b := env.compoundFrame("`" + d.target + d.command + d.number);
      UnlessEmpty(sent, a);
      UnlessEmpty(sent + NonEmpty([a]), b);
      TwoNonEmpty(a, b);
      assert sent + NonEmpty([a]) + NonEmpty([b]) == sent + NonEmpty([a, b]);
    } else {
      assert HeaderFrames(sent + [d.frame]) == AddFrame(HeaderFrames(sent), d.frame, NONE);
    }
  }

  lemma {:induction false} UnlessEmpty(sent: seq<string>, text: string)
    ensures AddUnlessEmpty(HeaderFrames(sent), text) == HeaderFrames(sent + NonEmpty([text]))
  {
    assert [text][1..] == [];
    if text == "" {
      assert sent + NonEmpty([text]) == sent;
    } else {
      assert NonEmpty([text]) == [text];
    }
  }

  lemma {:induction false} TwoNonEmpty(a: string, b: string)
    ensures NonEmpty([a, b]) == NonEmpty([a]) + NonEmpty([b])
  {
    assert [a, b][1..] == [b] && [a][1..] == [] && [b][1..] == [];
  }

  lemma {:induction false} RunDirected(env: Env, parse: Parse, forceIdentify: bool, w: Work, d: Directed, out: string)
    requires WellBehaved(env) && w.line != "" && !w.dataOnly && Leads(env, w.line, [], w.line)
    requires env.directed(w.line) == d && d.n > 0 && Follows(env, d, w.line[d.n..], out)
    requires Carries(env.data, parse, out)
    ensures Run(env, forceIdentify, w) == DirectedFrames(env, w.frames, d) + DataFrames(Pieces(env.data, parse, out))
  {
    var next := Work(out, true, DirectedFrames(env, w.frames, d));
    FollowsIsPayload(env, d, w.line[d.n..], out);
    assert HeaderStep(env, w) == Some(next);
    RunStep(env, forceIdentify, w, next);
    RunSendsLine(env, parse, forceIdentify, next);
  }

  lemma {:induction false} RunUndirected(env: Env, parse: Parse, forceIdentify: bool, w: Work, out: string)
    requires WellBehaved(env) && w.line != "" && !w.dataOnly && Leads(env, w.line, [], w.line)
    requires env.directed(w.line).n == 0 && Signs(env, forceIdentify && w.frames == [], w.line, out)
    requires Carries(env.data, parse, out)
    ensures Run(env, forceIdentify, w) == w.frames + DataFrames(Pieces(env.data, parse, out))
  {
    ContainsIsWithin(w.line, env.mycall);
    assert HeaderStep(env, w).None? && Identified(env, forceIdentify, w) == out != "";
    CarriesFirst(env.data, parse, out);
    var data := Work(out, true, w.frames);
    var next := DataStep(env, forceIdentify, w).value;
    assert DataStep(env, forceIdentify, data) == Some(next);
    RunStep(env, forceIdentify, w, next);
    RunStep(env, forceIdentify, data, next);
    RunSendsLine(env, parse, forceIdentify, data);
  }

  lemma {:induction false} RestDirected(env: Env, parse: Parse, forceIdentify: bool, leading: seq<string>, rest: string,
                                        d: Directed, out: string)
    requires WellBehaved(env) && rest != "" && Leads(env, rest, [], rest) && Carries(env.data, parse, out)
    requires env.directed(rest) == d && d.n > 0 && Follows(env, d, rest[d.n..], out)
    ensures Run(env, forceIdentify, Work(rest, false, HeaderFrames(leading))) ==
            HeaderFrames(leading + DirectedHeaders(env, d)) + DataFrames(Pieces(env.data, parse, out))
  {
    DirectedAdds(env, leading, d);
    RunDirected(env, parse, forceIdentify, Work(rest, false, HeaderFrames(leading)), d, out);
  }

  lemma {:induction false} RestPlain(env: Env, parse: Parse, forceIdentify: bool, leading: seq<string>, rest: string,
                                     none: seq<string>, out: string)
    requires WellBehaved(env) && Leads(env, rest, [], rest) && Carries(env.data, parse, out) && none == []
    requires if rest == "" then out == ""
             else env.directed(rest).n == 0 && Signs(env, forceIdentify && leading == [], rest, out)
    ensures Run(env, forceIdentify, Work(rest, false, HeaderFrames(leading))) ==
            HeaderFrames(leading + none) + DataFrames(Pieces(env.data, parse, out))
  {
    var w := Work(rest, false, HeaderFrames(leading));
    assert leading + none == leading;
    if rest == "" {
      assert w.frames + DataFrames([]) == w.frames;
    } else {
      RunUndirected(env, parse, forceIdentify, w, out);
    }
  }

  /** After the leading headers: the directed header if there is one, and the text as data. */
  lemma {:induction false} RestRun(env: Env, parse: Parse, forceIdentify: bool, leading: seq<string>, rest: string,
                                   headers: seq<string>, out: string)
    requires WellBehaved(env) && Leads(env, rest, [], rest)
    requires Outgoing(env, forceIdentify, leading == [], rest, headers, out) && Carries(env.data, parse, out)
    ensures Run(env, forceIdentify, Work(rest, false, HeaderFrames(leading))) ==
            HeaderFrames(leading + headers) + DataFrames(Pieces(env.data, parse, out))
  {
    if rest != "" && env.directed(rest).n > 0 {
      RestDirected(env, parse, forceIdentify, leading, rest, env.directed(rest), out);
    } else {
      RestPlain(env, parse, forceIdentify, leading, rest, headers, out);
    }
  }

  /**
   * Every message whose outgoing text is carried: first its leading headers, then those of a directed header if there
   * is one, and then data frames whose parsed texts make up the outgoing text.
   */
  lemma {:induction false} BuiltSends(env: Env, parse: Parse, text: string, forceIdentify: bool, leading: seq<string>,
                                      rest: string, headers: seq<string>, out: string)
    requires WellBehaved(env) && Leads(env, InitialLine(env, false, text), leading, rest)
    requires Outgoing(env, forceIdentify, leading == [], rest, headers, out) && Carries(env.data, parse, out)
    ensures Sends(parse, Build(env, text, forceIdentify, false), leading + headers, out)
  {
    var line := InitialLine(env, false, text);
    LeadingRun(env, forceIdentify, line, leading, rest, []);
    assert HeaderFrames([]) == [] && [] + leading == leading;
    LeadsEnds(env, line, leading, rest);
    RestRun(env, parse, forceIdentify, leading, rest, headers, out);
    HeadersThenData(env, parse, leading + headers, out, Run(env, forceIdentify, Work(line, false, [])));
  }

  lemma {:induction false} LeadsEnds(env: Env, line: string, leading: seq<string>, rest: string)
    requires WellBehaved(env) && Leads(env, line, leading, rest)
    ensures Leads(env, rest, [], rest)
    decreases |leading|
  {
    if leading != [] {
      var (frame, taken) := if env.heartbeat(line).1 > 0 then env.heartbeat(line) else env.compound(line);
      LeadsEnds(env, line[taken..], leading[1..], rest);
    }
  }

  /** Every message has such parts. */
  lemma {:induction false} EveryMessageSends(env: Env, text: string, forceIdentify: bool)
      returns (leading: seq<string>, rest: string, headers: seq<string>, out: string)
    requires WellBehaved(env)
    ensures Leads(env, InitialLine(env, false, text), leading, rest)
    ensures Outgoing(env, forceIdentify, leading == [], rest, headers, out)
  {
    leading, rest := EveryLineLeads(env, InitialLine(env, false, text));
    headers, out := [], "";
    if rest != "" {
      var d := env.directed(rest);
      if d.n > 0 {
        headers, out := DirectedHeaders(env, d), Payload(env, d, rest[d.n..]);
        PayloadFollows(env, d, rest[d.n..]);
      } else {
        ContainsIsWithin(rest, env.mycall);
        out := Identified(env, forceIdentify && leading == [], Work(rest, false, []));
      }
    }
  }

  lemma {:induction false} PayloadFollows(env: Env, d: Directed, rest: string)
    ensures Follows(env, d, rest, Payload(env, d, rest))
  {
    if rest != "" && env.rules.buffered(d.command) {
      var body, bits := TrimStart(rest), env.rules.checksumBits(d.command);
      if bits in {16, 32} && !Reassembly.ToGateway(d.target, d.command) {
        SumFollows(env.rules.crcs, body, |body| + 1, bits, Payload(env, d, rest));
      }
    }
  }

  lemma {:induction false} SumFollows(crcs: Checksums.Crcs, body: string, n: nat, bits: nat, out: string)
    requires n == |body| + 1 && bits in {16, 32}
    requires out == body + " " + if bits == 16 then Checksums.Checksum16(crcs, body)
                                 else Checksums.Checksum32(crcs, body)
    ensures n <= |out| && out[..n] == body + " "
    ensures if bits == 16 then Checksums.Spells(out[n..], crcs.crc16(body) % 0x1_0000)
            else out[n..] == Checksums.Checksum32(crcs, body)
  {
    Checksums.Checksum16Spells(crcs, body, out[n..]);
  }

  // ---- messages without a checksum

  /** A text without a header goes out whole, as data, and behind the station's call only where that is called for. */
  lemma {:induction false} PlainTextIsSent(env: Env, parse: Parse, own: string, body: string, trail: string,
                                           forceIdentify: bool, line: string, out: string)
    requires WellBehaved(env) && IsTyped(env.mycall, own, body, trail) && IsAddressed(env, false, body, line)
    requires env.heartbeat(line).1 == 0 && env.compound(line).1 == 0 && env.directed(line).n == 0
    requires Signs(env, forceIdentify, line, out) && Carries(env.data, parse, out)
    ensures Says(parse, Build(env, own + body + trail, forceIdentify, false), out)
  {
    var text := own + body + trail;
    LineIsBody(env, false, own, body, trail);
    BuiltSends(env, parse, text, forceIdentify, [], line, [], out);
    var frames: seq<Frame> := Build(env, text, forceIdentify, false);
    var none: seq<string> := [];
    assert none + none == none && frames[0..] == frames;
  }

  /** A command without checksum: its header, and then the rest of the line, trimmed if the command is buffered. */
  lemma {:induction false} DirectedTextIsSent(env: Env, parse: Parse, own: string, body: string, trail: string,
                                              forceIdentify: bool, line: string, d: Directed, out: string)
    requires WellBehaved(env) && IsTyped(env.mycall, own, body, trail) && IsAddressed(env, false, body, line)
    requires env.heartbeat(line).1 == 0 && env.compound(line).1 == 0 && env.directed(line) == d && d.n > 0
    requires env.rules.checksumBits(d.command) == 0 || Reassembly.ToGateway(d.target, d.command)
    requires out == (if env.rules.buffered(d.command) then TrimStart(line[d.n..]) else line[d.n..])
    requires Carries(env.data, parse, out)
    ensures Sends(parse, Build(env, own + body + trail, forceIdentify, false), DirectedHeaders(env, d), out)
  {
    LineIsBody(env, false, own, body, trail);
    assert line != "" && Follows(env, d, line[d.n..], out);
    BuiltSends(env, parse, own + body + trail, forceIdentify, [], line, DirectedHeaders(env, d), out);
    assert [] + DirectedHeaders(env, d) == DirectedHeaders(env, d);
  }

  /** Forced data sends the body as it is, without headers, address or identification. */
  lemma {:induction false} ForcedDataIsSent(env: Env, parse: Parse, own: string, body: string, trail: string,
                                            forceIdentify: bool)
    requires WellBehaved(env) && IsTyped(env.mycall, own, body, trail) && Carries(env.data, parse, body)
    ensures Says(parse, Build(env, own + body + trail, forceIdentify, true), body)
  {
    LineIsBody(env, true, own, body, trail);
    var frames := Run(env, false, Work(body, true, []));
    RunSendsLine(env, parse, false, Work(body, true, []));
    assert frames == HeaderFrames([]) + DataFrames(Pieces(env.data, parse, body));
    HeadersThenData(env, parse, [], body, frames);
    assert Marked(frames)[0..] == Marked(frames);
  }

  lemma {:induction false} BeginningIsWithin(part: string, s: string)
    requires part != "" && Within(part, s)
    ensures part[0] in s
  {
    var before: string, after: string :| s == before + part + after;
    assert s[|before|] == part[0];
  }

  lemma {:induction false} GreetingIsTyped(mycall: string, text: string)
    requires mycall == "K1ABC" && text == "GOOD DAY"
    ensures IsTyped(mycall, "", text, "") && !Within(mycall, text)
  {
    assert text + "" == text;
    if Within(mycall, text) {
      BeginningIsWithin(mycall, text);
    }
  }

  /** A greeting to everybody goes out as it is, or behind the call when the station must identify itself. */
  lemma {:induction false} GreetingIsSent(env: Env, parse: Parse, text: string, forceIdentify: bool, out: string)
    requires WellBehaved(env) && env.mycall == "K1ABC" && env.selectedCall == "" && text == "GOOD DAY"
    requires env.heartbeat(text).1 == 0 && env.compound(text).1 == 0
    requires env.directed(text).n == 0 && env.directed(text).target == ""
    requires out == (if forceIdentify then env.mycall + ": " + text else text) && Carries(env.data, parse, out)
    ensures Says(parse, Build(env, text, forceIdentify, false), out)
  {
    GreetingIsTyped(env.mycall, text);
    assert "" + text + "" == text;
    PlainTextIsSent(env, parse, "", text, "", forceIdentify, text, out);
  }
}
