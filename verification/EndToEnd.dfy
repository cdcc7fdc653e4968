/** A directed, checksummed message from the typed line over the tones to the completed command. */
module EndToEnd {
  import opened Wrappers
  import opened Checksums
  import opened Callsign
  import opened Commands
  import opened CommandText
  import opened DirectedText
  import opened DirectedFrame
  import opened HeaderTokens
  import opened FrameParse
  import opened Transport
  import opened StreamDelivery
  import opened Station
  import opened LineHeader
  import opened FirstFrame
  import opened Air
  import BaseCalls
  import Framing
  import Reassembly
  import JscCode
  import JscCompress
  import JscRoundTrip
  import FastData

  /** Parsing as reassembly sees it. */
  function ParseWith(parser: Parser): Parse {
    (encoded: string, isData: bool) => ParseFrame(parser, encoded, isData)
  }

  ghost predicate Parses(parser: Parser, parse: Parse) {
    forall b {:trigger Unfold(b)} :: Unfold(b) ==> parse == ParseWith(parser)
  }

  /** The command set's rules. */
  ghost predicate FollowsCommands(rules: Reassembly.Rules) {
    forall b {:trigger Unfold(b)} :: Unfold(b) ==> rules == Reassembly.WireRules(rules.crcs)
  }

  ghost predicate FollowsGrammar(g: Grammar) {
    forall b {:trigger Unfold(b)} :: Unfold(b) ==> g == WireGrammar()
  }

  // ---- data lines

  /** A frame packed from covered text is parsed as the text it took. */
  lemma {:induction false} CoveredStart(d: JscCompress.Dictionary, parser: Parser, line: string)
    requires parser.map_ == d.map_ && JscRoundTrip.Covered(d, line, true) && line != ""
    ensures var (frame, m) := FastData.Packed(d, line);
            1 <= m <= |line| && ParseFrame(parser, frame, true) == ParsedFrame([], "", line[..m])
  {
    FastData.ExactFrameRoundTrip(d, line);
    FastData.CodewordsFit(d, line);
    DataIsParsed(parser, JscCode.Message(JscCompress.Encode(d, line, 0).tokens));
  }

  lemma {:induction false} CoveredStartIsCarried(env: Framing.Env, d: JscCompress.Dictionary, parser: Parser,
                                                 line: string)
    requires PacksWith(env, d) && parser.map_ == d.map_ && JscRoundTrip.Covered(d, line, true) && line != ""
    ensures CarriesStart(env.data, ParseWith(parser), line)
  {
    CoveredStart(d, parser, line);
    assert env.data(line) == FastData.Packed(d, line);
  }

  /** A covered line is carried. */
  lemma {:induction false} CoveredIsCarried(env: Framing.Env, d: JscCompress.Dictionary, parser: Parser, parse: Parse,
                                            line: string)
    requires PacksWith(env, d) && parser.map_ == d.map_ && JscRoundTrip.Covered(d, line, true) && Parses(parser, parse)
    ensures Carries(env.data, parse, line)
  {
    assert Unfold(true);
    forall i | 0 <= i < |line|
      ensures CarriesStart(env.data, parse, line[i..])
    {
      JscRoundTrip.CoveredSuffix(d, line, true, i);
      CoveredStartIsCarried(env, d, parser, line[i..]);
    }
  }

  // ---- the frames as they are heard

  /** What is parsed of a header frame. */
  lemma {:induction false} HeaderIsHeard(parser: Parser, parse: Parse, f: Fields, text: string)
    requires Parses(parser, parse) && FieldsFit(WIDTHS, f) && text == HeaderText(f)
    ensures parse(text, false).directed == Parts(parser, f)
  {
    assert Unfold(true);
    HeaderIsParsed(parser, f, text);
  }

  /** Nothing directed is parsed of a data frame. */
  lemma {:induction false} DataIsNotDirected(parser: Parser, parse: Parse, text: string)
    requires Parses(parser, parse)
    ensures parse(text, true).directed == []
  {
    assert Unfold(true);
  }

  // ---- the token

  /** A found token with the code of the typed command: it is checksummed too and takes no number. */
  lemma {:induction false} FoundHasCode(g: Grammar, x: string, found: Found, code: nat, rules: Reassembly.Rules)
    requires FollowsGrammar(g) && FollowsCommands(rules)
    requires g.parse(x) == Some(found) && g.code(found.text) == Some(code)
    requires ChecksumCode(code)
    ensures found.text != "" && !IsBlank(found.text[|found.text| - 1]) && NumberOf(g, found, x) == ""
    ensures rules.buffered(g.sent(found.text)) && rules.checksumBits(g.sent(found.text)) == 16
  {
    assert Unfold(true);
    ChecksummedHasNoNumber(x, found, code);
    ChecksummedIsBuffered(SentToken(found.text));
  }

  /** The token that the receiver shows for a code with a checksum. */
  lemma {:induction false} ShownToken(parser: Parser, rules: Reassembly.Rules, code: nat)
    requires WireTokens(parser) && FollowsCommands(rules) && ChecksumCode(code)
    ensures code < 32 && rules.buffered(parser.token(code)) && rules.checksumBits(parser.token(code)) == 16
  {
    assert Unfold(true);
    var kind := FromWireCode(code);
    CodeReadsBack(kind, code);
    TokenReadsBack(kind);
    ChecksummedIsCode(kind);
    ChecksummedIsBuffered(WireToken(kind));
  }

  lemma {:induction false} TypedToken(g: Grammar, m: Message)
    requires FollowsGrammar(g) && IsChecksummedToken(m.token)
    ensures ChecksumCode(CodeOf(m)) && g.code(m.token) == Some(CodeOf(m))
    ensures g.parse(Tail(m)).Some? && (g.parse(Tail(m)).value.text == m.token <==> FoundAsWritten(m.token, m.rest))
    ensures EndsCall(Tail(m)) && m.token != "" && !IsBlank(m.token[|m.token| - 1])
  {
    assert Unfold(true);
    WrittenToken(m.token);
    TokenIsFound(m.token, m.rest);
    TokenEnds(m.token);
    assert Tail(m)[0] == m.token[0];
  }

  // ---- the built frames

  /** A station of the typed message: its packers, grammar and rules are those of the program. */
  ghost predicate Sends(st: Station, env: Framing.Env, d: JscCompress.Dictionary, m: Message) {
    forall b {:trigger Unfold(b)} :: Unfold(b) ==>
      && IsEnvOf(env, st) && WellBehaved(st) && PacksWith(env, d) && FollowsGrammar(st.caller.grammar)
      && FollowsCommands(env.rules) && st.caller.mycall == Sender(m) && WellTyped(m)
  }

  lemma {:induction false} SenderFollows(st: Station, env: Framing.Env, d: JscCompress.Dictionary, m: Message)
    requires Sends(st, env, d, m)
    ensures Framing.WellBehaved(env) && FollowsGrammar(st.caller.grammar) && FollowsCommands(env.rules)
  {
    assert Unfold(true);
    EnvIsWellBehaved(st, env);
  }

  /** The header that the station packs for the message. */
  ghost predicate HeaderOf(st: Station, m: Message, found: Found, header: Framing.Directed) {
    && BaseCalls.Party(m.from) && BaseCalls.Party(m.target)
    && st.caller.grammar.parse(Tail(m)) == Some(found) && found.text <= Tail(m)
    && HeaderIs(st.caller, m, found, NumberOf(st.caller.grammar, found, Tail(m)), header)
  }

  /** The packers find the header in the line. */
  lemma {:induction false} LineHasHeader(st: Station, env: Framing.Env, d: JscCompress.Dictionary, m: Message,
                                         line: string, found: Found, header: Framing.Directed)
    requires Sends(st, env, d, m) && line == Target(m) + Tail(m)
    requires st.caller.grammar.parse(Tail(m)) == Some(found) && header == env.directed(line)
    ensures AsksDirected(env, line) && !env.isCompound && line != "" && HeaderOf(st, m, found, header)
  {
    assert Unfold(true);
    TypedToken(st.caller.grammar, m);
    LineAsksDirected(st, env, m, Tail(m), line);
    PackedHeader(st.caller, m, Tail(m), line, found, header);
  }

  lemma {:induction false} HeaderPasses(st: Station, m: Message, found: Found, header: Framing.Directed,
                                        test: string -> bool)
    requires HeaderOf(st, m, found, header) && header.n > 0 && IsEncodableTest(test)
    ensures !header.compound && test(header.frame)
  {
    BaseCalls.PartyIsPlain(m.from);
    BaseCalls.PartyIsPlain(m.target);
    var code, num := st.caller.grammar.code(found.text).value, NumberOf(st.caller.grammar, found, Tail(m));
    HeaderIsEncodable(HeaderFields(m.from, m.portableFrom, m.target, m.portableTo, code, PackNum(Trim(num)).0));
  }

  lemma {:induction false} SenderData(st: Station, env: Framing.Env, d: JscCompress.Dictionary, m: Message,
                                      test: string -> bool)
    requires Sends(st, env, d, m) && IsEncodableTest(test)
    ensures Framing.WellBehaved(env) && DataPasses(env, test)
  {
    assert Unfold(true);
    SenderFollows(st, env, d, m);
    PackedPasses(env, d, test);
  }

  lemma {:induction false} FramesPass(st: Station, env: Framing.Env, d: JscCompress.Dictionary, m: Message,
                                      line: string, found: Found, header: Framing.Directed, test: string -> bool)
    requires Sends(st, env, d, m) && line == Target(m) + Tail(m)
    requires st.caller.grammar.parse(Tail(m)) == Some(found) && header == env.directed(line) && IsEncodableTest(test)
    ensures Framing.WellBehaved(env) && DataPasses(env, test) && AsksDirected(env, line)
    ensures header.n > 0 ==> !env.isCompound && !header.compound && test(header.frame)
  {
    SenderData(st, env, d, m, test);
    LineHasHeader(st, env, d, m, line, found, header);
    if header.n > 0 {
      HeaderPasses(st, m, found, header, test);
    }
  }

  lemma {:induction false} PassingIsHeard(ch: Channel, frames: seq<Framing.Frame>, test: string -> bool)
    requires GoodChannel(ch) && AllPass(frames, test) && IsEncodableTest(test)
    ensures CarryAll(ch, frames) == frames
  {
    AllAreHeard(ch, frames);
  }

  // ---- a message whose header is found as it is meant

  /** The header fields of the message under a code and with a number. */
  ghost predicate HasFields(m: Message, code: nat, number: nat, f: Fields) {
    && WordOf(m.from).Some? && WordOf(m.target).Some? && code < 32 && number < 64
    && f == HeaderFields(m.from, m.portableFrom, m.target, m.portableTo, code, number)
  }

  /** What a packed header says. */
  lemma {:induction false} HeaderSays(st: Station, m: Message, found: Found, header: Framing.Directed)
    returns (code: nat, f: Fields)
    requires HeaderOf(st, m, found, header) && header.n > 0
    ensures MakeHeader(m.from, m.portableFrom, m.target, m.portableTo)
    ensures st.caller.grammar.code(found.text) == Some(code)
    ensures var number := PackNum(Trim(NumberOf(st.caller.grammar, found, Tail(m)))).0;
            HasFields(m, code, number, f) && header.frame == HeaderText(f)
    ensures !header.compound && header.target == Target(m) && header.command == st.caller.grammar.sent(found.text)
    ensures header.n == |Target(m)| + |found.text| + |NumberOf(st.caller.grammar, found, Tail(m))|
  {
    BaseCalls.PartyIsPlain(m.from);
    BaseCalls.PartyIsPlain(m.target);
    code := st.caller.grammar.code(found.text).value;
    var number := PackNum(Trim(NumberOf(st.caller.grammar, found, Tail(m)))).0;
    f := HeaderFields(m.from, m.portableFrom, m.target, m.portableTo, code, number);
  }

  lemma {:induction false} FieldsAreHeard(parser: Parser, parse: Parse, m: Message, code: nat, number: nat, f: Fields,
                                          text: string)
    requires Parses(parser, parse) && HasFields(m, code, number, f) && text == HeaderText(f)
    ensures parse(text, false).directed == Parts(parser, f)
  {
    FieldsOfCalls(f, m.from, m.target);
    HeaderIsHeard(parser, parse, f, text);
  }

  /** The header heard says what was meant if and only if both calls are read back and the code is the one meant. */
  lemma {:induction false} HeardSaysMeant(parser: Parser, parse: Parse, m: Message, code: nat, number: nat, f: Fields,
                                          text: string, meant: nat)
    requires Parses(parser, parse) && WireTokens(parser)
    requires HasFields(m, code, number, f) && text == HeaderText(f) && meant < 32
    requires BaseCalls.Party(m.from) && BaseCalls.Party(m.target)
    ensures var parts := parse(text, false).directed;
            |parts| >= 3 && (number == 0 ==> |parts| == 3)
    ensures parse(text, false).directed[..3] == Address(Sender(m), Target(m), parser.token(meant)) <==>
            !LooksRewritten(m.from) && !LooksRewritten(m.target) && code == meant
  {
    FieldsAreHeard(parser, parse, m, code, number, f, text);
    PartsArrive(parser, m, code, number, f, parser.token(meant), Sender(m), Target(m));
    FirstParts(parser, f);
    if parser.token(code) == parser.token(meant) {
      TokenDetermines(parser, code, meant);
    }
  }

  lemma {:induction false} NoNumber(num: string)
    requires num == ""
    ensures PackNum(Trim(num)) == (0, false)
  {
  }

  /** The payload after the found token. */
  function PayloadAfter(m: Message, found: Found): string
    requires found.text <= Tail(m)
  {
    Framing.TrimStart(Tail(m)[|found.text|..])
  }

  lemma {:induction false} TargetIsNotAprs(call: string, portable: bool)
    requires BaseCalls.Party(call)
    ensures !Reassembly.IsAprs(BaseCalls.Written(call, portable))
  {
    assert BaseCalls.Written(call, portable)[0] == call[0] && IsAlnum(call[0]);
  }

  lemma {:induction false} HeaderIsChecksummed(st: Station, rules: Reassembly.Rules, m: Message, found: Found,
                                               header: Framing.Directed, code: nat)
    requires FollowsGrammar(st.caller.grammar) && FollowsCommands(rules)
    requires HeaderOf(st, m, found, header) && header.n > 0
    requires st.caller.grammar.code(found.text) == Some(code) && ChecksumCode(code)
    ensures !header.compound && header.n == |Target(m)| + |found.text| && !Reassembly.IsAprs(header.target)
    ensures rules.buffered(header.command) && rules.checksumBits(header.command) == 16
    ensures NumberOf(st.caller.grammar, found, Tail(m)) == ""
  {
    FoundHasCode(st.caller.grammar, Tail(m), found, code, rules);
    var said, f := HeaderSays(st, m, found, header);
    TargetIsNotAprs(m.target, m.portableTo);
  }

  lemma {:induction false} RestOfLine(line: string, target: string, tail: string, token: string, n: nat)
    requires line == target + tail && token <= tail && n == |target| + |token|
    ensures n <= |line| && line[n..] == tail[|token|..]
  {
  }

  /** What reassembly asks of the header in front of the payload. */
  lemma {:induction false} HeaderSends(st: Station, env: Framing.Env, d: JscCompress.Dictionary, m: Message,
                                       line: string, found: Found, header: Framing.Directed, code: nat)
    requires Sends(st, env, d, m) && line == Target(m) + Tail(m) && header == env.directed(line)
    requires st.caller.grammar.parse(Tail(m)) == Some(found) && st.caller.grammar.code(found.text) == Some(code)
    requires ChecksumCode(code) && HeaderOf(st, m, found, header) && header.n > 0 && PayloadAfter(m, found) != ""
    ensures SendsDirected(env, line, header, PayloadAfter(m, found))
  {
    LineHasHeader(st, env, d, m, line, found, header);
    SenderFollows(st, env, d, m);
    HeaderIsChecksummed(st, env.rules, m, found, header, code);
    RestOfLine(line, Target(m), Tail(m), found.text, header.n);
  }

  /** The calls and the command as they were meant. */
  function Meant(parser: Parser, m: Message): (parts: seq<string>)
    requires IsChecksummedToken(m.token)
    ensures |parts| == 3
  {
    Address(Sender(m), Target(m), parser.token(CodeOf(m)))
  }

  /** What goes out as data after the found token is covered, if that token is the command. */
  ghost predicate OutgoingCovered(st: Station, d: JscCompress.Dictionary, m: Message, found: Found) {
    IsChecksummedToken(m.token) && found.text <= Tail(m) && st.caller.grammar.code(found.text) == Some(CodeOf(m)) ==>
      && PayloadAfter(m, found) != ""
      && JscRoundTrip.Covered(d, PayloadAfter(m, found) + " " + Checksum16(st.rules.crcs, PayloadAfter(m, found)), true)
  }

  /** A parser of the station's dictionary and command set. */
  ghost predicate Receives(parser: Parser, parse: Parse, d: JscCompress.Dictionary) {
    parser.map_ == d.map_ && WireTokens(parser) && Parses(parser, parse)
  }

  lemma {:induction false} RulesOfEnv(st: Station, env: Framing.Env, d: JscCompress.Dictionary, m: Message)
    requires Sends(st, env, d, m)
    ensures env.rules == st.rules && PacksWith(env, d) && WellTyped(m)
  {
    assert Unfold(true);
  }

  lemma {:induction false} PayloadIsCarried(st: Station, env: Framing.Env, d: JscCompress.Dictionary, m: Message,
                                            found: Found, parser: Parser, parse: Parse)
    requires Sends(st, env, d, m) && Receives(parser, parse, d) && OutgoingCovered(st, d, m, found)
    requires IsChecksummedToken(m.token) && found.text <= Tail(m)
    requires st.caller.grammar.code(found.text) == Some(CodeOf(m))
    ensures Carries(env.data, parse, Checksummed(env, PayloadAfter(m, found)))
  {
    RulesOfEnv(st, env, d, m);
    CoveredIsCarried(env, d, parser, parse, Checksummed(env, PayloadAfter(m, found)));
  }

  lemma {:induction false} HeaderIsMeant(st: Station, m: Message, found: Found, header: Framing.Directed,
                                         parser: Parser, parse: Parse)
    requires HeaderOf(st, m, found, header) && header.n > 0 && Parses(parser, parse) && WireTokens(parser)
    requires IsChecksummedToken(m.token) && CodeOf(m) < 32
    ensures var parts := parse(header.frame, false).directed;
            && |parts| >= 3 && (NumberOf(st.caller.grammar, found, Tail(m)) == "" ==> |parts| == 3)
            && (parts[..3] == Meant(parser, m) <==>
                CallsArrive(m) && st.caller.grammar.code(found.text) == Some(CodeOf(m)))
  {
    var code, f := HeaderSays(st, m, found, header);
    var num := NumberOf(st.caller.grammar, found, Tail(m));
    if num == "" {
      NoNumber(num);
    }
    HeardSaysMeant(parser, parse, m, code, PackNum(Trim(num)).0, f, header.frame, CodeOf(m));
  }

  // ---- a message sent and received

  /**
   * A typed message, the station that sends it, the line it makes, what is found in that line, and the receiver:
   * its parser, and when and where each frame is received.
   */
  datatype Exchange = Exchange(st: Station, env: Framing.Env, d: JscCompress.Dictionary, m: Message, text: string,
                               forceIdentify: bool, line: string, found: Found, header: Framing.Directed,
                               parser: Parser, parse: Parse, at: seq<Reception>, key: Reassembly.BufferKey)

  /** The station and the receiver are those of the program, and the line says the message. */
  ghost predicate IsExchange(x: Exchange) {
    && Sends(x.st, x.env, x.d, x.m) && Receives(x.parser, x.parse, x.d) && IsChecksummedToken(x.m.token)
    && x.line == Target(x.m) + Tail(x.m) && x.line == Framing.InitialLine(x.env, false, x.text)
    && x.st.caller.grammar.parse(Tail(x.m)) == Some(x.found) && OutgoingCovered(x.st, x.d, x.m, x.found)
    && x.header == x.env.directed(x.line) && SameKey(x.at, x.key)
  }

  /** The frames that are built for the message. */
  ghost function Built(x: Exchange): seq<Framing.Frame>
    requires IsExchange(x)
  {
    SenderFollows(x.st, x.env, x.d, x.m);
    Framing.Build(x.env, x.text, x.forceIdentify, false)
  }

  /** The frames reach the receiver. */
  ghost predicate Reaches(x: Exchange, frames: seq<Framing.Frame>) {
    IsExchange(x) && frames == Built(x) && |x.at| == |frames|
  }

  /** They deliver the message with a payload. */
  ghost predicate Delivers(x: Exchange, frames: seq<Framing.Frame>, payload: string)
    requires Reaches(x, frames)
  {
    Delivered(x.env.rules, ReceiveAll(x.parse, frames, x.at), x.key, Meant(x.parser, x.m), payload)
  }

  lemma {:induction false} ExchangeHasHeader(x: Exchange)
    requires IsExchange(x)
    ensures Framing.WellBehaved(x.env) && AsksDirected(x.env, x.line) && !x.env.isCompound && x.line != ""
    ensures HeaderOf(x.st, x.m, x.found, x.header)
  {
    SenderFollows(x.st, x.env, x.d, x.m);
    LineHasHeader(x.st, x.env, x.d, x.m, x.line, x.found, x.header);
  }

  /** Every built frame is heard. */
  lemma {:induction false} BuiltIsHeard(x: Exchange, ch: Channel, frames: seq<Framing.Frame>, test: string -> bool)
    requires IsExchange(x) && GoodChannel(ch) && frames == Built(x) && IsEncodableTest(test)
    ensures CarryAll(ch, frames) == frames
  {
    FramesPass(x.st, x.env, x.d, x.m, x.line, x.found, x.header, test);
    BuiltPasses(x.env, test, x.text, x.forceIdentify, x.line, x.header);
    PassingIsHeard(ch, frames, test);
  }

  /** When the found token is the command and both calls arrive, so does the payload after the token. */
  lemma {:induction false} FoundArrives(x: Exchange, frames: seq<Framing.Frame>)
    requires Reaches(x, frames) && x.header.n > 0 && CallsArrive(x.m)
    requires x.found.text <= Tail(x.m) && x.st.caller.grammar.code(x.found.text) == Some(CodeOf(x.m))
    ensures Delivers(x, frames, PayloadAfter(x.m, x.found))
  {
    var st, env, d, m, found, header := x.st, x.env, x.d, x.m, x.found, x.header;
    ExchangeHasHeader(x);
    CodeIsChecksummed(st, env, d, m);
    HeaderSends(st, env, d, m, x.line, found, header, CodeOf(m));
    PayloadIsCarried(st, env, d, m, found, x.parser, x.parse);
    HeaderIsChecksummedFor(st, env, d, m, found, header);
    HeaderIsMeant(st, m, found, header, x.parser, x.parse);
    ShownTokenFor(st, env, d, x.parser, m);
    MeantTarget(st, env, d, x.parser, m, Target(m));
    MeantParts(x.parse(header.frame, false).directed, Meant(x.parser, m));
    MessageArrives(env, x.parse, x.text, x.forceIdentify, x.line, frames, header, PayloadAfter(m, found),
                   Meant(x.parser, m), x.at, x.key);
  }

  lemma {:induction false} MeantParts(parts: seq<string>, meant: seq<string>)
    requires |parts| == 3 && parts[..3] == meant
    ensures parts == meant
  {
  }

  lemma {:induction false} CodeIsChecksummed(st: Station, env: Framing.Env, d: JscCompress.Dictionary, m: Message)
    requires Sends(st, env, d, m) && IsChecksummedToken(m.token)
    ensures ChecksumCode(CodeOf(m)) && CodeOf(m) < 32
  {
    SenderFollows(st, env, d, m);
    TypedToken(st.caller.grammar, m);
  }

  lemma {:induction false} HeaderIsChecksummedFor(st: Station, env: Framing.Env, d: JscCompress.Dictionary, m: Message,
                                                  found: Found, header: Framing.Directed)
    requires Sends(st, env, d, m) && HeaderOf(st, m, found, header) && header.n > 0 && IsChecksummedToken(m.token)
    requires st.caller.grammar.code(found.text) == Some(CodeOf(m))
    ensures NumberOf(st.caller.grammar, found, Tail(m)) == ""
  {
    CodeIsChecksummed(st, env, d, m);
    SenderFollows(st, env, d, m);
    HeaderIsChecksummed(st, env.rules, m, found, header, CodeOf(m));
  }

  /** The meant command is a checksummed one. */
  lemma {:induction false} ShownTokenFor(st: Station, env: Framing.Env, d: JscCompress.Dictionary, parser: Parser,
                                         m: Message)
    requires Sends(st, env, d, m) && WireTokens(parser) && IsChecksummedToken(m.token)
    ensures env.rules.buffered(Meant(parser, m)[2]) && env.rules.checksumBits(Meant(parser, m)[2]) == 16
  {
    CodeIsChecksummed(st, env, d, m);
    SenderFollows(st, env, d, m);
    ShownToken(parser, env.rules, CodeOf(m));
  }

  lemma {:induction false} MeantTarget(st: Station, env: Framing.Env, d: JscCompress.Dictionary, parser: Parser,
                                       m: Message, target: string)
    requires Sends(st, env, d, m) && IsChecksummedToken(m.token) && target == Target(m)
    ensures !Reassembly.IsAprs(target) && Meant(parser, m)[1] == target
  {
    RulesOfEnv(st, env, d, m);
    PlainTarget(m, target);
  }

  lemma {:induction false} PlainTarget(m: Message, target: string)
    requires WellTyped(m) && target == Target(m)
    ensures !Reassembly.IsAprs(target)
  {
    TargetIsNotAprs(m.target, m.portableTo);
  }

  // ---- what delivery says of the line

  lemma {:induction false} HeardIsOfKey(parse: Parse, frames: seq<Framing.Frame>, at: seq<Reception>,
                                        key: Reassembly.BufferKey)
    requires |at| == |frames| && SameKey(at, key)
    ensures OfKey(ReceiveAll(parse, frames, at), key)
  {
    forall i | 0 <= i < |frames|
      ensures Reassembly.KeyOf(ReceiveAll(parse, frames, at)[i]) == key
    {
      assert Reassembly.BufferKey(at[i].submode, Reassembly.WholeHertz(at[i].frequencyHz)) == key;
    }
  }

  /** Without a header nothing is delivered. */
  lemma {:induction false} DataIsNotDelivered(rules: Reassembly.Rules, parser: Parser, parse: Parse,
                                              frames: seq<Framing.Frame>, at: seq<Reception>, key: Reassembly.BufferKey,
                                              meant: seq<string>, payload: string)
    requires Parses(parser, parse) && AllData(frames) && |at| == |frames| && SameKey(at, key) && |meant| == 3
    ensures !Delivered(rules, ReceiveAll(parse, frames, at), key, meant, payload)
  {
    var heard := ReceiveAll(parse, frames, at);
    if Delivered(rules, heard, key, meant, payload) {
      HeardIsOfKey(parse, frames, at, key);
      DeliveredHasHeader(rules, heard, key, meant, payload);
      DataIsNotDirected(parser, parse, frames[0].text);
    }
  }

  lemma {:induction false} FirstIsHeader(env: Framing.Env, text: string, forceIdentify: bool, line: string,
                                         header: Framing.Directed, frames: seq<Framing.Frame>)
    requires Framing.WellBehaved(env) && line == Framing.InitialLine(env, false, text) && line != ""
    requires AsksDirected(env, line) && env.directed(line) == header && !env.isCompound
    requires frames == Framing.Build(env, text, forceIdentify, false) && (header.n > 0 ==> !header.compound)
    ensures header.n > 0 ==> frames != [] && frames[0].text == header.frame && !frames[0].flags.data
    ensures header.n == 0 ==> AllData(frames)
  {
    var run := Framing.Run(env, forceIdentify, Framing.Work(line, false, []));
    MarkedKeeps(run, (t: string) => true);
    if header.n > 0 {
      HeaderIsFirst(env, forceIdentify, line, header);
      assert run[0] == [Framing.Frame(header.frame, Framing.NONE)][0];
    } else {
      NoHeaderIsData(env, forceIdentify, line);
    }
  }

  lemma {:induction false} FirstSaysMeant(rules: Reassembly.Rules, parse: Parse, frames: seq<Framing.Frame>,
                                          at: seq<Reception>, key: Reassembly.BufferKey, meant: seq<string>,
                                          payload: string, frame: string)
    requires |at| == |frames| && SameKey(at, key) && frames != [] && frames[0].text == frame && !frames[0].flags.data
    requires Delivered(rules, ReceiveAll(parse, frames, at), key, meant, payload)
    ensures var parts := parse(frame, false).directed;
            |parts| >= 3 && parts[..3] == meant
  {
    HeardIsOfKey(parse, frames, at, key);
    DeliveredHasHeader(rules, ReceiveAll(parse, frames, at), key, meant, payload);
  }

  /** A delivery as meant shows that a header was made, both calls arrive, and the found code is the command's. */
  lemma {:induction false} DeliveredIsMeant(x: Exchange, frames: seq<Framing.Frame>, payload: string)
    requires Reaches(x, frames) && Delivers(x, frames, payload)
    ensures x.header.n > 0 && CallsArrive(x.m) && x.st.caller.grammar.code(x.found.text) == Some(CodeOf(x.m))
  {
    ExchangeHasHeader(x);
    CodeIsChecksummed(x.st, x.env, x.d, x.m);
    if x.header.n > 0 {
      var code, f := HeaderSays(x.st, x.m, x.found, x.header);
    }
    FirstIsHeader(x.env, x.text, x.forceIdentify, x.line, x.header, frames);
    if x.header.n == 0 {
      DataIsNotDelivered(x.env.rules, x.parser, x.parse, frames, x.at, x.key, Meant(x.parser, x.m), payload);
    } else {
      FirstSaysMeant(x.env.rules, x.parse, frames, x.at, x.key, Meant(x.parser, x.m), payload, x.header.frame);
      HeaderIsMeant(x.st, x.m, x.found, x.header, x.parser, x.parse);
    }
  }

  // ---- the message from end to end

  /** Both calls make a header and are read back, and what follows the token does not make it another one. */
  predicate Arrives(m: Message) {
    CallsArrive(m) && FoundAsWritten(m.token, m.rest)
  }

  /** What follows the typed token, without the blanks in front. */
  function TypedPayload(m: Message): string { Framing.TrimStart(m.rest) }

  lemma {:induction false} FoundPayload(m: Message, found: Found)
    requires found.text == m.token
    ensures found.text <= Tail(m) && PayloadAfter(m, found) == TypedPayload(m)
  {
    assert Tail(m)[|m.token|..] == m.rest;
  }

  lemma {:induction false} TypedIsDelivered(x: Exchange, frames: seq<Framing.Frame>)
    requires Reaches(x, frames) && Arrives(x.m)
    ensures Delivers(x, frames, TypedPayload(x.m))
  {
    SenderFollows(x.st, x.env, x.d, x.m);
    ExchangeHasHeader(x);
    TypedToken(x.st.caller.grammar, x.m);
    FoundPayload(x.m, x.found);
    FoundArrives(x, frames);
  }

  lemma {:induction false} DeliveredIsTyped(x: Exchange, frames: seq<Framing.Frame>)
    requires Reaches(x, frames) && Delivers(x, frames, TypedPayload(x.m))
    ensures Arrives(x.m)
  {
    ExchangeHasHeader(x);
    DeliveredIsMeant(x, frames, TypedPayload(x.m));
    FoundArrives(x, frames);
    DeliveredOnce(x.env.rules, ReceiveAll(x.parse, frames, x.at), x.key, Meant(x.parser, x.m), TypedPayload(x.m),
                  PayloadAfter(x.m, x.found));
    SenderFollows(x.st, x.env, x.d, x.m);
    CodeIsChecksummed(x.st, x.env, x.d, x.m);
    TokenIsTyped(x.st.caller.grammar, x.env.rules, x.m, x.found);
  }

  /** A found token with the command's code and the typed payload is the typed token. */
  lemma {:induction false} TokenIsTyped(g: Grammar, rules: Reassembly.Rules, m: Message, found: Found)
    requires FollowsGrammar(g) && FollowsCommands(rules) && IsChecksummedToken(m.token)
    requires g.parse(Tail(m)) == Some(found) && found.text <= Tail(m) && g.code(found.text) == Some(CodeOf(m))
    requires PayloadAfter(m, found) == TypedPayload(m)
    ensures FoundAsWritten(m.token, m.rest)
  {
    TypedToken(g, m);
    FoundHasCode(g, Tail(m), found, CodeOf(m), rules);
    assert m.token <= Tail(m) && Tail(m)[|m.token|..] == m.rest;
    SameToken(Tail(m), found.text, m.token);
  }

  /**
   * End to end: a message typed to a plain station, framed, sent as tones, heard on one key in any stream and
   * reassembled is started once and completed once, with both calls, the command and the payload as they were typed
   * and with a valid checksum, if and only if both calls make a header and are read back and the payload does not
   * extend the command.
   */
  lemma {:induction false} MessageRoundTrip(x: Exchange, ch: Channel, frames: seq<Framing.Frame>,
                                            all: seq<Reassembly.Decoded>, before: seq<Reassembly.Decoded>,
                                            after: seq<Reassembly.Decoded>)
    requires IsExchange(x) && GoodChannel(ch) && frames == CarryAll(ch, Built(x)) && |x.at| == |frames|
    requires Reassembly.Substream(all, x.key) == before + ReceiveAll(x.parse, frames, x.at) + after
    ensures DeliveredIn(x.env.rules, all, x.key, |before|, |frames|, Meant(x.parser, x.m), TypedPayload(x.m)) <==>
            Arrives(x.m)
  {
    BuiltIsHeard(x, ch, Built(x), (t: string) => Encodable(t));
    DeliveredAnywhere(x.env.rules, all, x.key, before, ReceiveAll(x.parse, frames, x.at), after,
                      Meant(x.parser, x.m), TypedPayload(x.m));
    if Arrives(x.m) {
      TypedIsDelivered(x, frames);
    }
    if Delivers(x, frames, TypedPayload(x.m)) {
      DeliveredIsTyped(x, frames);
    }
  }

  // ---- typed messages that arrive, and some that do not

  lemma {:induction false} StartsWithDigit(call: string)
    requires HasPrefix(call, "3D0")
    ensures call != "" && !IsUpper(call[0])
  {
  }

  lemma {:induction false} PlainParty(call: string)
    requires 4 <= |call| <= 5 && IsUpper(call[0]) && IsDigit(call[1])
    requires forall i :: 2 <= i < |call| ==> IsUpper(call[i])
    ensures BaseCalls.Party(call) && !LooksRewritten(call)
  {
    assert BaseCalls.DigitAt(call, 1);
    assert BaseCalls.PairAt(call, 0);
    if HasPrefix(call, "3D0") {
      StartsWithDigit(call);
    }
  }

  lemma {:induction false} PlainMessageArrives(m: Message)
    requires m == Message("K1ABC", false, "W1AW", false, " MSG", " HELLO")
    ensures WellTyped(m) && Arrives(m)
  {
    PlainParty(m.from);
    PlainParty(m.target);
    ChecksummedTokens(m.token);
    assert Sender(m) == "K1ABC" && Target(m) == "W1AW";
    assert |Sender(m)| != |Target(m)|;
    BeginsOther(m.rest, " TO:", 1);
  }

  /** A message whose text begins with `TO:` is taken for another command, and does not arrive. */
  lemma {:induction false} TextTakenForCommand(m: Message)
    requires m == Message("K1ABC", false, "W1AW", false, " MSG", " TO:HELLO")
    ensures WellTyped(m) && !Arrives(m)
    ensures ParseToken(Tail(m)).Some? && |ParseToken(Tail(m)).value.text| == 8
    ensures ParseToken(Tail(m)).value.kind == MsgTo
  {
    PlainParty(m.from);
    PlainParty(m.target);
    ChecksummedTokens(m.token);
    BeginsSame(" TO:", "HELLO");
    assert m.rest == " TO:" + "HELLO";
    MessageToken(m.rest, m.token);
  }

  /** A query whose text begins with `CALL` likewise. */
  lemma {:induction false} QueryTakenForCommand(m: Message)
    requires m == Message("K1ABC", false, "W1AW", false, " QUERY", " CALL N0XYZ")
    ensures WellTyped(m) && !Arrives(m)
  {
    PlainParty(m.from);
    PlainParty(m.target);
    ChecksummedTokens(m.token);
    BeginsSame(" CALL", " N0XYZ");
    assert m.rest == " CALL" + " N0XYZ";
  }

  /** The call that packs to zero is a valid plain call, and no header is made with it. */
  lemma {:induction false} ZeroCallDoesNotArrive(m: Message)
    requires m == Message("K1ABC", false, "000AAA", false, " MSG", " HELLO")
    ensures WellTyped(m) && !Arrives(m)
  {
    PlainParty(m.from);
    ChecksummedTokens(m.token);
    assert BaseCalls.DigitAt(m.target, 2);
    assert BaseCalls.PairAt(m.target, 2);
  }
}
