/** The directed header of a line between two plain stations: what it says, and what is received of it. */
module LineHeader {
  import opened Wrappers
  import opened Callsign
  import opened BaseCalls
  import opened Commands
  import opened CommandText
  import opened DirectedText
  import opened DirectedFrame
  import opened FrameParse
  import opened HeaderTokens
  import opened Station
  import Framing
  import Reassembly
  import Transport
  import Words

  /** A message as it is typed: to a plain target, with a checksummed command and what follows it. */
  datatype Message = Message(from: string, portableFrom: bool, target: string, portableTo: bool, token: string,
                             rest: string)

  function Sender(m: Message): string { Written(m.from, m.portableFrom) }

  function Target(m: Message): string { Written(m.target, m.portableTo) }

  function Tail(m: Message): string { m.token + m.rest }

  ghost predicate WellTyped(m: Message) {
    Party(m.from) && Party(m.target) && IsChecksummedToken(m.token)
  }

  /** The code of the command as it is typed. */
  function CodeOf(m: Message): (code: nat)
    requires IsChecksummedToken(m.token)
  {
    match WireCode(FromWire(m.token).value)
    case Some(code) => code
    case None => 31
  }

  /** Both calls make a header, and are read back. */
  predicate CallsArrive(m: Message) {
    MakeHeader(m.from, m.portableFrom, m.target, m.portableTo) && !LooksRewritten(m.from) && !LooksRewritten(m.target)
  }

  // ---- the header

  /** The number taken after a found token, if the command has one. */
  function NumberOf(g: Grammar, found: Found, x: string): string
    requires found.text <= x
  {
    var rest := x[|found.text|..];
    rest[..if HasNumber(found.kind) then g.number(rest) else 0]
  }

  /** What the packed header has to be for a found token. */
  ghost predicate HeaderIs(c: Caller, m: Message, found: Found, num: string, d: Framing.Directed)
    requires Party(m.from) && Party(m.target)
  {
    PartyIsPlain(m.from);
    PartyIsPlain(m.target);
    var code := c.grammar.code(found.text);
    if !MakeHeader(m.from, m.portableFrom, m.target, m.portableTo) || code.None? then d.n == 0
    else
      var f := HeaderFields(m.from, m.portableFrom, m.target, m.portableTo, code.value, PackNum(Trim(num)).0);
      && d.frame == HeaderText(f) && d.n == |Target(m)| + |found.text| + |num| && d.target == Target(m) && !d.compound
      && d.command == c.grammar.sent(found.text)
  }

  lemma {:induction false} PackedHeader(c: Caller, m: Message, x: string, line: string, found: Found,
                                        d: Framing.Directed)
    requires Party(m.from) && Party(m.target) && c.mycall == Sender(m) && EndsCall(x) && line == Target(m) + x
    requires c.grammar.parse(x) == Some(found) && d == PackDirected(c, line)
    ensures found.text <= x && HeaderIs(c, m, found, NumberOf(c.grammar, found, x), d)
  {
    PartyIsTakenApart(c.grammar, m.target, m.portableTo, x, line, Some(found));
    var p := TakeApart(c.grammar, line).value;
    PartyHeader(c, m.from, m.portableFrom, m.target, m.portableTo, p);
  }

  lemma {:induction false} LineAsksDirected(st: Station, env: Framing.Env, m: Message, x: string, line: string)
    requires IsEnvOf(env, st) && Party(m.from) && Party(m.target)
    requires st.caller.mycall == Sender(m) && line == Target(m) + x
    ensures env.heartbeat(line).1 == 0 && env.compound(line).1 == 0 && !env.isCompound
    ensures env.directed(line) == PackDirected(st.caller, line)
  {
    assert Unfold(true);
    PartyIsDirected(st, m.target, m.portableTo, x, line);
    PartyIsNotCompound(st.caller.compoundShape, m.from, m.portableFrom);
  }

  // ---- what is received of it

  lemma {:induction false} CallFits(call: string)
    requires WordOf(call).Some?
    ensures PackWord(WordOf(call).value) < Words.Pow2(WIDTHS.call)
  {
    PackWordBound(WordOf(call).value);
    Words.Pow2Values();
    Words.Pow2Add(16, 12);
    assert Words.Pow2(12) == 4096 by {
      Words.Pow2Add(8, 4);
    }
  }

  lemma {:induction false} FieldsOfCalls(f: Fields, from: string, target: string)
    requires WordOf(from).Some? && WordOf(target).Some? && f.code < 32 && f.number < 64
    requires f.from == PackWord(WordOf(from).value) && f.target == PackWord(WordOf(target).value)
    ensures FieldsFit(WIDTHS, f)
  {
    CallFits(from);
    CallFits(target);
    Words.Pow2Values();
  }

  /** The parts of a directed message between two calls. */
  function Address(from: string, target: string, token: string): (parts: seq<string>)
    ensures |parts| == 3 && parts[1] == target && parts[2] == token
  {
    [from, target, token]
  }

  lemma {:induction false} SameAddress(a: seq<string>, from: string, target: string, token: string)
    requires |a| == 3
    ensures a == Address(from, target, token) <==> a[0] == from && a[1] == target && a[2] == token
  {
  }

  lemma {:induction false} CallArrives(names: seq<string>, call: string, portable: bool)
    requires Party(call)
    ensures WordOf(call).Some?
    ensures UnpackCallsign(names, PackWord(WordOf(call).value), portable) == Written(call, portable)
            <==> !LooksRewritten(call)
  {
    PartyIsPlain(call);
    CallsignReadsBack(names, call, portable);
  }

  lemma {:induction false} FirstParts(parser: Parser, f: Fields)
    requires f.code < 32
    ensures Parts(parser, f)[..3] == [UnpackCallsign(parser.names, f.from, f.portableFrom),
                                      UnpackCallsign(parser.names, f.target, f.portableTo), parser.token(f.code)]
    ensures f.number == 0 ==> |Parts(parser, f)| == 3
  {
  }

  /** The first three parts are as sent if and only if both calls are read back and the token is that of the code. */
  lemma {:induction false} PartsArrive(parser: Parser, m: Message, code: nat, number: nat, f: Fields, token: string,
                                       from: string, target: string)
    requires Party(m.from) && Party(m.target) && code < 32 && from == Sender(m) && target == Target(m)
    requires WordOf(m.from).Some? && WordOf(m.target).Some?
    requires f == HeaderFields(m.from, m.portableFrom, m.target, m.portableTo, code, number)
    ensures Parts(parser, f)[..3] == Address(from, target, token) <==>
            !LooksRewritten(m.from) && !LooksRewritten(m.target) && parser.token(code) == token
  {
    FirstParts(parser, f);
    CallArrives(parser.names, m.from, m.portableFrom);
    CallArrives(parser.names, m.target, m.portableTo);
    SameAddress(Parts(parser, f)[..3], from, target, token);
  }

  lemma {:induction false} TrimBlank(s: string, k: nat)
    requires k <= 1 && k < |s| && (k == 1 ==> IsBlank(s[0])) && !IsBlank(s[k]) && !IsBlank(s[|s| - 1])
    ensures Trim(s) == s[k..]
  {
    if k == 1 {
      assert Trim(s) == Trim(s[1..]);
    } else {
      assert s[0..] == s;
    }
  }

  /** A report at the start of a text begins after at most one blank and ends in a digit. */
  lemma {:induction false} ReportIsTrimmed(rest: string, k: nat, n: nat)
    requires n == SnrLength(rest) > 0 && k == Skip(rest)
    ensures k < n && IsReport(rest[k..n]) && Trim(rest[..n]) == rest[k..n]
  {
    LongestReport(rest);
    var report := rest[k..n];
    var body := WithoutSign(report);
    assert IsDigit(body[|body| - 1]) && body[|body| - 1] == rest[n - 1];
    assert IsSign(report[0]) || body == report;
    TrimBlank(rest[..n], k);
    assert rest[..n][k..] == report;
  }

  /** The number that is received for one that is sent: the least one cannot be told from the next. */
  function Received(v: int): int { if v == -31 then -30 else v }

  lemma {:induction false} ReportNumber(report: string, v: int)
    requires IsReport(report) && IntOf(report) == Some(v)
    ensures PackNum(report) == (Received(v) + 31, true)
  {
  }

  /** The report typed after a token: the longest that stands there, if the command takes one. */
  function ReportOf(kind: CommandKind, rest: string): Option<int> {
    var n, k := SnrLength(rest), Skip(rest);
    if HasNumber(kind) && k < n then IntOf(rest[k..n]) else None
  }

  /** The received parts show a report after the token, or nothing. */
  predicate ShowsReport(parser: Parser, shown: seq<string>, code: nat, report: Option<int>) {
    match report
    case None => |shown| == 3
    case Some(v) => |shown| == 4 && shown[3] == parser.number(code, Received(v))
  }

  lemma {:induction false} NumberPart(parser: Parser, f: Fields, report: Option<int>)
    requires f.code < 32 && match report
                            case None => f.number == 0
                            case Some(v) => -31 <= v && f.number == Received(v) + 31
    ensures ShowsReport(parser, Parts(parser, f), f.code, report)
  {
  }

  lemma {:induction false} ReportIsPacked(kind: CommandKind, rest: string, num: string)
    requires num == rest[..if HasNumber(kind) then SnrLength(rest) else 0]
    ensures match ReportOf(kind, rest)
            case None => PackNum(Trim(num)).0 == 0
            case Some(v) => -31 <= v <= 31 && PackNum(Trim(num)).0 == Received(v) + 31
  {
    var n, k := SnrLength(rest), Skip(rest);
    LongestReport(rest);
    if HasNumber(kind) && n > 0 {
      ReportIsTrimmed(rest, k, n);
      ReportNumber(rest[k..n], IntOf(rest[k..n]).value);
    } else {
      assert num == "";
    }
  }

  /**
   * A report typed after the token of a command that takes one is received as the number it is, except that -31 is
   * received as -30; without a report nothing is received after the token.
   */
  lemma {:induction false} ReportArrives(c: Caller, parser: Parser, m: Message, x: string, line: string, found: Found,
                                         rest: string, d: Framing.Directed)
      returns (code: nat)
    requires Party(m.from) && Party(m.target) && c.mycall == Sender(m) && EndsCall(x) && line == Target(m) + x
    requires c.grammar.parse(x) == Some(found) && d == PackDirected(c, line) && d.n > 0
    requires x == found.text + rest && c.grammar.number(rest) == SnrLength(rest)
    ensures c.grammar.code(found.text) == Some(code)
    ensures ShowsReport(parser, ParseFrame(parser, d.frame, false).directed, code, ReportOf(found.kind, rest))
  {
    PackedHeader(c, m, x, line, found, d);
    assert x[|found.text|..] == rest;
    var num := NumberOf(c.grammar, found, x);
    code := c.grammar.code(found.text).value;
    var f := HeaderWithNumber(m, code, PackNum(Trim(num)).0);
    HeaderIsParsed(parser, f, d.frame);
    ReportIsPacked(found.kind, rest, num);
    NumberPart(parser, f, ReportOf(found.kind, rest));
  }

  lemma {:induction false} HeaderWithNumber(m: Message, code: nat, number: nat) returns (f: Fields)
    requires Party(m.from) && Party(m.target) && code < 32 && number < 64
    ensures WordOf(m.from).Some? && WordOf(m.target).Some?
    ensures f == HeaderFields(m.from, m.portableFrom, m.target, m.portableTo, code, number) && FieldsFit(WIDTHS, f)
    ensures f.code == code && f.number == number
  {
    PartyIsPlain(m.from);
    PartyIsPlain(m.target);
    f := HeaderFields(m.from, m.portableFrom, m.target, m.portableTo, code, number);
    FieldsOfCalls(f, m.from, m.target);
  }

  /** Tokens of different codes differ. */
  lemma {:induction false} TokenDetermines(parser: Parser, a: nat, b: nat)
    requires WireTokens(parser) && a < 32 && b < 32 && parser.token(a) == parser.token(b)
    ensures a == b
  {
    TokenReadsBack(FromWireCode(a));
    TokenReadsBack(FromWireCode(b));
    CodeReadsBack(FromWireCode(a), a);
    CodeReadsBack(FromWireCode(b), b);
  }

  // ---- the payload tells where the token ended

  lemma {:induction false} TrimStartBound(s: string, k: nat)
    requires k <= |s|
    ensures |Framing.TrimStart(s)| <= |s|
    ensures k < |s| && !IsBlank(s[k]) ==> |Framing.TrimStart(s)| >= |s| - k
  {
    if s != "" && IsBlank(s[0]) {
      TrimStartBound(s[1..], if k > 0 then k - 1 else 0);
    }
  }

  /** Two tokens in front of the same payload are the same. */
  lemma {:induction false} SamePayload(x: string, a: string, b: string)
    requires a <= x && b <= x && b != "" && !IsBlank(b[|b| - 1])
    requires Framing.TrimStart(x[|a|..]) == Framing.TrimStart(x[|b|..])
    ensures |b| <= |a|
  {
    if |a| < |b| {
      var k := |b| - 1 - |a|;
      assert x[|a|..][k] == b[|b| - 1];
      TrimStartBound(x[|a|..], k);
      TrimStartBound(x[|b|..], 0);
    }
  }

  lemma {:induction false} SameToken(x: string, a: string, b: string)
    requires a <= x && b <= x && a != "" && !IsBlank(a[|a| - 1]) && b != "" && !IsBlank(b[|b| - 1])
    requires Framing.TrimStart(x[|a|..]) == Framing.TrimStart(x[|b|..])
    ensures a == b
  {
    SamePayload(x, a, b);
    SamePayload(x, b, a);
  }
}
