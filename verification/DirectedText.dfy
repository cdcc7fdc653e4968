/** Packing a line of text as a directed frame: the target in front, the command after it, and perhaps a number. */
module DirectedText {
  import opened Wrappers
  import opened Callsign
  import opened BaseCalls
  import opened Commands
  import opened CommandText
  import opened DirectedFrame
  import opened FrameParse
  import Framing

  // ---- the call in front

  predicate IsCallChar(c: char) { IsUpper(c) || IsDigit(c) || c == '/' }

  function RunEnd(text: string, i: nat): (end: nat)
    requires i <= |text|
    ensures i <= end <= |text| && forall k :: i <= k < end ==> IsCallChar(text[k])
    ensures end == |text| || !IsCallChar(text[end])
    decreases |text| - i
  {
    if i < |text| && IsCallChar(text[i]) then RunEnd(text, i + 1) else i
  }

  /** The end of the call or group that starts at a position. */
  function CallEnd(text: string, start: nat): (end: Option<nat>)
    requires start <= |text|
    ensures end.Some? ==> start < end.value <= |text|
  {
    var first := if start < |text| && text[start] == '@' then start + 1 else start;
    var end := RunEnd(text, first);
    if end > first then Some(end) else None
  }

  method FindCallEnd(text: string, start: nat) returns (r: Option<nat>)
    requires start <= |text|
    ensures r == CallEnd(text, start)
    ensures var first := if start < |text| && text[start] == '@' then start + 1 else start;
            if r.None? then first == |text| || !IsCallChar(text[first])
            else
              && first < r.value <= |text| && (forall k :: first <= k < r.value ==> IsCallChar(text[k]))
              && (r.value == |text| || !IsCallChar(text[r.value]))
  {
    var end := start;
    if end < |text| && text[end] == '@' {
      end := end + 1;
    }
    var first := end;
    while end < |text| && IsCallChar(text[end])
      invariant first <= end <= |text| && RunEnd(text, first) == RunEnd(text, end)
    {
      end := end + 1;
    }
    return if end > first then Some(end) else None;
  }

  /** A text of call characters followed by something else ends where they end. */
  lemma {:induction false} CallEndOf(w: string, x: string, i: nat)
    requires i <= |w| && (forall k :: 0 <= k < |w| ==> IsCallChar(w[k])) && (x == "" || !IsCallChar(x[0]))
    ensures RunEnd(w + x, i) == |w|
    decreases |w| - i
  {
    if i < |w| {
      CallEndOf(w, x, i + 1);
    }
  }

  // ---- the number after a report

  function DigitsEnd(text: string, i: nat, most: nat): (end: nat)
    requires i <= |text|
    ensures i <= end <= |text| && end <= i + most && forall k :: i <= k < end ==> IsDigit(text[k])
    ensures end == |text| || end == i + most || !IsDigit(text[end])
    decreases most
  {
    if most > 0 && i < |text| && IsDigit(text[i]) then DigitsEnd(text, i + 1, most - 1) else i
  }

  function DigitsValue(s: string): (v: nat)
    requires forall i :: 0 <= i < |s| ==> IsDigit(s[i])
  {
    if s == "" then 0
    else
      var last := s[|s| - 1];
      assert IsDigit(last);
      DigitsValue(s[..|s| - 1]) * 10 + (last - '0') as nat
  }

  predicate IsSign(c: char) { c == '+' || c == '-' }

  function WithoutSign(s: string): string { if s != "" && IsSign(s[0]) then s[1..] else s }

  /** A signed number. */
  function IntOf(s: string): Option<int> {
    var body := WithoutSign(s);
    if body == "" || exists i :: 0 <= i < |body| && !IsDigit(body[i]) then None
    else
      var v: int := DigitsValue(body);
      Some(if s[0] == '-' then -v else v)
  }

  /** How many characters a blank, a sign and at most two digits take; one digit less if the number leaves -31 to 31. */
  function SnrLength(rest: string): (n: nat)
    ensures n <= |rest|
  {
    var start := Skip(rest);
    var digits := if start < |rest| && IsSign(rest[start]) then start + 1 else start;
    var end := DigitsEnd(rest, digits, 2);
    if end == digits then 0
    else
      var value := IntOf(rest[start..end]);
      if value.Some? && !(-31 <= value.value <= 31) then end - 1 else end
  }

  method FindSnrEnd(rest: string) returns (n: nat)
    ensures n == SnrLength(rest)
  {
    var end := Skip(rest);
    var start := end;
    if end < |rest| && IsSign(rest[end]) {
      end := end + 1;
    }
    var digits := end;
    while end < |rest| && end - digits < 2 && IsDigit(rest[end])
      invariant digits <= end <= |rest| && end - digits <= 2
      invariant DigitsEnd(rest, digits, 2) == DigitsEnd(rest, end, 2 - (end - digits))
    {
      end := end + 1;
    }
    if end == digits {
      return 0;
    }
    var value := IntOf(rest[start..end]);
    if value.Some? && !(-31 <= value.value <= 31) {
      end := end - 1;
    }
    return end;
  }

  /** A number of at most two digits from -31 to 31. */
  predicate IsReport(s: string) {
    |WithoutSign(s)| <= 2 && IntOf(s).Some? && -31 <= IntOf(s).value <= 31
  }

  lemma {:induction false} ReportValue(s: string)
    requires s != "" && 1 <= |WithoutSign(s)| <= 2
    requires forall i :: 0 <= i < |WithoutSign(s)| ==> IsDigit(WithoutSign(s)[i])
    ensures IntOf(s).Some?
    ensures |WithoutSign(s)| == 1 ==> IsReport(s)
  {
    var body := WithoutSign(s);
    if |body| == 1 {
      assert body[..0] == "";
      assert DigitsValue(body[..0]) == 0;
      assert DigitsValue(body) <= 9;
    }
  }

  lemma {:induction false} SliceWithoutSign(rest: string, k: nat, m: nat, digits: nat)
    requires k < m <= |rest| && digits == (if IsSign(rest[k]) then k + 1 else k)
    ensures digits <= m && WithoutSign(rest[k..m]) == rest[digits..m]
  {
    assert rest[k..m][0] == rest[k] && rest[k..m][1..] == rest[k + 1..m];
  }

  lemma {:induction false} TakenIsReport(rest: string, k: nat, digits: nat, end: nat, n: nat)
    requires k == Skip(rest) && n == SnrLength(rest) && k < |rest|
    requires digits == (if IsSign(rest[k]) then k + 1 else k) && end == DigitsEnd(rest, digits, 2) && digits < end
    ensures digits < n && IsReport(rest[k..n])
  {
    SliceWithoutSign(rest, k, end, digits);
    ReportValue(rest[k..end]);
    if n < end {
      SliceWithoutSign(rest, k, n, digits);
      ReportValue(rest[k..n]);
    }
  }

  /** What is taken after the blank is the longest report that stands there, and nothing if there is none. */
  lemma {:induction false} LongestReport(rest: string)
    ensures var n, k := SnrLength(rest), Skip(rest);
            && (n > 0 ==> k < n && IsReport(rest[k..n]))
            && forall m :: k < m <= |rest| && n < m ==> !IsReport(rest[k..m])
  {
    var n, k := SnrLength(rest), Skip(rest);
    if k < |rest| {
      var digits := if IsSign(rest[k]) then k + 1 else k;
      var end := DigitsEnd(rest, digits, 2);
      if end > digits {
        TakenIsReport(rest, k, digits, end, n);
      }
      forall m | k < m <= |rest| && n < m
        ensures !IsReport(rest[k..m])
      {
        if IsReport(rest[k..m]) {
          ReportIsDigits(rest, k, m, digits);
        }
      }
    }
  }

  lemma {:induction false} ReportIsDigits(rest: string, k: nat, m: nat, digits: nat)
    requires k < m <= |rest| && digits == (if IsSign(rest[k]) then k + 1 else k) && IsReport(rest[k..m])
    ensures digits < m <= DigitsEnd(rest, digits, 2)
  {
    var body, end := WithoutSign(rest[k..m]), DigitsEnd(rest, digits, 2);
    SliceWithoutSign(rest, k, m, digits);
    assert forall i :: 0 <= i < |body| ==> IsDigit(body[i]);
    assert forall i :: digits <= i < m ==> rest[i] == body[i - digits];
  }

  /** A number in the frame, and whether it is one. */
  function PackNum(num: string): (r: (nat, bool))
    ensures r.0 < 64
  {
    if num == "" then (0, false)
    else
      match IntOf(num)
      case None => (31, false)
      case Some(v) => ((if v < -30 then -30 else if v > 31 then 31 else v) + 31, true)
  }

  // ---- which calls are valid

  /** Calls of the base shape are valid and never compound; of the others a test of the shape decides. */
  predicate IsValidCall(compoundShape: string -> bool, call: string) {
    call == PLACEHOLDER || IsValidBase(call) || compoundShape(call)
  }

  predicate IsCompoundCall(compoundShape: string -> bool, call: string) {
    !(!HasPrefix(call, "@") && IsValidBase(call)) && compoundShape(call)
  }

  // ---- the command in the frame

  /** The kind a found token stands for, as it is or without its blanks. */
  function HeaderKind(token: string): Option<CommandKind> {
    if FromWire(token).Some? then FromWire(token) else FromWire(Trim(token))
  }

  function HeaderCode(token: string): (code: Option<nat>)
    ensures code.Some? ==> code.value < 32
  {
    match HeaderKind(token)
    case None => None
    case Some(kind) => Some(match WireCode(kind) case Some(code) => code case None => 31)
  }

  /** The token under which the message goes on. */
  function SentToken(token: string): string {
    if FromWire(Trim(token)).Some? then Trim(token) else token
  }

  /** How tokens and numbers are found after a call, which code a token has, and how it is named afterwards. */
  datatype TokenRules = TokenRules(parse: string -> Option<Found>, number: string -> nat,
                                   code: string -> Option<nat>, sent: string -> string)

  type Grammar = g: TokenRules | GoodRules(g)
    ghost witness TokenRules((x: string) => None, (x: string) => 0, (t: string) => None, (t: string) => t)

  /** Found tokens and numbers stand in the text, and codes have five bits. */
  ghost predicate GoodRules(g: TokenRules) {
    && (forall x: string {:trigger g.parse(x)} :: g.parse(x).Some? ==> g.parse(x).value.text <= x)
    && (forall x: string {:trigger g.number(x)} :: g.number(x) <= |x|)
    && forall t: string {:trigger g.code(t)} :: g.code(t).Some? ==> g.code(t).value < 32
  }

  /** The grammar of the command set. */
  function WireGrammar(): Grammar {
    TokenRules((x: string) => ParseToken(x), (x: string) => SnrLength(x),
               (t: string) => HeaderCode(t), (t: string) => SentToken(t))
  }

  // ---- the frame

  /** A station as the header packer sees it. */
  datatype Caller = Caller(mycall: string, names: seq<string>, compoundShape: string -> bool, grammar: Grammar)

  function NoHeader(target: string, compound: bool, number: string): Framing.Directed {
    Framing.Directed("", 0, target, compound, "", number)
  }

  /** A line taken apart: the call in front, the token and the number after it, and how many characters these take. */
  datatype Taken = Taken(target: string, found: Found, num: string, n: nat)

  predicate HasNumber(kind: CommandKind) { kind == Snr || kind == HeartbeatSnr }

  function TakeApart(g: Grammar, text: string): (p: Option<Taken>)
    ensures p.Some? ==> p.value.n <= |text|
  {
    match CallEnd(text, 0)
    case None => None
    case Some(toEnd) =>
      match g.parse(text[toEnd..])
      case None => None
      case Some(found) =>
        var rest := text[toEnd + |found.text|..];
        var num := rest[..if HasNumber(found.kind) then g.number(rest) else 0];
        Some(Taken(text[..toEnd], found, num, toEnd + |found.text| + |num|))
  }

  function PackDirected(c: Caller, text: string): (d: Framing.Directed)
    ensures d.n <= |text|
  {
    match TakeApart(c.grammar, text)
    case None => NoHeader("", false, "")
    case Some(p) => PackHeader(c, p)
  }

  /** The header of a line taken apart. */
  function PackHeader(c: Caller, p: Taken): (d: Framing.Directed)
    ensures d.n <= p.n
  {
    var from := if IsCompoundCall(c.compoundShape, c.mycall) then PLACEHOLDER else c.mycall;
    if p.target == c.mycall || !IsValidCall(c.compoundShape, p.target) then NoHeader("", false, "")
    else
      var compound := p.target !in c.names && IsCompoundCall(c.compoundShape, p.target);
      PackCalls(c, p, from, if compound then PLACEHOLDER else p.target, compound)
  }

  /** The same with the calls as they are packed. */
  function PackCalls(c: Caller, p: Taken, from: string, to: string, compound: bool): (d: Framing.Directed)
    ensures d.n <= p.n
  {
    match c.grammar.code(p.found.text)
    case None => NoHeader(p.target, compound, "")
    case Some(code) =>
      var (inum, ok) := PackNum(Trim(p.num));
      var number := if ok then p.num else "";
      var (packedFrom, portableFrom) := PackCallsign(c.names, from);
      var (packedTo, portableTo) := PackCallsign(c.names, to);
      if packedFrom == 0 || packedTo == 0 then NoHeader(p.target, compound, number)
      else
        var f := Fields(packedFrom, packedTo, code, portableFrom, portableTo, inum);
        Framing.Directed(HeaderText(f), p.n, p.target, compound, c.grammar.sent(p.found.text), number)
  }

  // ---- the gates in front of the packers

  predicate IsAsciiSpace(c: char) { c in {' ', '\t', '\n', '\r', '\U{000C}'} }

  function AsciiTrimStart(s: string): string {
    if s != "" && IsAsciiSpace(s[0]) then AsciiTrimStart(s[1..]) else s
  }

  predicate CouldBeHeartbeat(text: string) {
    var t := AsciiTrimStart(text);
    "CQ" <= t || "HB" <= t || "HEARTBEAT" <= t || "@ALLCALL" <= t || "@HB" <= t
  }

  predicate CouldBeCompound(text: string) {
    "`" <= AsciiTrimStart(text)
  }

  function ClassOf(c: char): nat { if IsUpper(c) then 1 else if IsDigit(c) then 2 else 0 }

  /** A letter next to a digit, a slash or a group mark among the letters and digits in front. */
  predicate LooksDirected(text: string, i: nat, previous: nat)
    requires i <= |text|
    decreases |text| - i
  {
    if i == |text| then false
    else if text[i] == '/' || text[i] == '@' then true
    else if ClassOf(text[i]) == 0 then false
    else if previous != 0 && previous + ClassOf(text[i]) == 3 then true
    else LooksDirected(text, i + 1, ClassOf(text[i]))
  }

  /** After letters and digits only, a slash or group mark stands here, or a letter next to a digit. */
  predicate DirectedAt(text: string, i: nat) {
    && i < |text| && (forall k :: 0 <= k < i ==> ClassOf(text[k]) != 0)
    && (text[i] == '/' || text[i] == '@' || (i > 0 && ClassOf(text[i - 1]) + ClassOf(text[i]) == 3))
  }

  lemma {:induction false} LooksDirectedFrom(text: string, i: nat)
    requires i <= |text| && forall k :: 0 <= k < i ==> ClassOf(text[k]) != 0 && !DirectedAt(text, k)
    ensures LooksDirected(text, i, if i == 0 then 0 else ClassOf(text[i - 1])) <==> exists j :: DirectedAt(text, j)
    decreases |text| - i
  {
    if i < |text| && !DirectedAt(text, i) {
      if ClassOf(text[i]) != 0 {
        LooksDirectedFrom(text, i + 1);
      }
    }
  }

  method CouldBeDirected(text: string) returns (could: bool)
    ensures could == LooksDirected(text, 0, 0)
    ensures could <==> exists i :: DirectedAt(text, i)
  {
    LooksDirectedFrom(text, 0);
    var previous: nat := 0;
    for i := 0 to |text|
      invariant LooksDirected(text, 0, 0) == LooksDirected(text, i, previous)
    {
      if text[i] == '/' || text[i] == '@' {
        return true;
      }
      var class_ := ClassOf(text[i]);
      if class_ == 0 {
        return false;
      }
      if previous + class_ == 3 && previous != 0 {
        return true;
      }
      previous := class_;
    }
    return false;
  }

  // ---- general calls and heartbeats

  function AfterBlanks(s: string): string {
    if s != "" && IsBlank(s[0]) then AfterBlanks(s[1..]) else s
  }

  predicate WordCharAt(s: string, i: nat) {
    i < |s| && (IsLetterOrDigit(s[i]) || s[i] == '_')
  }

  predicate HasType(s: string, word: string) {
    word <= s && !WordCharAt(s, |word|)
  }

  /** What follows a group in front of a heartbeat; none if the group is not followed by a blank. */
  function AfterGroup(s: string): Option<string> {
    var group := if "@ALLCALL" <= s then 8 else if "@HB" <= s then 3 else 0;
    if group == 0 then Some(s)
    else if Skip(s[group..]) == 0 then None
    else Some(AfterBlanks(s[group..]))
  }

  /** Whether a line begins with a general call or a heartbeat. */
  predicate HeartbeatFound(text: string) {
    match AfterGroup(AfterBlanks(text))
    case None => false
    case Some(s) =>
      || HasType(s, "CQ CQ CQ") || HasType(s, "CQ CONTEST") || HasType(s, "CQ FIELD") || HasType(s, "CQ QRP")
      || HasType(s, "CQ DX") || HasType(s, "CQ FD") || HasType(s, "CQ CQ") || HasType(s, "CQ")
      || (HasType(s, "HEARTBEAT") && !("SNR" <= AfterBlanks(s[9..])))
      || (!HasType(s, "HEARTBEAT") && HasType(s, "HB"))
  }
}
