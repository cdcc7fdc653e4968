/** A transmitting station, and what it makes of a line that a plain station is addressed with. */
module Station {
  import opened Wrappers
  import opened Callsign
  import opened BaseCalls
  import opened Commands
  import opened CommandText
  import opened DirectedText
  import opened DirectedFrame
  import opened FrameParse
  import Framing
  import Reassembly

  /** A station; the packers of heartbeats and compound frames are arbitrary once their gates are passed. */
  datatype Station = Station(caller: Caller, mygrid: string, selectedCall: string, heartbeat: string -> (string, nat),
                             compound: string -> (string, nat), data: string -> (string, nat), rules: Reassembly.Rules)

  function HeartbeatOf(st: Station, line: string): (string, nat) {
    if CouldBeHeartbeat(line) && HeartbeatFound(line) then st.heartbeat(line) else ("", 0)
  }

  function CompoundOf(st: Station, line: string): (string, nat) {
    if CouldBeCompound(line) then st.compound(line) else ("", 0)
  }

  function DirectedOf(st: Station, line: string): (d: Framing.Directed)
    ensures d.n <= |line|
  {
    if LooksDirected(line, 0, 0) then PackDirected(st.caller, line) else NoHeader("", false, "")
  }

  /** A line that is already addressed: to everybody, as a general call or heartbeat, or to a valid call. */
  predicate IsAddressed(st: Station, line: string) {
    || "@ALLCALL" <= line || "CQ" <= line || "HB" <= line
    || (CallEnd(line, 0).Some? && CallEnd(line, 0).value > 3
        && IsValidCall(st.caller.compoundShape, line[..CallEnd(line, 0).value]))
  }

  function EnvOf(st: Station): Framing.Env {
    Framing.Env(st.caller.mycall, st.mygrid, st.selectedCall, IsCompoundCall(st.caller.compoundShape, st.caller.mycall),
                (line: string) => HeartbeatOf(st, line), (line: string) => CompoundOf(st, line),
                (line: string) => DirectedOf(st, line), (line: string) => st.compound(line).0, st.data,
                (line: string) => IsAddressed(st, line), st.rules)
  }

  /** No packer takes more than the line. */
  ghost predicate WellBehaved(st: Station) {
    && (forall line: string {:trigger st.heartbeat(line)} :: st.heartbeat(line).1 <= |line|)
    && (forall line: string {:trigger st.compound(line)} :: st.compound(line).1 <= |line|)
    && (forall line: string {:trigger st.data(line)} :: st.data(line).1 <= |line|)
  }

  lemma {:induction false} HeartbeatFits(st: Station, line: string, r: (string, nat))
    requires WellBehaved(st) && r == HeartbeatOf(st, line)
    ensures r.1 <= |line|
  {
    assert st.heartbeat(line).1 <= |line|;
  }

  lemma {:induction false} CompoundFits(st: Station, line: string, r: (string, nat))
    requires WellBehaved(st) && r == CompoundOf(st, line)
    ensures r.1 <= |line|
  {
    assert st.compound(line).1 <= |line|;
  }

  lemma {:induction false} DirectedFits(st: Station, line: string, d: Framing.Directed)
    requires d == DirectedOf(st, line)
    ensures d.n <= |line|
  {
  }

  ghost predicate IsEnvOf(env: Framing.Env, st: Station) {
    forall b {:trigger Unfold(b)} :: Unfold(b) ==> env == EnvOf(st)
  }

  lemma {:induction false} HeartbeatsFit(st: Station, env: Framing.Env)
    requires WellBehaved(st) && IsEnvOf(env, st)
    ensures forall line: string :: env.heartbeat(line).1 <= |line|
  {
    assert Unfold(true);
    forall line: string
      ensures env.heartbeat(line).1 <= |line|
    {
      HeartbeatFits(st, line, env.heartbeat(line));
    }
  }

  lemma {:induction false} CompoundsFit(st: Station, env: Framing.Env)
    requires WellBehaved(st) && IsEnvOf(env, st)
    ensures forall line: string :: env.compound(line).1 <= |line|
  {
    assert Unfold(true);
    forall line: string
      ensures env.compound(line).1 <= |line|
    {
      CompoundFits(st, line, env.compound(line));
    }
  }

  lemma {:induction false} HeadersFit(st: Station, env: Framing.Env)
    requires IsEnvOf(env, st)
    ensures forall line: string :: env.directed(line).n <= |line|
  {
    assert Unfold(true);
    forall line: string
      ensures env.directed(line).n <= |line|
    {
      DirectedFits(st, line, env.directed(line));
    }
  }

  lemma {:induction false} DataFits(st: Station, env: Framing.Env)
    requires WellBehaved(st) && IsEnvOf(env, st)
    ensures forall line: string :: env.data(line).1 <= |line|
  {
    assert Unfold(true);
  }

  lemma {:induction false} EnvIsWellBehaved(st: Station, env: Framing.Env)
    requires WellBehaved(st) && IsEnvOf(env, st)
    ensures Framing.WellBehaved(env)
  {
    HeartbeatsFit(st, env);
    CompoundsFit(st, env);
    HeadersFit(st, env);
    DataFits(st, env);
  }

  // ---- lines that begin with a plain call

  /** What cannot continue a call: the first character after it, if any. */
  predicate EndsCall(x: string) { x == "" || !IsCallChar(x[0]) }

  lemma {:induction false} WrittenIsCall(call: string, portable: bool)
    requires Party(call)
    ensures forall k :: 0 <= k < |Written(call, portable)| ==> IsCallChar(Written(call, portable)[k])
  {
  }

  lemma {:induction false} PartyEnds(call: string, portable: bool, x: string, line: string)
    requires Party(call) && EndsCall(x) && line == Written(call, portable) + x
    ensures CallEnd(line, 0) == Some(|Written(call, portable)|)
  {
    WrittenIsCall(call, portable);
    CallEndOf(Written(call, portable), x, 0);
    assert line[0] == call[0] && IsAlnum(call[0]);
  }

  lemma {:induction false} FirstIsPlain(call: string, rest: string, line: string)
    requires Party(call) && line == call + rest
    ensures |line| > 2 && IsAlnum(line[0]) && IsAlnum(line[1])
    ensures IsAlnum(line[2]) && (IsDigit(line[1]) || IsDigit(line[2]))
    ensures AsciiTrimStart(line) == line && AfterBlanks(line) == line
  {
    assert line[0] == call[0] && line[1] == call[1] && line[2] == call[2];
  }

  lemma {:induction false} NoType(s: string, word: string)
    requires |s| > 2 && IsAlnum(s[1]) && IsAlnum(s[2]) && (IsDigit(s[1]) || IsDigit(s[2]))
    requires |word| == 2 || (|word| > 2 && (word[2] == ' ' || (!IsDigit(word[1]) && !IsDigit(word[2]))))
    ensures !HasType(s, word)
  {
    if |word| > 2 && word <= s {
      SecondAndThird(s, word);
    }
  }

  lemma {:induction false} SecondAndThird(s: string, word: string)
    requires |word| > 2 && word <= s
    ensures s[1] == word[1] && s[2] == word[2]
  {
  }

  lemma {:induction false} PartyIsNoHeartbeat(call: string, rest: string, line: string)
    requires Party(call) && line == call + rest
    ensures !HeartbeatFound(line)
  {
    FirstIsPlain(call, rest, line);
    NoType(line, "CQ CQ CQ");
    NoType(line, "CQ CONTEST");
    NoType(line, "CQ FIELD");
    NoType(line, "CQ QRP");
    NoType(line, "CQ DX");
    NoType(line, "CQ FD");
    NoType(line, "CQ CQ");
    NoType(line, "CQ");
    NoType(line, "HEARTBEAT");
    NoType(line, "HB");
  }

  /** The scan meets the pair of a letter and a digit. */
  lemma {:induction false} ScanMeetsPair(text: string, i: nat, j: nat, previous: nat)
    requires i + 1 < |text| && PairAt(text, i) && (forall k :: 0 <= k <= i + 1 ==> IsAlnum(text[k]))
    requires j <= i || (j == i + 1 && previous == ClassOf(text[i]))
    ensures LooksDirected(text, j, previous)
    decreases |text| - j
  {
    if j <= i {
      ScanMeetsPair(text, i, j + 1, ClassOf(text[j]));
    }
  }

  lemma {:induction false} PartyLooksDirected(call: string, rest: string, line: string)
    requires Party(call) && line == call + rest
    ensures LooksDirected(line, 0, 0)
  {
    var i :| 0 <= i < |call| && PairAt(call, i);
    assert forall k :: 0 <= k < |call| ==> line[k] == call[k];
    ScanMeetsPair(line, i, 0, 0);
  }

  /** Only the directed packer is asked about such a line. */
  lemma {:induction false} PartyIsDirected(st: Station, call: string, portable: bool, x: string, line: string)
    requires Party(call) && line == Written(call, portable) + x
    ensures HeartbeatOf(st, line) == ("", 0) && CompoundOf(st, line) == ("", 0)
    ensures DirectedOf(st, line) == PackDirected(st.caller, line)
  {
    var rest := (if portable then "/P" else "") + x;
    assert line == call + rest;
    PartyIsNoHeartbeat(call, rest, line);
    FirstIsPlain(call, rest, line);
    PartyLooksDirected(call, rest, line);
  }

  /** The command, number and length that are found after the call. */
  lemma {:induction false} PartyIsTakenApart(g: Grammar, call: string, portable: bool, x: string, line: string,
                                             found: Option<Found>)
    requires Party(call) && EndsCall(x) && line == Written(call, portable) + x && found == g.parse(x)
    ensures found.None? ==> TakeApart(g, line).None?
    ensures found.Some? ==>
      var w, t, rest := Written(call, portable), found.value, x[|found.value.text|..];
      var num := rest[..if HasNumber(t.kind) then g.number(rest) else 0];
      TakeApart(g, line) == Some(Taken(w, t, num, |w| + |t.text| + |num|))
  {
    var w := Written(call, portable);
    PartyEnds(call, portable, x, line);
    TakenAfter(g, w, x, line, found);
  }

  /** What is taken from a line once the call in front ends where it should. */
  lemma {:induction false} TakenAfter(g: Grammar, w: string, x: string, line: string, found: Option<Found>)
    requires line == w + x && CallEnd(line, 0) == Some(|w|) && found == g.parse(x)
    ensures found.None? ==> TakeApart(g, line).None?
    ensures found.Some? ==>
      var t, rest := found.value, x[|found.value.text|..];
      var num := rest[..if HasNumber(t.kind) then g.number(rest) else 0];
      TakeApart(g, line) == Some(Taken(w, t, num, |w| + |t.text| + |num|))
  {
    assert line[..|w|] == w && line[|w|..] == x;
    if found.Some? {
      assert line[|w| + |found.value.text|..] == x[|found.value.text|..];
    }
  }

  /** The fields of a header between two plain calls. */
  function HeaderFields(from: string, portableFrom: bool, target: string, portableTo: bool,
                        code: nat, number: nat): Fields
    requires WordOf(from).Some? && WordOf(target).Some?
  {
    Fields(PackWord(WordOf(from).value), PackWord(WordOf(target).value), code, portableFrom, portableTo, number)
  }

  /** Whether two plain calls make a header at all: they differ as written, and neither packs to zero. */
  predicate MakeHeader(from: string, portableFrom: bool, target: string, portableTo: bool) {
    Written(from, portableFrom) != Written(target, portableTo) && from != "000AAA" && target != "000AAA"
  }

  lemma {:induction false} PartyPacks(names: seq<string>, call: string, portable: bool)
    requires Party(call)
    ensures WordOf(call).Some?
    ensures PackCallsign(names, Written(call, portable)) == (PackWord(WordOf(call).value), portable)
  {
    PartyIsPlain(call);
    CallsignReadsBack(names, call, portable);
  }

  lemma {:induction false} PartyIsNotCompound(shape: string -> bool, call: string, portable: bool)
    requires Party(call)
    ensures !IsCompoundCall(shape, Written(call, portable)) && IsValidCall(shape, Written(call, portable))
  {
    WrittenIsValid(call, portable);
    assert Written(call, portable)[0] == call[0] && IsAlnum(call[0]);
  }

  lemma {:induction false} PartyCalls(c: Caller, from: string, portableFrom: bool, target: string, portableTo: bool,
                                      p: Taken)
    requires Party(from) && Party(target) && WordOf(from).Some? && WordOf(target).Some?
    ensures var d := PackCalls(c, p, Written(from, portableFrom), Written(target, portableTo), false);
            var code := c.grammar.code(p.found.text);
            if from == "000AAA" || target == "000AAA" || code.None? then d.n == 0
            else
              var f := HeaderFields(from, portableFrom, target, portableTo, code.value, PackNum(Trim(p.num)).0);
              && d.frame == HeaderText(f) && d.n == p.n && d.target == p.target && !d.compound
              && d.command == c.grammar.sent(p.found.text)
  {
    PartyPacks(c.names, from, portableFrom);
    PartyPacks(c.names, target, portableTo);
    ZeroParty(from);
    ZeroParty(target);
  }

  lemma {:induction false} PartyIsPacked(c: Caller, from: string, portableFrom: bool, target: string, portableTo: bool,
                                         p: Taken)
    requires p.target == Written(target, portableTo) && Party(from) && Party(target)
    requires c.mycall == Written(from, portableFrom)
    ensures PackHeader(c, p) == if c.mycall == p.target then NoHeader("", false, "")
                                else PackCalls(c, p, c.mycall, p.target, false)
  {
    PartyIsNotCompound(c.compoundShape, from, portableFrom);
    PartyIsNotCompound(c.compoundShape, target, portableTo);
  }

  /** The header between two plain calls: it is made if and only if they make one and the token has a code. */
  lemma {:induction false} PartyHeader(c: Caller, from: string, portableFrom: bool, target: string, portableTo: bool,
                                       p: Taken)
    requires p.target == Written(target, portableTo) && Party(from) && Party(target)
    requires c.mycall == Written(from, portableFrom)
    ensures WordOf(from).Some? && WordOf(target).Some?
    ensures var d := PackHeader(c, p);
            var code := c.grammar.code(p.found.text);
            if !MakeHeader(from, portableFrom, target, portableTo) || code.None? then d.n == 0
            else
              var f := HeaderFields(from, portableFrom, target, portableTo, code.value, PackNum(Trim(p.num)).0);
              && d.frame == HeaderText(f) && d.n == p.n && d.target == p.target && !d.compound
              && d.command == c.grammar.sent(p.found.text)
  {
    PartyPacks(c.names, from, portableFrom);
    PartyPacks(c.names, target, portableTo);
    PartyIsPacked(c, from, portableFrom, target, portableTo, p);
    PartyCalls(c, from, portableFrom, target, portableTo, p);
  }
}
