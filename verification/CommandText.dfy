/** Finding a command in text: the command words, the order in which they are tried, and what ends them. */
module CommandText {
  import opened Wrappers
  import opened Alphabet
  import opened Callsign
  import opened Commands

  /** A command word and what it stands for. */
  datatype Def = Def(text: string, kind: CommandKind)

  predicate SameIgnoringCase(a: string, b: string) {
    |a| == |b| && forall i :: 0 <= i < |a| ==> ToUpper(a[i]) == ToUpper(b[i])
  }

  /** The text begins with the word, which ends there unless it ends itself with a mark. */
  predicate Matches(s: string, word: string)
    requires word != ""
  {
    && |word| <= |s| && SameIgnoringCase(s[..|word|], word)
    && (EndsItself(word) || |word| == |s| || s[|word|] == ' ')
  }

  predicate EndsItself(word: string)
    requires word != ""
  {
    word[|word| - 1] == '?' || word[|word| - 1] == ':'
  }

  /** A word that stands at the start of the text and does not end in a blank. */
  predicate Stands(s: string, d: Def) {
    && d.text != "" && !IsBlank(d.text[|d.text| - 1]) && |d.text| <= |s| && SameIgnoringCase(s[..|d.text|], d.text)
    && (d.kind == QueryMsg ==> |d.text| > 5 && d.text[4] == 'Y')
  }

  function Try(s: string, word: string, kind: CommandKind): (d: Option<Def>)
    requires word != "" && !IsBlank(word[|word| - 1]) && (kind == QueryMsg ==> |word| > 5 && word[4] == 'Y')
    ensures d.Some? ==> Stands(s, d.value)
  {
    if Matches(s, word) then Some(Def(word, kind)) else None
  }

  function Else(a: Option<Def>, b: Option<Def>): Option<Def> { if a.Some? then a else b }

  function QueryWords(s: string): (d: Option<Def>)
    ensures d.Some? ==> Stands(s, d.value)
  {
    Else(Try(s, "QUERY MSGS?", QueryMsgs), Else(Try(s, "QUERY CALL", QueryCall), Else(Try(s, "QUERY MSGS", QueryMsgs),
      Else(Try(s, "QUERY MSG", QueryMsg), Try(s, "QUERY", Query)))))
  }

  function MessageWords(s: string): (d: Option<Def>)
    ensures d.Some? ==> Stands(s, d.value)
  {
    Else(Try(s, "MSG TO:", MsgTo), Try(s, "MSG", Msg))
  }

  function CallWords(s: string): (d: Option<Def>)
    ensures d.Some? ==> Stands(s, d.value)
  {
    Else(Try(s, "CQ CQ CQ", Cq), Else(Try(s, "CQ CONTEST", Cq), Else(Try(s, "CQ FIELD", Cq), Else(Try(s, "CQ QRP", Cq),
      Else(Try(s, "CQ FD", Cq), Else(Try(s, "CQ DX", Cq), Else(Try(s, "CQ CQ", Cq), Try(s, "CQ", Cq))))))))
  }

  function HearWords(s: string): (d: Option<Def>)
    ensures d.Some? ==> Stands(s, d.value)
  {
    var fifth := if |s| > 4 then ToUpper(s[4]) else '\0';
    if fifth == 'I' then Else(Try(s, "HEARING?", HearingQuery), Try(s, "HEARING", Hearing))
    else if fifth == 'T' then Else(Try(s, "HEARTBEAT SNR", HeartbeatSnr), Try(s, "HEARTBEAT", Heartbeat))
    else None
  }

  function HWords(s: string, second: char): (d: Option<Def>)
    ensures d.Some? ==> Stands(s, d.value)
  {
    if second == 'B' then Try(s, "HB", Heartbeat)
    else if second == 'E' then HearWords(s)
    else if second == 'W' then Try(s, "HW CPY?", HowCopyQuery)
    else None
  }

  function SWords(s: string, second: char): (d: Option<Def>)
    ensures d.Some? ==> Stands(s, d.value)
  {
    if second == 'K' then Try(s, "SK", Sk)
    else if second == 'N' then Else(Try(s, "SNR?", SnrQuery), Try(s, "SNR", Snr))
    else if second == 'T' then Else(Try(s, "STATUS?", StatusQuery), Try(s, "STATUS", Status))
    else None
  }

  /** The words that begin with one of the letters up to G. */
  function EarlyWords(s: string, first: char, second: char): (d: Option<Def>)
    ensures d.Some? ==> Stands(s, d.value)
  {
    if first == 'C' && second == 'M' then Try(s, "CMD", Cmd)
    else if first == 'C' && second == 'Q' then CallWords(s)
    else if first == 'A' && second == 'C' then Try(s, "ACK", Ack)
    else if first == 'A' && second == 'G' then Try(s, "AGN?", AgainQuery)
    else if first == 'D' then Try(s, "DIT DIT", DitDit)
    else if first == 'F' then Try(s, "FB", Fb)
    else if first == 'G' then Else(Try(s, "GRID?", GridQuery), Try(s, "GRID", Grid))
    else None
  }

  /** The words that begin with another letter than these, M or Q, or with a digit. */
  function LateWords(s: string, first: char, second: char): (d: Option<Def>)
    ensures d.Some? ==> Stands(s, d.value)
  {
    if first == 'H' then HWords(s, second)
    else if first == 'I' then Else(Try(s, "INFO?", InfoQuery), Try(s, "INFO", Info))
    else if first == 'N' && second == 'A' then Try(s, "NACK", Nack)
    else if first == 'N' && second == 'O' then Try(s, "NO", No)
    else if first == 'R' then Try(s, "RR", Rr)
    else if first == 'S' then SWords(s, second)
    else if first == 'Y' then Try(s, "YES", Yes)
    else if first == '7' then Try(s, "73", SeventyThree)
    else None
  }

  /** The first word, in the order in which those with the same first letters are tried. */
  function FirstWordOf(s: string): (d: Option<Def>)
    requires s != ""
    ensures d.Some? ==> Stands(s, d.value)
  {
    var first := ToUpper(s[0]);
    var second := if |s| > 1 then ToUpper(s[1]) else '\0';
    if first == 'M' then MessageWords(s)
    else if first == 'Q' && second == 'U' then QueryWords(s)
    else if first == 'Q' && second == 'S' then Else(Try(s, "QSL?", QslQuery), Try(s, "QSL", Qsl))
    else if first in {'A', 'C', 'D', 'F', 'G'} then EarlyWords(s, first, second)
    else LateWords(s, first, second)
  }

  function MatchCommand(s: string): (d: Option<Def>)
    ensures d.Some? ==> Stands(s, d.value)
  {
    if s == "" then None
    else
      var found := FirstWordOf(s);
      if found.Some? then found
      else if s[0] == '?' then Some(Def("?", SnrQuery))
      else None
  }

  /** A command found at the start of a text: its kind and length. */
  datatype Prefix = Prefix(kind: CommandKind, length: nat)

  function CommandPrefix(s: string): (p: Option<Prefix>)
    ensures p.Some? ==> 0 < p.value.length <= |s| && !IsBlank(s[p.value.length - 1])
  {
    if s != "" && s[0] == '>' then Some(Prefix(Relay, 1))
    else
      match MatchCommand(s)
      case None => None
      case Some(d) =>
        if d.kind == Cq || d.kind == Heartbeat then None
        else if d.kind == QueryMsg then Some(Prefix(Query, 5))
        else Some(Prefix(d.kind, |d.text|))
  }

  /** The token found after a call: its text, with the blank in front of it, and its kind. */
  datatype Found = Found(text: string, kind: CommandKind)

  /** How many characters one blank takes. */
  function Skip(x: string): (n: nat)
    ensures n <= |x|
  {
    if x != "" && IsBlank(x[0]) then 1 else 0
  }

  /** The token at the start of what follows a call: a command, or else a blank that introduces free text. */
  function ParseToken(x: string): (t: Option<Found>)
    ensures t.Some? ==> t.value.text <= x && t.value.text != ""
    ensures t.Some? ==> t.value == Found(" ", FreeText) || !IsBlank(t.value.text[|t.value.text| - 1])
  {
    match CommandPrefix(x[Skip(x)..])
    case Some(p) => Some(Found(x[..Skip(x) + p.length], p.kind))
    case None => if x != "" && x[0] == ' ' then Some(Found(" ", FreeText)) else None
  }

  // ---- when a written token is the one found

  /** A command word may end here. */
  predicate Clean(rest: string) { rest == "" || rest[0] == ' ' }

  predicate Begins(rest: string, more: string) {
    |more| <= |rest| && SameIgnoringCase(rest[..|more|], more)
  }

  /** A longer word stands here in full. */
  predicate Extends(rest: string, more: string) {
    Begins(rest, more) && Clean(rest[|more|..])
  }

  /**
   * Whether a checksummed command that is written as `token` is found as written when `rest` follows: always for the
   * relay mark and for tokens that end in a mark; otherwise the word must end there, and must not go on as a longer
   * one.
   */
  predicate FoundAsWritten(token: string, rest: string) {
    if token == ">" || token == " MSG TO:" || token == " QUERY MSGS?" then true
    else if token == " MSG" then Clean(rest) && !Begins(rest, " TO:")
    else if token == " QUERY" then
      Clean(rest) && !Begins(rest, " MSGS?") && !Extends(rest, " CALL") && !Extends(rest, " MSGS")
    else Clean(rest)
  }

  /** A word and its continuation match when the continuation does. */
  lemma {:induction false} MatchesOn(word: string, rest: string, whole: string, more: string, s: string)
    requires whole == word + more && whole != "" && s == word + rest
    ensures Matches(s, whole) <==> Begins(rest, more) && (EndsItself(whole) || Clean(rest[|more|..]))
  {
    if |whole| <= |s| {
      assert s[..|whole|] == word + rest[..|more|];
      assert |more| < |rest| ==> s[|whole|] == rest[|more|];
      assert forall i :: 0 <= i < |word| ==> s[..|whole|][i] == whole[i];
      assert forall i :: 0 <= i < |more| ==> s[..|whole|][|word| + i] == rest[i] && whole[|word| + i] == more[i];
    }
  }

  lemma {:induction false} MatchesSame(word: string, rest: string, s: string)
    requires word != "" && s == word + rest
    ensures Matches(s, word) <==> EndsItself(word) || Clean(rest)
  {
    MatchesOn(word, rest, word, "", s);
    assert word + "" == word && rest[0..] == rest;
  }

  lemma {:induction false} MessageFound(rest: string, s: string)
    requires s == "MSG" + rest
    ensures MessageWords(s) == if Begins(rest, " TO:") then Some(Def("MSG TO:", MsgTo))
                               else if Clean(rest) then Some(Def("MSG", Msg)) else None
  {
    MatchesOn("MSG", rest, "MSG TO:", " TO:", s);
    MatchesSame("MSG", rest, s);
  }

  lemma {:induction false} MessageToFound(rest: string, s: string)
    requires s == "MSG TO:" + rest
    ensures MessageWords(s) == Some(Def("MSG TO:", MsgTo))
  {
    MatchesSame("MSG TO:", rest, s);
  }

  /** The first of five candidates. */
  function Pick(a: bool, b: bool, c: bool, d: bool, e: bool): Option<Def> {
    if a then Some(Def("QUERY MSGS?", QueryMsgs))
    else if b then Some(Def("QUERY CALL", QueryCall))
    else if c then Some(Def("QUERY MSGS", QueryMsgs))
    else if d then Some(Def("QUERY MSG", QueryMsg))
    else if e then Some(Def("QUERY", Query)) else None
  }

  lemma {:induction false} QueryIsPick(s: string)
    ensures QueryWords(s) == Pick(Matches(s, "QUERY MSGS?"), Matches(s, "QUERY CALL"), Matches(s, "QUERY MSGS"),
                                  Matches(s, "QUERY MSG"), Matches(s, "QUERY"))
  {
  }

  lemma {:induction false} QueryFound(rest: string, s: string)
    requires s == "QUERY" + rest
    ensures QueryWords(s) == Pick(Begins(rest, " MSGS?"), Extends(rest, " CALL"), Extends(rest, " MSGS"),
                                  Extends(rest, " MSG"), Clean(rest))
  {
    QueryIsPick(s);
    QueryMatches(rest, s, "QUERY MSGS?", " MSGS?");
    QueryMatches(rest, s, "QUERY CALL", " CALL");
    QueryMatches(rest, s, "QUERY MSGS", " MSGS");
    QueryMatches(rest, s, "QUERY MSG", " MSG");
    MatchesSame("QUERY", rest, s);
  }

  lemma {:induction false} QueryMatches(rest: string, s: string, whole: string, more: string)
    requires s == "QUERY" + rest && whole == "QUERY" + more && more != ""
    ensures Matches(s, whole) <==> Begins(rest, more) && (EndsItself(whole) || Clean(rest[|more|..]))
  {
    MatchesOn("QUERY", rest, whole, more, s);
  }

  // ---- the tokens of the checksummed commands

  lemma {:induction false} AfterBlank(x: string, s: string)
    requires x == " " + s
    ensures ParseToken(x) == match CommandPrefix(s)
                             case Some(p) => Some(Found(" " + s[..p.length], p.kind))
                             case None => Some(Found(" ", FreeText))
  {
    var p := CommandPrefix(s);
    BlankInFront(x, s, if p.Some? then p.value.length else 0);
    ParseAfter(x, s, p);
  }

  lemma {:induction false} ParseAfter(x: string, s: string, p: Option<Prefix>)
    requires x != "" && x[0] == ' ' && x[1..] == s && p == CommandPrefix(s)
    ensures ParseToken(x) == if p.Some? then Some(Found(x[..1 + p.value.length], p.value.kind))
                             else Some(Found(" ", FreeText))
  {
  }

  lemma {:induction false} BlankInFront(x: string, s: string, n: nat)
    requires x == " " + s && n <= |s|
    ensures x != "" && x[0] == ' ' && x[1..] == s && x[..1 + n] == " " + s[..n]
  {
  }

  lemma {:induction false} PrefixOf(s: string, d: Option<Def>)
    requires s != "" && IsUpper(s[0]) && FirstWordOf(s) == d
    ensures CommandPrefix(s) == match d
                                case None => None
                                case Some(w) =>
                                  if w.kind == Cq || w.kind == Heartbeat then None
                                  else if w.kind == QueryMsg then Some(Prefix(Query, 5))
                                  else Some(Prefix(w.kind, |w.text|))
  {
  }

  lemma {:induction false} SpaceOrAs(token: string, x: string, s: string, rest: string, word: string)
    requires x == token + rest && token == " " + word && s == word + rest
    ensures x == " " + s
  {
  }

  /** A message command: `TO:` after it makes it another one. */
  lemma {:induction false} MessageToken(rest: string, token: string)
    requires token == " MSG"
    ensures var t := ParseToken(token + rest);
            t.Some? && (t.value.text == token <==> FoundAsWritten(token, rest))
    ensures Begins(rest, " TO:") ==>
      |ParseToken(token + rest).value.text| == |token| + 4 && ParseToken(token + rest).value.kind == MsgTo
  {
    var s := "MSG" + rest;
    MessageFound(rest, s);
    assert s[0] == 'M';
    PrefixOf(s, MessageWords(s));
    SpaceOrAs(token, token + rest, s, rest, "MSG");
    AfterBlank(token + rest, s);
  }

  lemma {:induction false} MessageToToken(rest: string, token: string)
    requires token == " MSG TO:"
    ensures ParseToken(token + rest) == Some(Found(token, MsgTo))
  {
    var s := "MSG TO:" + rest;
    MessageToFound(rest, s);
    assert s[0] == 'M';
    PrefixOf(s, MessageWords(s));
    SpaceOrAs(token, token + rest, s, rest, "MSG TO:");
    AfterBlank(token + rest, s);
    assert s[..7] == "MSG TO:";
  }

  lemma {:induction false} RelayToken(rest: string, token: string)
    requires token == ">"
    ensures ParseToken(token + rest) == Some(Found(token, Relay))
  {
    assert (token + rest)[0..] == token + rest && (token + rest)[..1] == token;
  }

  lemma {:induction false} CommandToken(rest: string, token: string)
    requires token == " CMD"
    ensures var t := ParseToken(token + rest);
            t.Some? && (t.value.text == token <==> FoundAsWritten(token, rest))
  {
    var s := "CMD" + rest;
    MatchesSame("CMD", rest, s);
    assert s[0] == 'C' && s[1] == 'M';
    PrefixOf(s, Try(s, "CMD", Cmd));
    SpaceOrAs(token, token + rest, s, rest, "CMD");
    AfterBlank(token + rest, s);
    assert s[..3] == "CMD";
  }

  lemma {:induction false} BeginsOther(rest: string, more: string, i: nat)
    requires i < |more| && i < |rest| && ToUpper(rest[i]) != ToUpper(more[i])
    ensures !Begins(rest, more)
  {
    if |more| <= |rest| {
      assert rest[..|more|][i] == rest[i];
    }
  }

  lemma {:induction false} BeginsSame(more: string, r: string)
    ensures Begins(more + r, more) && (more + r)[|more|..] == r
  {
    assert (more + r)[..|more|] == more;
  }

  /** What a text that starts with the query word is found to start with. */
  function QueryToken(rest: string): string {
    if Begins(rest, " MSGS?") then " QUERY" + rest[..6]
    else if Extends(rest, " CALL") || Extends(rest, " MSGS") then " QUERY" + rest[..5]
    else if Clean(rest) then " QUERY" else " "
  }

  lemma {:induction false} QueryIsToken(rest: string, x: string)
    requires x == " QUERY" + rest
    ensures ParseToken(x).Some? && ParseToken(x).value.text == QueryToken(rest)
  {
    var s := "QUERY" + rest;
    QueryFound(rest, s);
    assert s[0] == 'Q' && s[1] == 'U';
    PrefixOf(s, QueryWords(s));
    SpaceOrAs(" QUERY", x, s, rest, "QUERY");
    AfterBlank(x, s);
    QuerySlices(s, rest);
  }

  lemma {:induction false} QuerySlices(s: string, rest: string)
    requires s == "QUERY" + rest
    ensures " " + s[..5] == " QUERY"
    ensures |rest| >= 5 ==> " " + s[..10] == " QUERY" + rest[..5]
    ensures |rest| >= 6 ==> " " + s[..11] == " QUERY" + rest[..6]
    ensures Extends(rest, " MSG") ==> Clean(rest)
  {
    if |rest| >= 5 {
      assert s[..10] == "QUERY" + rest[..5];
    }
    if |rest| >= 6 {
      assert s[..11] == "QUERY" + rest[..6];
    }
    if Extends(rest, " MSG") {
      assert rest[..4][0] == rest[0];
    }
  }

  lemma {:induction false} QueryPlain(rest: string, token: string)
    requires token == " QUERY"
    ensures QueryToken(rest) == token <==> FoundAsWritten(token, rest)
  {
  }

  lemma {:induction false} QueryCallRest(r: string, rest: string)
    requires rest == " CALL" + r
    ensures QueryToken(rest) == " QUERY CALL" <==> Clean(r)
  {
    BeginsOther(rest, " MSGS?", 1);
    BeginsOther(rest, " MSGS", 1);
    BeginsSame(" CALL", r);
    assert rest[..5] == " CALL" && " QUERY" + " CALL" == " QUERY CALL";
  }

  lemma {:induction false} QueryMessagesRest(r: string, rest: string)
    requires rest == " MSGS" + r
    ensures QueryToken(rest) == " QUERY MSGS" <==> Clean(r)
  {
    BeginsOther(rest, " CALL", 1);
    BeginsSame(" MSGS", r);
    assert rest[..5] == " MSGS" && " QUERY" + " MSGS" == " QUERY MSGS";
    if Begins(rest, " MSGS?") {
      assert rest[..6][5] == r[0];
    }
  }

  lemma {:induction false} QueryMarkedRest(r: string, rest: string)
    requires rest == " MSGS?" + r
    ensures QueryToken(rest) == " QUERY MSGS?"
  {
    BeginsSame(" MSGS?", r);
    assert rest[..6] == " MSGS?" && " QUERY" + " MSGS?" == " QUERY MSGS?";
  }

  /** The found token of a text that goes on after the query word. */
  lemma {:induction false} QueryGoesOn(token: string, more: string, rest: string, after: string)
    requires token == " QUERY" + more && after == more + rest
    ensures var t := ParseToken(token + rest);
            t.Some? && t.value.text == QueryToken(after)
  {
    assert token + rest == " QUERY" + after;
    QueryIsToken(after, token + rest);
  }

  lemma {:induction false} QueryTokenIsFound(token: string, rest: string)
    requires token == " QUERY"
    ensures QueryToken("" + rest) == token <==> FoundAsWritten(token, rest)
  {
    assert "" + rest == rest;
    QueryPlain(rest, token);
  }

  lemma {:induction false} QueryCallIsFound(token: string, rest: string)
    requires token == " QUERY CALL"
    ensures QueryToken(" CALL" + rest) == token <==> FoundAsWritten(token, rest)
  {
    QueryCallRest(rest, " CALL" + rest);
  }

  lemma {:induction false} QueryMessagesIsFound(token: string, rest: string)
    requires token == " QUERY MSGS"
    ensures QueryToken(" MSGS" + rest) == token <==> FoundAsWritten(token, rest)
  {
    QueryMessagesRest(rest, " MSGS" + rest);
  }

  lemma {:induction false} QueryMarkedIsFound(token: string, rest: string)
    requires token == " QUERY MSGS?"
    ensures QueryToken(" MSGS?" + rest) == token && FoundAsWritten(token, rest)
  {
    QueryMarkedRest(rest, " MSGS?" + rest);
  }

  lemma {:induction false} AnyQueryIsFound(token: string, rest: string)
    requires token in {" QUERY", " QUERY MSGS", " QUERY MSGS?", " QUERY CALL"}
    ensures var t := ParseToken(token + rest);
            t.Some? && (t.value.text == token <==> FoundAsWritten(token, rest))
  {
    if token == " QUERY" {
      QueryTokenIsFound(token, rest);
      QueryGoesOn(token, "", rest, "" + rest);
    } else if token == " QUERY CALL" {
      QueryCallIsFound(token, rest);
      QueryGoesOn(token, " CALL", rest, " CALL" + rest);
    } else if token == " QUERY MSGS" {
      QueryMessagesIsFound(token, rest);
      QueryGoesOn(token, " MSGS", rest, " MSGS" + rest);
    } else {
      QueryMarkedIsFound(token, rest);
      QueryGoesOn(token, " MSGS?", rest, " MSGS?" + rest);
    }
  }

  /** The token of a checksummed command is found as written if and only if what follows does not extend it. */
  lemma {:induction false} TokenIsFound(token: string, rest: string)
    requires IsChecksummedToken(token)
    ensures var t := ParseToken(token + rest);
            t.Some? && (t.value.text == token <==> FoundAsWritten(token, rest))
  {
    ChecksummedTokens(token);
    if token == ">" {
      RelayToken(rest, token);
    } else if token == " MSG" {
      MessageToken(rest, token);
    } else if token == " MSG TO:" {
      MessageToToken(rest, token);
    } else if token == " CMD" {
      CommandToken(rest, token);
    } else {
      AnyQueryIsFound(token, rest);
    }
  }
}
