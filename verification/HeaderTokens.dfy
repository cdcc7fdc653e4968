/** The codes under which the tokens of checksummed commands travel. */
module HeaderTokens {
  import opened Wrappers
  import opened Alphabet
  import opened Callsign
  import opened Commands
  import opened CommandText
  import opened DirectedText

  /** Codes of commands whose payload carries a checksum. */
  predicate ChecksumCode(code: nat) { code in {5, 9, 10, 11, 12, 13, 24} }

  lemma {:induction false} ChecksummedIsCode(kind: CommandKind)
    ensures ChecksumBits(kind) == 16 <==> WireCode(kind).Some? && ChecksumCode(WireCode(kind).value)
  {
  }

  lemma {:induction false} TrimKeepsLast(s: string)
    requires s != "" && !IsBlank(s[|s| - 1])
    ensures Trim(s) != "" && |Trim(s)| <= |s| && Trim(s)[|Trim(s)| - 1] == s[|s| - 1]
  {
    if IsBlank(s[0]) {
      TrimKeepsLast(s[1..]);
    }
  }

  /** The last characters of the checksummed tokens. */
  predicate TokenEnd(c: char) { c in {'>', 'G', ':', 'Y', 'S', '?', 'L', 'D'} }

  lemma {:induction false} TokenEnds(token: string)
    requires IsChecksummedToken(token)
    ensures token != "" && TokenEnd(token[|token| - 1]) && !IsBlank(token[|token| - 1])
    ensures !IsCallChar(token[0])
  {
    ChecksummedTokens(token);
  }

  lemma {:induction false} WireStart(token: string)
    ensures FromWire(token).Some? ==> token != "" && token[0] in {' ', '>', '?'}
  {
  }

  /** A token without its blank starts with a letter, which no token does. */
  lemma {:induction false} DropBlank(s: string)
    requires |s| > 1 && s[0] == ' ' && IsUpper(s[1]) && !IsBlank(s[|s| - 1])
    ensures FromWire(Trim(s)).None?
  {
    assert Trim(s) == s[1..];
    WireStart(s[1..]);
  }

  lemma {:induction false} TokenShape(token: string)
    requires IsChecksummedToken(token) && token != ">"
    ensures |token| > 1 && token[0] == ' ' && IsUpper(token[1])
  {
    ChecksummedTokens(token);
  }

  /** Only the relay mark is a token without its blank. */
  lemma {:induction false} TrimmedToken(token: string)
    requires IsChecksummedToken(token) && token != ">"
    ensures FromWire(Trim(token)).None?
  {
    TokenShape(token);
    TokenEnds(token);
    DropBlank(token);
  }

  lemma {:induction false} RelayIsTrimmed(token: string)
    requires token == ">"
    ensures Trim(token) == token
  {
  }

  /** A found token with a checksummed code is such a token, perhaps with blanks, and goes on as that token. */
  lemma {:induction false} HeaderToken(token: string, code: nat)
    requires token != "" && !IsBlank(token[|token| - 1]) && HeaderCode(token) == Some(code) && ChecksumCode(code)
    ensures IsChecksummedToken(SentToken(token)) && WireCode(FromWire(SentToken(token)).value) == Some(code)
    ensures TokenEnd(token[|token| - 1])
  {
    var kind := HeaderKind(token).value;
    ChecksummedIsCode(kind);
    TrimKeepsLast(token);
    if FromWire(token).Some? {
      TokenEnds(token);
      if token == ">" {
        RelayIsTrimmed(token);
      } else {
        TrimmedToken(token);
      }
    } else {
      TokenEnds(Trim(token));
    }
  }

  /** A checksummed token as it is written has its own code. */
  lemma {:induction false} WrittenToken(token: string)
    requires IsChecksummedToken(token)
    ensures WireCode(FromWire(token).value).Some? && ChecksumCode(WireCode(FromWire(token).value).value)
    ensures HeaderCode(token) == WireCode(FromWire(token).value)
  {
    ChecksummedIsCode(FromWire(token).value);
  }

  /** Report commands end in a letter that no checksummed token ends in. */
  lemma {:induction false} ReportEnds(x: string, found: Found)
    requires ParseToken(x) == Some(found) && HasNumber(found.kind)
    ensures found.text != "" && !TokenEnd(found.text[|found.text| - 1])
  {
    var s := x[Skip(x)..];
    var p := CommandPrefix(s).value;
    ReportIsR(s);
    assert found.text[|found.text| - 1] == s[p.length - 1];
  }

  lemma {:induction false} ReportIsR(s: string)
    requires CommandPrefix(s).Some? && HasNumber(CommandPrefix(s).value.kind)
    ensures ToUpper(s[CommandPrefix(s).value.length - 1]) == 'R'
  {
    var d := FirstWordOf(s).value;
    ReportWord(s);
    assert s[..|d.text|][|d.text| - 1] == s[|d.text| - 1];
  }

  lemma {:induction false} ReportWord(s: string)
    requires s != "" && FirstWordOf(s).Some? && HasNumber(FirstWordOf(s).value.kind)
    ensures FirstWordOf(s).value.text in {"SNR", "HEARTBEAT SNR"}
  {
  }

  /** So a checksummed command takes no number. */
  lemma {:induction false} ChecksummedHasNoNumber(x: string, found: Found, code: nat)
    requires ParseToken(x) == Some(found) && HeaderCode(found.text) == Some(code) && ChecksumCode(code)
    ensures !HasNumber(found.kind) && found.text != "" && !IsBlank(found.text[|found.text| - 1])
    ensures IsChecksummedToken(SentToken(found.text)) && WireCode(FromWire(SentToken(found.text)).value) == Some(code)
  {
    if found == Found(" ", FreeText) {
      BlankIsFreeText(" ");
    }
    HeaderToken(found.text, code);
    if HasNumber(found.kind) {
      ReportEnds(x, found);
    }
  }

  lemma {:induction false} BlankIsFreeText(token: string)
    requires token == " "
    ensures HeaderCode(token) == Some(31)
  {
  }
}
