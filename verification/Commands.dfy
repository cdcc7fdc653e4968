/** Directed commands: wire tokens, wire codes, and which of them carry a buffered, checksummed payload. */
module Commands {
  import opened Wrappers

  datatype CommandKind =
    SnrQuery | DitDit | Nack | HearingQuery | GridQuery | Relay | StatusQuery | Status | Hearing | Msg | MsgTo | Query
    | QueryMsgs | QueryCall | Ack | Grid | InfoQuery | Info | Fb | HowCopyQuery | Sk | Rr | QslQuery | Qsl | Cmd | Snr
    | No | Yes | SeventyThree | HeartbeatSnr | AgainQuery | FreeText | Heartbeat | Cq | QueryMsg

  /** Stands for a callsign that comes in a compound frame of its own. */
  const PLACEHOLDER: string := "<....>"

  /** The canonical token of a kind. */
  function WireToken(kind: CommandKind): string {
    match kind
    case SnrQuery => " SNR?"
    case DitDit => " DIT DIT"
    case Nack => " NACK"
    case HearingQuery => " HEARING?"
    case GridQuery => " GRID?"
    case Relay => ">"
    case StatusQuery => " STATUS?"
    case Status => " STATUS"
    case Hearing => " HEARING"
    case Msg => " MSG"
    case MsgTo => " MSG TO:"
    case Query => " QUERY"
    case QueryMsg => " QUERY"
    case QueryMsgs => " QUERY MSGS"
    case QueryCall => " QUERY CALL"
    case Ack => " ACK"
    case Grid => " GRID"
    case InfoQuery => " INFO?"
    case Info => " INFO"
    case Fb => " FB"
    case HowCopyQuery => " HW CPY?"
    case Sk => " SK"
    case Rr => " RR"
    case QslQuery => " QSL?"
    case Qsl => " QSL"
    case Cmd => " CMD"
    case Snr => " SNR"
    case No => " NO"
    case Yes => " YES"
    case SeventyThree => " 73"
    case HeartbeatSnr => " HEARTBEAT SNR"
    case AgainQuery => " AGN?"
    case FreeText => " "
    case Heartbeat => " HEARTBEAT"
    case Cq => " CQ"
  }

  /** The command a decoded token stands for: the canonical tokens and four aliases. */
  function FromWire(token: string): (kind: Option<CommandKind>) {
    match token
    case " HEARTBEAT" => Some(Heartbeat)
    case " HB" => Some(Heartbeat)
    case " CQ" => Some(Cq)
    case " SNR?" => Some(SnrQuery)
    case "?" => Some(SnrQuery)
    case " DIT DIT" => Some(DitDit)
    case " NACK" => Some(Nack)
    case " HEARING?" => Some(HearingQuery)
    case " GRID?" => Some(GridQuery)
    case ">" => Some(Relay)
    case " STATUS?" => Some(StatusQuery)
    case " STATUS" => Some(Status)
    case " HEARING" => Some(Hearing)
    case " MSG" => Some(Msg)
    case " MSG TO:" => Some(MsgTo)
    case " QUERY" => Some(Query)
    case " QUERY MSGS" => Some(QueryMsgs)
    case " QUERY MSGS?" => Some(QueryMsgs)
    case " QUERY CALL" => Some(QueryCall)
    case " ACK" => Some(Ack)
    case " GRID" => Some(Grid)
    case " INFO?" => Some(InfoQuery)
    case " INFO" => Some(Info)
    case " FB" => Some(Fb)
    case " HW CPY?" => Some(HowCopyQuery)
    case " SK" => Some(Sk)
    case " RR" => Some(Rr)
    case " QSL?" => Some(QslQuery)
    case " QSL" => Some(Qsl)
    case " CMD" => Some(Cmd)
    case " SNR" => Some(Snr)
    case " NO" => Some(No)
    case " YES" => Some(Yes)
    case " 73" => Some(SeventyThree)
    case " HEARTBEAT SNR" => Some(HeartbeatSnr)
    case " AGN?" => Some(AgainQuery)
    case " " => Some(FreeText)
    case "  " => Some(FreeText)
    case _ => None
  }

  /** Reading a canonical token gives its kind back, except that a stored-message query reads as a query. */
  lemma {:induction false} TokenReadsBack(kind: CommandKind)
    ensures FromWire(WireToken(kind)) == Some(if kind == QueryMsg then Query else kind)
  {
  }

  /** The five-bit code of a kind; heartbeats and general calls travel in frames of their own. */
  function WireCode(kind: CommandKind): (code: Option<nat>)
    ensures code.Some? ==> code.value < 32
  {
    match kind
    case SnrQuery => Some(0)
    case DitDit => Some(1)
    case Nack => Some(2)
    case HearingQuery => Some(3)
    case GridQuery => Some(4)
    case Relay => Some(5)
    case StatusQuery => Some(6)
    case Status => Some(7)
    case Hearing => Some(8)
    case Msg => Some(9)
    case MsgTo => Some(10)
    case Query => Some(11)
    case QueryMsgs => Some(12)
    case QueryCall => Some(13)
    case Ack => Some(14)
    case Grid => Some(15)
    case InfoQuery => Some(16)
    case Info => Some(17)
    case Fb => Some(18)
    case HowCopyQuery => Some(19)
    case Sk => Some(20)
    case Rr => Some(21)
    case QslQuery => Some(22)
    case Qsl => Some(23)
    case Cmd => Some(24)
    case Snr => Some(25)
    case No => Some(26)
    case Yes => Some(27)
    case SeventyThree => Some(28)
    case HeartbeatSnr => Some(29)
    case AgainQuery => Some(30)
    case FreeText => Some(31)
    case Heartbeat => None
    case Cq => None
    case QueryMsg => Some(11)
  }

  /** The kind of a five-bit code. */
  function FromWireCode(code: nat): (kind: CommandKind)
    requires code < 32
  {
    match code
    case 0 => SnrQuery
    case 1 => DitDit
    case 2 => Nack
    case 3 => HearingQuery
    case 4 => GridQuery
    case 5 => Relay
    case 6 => StatusQuery
    case 7 => Status
    case 8 => Hearing
    case 9 => Msg
    case 10 => MsgTo
    case 11 => Query
    case 12 => QueryMsgs
    case 13 => QueryCall
    case 14 => Ack
    case 15 => Grid
    case 16 => InfoQuery
    case 17 => Info
    case 18 => Fb
    case 19 => HowCopyQuery
    case 20 => Sk
    case 21 => Rr
    case 22 => QslQuery
    case 23 => Qsl
    case 24 => Cmd
    case 25 => Snr
    case 26 => No
    case 27 => Yes
    case 28 => SeventyThree
    case 29 => HeartbeatSnr
    case 30 => AgainQuery
    case _ => FreeText
  }

  /** Codes and kinds correspond one to one, but for the stored-message query, which shares a code. */
  lemma {:induction false} CodeOfKind(code: nat)
    requires code < 32
    ensures WireCode(FromWireCode(code)) == Some(code)
  {
  }

  lemma {:induction false} KindOfCode(kind: CommandKind)
    ensures WireCode(kind).Some? && kind != QueryMsg ==> FromWireCode(WireCode(kind).value) == kind
  {
  }

  lemma {:induction false} CodeReadsBack(kind: CommandKind, code: nat)
    requires code < 32
    ensures WireCode(FromWireCode(code)) == Some(code)
    ensures WireCode(kind).Some? && kind != QueryMsg ==> FromWireCode(WireCode(kind).value) == kind
  {
    CodeOfKind(code);
    KindOfCode(kind);
  }

  /** The checksum a payload of this kind carries. */
  function ChecksumBits(kind: CommandKind): (bits: nat) {
    match WireCode(kind)
    case Some(code) => if code in {5, 9, 10, 11, 12, 13, 24} then 16 else 0
    case None => 0
  }

  /** Tokens whose payload is buffered: every command token with a space in it, and the relay marker. */
  predicate IsBufferedToken(token: string) {
    match FromWire(token)
    case Some(kind) =>
      HasSpace(token) || (WireCode(kind).Some? && WireCode(kind).value in {5, 9, 10, 11, 12, 13, 15, 24})
    case None => false
  }

  predicate HasSpace(token: string) {
    exists i :: 0 <= i < |token| && token[i] == ' '
  }

  /** Whatever token stands for a checksummed command is buffered. */
  lemma {:induction false} ChecksummedIsBuffered(token: string)
    requires FromWire(token).Some? && ChecksumBits(FromWire(token).value) != 0
    ensures IsBufferedToken(token)
  {
  }

  /** The kinds with a 16-bit checksum are exactly these seven and the stored-message query. */
  lemma {:induction false} ChecksummedKinds(kind: CommandKind)
    ensures ChecksumBits(kind) == 16 <==> kind in {Relay, Msg, MsgTo, Query, QueryMsgs, QueryCall, Cmd, QueryMsg}
    ensures ChecksumBits(kind) == 16 || ChecksumBits(kind) == 0
  {
  }

  /** A token of a command whose payload carries a checksum. */
  predicate IsChecksummedToken(token: string) {
    FromWire(token).Some? && ChecksumBits(FromWire(token).value) == 16
  }

  /** The checksummed commands have these tokens, one of them an alias. */
  lemma {:induction false} ChecksummedTokens(token: string)
    ensures IsChecksummedToken(token) <==>
            token in {">", " MSG", " MSG TO:", " QUERY", " QUERY MSGS", " QUERY MSGS?", " QUERY CALL", " CMD"}
  {
    if FromWire(token).Some? {
      ChecksummedKinds(FromWire(token).value);
    }
  }
}
