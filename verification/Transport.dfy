/**
 * A checksummed directed message through framing, parsing and reassembly, for any data packer and
 * parser that carry its line: whatever is packed is parsed back, piece by piece.
 */
module Transport {
  import opened Wrappers
  import opened Checksums
  import opened Reassembly
  import opened Framing
  import Scheduling

  /** The parts of a parsed frame that reassembly looks at. */
  datatype ParsedFrame = ParsedFrame(directed: seq<string>, compound: string, message: string)

  /** Parsing of a frame's text, given whether it is marked as data. */
  type Parse = (string, bool) -> ParsedFrame

  /** The frame packed from the start of a line takes a character or more and is parsed as what it took. */
  predicate CarriesStart(data: string -> (string, nat), parse: Parse, line: string) {
    var (frame, m) := data(line);
    1 <= m <= |line| && parse(frame, true) == ParsedFrame([], "", line[..m])
  }

  predicate Carries(data: string -> (string, nat), parse: Parse, line: string) {
    forall i :: 0 <= i < |line| ==> CarriesStart(data, parse, line[i..])
  }

  lemma {:induction false} CarriesSuffix(data: string -> (string, nat), parse: Parse, line: string, m: nat)
    requires Carries(data, parse, line) && m <= |line|
    ensures Carries(data, parse, line[m..])
  {
    forall i | 0 <= i < |line[m..]|
      ensures CarriesStart(data, parse, line[m..][i..])
    {
      assert line[m..][i..] == line[m + i..];
    }
  }

  lemma {:induction false} CarriesFirst(data: string -> (string, nat), parse: Parse, line: string)
    requires Carries(data, parse, line) && line != ""
    ensures CarriesStart(data, parse, line)
  {
    assert line[0..] == line;
  }

  /** A data frame and the text it was packed from. */
  datatype Piece = Piece(frame: string, text: string)

  /** The data frames of a line, each taking what it can. */
  function Pieces(data: string -> (string, nat), parse: Parse, line: string): (pieces: seq<Piece>)
    requires Carries(data, parse, line)
    ensures line != "" ==> pieces != []
    decreases |line|
  {
    if line == "" then []
    else
      var (frame, m) := data(line);
      CarriesFirst(data, parse, line);
      CarriesSuffix(data, parse, line, m);
      [Piece(frame, line[..m])] + Pieces(data, parse, line[m..])
  }

  function Texts(pieces: seq<Piece>): (texts: seq<string>)
    ensures |texts| == |pieces|
  {
    seq(|pieces|, i requires 0 <= i < |pieces| => pieces[i].text)
  }

  function DataFrames(pieces: seq<Piece>): (frames: seq<Frame>)
    ensures |frames| == |pieces|
  {
    seq(|pieces|, i requires 0 <= i < |pieces| => Frame(pieces[i].frame, DATA))
  }

  lemma {:induction false} ConcatCons(first: string, rest: seq<string>)
    ensures Concat([first] + rest) == first + Concat(rest)
  {
    if rest == [] {
      assert [first] + rest == [first];
      assert [first][..0] == [];
    } else {
      var n := |rest| - 1;
      assert ([first] + rest)[..n + 1] == [first] + rest[..n];
      ConcatCons(first, rest[..n]);
    }
  }

  /** The texts of the pieces make up the line, and each frame is parsed as its text. */
  lemma {:induction false} PiecesMakeLine(data: string -> (string, nat), parse: Parse, line: string)
    requires Carries(data, parse, line)
    ensures var pieces := Pieces(data, parse, line);
            && Concat(Texts(pieces)) == line
            && forall i :: 0 <= i < |pieces| ==> parse(pieces[i].frame, true) == ParsedFrame([], "", pieces[i].text)
    decreases |line|
  {
    if line == "" {
      assert Texts([]) == [];
    } else {
      var (frame, m) := data(line);
      CarriesFirst(data, parse, line);
      CarriesSuffix(data, parse, line, m);
      PiecesMakeLine(data, parse, line[m..]);
      var rest := Pieces(data, parse, line[m..]);
      FirstPiece(Piece(frame, line[..m]), rest);
      assert line == line[..m] + line[m..];
    }
  }

  lemma {:induction false} FirstPiece(first: Piece, rest: seq<Piece>)
    ensures Concat(Texts([first] + rest)) == first.text + Concat(Texts(rest))
  {
    ConcatCons(first.text, Texts(rest));
    assert Texts([first] + rest) == [first.text] + Texts(rest);
  }

  /** In data mode a carried line goes out completely. */
  lemma {:induction false} RunSendsLine(env: Env, parse: Parse, forceIdentify: bool, w: Work)
    requires WellBehaved(env) && w.dataOnly && Carries(env.data, parse, w.line)
    ensures Run(env, forceIdentify, w) == w.frames + DataFrames(Pieces(env.data, parse, w.line))
    decreases |w.line|
  {
    if w.line == "" {
      assert DataFrames([]) == [];
    } else {
      var (frame, m) := env.data(w.line);
      CarriesFirst(env.data, parse, w.line);
      CarriesSuffix(env.data, parse, w.line, m);
      var next := Work(w.line[m..], true, AddFrame(w.frames, frame, DATA));
      RunStep(env, forceIdentify, w, next);
      RunSendsLine(env, parse, forceIdentify, next);
      var rest := Pieces(env.data, parse, w.line[m..]);
      SplitFrames(w.frames, Piece(frame, w.line[..m]), rest);
    }
  }

  lemma {:induction false} SplitFrames(frames: seq<Frame>, piece: Piece, rest: seq<Piece>)
    ensures AddFrame(frames, piece.frame, DATA) + DataFrames(rest) == frames + DataFrames([piece] + rest)
  {
  }

  // ---- the message on the air

  /** A directed message whose payload carries a 16-bit checksum, as its header packer sees it. */
  ghost predicate SendsDirected(env: Env, line: string, d: Directed, payload: string) {
    && WellBehaved(env) && line != "" && env.heartbeat(line).1 == 0 && env.compound(line).1 == 0
    && env.directed(line) == d && d.n > 0 && !env.isCompound && !d.compound
    && env.rules.buffered(d.command) && env.rules.checksumBits(d.command) == 16 && !IsAprs(d.target)
    && payload == TrimStart(line[d.n..]) && payload != ""
  }

  /** The payload as it is sent. */
  function Checksummed(env: Env, payload: string): (line: string)
  {
    payload + " " + Checksum16(env.rules.crcs, payload)
  }

  lemma {:induction false} RunSendsMessage(env: Env, parse: Parse, forceIdentify: bool, line: string, d: Directed,
                                           payload: string)
    requires SendsDirected(env, line, d, payload) && Carries(env.data, parse, Checksummed(env, payload))
    ensures Run(env, forceIdentify, Work(line, false, [])) ==
            [Frame(d.frame, NONE)] + DataFrames(Pieces(env.data, parse, Checksummed(env, payload)))
  {
    var w, next := Work(line, false, []), Work(Checksummed(env, payload), true, [Frame(d.frame, NONE)]);
    assert line[d.n..] != "";
    assert Payload(env, d, line[d.n..]) == next.line;
    assert DirectedFrames(env, [], d) == next.frames;
    assert HeaderStep(env, w) == Some(next);
    RunStep(env, forceIdentify, w, next);
    RunSendsLine(env, parse, forceIdentify, next);
  }

  // ---- the message received

  /** Where and when a frame is heard. */
  datatype Reception = Reception(submode: Scheduling.Submode, frequencyHz: real, utc: nat, snr: int)

  function Receive(parse: Parse, frame: Frame, at: Reception): Decoded {
    var p := parse(frame.text, frame.flags.data);
    Decoded(at.submode, at.frequencyHz, p.directed, p.compound, p.message, frame.flags, at.utc, at.snr)
  }

  function ReceiveAll(parse: Parse, frames: seq<Frame>, at: seq<Reception>): (heard: seq<Decoded>)
    requires |at| == |frames|
    ensures |heard| == |frames|
  {
    seq(|frames|, i requires 0 <= i < |frames| => Receive(parse, frames[i], at[i]))
  }

  /** A header that opens a buffer and then fragments of the same key, only the final one marked last. */
  predicate IsMessage(rules: Rules, heard: seq<Decoded>, key: BufferKey, header: seq<string>, texts: seq<string>) {
    && |heard| == |texts| + 1 >= 2 && |header| == 3
    && (forall i :: 0 <= i < |heard| ==> KeyOf(heard[i]) == key)
    && heard[0].directed == header && rules.buffered(header[2]) && !heard[0].flags.last
    && (forall i :: 0 < i < |heard| ==> IsText(heard[i], texts[i - 1], i == |heard| - 1))
  }

  predicate IsText(d: Decoded, text: string, last: bool) {
    d.directed == [] && d.compound == "" && d.message == text && d.flags.last == last
  }

  lemma {:induction false} TextsOfMessage(rules: Rules, heard: seq<Decoded>, key: BufferKey, header: seq<string>,
                                          texts: seq<string>, n: nat)
    requires IsMessage(rules, heard, key, header, texts) && 1 <= n <= |heard|
    ensures TextsFrom(heard[..n], key, 1) == texts[..n - 1]
  {
    if n > 1 {
      TextsOfMessage(rules, heard, key, header, texts, n - 1);
      assert heard[..n][..n - 1] == heard[..n - 1];
      assert IsText(heard[n - 1], texts[n - 2], n - 1 == |heard| - 1);
      assert texts[..n - 1] == texts[..n - 2] + [texts[n - 2]];
    }
  }

  /** Before its last fragment the message's buffer is open since its header. */
  lemma {:induction false} MessageIsOpen(rules: Rules, heard: seq<Decoded>, key: BufferKey, header: seq<string>,
                                         texts: seq<string>, n: nat)
    requires IsMessage(rules, heard, key, header, texts) && 1 <= n < |heard|
    ensures StateOf(rules, heard[..n], key) == Some(Started(heard[0]).(fragments := texts[..n - 1]))
  {
    forall i | 0 < i < n
      ensures !Starts(rules, heard[i]) && !Ends(heard[i])
    {
      assert IsText(heard[i], texts[i - 1], i == |heard| - 1);
    }
    assert OpenAt(rules, heard[..n], key, 0);
    OpenBuffer(rules, heard[..n], key, 0);
    TextsOfMessage(rules, heard, key, header, texts, n);
  }

  /** The event of frame `i` of a message with a valid checksum: started, then appended, then completed once. */
  predicate EventIs(event: Option<Event>, i: nat, n: nat, key: BufferKey, header: seq<string>, payload: string,
                    sum: string)
    requires |header| == 3
  {
    if i == 0 then event == Some(BufferedStarted(key))
    else if i < n - 1 then event == Some(BufferedAppended(key))
    else
      && event.Some? && event.value.Completed?
      && var r := event.value.result;
         && r.key == key && [r.from, r.target, r.command] == header && r.payload == payload && r.wasBuffered
         && r.checksum == Some(BufferedChecksum(16, sum, true))
  }

  lemma {:induction false} NoTrailingSpace(s: string, sum: string)
    requires |sum| == 3 && forall i :: 0 <= i < |sum| ==> sum[i] != ' '
    ensures RStrip(s + " " + sum) == s + " " + sum
  {
    assert (s + " " + sum)[|s| + 3] == sum[2];
  }

  /** A payload followed by its checksum is finalized to the payload with that checksum, valid. */
  lemma {:induction false} FinalizeChecksummed(rules: Rules, target: string, command: string, payload: string)
    requires rules.buffered(command) && rules.checksumBits(command) == 16 && !IsAprs(target)
    requires payload != "" && payload[0] != ' '
    ensures var sum := Checksum16(rules.crcs, payload);
            Finalize(rules, target, command, RStrip(payload + " " + sum)) ==
            (payload, Some(BufferedChecksum(16, sum, true)))
  {
    var sum := Checksum16(rules.crcs, payload);
    var s := payload + " " + sum;
    NoTrailingSpace(payload, sum);
    assert s[0] == payload[0] && LStrip(s) == s;
    assert |s| == |payload| + 4 && s[|s| - 4] == ' ' && s[|s| - 3..] == sum && s[..|s| - 4] == payload;
  }

  /** The last event is that of an open buffer with all the texts but the last. */
  lemma {:induction false} FinalEvent(rules: Rules, heard: seq<Decoded>, key: BufferKey, header: seq<string>,
                                      texts: seq<string>, payload: string, n: nat)
    requires IsMessage(rules, heard, key, header, texts) && n == |texts|
    requires rules.checksumBits(header[2]) == 16 && !IsAprs(header[1]) && payload != "" && payload[0] != ' '
    requires Concat(texts) == payload + " " + Checksum16(rules.crcs, payload)
    ensures EventIs(EventAt(rules, heard, n), n, n + 1, key, header, payload, Checksum16(rules.crcs, payload))
  {
    MessageIsOpen(rules, heard, key, header, texts, n);
    assert IsText(heard[n], texts[n - 1], true);
    assert texts[..n - 1] + [texts[n - 1]] == texts;
    LastEvent(rules, Started(heard[0]).(fragments := texts[..n - 1]), heard[n], key, header, texts, payload);
  }

  lemma {:induction false} MiddleEvent(rules: Rules, heard: seq<Decoded>, key: BufferKey, header: seq<string>,
                                       texts: seq<string>, i: nat)
    requires IsMessage(rules, heard, key, header, texts) && 0 < i < |texts|
    ensures EventAt(rules, heard, i) == Some(BufferedAppended(key))
  {
    MessageIsOpen(rules, heard, key, header, texts, i);
    assert IsText(heard[i], texts[i - 1], false);
  }

  /** Every event of a message whose texts make up a checksummed payload. */
  lemma {:induction false} MessageEvents(rules: Rules, heard: seq<Decoded>, key: BufferKey, header: seq<string>,
                                         texts: seq<string>, payload: string, i: nat)
    requires IsMessage(rules, heard, key, header, texts) && i < |heard|
    requires rules.checksumBits(header[2]) == 16 && !IsAprs(header[1]) && payload != "" && payload[0] != ' '
    requires Concat(texts) == payload + " " + Checksum16(rules.crcs, payload)
    ensures EventIs(EventAt(rules, heard, i), i, |heard|, key, header, payload, Checksum16(rules.crcs, payload))
  {
    if i == |texts| {
      FinalEvent(rules, heard, key, header, texts, payload, i);
    } else if i > 0 {
      MiddleEvent(rules, heard, key, header, texts, i);
    }
  }

  lemma {:induction false} LastEvent(rules: Rules, state: BufferState, d: Decoded, key: BufferKey, header: seq<string>,
                                     texts: seq<string>, payload: string)
    requires |header| == 3 && [state.from, state.target, state.command] == header && KeyOf(d) == key
    requires IsText(d, d.message, true) && state.fragments + [d.message] == texts
    requires rules.buffered(header[2]) && rules.checksumBits(header[2]) == 16 && !IsAprs(header[1])
    requires payload != "" && payload[0] != ' ' && Concat(texts) == payload + " " + Checksum16(rules.crcs, payload)
    ensures var event := KeyStep(rules, Some(state), d).1;
            && event.Some? && event.value.Completed?
            && var r := event.value.result;
               && r.key == key && [r.from, r.target, r.command] == header && r.payload == payload && r.wasBuffered
               && r.checksum == Some(BufferedChecksum(16, Checksum16(rules.crcs, payload), true))
  {
    FinalizeChecksummed(rules, state.target, state.command, payload);
    var more := state.(fragments := texts);
    assert KeyStep(rules, Some(state), d).1 == Some(Finish(rules, key, more));
  }

  // ---- the message from end to end

  /** One start, then appended fragments, and finally the one completion, with the payload and its valid checksum. */
  predicate Delivered(rules: Rules, heard: seq<Decoded>, key: BufferKey, header: seq<string>, payload: string) {
    |heard| >= 2 && |header| == 3 &&
    forall i :: 0 <= i < |heard| ==>
      EventIs(EventAt(rules, heard, i), i, |heard|, key, header, payload, Checksum16(rules.crcs, payload))
  }

  predicate SameKey(at: seq<Reception>, key: BufferKey) {
    forall i :: 0 <= i < |at| ==> BufferKey(at[i].submode, WholeHertz(at[i].frequencyHz)) == key
  }

  /** The frames heard of a built message. */
  lemma {:induction false} HeardIsMessage(rules: Rules, parse: Parse, first: string, pieces: seq<Piece>,
                                          frames: seq<Frame>, at: seq<Reception>, key: BufferKey, header: seq<string>)
    requires frames == Marked([Frame(first, NONE)] + DataFrames(pieces)) && |at| == |frames| && pieces != []
    requires parse(first, false).directed == header && |header| == 3 && rules.buffered(header[2]) && SameKey(at, key)
    requires forall i :: 0 <= i < |pieces| ==> parse(pieces[i].frame, true) == ParsedFrame([], "", pieces[i].text)
    ensures IsMessage(rules, ReceiveAll(parse, frames, at), key, header, Texts(pieces))
  {
    var heard := ReceiveAll(parse, frames, at);
    forall i | 0 < i < |heard|
      ensures IsText(heard[i], Texts(pieces)[i - 1], i == |heard| - 1)
    {
      assert frames[i].text == pieces[i - 1].frame && frames[i].flags.data;
      assert parse(pieces[i - 1].frame, true) == ParsedFrame([], "", pieces[i - 1].text);
    }
  }

  /**
   * The frames built for a directed, checksummed message, fed in order and on one key to parsing and
   * reassembly, start one buffer, fill it, and complete it once with the payload and a valid checksum.
   */
  lemma {:induction false} MessageArrives(env: Env, parse: Parse, text: string, forceIdentify: bool, line: string,
                                          frames: seq<Frame>, d: Directed, payload: string, header: seq<string>,
                                          at: seq<Reception>, key: BufferKey)
    requires SendsDirected(env, line, d, payload) && line == InitialLine(env, false, text)
    requires frames == Build(env, text, forceIdentify, false) && |at| == |frames| && SameKey(at, key)
    requires Carries(env.data, parse, Checksummed(env, payload))
    requires parse(d.frame, false).directed == header && |header| == 3 && !IsAprs(header[1])
    requires env.rules.buffered(header[2]) && env.rules.checksumBits(header[2]) == 16
    ensures Delivered(env.rules, ReceiveAll(parse, frames, at), key, header, payload)
  {
    var full := Checksummed(env, payload);
    var pieces := Pieces(env.data, parse, full);
    RunSendsMessage(env, parse, forceIdentify, line, d, payload);
    PiecesMakeLine(env.data, parse, full);
    HeardIsMessage(env.rules, parse, d.frame, pieces, frames, at, key, header);
    var heard := ReceiveAll(parse, frames, at);
    forall i | 0 <= i < |heard|
      ensures EventIs(EventAt(env.rules, heard, i), i, |heard|, key, header, payload,
                      Checksum16(env.rules.crcs, payload))
    {
      MessageEvents(env.rules, heard, key, header, Texts(pieces), payload, i);
    }
  }
}
