/** Putting buffered directed commands together from interleaved frames. */
module Reassembly {
  import opened Wrappers
  import opened Alphabet
  import opened Scheduling
  import opened Commands
  import opened Checksums

  datatype Flags = Flags(first: bool, last: bool, data: bool)

  /** Streams are told apart by submode and whole hertz. */
  datatype BufferKey = BufferKey(submode: Submode, frequencyOffset: nat)

  /** What the receiver knows of command tokens and checksums. */
  datatype Rules = Rules(crcs: Crcs, buffered: string -> bool, checksumBits: string -> nat)

  /** The rules of the command set. */
  function WireRules(crcs: Crcs): Rules {
    Rules(crcs, (token: string) => IsBufferedToken(token),
          (token: string) => if FromWire(token).Some? then ChecksumBits(FromWire(token).value) else 0)
  }

  /** The parts of a decoded frame that reassembly looks at. */
  datatype Decoded = Decoded(submode: Submode, frequencyHz: real, directed: seq<string>, compound: string,
                             message: string, flags: Flags, utc: nat, snr: int)

  datatype BufferedChecksum = BufferedChecksum(sizeBits: nat, value: string, valid: bool)

  datatype BufferedCommandResult = BufferedCommandResult(
    key: BufferKey, from: string, target: string, command: string, payload: string,
    checksum: Option<BufferedChecksum>, utc: nat, snr: int, flags: Flags, wasBuffered: bool)

  datatype Event = BufferedStarted(key: BufferKey) | BufferedAppended(key: BufferKey)
                 | Completed(result: BufferedCommandResult) | DroppedInvalidChecksum(key: BufferKey)

  datatype BufferState = BufferState(from: string, target: string, command: string, utc: nat, snr: int, flags: Flags,
                                     fragments: seq<string>)

  /** A frequency truncated to an unsigned 32-bit number of hertz, negative ones to zero. */
  function WholeHertz(f: real): (n: nat) {
    if f <= 0.0 then 0 else if f.Floor > 0xFFFF_FFFF then 0xFFFF_FFFF else f.Floor
  }

  function KeyOf(d: Decoded): BufferKey {
    BufferKey(d.submode, WholeHertz(d.frequencyHz))
  }

  predicate IsDirected(d: Decoded) { |d.directed| > 2 }

  /** A frame that carries a piece of text: neither directed nor with a compound callsign. */
  predicate IsFragment(d: Decoded) { !IsDirected(d) && d.compound == "" }

  /** A directed frame that opens a buffer: a buffered command with frames to come, or with a callsign still to come. */
  predicate Starts(rules: Rules, d: Decoded) {
    IsDirected(d) && rules.buffered(d.directed[2])
    && (!d.flags.last || d.directed[0] == PLACEHOLDER || d.directed[1] == PLACEHOLDER)
  }

  // ---- text

  function LStrip(s: string): (t: string)
    ensures t == "" || t[0] != ' '
    ensures |t| <= |s| && t == s[|s| - |t|..]
  {
    if s != "" && s[0] == ' ' then LStrip(s[1..]) else s
  }

  function RStrip(s: string): (t: string)
    ensures t <= s && (t == "" || t[|t| - 1] != ' ')
  {
    if s != "" && s[|s| - 1] == ' ' then RStrip(s[..|s| - 1]) else s
  }

  /** Only leading spaces go. */
  lemma {:induction false} LStripIs(s: string)
    ensures forall i :: 0 <= i < |s| - |LStrip(s)| ==> s[i] == ' '
  {
    if s != "" && s[0] == ' ' {
      LStripIs(s[1..]);
      assert forall i :: 0 < i < |s| ==> s[i] == s[1..][i - 1];
    }
  }

  /** Only trailing spaces go. */
  lemma {:induction false} RStripIs(s: string)
    ensures forall i :: |RStrip(s)| <= i < |s| ==> s[i] == ' '
  {
    if s != "" && s[|s| - 1] == ' ' {
      RStripIs(s[..|s| - 1]);
      assert forall i :: 0 <= i < |s| - 1 ==> s[i] == s[..|s| - 1][i];
    }
  }

  /** A frequency below zero counts as zero, one beyond 32 bits as the largest, any other is rounded down. */
  lemma {:induction false} WholeHertzIs(f: real)
    ensures var n := WholeHertz(f);
            if f < 0.0 then n == 0
            else if f >= 4294967296.0 then n == 4294967295
            else n as real <= f < n as real + 1.0
  {
  }

  /** Frames of one submode and one whole number of hertz share a buffer, and no others. */
  lemma {:induction false} KeyTellsStreams(a: Decoded, b: Decoded)
    requires 0.0 <= a.frequencyHz < 4294967296.0 && 0.0 <= b.frequencyHz < 4294967296.0
    ensures KeyOf(a) == KeyOf(b) <==> a.submode == b.submode && a.frequencyHz.Floor == b.frequencyHz.Floor
  {
    WholeHertzIs(a.frequencyHz);
    WholeHertzIs(b.frequencyHz);
  }

  function Concat(parts: seq<string>): string {
    if parts == [] then "" else Concat(parts[..|parts| - 1]) + parts[|parts| - 1]
  }

  function JoinSpaces(parts: seq<string>): string {
    if parts == [] then "" else if |parts| == 1 then parts[0] else parts[0] + " " + JoinSpaces(parts[1..])
  }

  /** Joining puts one space between any two neighbouring parts, and nothing else. */
  lemma {:induction false} JoinSpacesIs(a: seq<string>, b: seq<string>)
    requires a != [] && b != []
    ensures JoinSpaces(a + b) == JoinSpaces(a) + " " + JoinSpaces(b)
  {
    if |a| == 1 {
      assert (a + b)[1..] == b;
    } else {
      assert (a + b)[1..] == a[1..] + b;
      JoinSpacesIs(a[1..], b);
    }
  }

  predicate IsAprs(target: string) {
    |target| == 7 && forall i :: 0 <= i < 7 ==> ToUpper(target[i]) == "@APRSIS"[i]
  }

  // ---- the checksum at the end of a payload

  /** Whether the target and command leave the payload without a checksum. */
  predicate Unchecked(rules: Rules, target: string, command: string) {
    !rules.buffered(command) || (IsAprs(target) && (command == " MSG" || command == " MSG TO:"))
    || rules.checksumBits(command) == 0
  }

  /** Splits the last `n` characters, after a space, off a message. */
  function SplitChecksum(message: string, n: nat, bits: nat, expected: string -> string): (string, BufferedChecksum)
    requires n > 0
  {
    var len := |message|;
    if len < n + 1 then (message, BufferedChecksum(bits, "", false))
    else
      var text := message[len - n..];
      if message[len - n - 1] != ' ' then (message, BufferedChecksum(bits, text, false))
      else
        var rest := message[..len - n - 1];
        (rest, BufferedChecksum(bits, text, expected(rest) == text))
  }

  function FinalizeSized(crcs: Crcs, bits: nat, payload: string): (string, Option<BufferedChecksum>) {
    var message := LStrip(payload);
    if bits == 16 then
      var (rest, sum) := SplitChecksum(message, 3, bits, (s: string) => Checksum16(crcs, s));
      (rest, Some(sum))
    else if bits == 32 then
      var (rest, sum) := SplitChecksum(message, 6, bits, (s: string) => Checksum32(crcs, s));
      (rest, Some(sum))
    else (message, None)
  }

  function Finalize(rules: Rules, target: string, command: string,
                    payload: string): (string, Option<BufferedChecksum>)
  {
    if Unchecked(rules, target, command) then (payload, None)
    else FinalizeSized(rules.crcs, rules.checksumBits(command), payload)
  }

  /**
   * The payload is spaces, the returned message, a space and three letters that spell the message's CRC,
   * exactly if the checksum is valid.
   */
  lemma {:induction false} ValidMeansChecksummed(rules: Rules, target: string, command: string, payload: string)
    requires !Unchecked(rules, target, command) && rules.checksumBits(command) == 16
    ensures var (message, sum) := Finalize(rules, target, command, payload);
            && sum.Some? && sum.value.sizeBits == 16 && |message| <= |payload|
            && (sum.value.valid <==> LStrip(payload) == message + " " + sum.value.value
                                     && Spells(sum.value.value, rules.crcs.crc16(message) % 0x1_0000))
  {
    var (message, sum) := Finalize(rules, target, command, payload);
    SplitIsValid(LStrip(payload), 3, 16, (s: string) => Checksum16(rules.crcs, s));
    Checksum16Spells(rules.crcs, message, sum.value.value);
  }

  lemma {:induction false} SplitIsValid(message: string, n: nat, bits: nat, expected: string -> string)
    requires n > 0 && forall s :: |expected(s)| == n
    ensures var (rest, sum) := SplitChecksum(message, n, bits, expected);
            && (sum.valid <==> message == rest + " " + expected(rest))
            && (sum.valid ==> sum.value == expected(rest))
            && (message == rest + " " + sum.value && sum.value == expected(rest) ==> sum.valid)
  {
    var (rest, sum) := SplitChecksum(message, n, bits, expected);
    var k := |message| - n - 1;
    if sum.valid {
      assert message == message[..k] + [message[k]] + message[k + 1..];
    }
    if message == rest + " " + expected(rest) {
      assert |message| == |rest| + 1 + n && message[|rest|] == ' ';
      assert message[..|rest|] == rest && message[|rest| + 1..] == expected(rest);
    }
  }

  // ---- one key

  function Started(d: Decoded): BufferState
    requires IsDirected(d)
  {
    BufferState(d.directed[0], d.directed[1], d.directed[2], d.utc, d.snr, d.flags, [])
  }

  /** A directed frame that stands alone. */
  function Single(d: Decoded): BufferedCommandResult
    requires IsDirected(d)
  {
    BufferedCommandResult(KeyOf(d), d.directed[0], d.directed[1], d.directed[2], JoinSpaces(d.directed[3..]), None,
                          d.utc, d.snr, d.flags, false)
  }

  function Finish(rules: Rules, key: BufferKey, state: BufferState): Event {
    var (payload, checksum) := Finalize(rules, state.target, state.command, RStrip(Concat(state.fragments)));
    if checksum.Some? && !checksum.value.valid then DroppedInvalidChecksum(key)
    else Completed(BufferedCommandResult(key, state.from, state.target, state.command, payload, checksum,
                                         state.utc, state.snr, state.flags.(last := true), true))
  }

  /** What a frame does to the buffer of its own key, and the event it raises. */
  function KeyStep(rules: Rules, state: Option<BufferState>, d: Decoded): (Option<BufferState>, Option<Event>) {
    if IsDirected(d) then
      if Starts(rules, d) then (Some(Started(d)), Some(BufferedStarted(KeyOf(d))))
      else (state, Some(Completed(Single(d))))
    else if d.compound != "" || state.None? then (state, None)
    else
      var more := state.value.(fragments := state.value.fragments + [d.message]);
      if d.flags.last then (None, Some(Finish(rules, KeyOf(d), more)))
      else (Some(more), Some(BufferedAppended(KeyOf(d))))
  }

  function Get(buffers: map<BufferKey, BufferState>, key: BufferKey): Option<BufferState> {
    if key in buffers then Some(buffers[key]) else None
  }

  class MessageBufferAssembler {
    var buffers: map<BufferKey, BufferState>
    const rules: Rules

    constructor (rules: Rules)
      ensures buffers == map[] && this.rules == rules
    {
      buffers := map[];
      this.rules := rules;
    }

    method Clear()
      modifies this
      ensures buffers == map[]
    {
      buffers := map[];
    }

    /** A frame changes and reads the buffer of its own key only. */
    method PushDecoded(d: Decoded) returns (event: Option<Event>)
      modifies this
      ensures (Get(buffers, KeyOf(d)), event) == KeyStep(rules, Get(old(buffers), KeyOf(d)), d)
      ensures forall key :: key != KeyOf(d) ==> Get(buffers, key) == Get(old(buffers), key)
    {
      var key := KeyOf(d);
      if IsDirected(d) {
        event := HandleDirected(key, d);
        return;
      }
      if d.compound != "" {
        return None;
      }
      if key in buffers {
        var state := buffers[key].(fragments := buffers[key].fragments + [d.message]);
        if !d.flags.last {
          buffers := buffers[key := state];
          return Some(BufferedAppended(key));
        }
        buffers := buffers - {key};
        return Some(Finish(rules, key, state));
      }
      event := None;
    }

    method HandleDirected(key: BufferKey, d: Decoded) returns (event: Option<Event>)
      requires IsDirected(d) && key == KeyOf(d)
      modifies this
      ensures (Get(buffers, key), event) == KeyStep(rules, Get(old(buffers), key), d)
      ensures forall other :: other != key ==> Get(buffers, other) == Get(old(buffers), other)
    {
      var from, target, command := d.directed[0], d.directed[1], d.directed[2];
      var hasPlaceholderCall := from == PLACEHOLDER || target == PLACEHOLDER;
      var buffered := rules.buffered(command);
      if buffered && (!d.flags.last || hasPlaceholderCall) {
        buffers := buffers[key := BufferState(from, target, command, d.utc, d.snr, d.flags, [])];
        return Some(BufferedStarted(key));
      }
      var payload := if |d.directed| > 3 then JoinSpaces(d.directed[3..]) else "";
      event := Some(Completed(BufferedCommandResult(key, from, target, command, payload, None, d.utc, d.snr,
                                                    d.flags, false)));
    }

    /** Over a whole stream, each event depends on the frames of its own key alone. */
    method PushAll(frames: seq<Decoded>) returns (events: seq<Option<Event>>)
      requires buffers == map[]
      modifies this
      ensures |events| == |frames|
      ensures forall i :: 0 <= i < |frames| ==> events[i] == EventAt(rules, frames, i)
      ensures forall key :: Get(buffers, key) == StateOf(rules, frames, key)
    {
      events := [];
      for i := 0 to |frames|
        invariant |events| == i
        invariant forall j :: 0 <= j < i ==> events[j] == EventAt(rules, frames, j)
        invariant forall key :: Get(buffers, key) == StateOf(rules, frames[..i], key)
      {
        ghost var before := buffers;
        var event := PushDecoded(frames[i]);
        assert frames[..i + 1][..i] == frames[..i];
        events := events + [event];
      }
      assert frames[..|frames|] == frames;
    }
  }

  // ---- whole streams

  /** The buffer of a key after a stream: only that key's frames matter. */
  function StateOf(rules: Rules, frames: seq<Decoded>, key: BufferKey): Option<BufferState> {
    if frames == [] then None
    else
      var last := frames[|frames| - 1];
      var before := StateOf(rules, frames[..|frames| - 1], key);
      if KeyOf(last) == key then KeyStep(rules, before, last).0 else before
  }

  /** The event of frame `i`. */
  function EventAt(rules: Rules, frames: seq<Decoded>, i: nat): Option<Event>
    requires i < |frames|
  {
    KeyStep(rules, StateOf(rules, frames[..i], KeyOf(frames[i])), frames[i]).1
  }

  /** The frames of one key, in order. */
  function Substream(frames: seq<Decoded>, key: BufferKey): seq<Decoded> {
    if frames == [] then []
    else
      var last := frames[|frames| - 1];
      Substream(frames[..|frames| - 1], key) + if KeyOf(last) == key then [last] else []
  }

  /** The events raised for one key, in order. */
  function EventsOf(rules: Rules, frames: seq<Decoded>, key: BufferKey): (events: seq<Option<Event>>)
    ensures |events| == |Substream(frames, key)|
  {
    if frames == [] then []
    else
      var n := |frames| - 1;
      EventsOf(rules, frames[..n], key) + if KeyOf(frames[n]) == key then [EventAt(rules, frames, n)] else []
  }

  lemma {:induction false} SubstreamState(rules: Rules, frames: seq<Decoded>, key: BufferKey)
    ensures StateOf(rules, frames, key) == StateOf(rules, Substream(frames, key), key)
  {
    if frames != [] {
      var init, last := frames[..|frames| - 1], frames[|frames| - 1];
      SubstreamState(rules, init, key);
      if KeyOf(last) == key {
        assert (Substream(init, key) + [last])[..|Substream(init, key)|] == Substream(init, key);
      } else {
        assert Substream(init, key) + [] == Substream(init, key);
      }
    }
  }

  lemma {:induction false} EventsOfPush(rules: Rules, frames: seq<Decoded>, d: Decoded, key: BufferKey)
    requires KeyOf(d) == key
    ensures EventsOf(rules, frames + [d], key) ==
            EventsOf(rules, frames, key) + [KeyStep(rules, StateOf(rules, frames, key), d).1]
  {
    assert (frames + [d])[..|frames|] == frames;
  }

  /** Interleaving cannot be seen: the events for a key are those of its own frames alone. */
  lemma {:induction false} EventsOfSubstream(rules: Rules, frames: seq<Decoded>, key: BufferKey)
    ensures EventsOf(rules, frames, key) == EventsOf(rules, Substream(frames, key), key)
  {
    if frames != [] {
      var init, last := frames[..|frames| - 1], frames[|frames| - 1];
      EventsOfSubstream(rules, init, key);
      if KeyOf(last) == key {
        SubstreamState(rules, init, key);
        EventsOfPush(rules, Substream(init, key), last, key);
      } else {
        assert Substream(init, key) + [] == Substream(init, key);
        assert EventsOf(rules, init, key) + [] == EventsOf(rules, init, key);
      }
    }
  }

  // ---- what a completed payload is made of

  /** A fragment that ends its buffer. */
  predicate Ends(d: Decoded) { IsFragment(d) && d.flags.last }

  /** Frame `s` opened the key's buffer, and no later frame reopened or ended it. */
  predicate OpenAt(rules: Rules, frames: seq<Decoded>, key: BufferKey, s: nat) {
    && s < |frames| && KeyOf(frames[s]) == key && Starts(rules, frames[s])
    && forall i :: s < i < |frames| && KeyOf(frames[i]) == key ==> !Starts(rules, frames[i]) && !Ends(frames[i])
  }

  /** The texts of the key's fragments from frame `s` on, in order. */
  function TextsFrom(frames: seq<Decoded>, key: BufferKey, s: nat): seq<string> {
    if |frames| <= s then []
    else
      var last := frames[|frames| - 1];
      TextsFrom(frames[..|frames| - 1], key, s) + if KeyOf(last) == key && IsFragment(last) then [last.message] else []
  }

  /** An open buffer holds the header of the frame that opened it and exactly the fragments since. */
  lemma {:induction false} OpenBuffer(rules: Rules, frames: seq<Decoded>, key: BufferKey, s: nat)
    requires OpenAt(rules, frames, key, s)
    ensures StateOf(rules, frames, key) == Some(Started(frames[s]).(fragments := TextsFrom(frames, key, s + 1)))
  {
    var n := |frames| - 1;
    var init, last := frames[..n], frames[n];
    if s < n {
      OpenBuffer(rules, init, key, s);
      var texts := TextsFrom(init, key, s + 1);
      assert texts + [] == texts;
      assert init[s] == frames[s];
    } else {
      assert TextsFrom(frames, key, s + 1) == [];
    }
  }

  /** Conversely, a key without such a frame has no buffer. */
  lemma {:induction false} OpenedSomewhere(rules: Rules, frames: seq<Decoded>, key: BufferKey) returns (s: nat)
    requires StateOf(rules, frames, key).Some?
    ensures OpenAt(rules, frames, key, s)
  {
    var n := |frames| - 1;
    var init, last := frames[..n], frames[n];
    if KeyOf(last) == key && Starts(rules, last) {
      s := n;
    } else {
      s := OpenedSomewhere(rules, init, key);
    }
  }

  /** A buffered completion finishes a buffer with its last fragment. */
  lemma {:induction false} FinishedBuffer(rules: Rules, state: Option<BufferState>, d: Decoded,
                                          r: BufferedCommandResult)
    requires KeyStep(rules, state, d).1 == Some(Completed(r)) && r.wasBuffered
    ensures state.Some? && Ends(d)
    ensures r.from == state.value.from && r.target == state.value.target && r.command == state.value.command
    ensures (r.payload, r.checksum) ==
            Finalize(rules, r.target, r.command, RStrip(Concat(state.value.fragments + [d.message])))
    ensures r.checksum.Some? ==> r.checksum.value.valid
  {
  }

  /** A buffered completion is made of the header and the fragments since the key's latest start. */
  lemma {:induction false} CompletedIsItsFragments(rules: Rules, frames: seq<Decoded>, i: nat, r: BufferedCommandResult)
      returns (s: nat)
    requires i < |frames| && EventAt(rules, frames, i) == Some(Completed(r)) && r.wasBuffered
    ensures var key := KeyOf(frames[i]);
            var texts := TextsFrom(frames[..i], key, s + 1) + [frames[i].message];
            && OpenAt(rules, frames[..i], key, s) && Ends(frames[i])
            && EventAt(rules, frames, s) == Some(BufferedStarted(key))
            && [r.from, r.target, r.command] == frames[s].directed[..3]
            && (r.payload, r.checksum) == Finalize(rules, r.target, r.command, RStrip(Concat(texts)))
  {
    var key := KeyOf(frames[i]);
    FinishedBuffer(rules, StateOf(rules, frames[..i], key), frames[i], r);
    s := OpenedSomewhere(rules, frames[..i], key);
    OpenBuffer(rules, frames[..i], key, s);
    assert frames[..i][s] == frames[s];
  }

  function ChecksumOf(crcs: Crcs, sizeBits: nat, message: string): string {
    if sizeBits == 16 then Checksum16(crcs, message) else Checksum32(crcs, message)
  }

  /** No completion carries an invalid checksum; a valid one is the checksum of the payload. */
  lemma {:induction false} CompletedIsValid(rules: Rules, frames: seq<Decoded>, i: nat, r: BufferedCommandResult)
    requires i < |frames| && EventAt(rules, frames, i) == Some(Completed(r))
    ensures r.checksum.Some? ==>
      && r.checksum.value.valid && r.checksum.value.sizeBits == rules.checksumBits(r.command)
      && r.checksum.value.sizeBits in {16, 32}
      && r.checksum.value.value == ChecksumOf(rules.crcs, r.checksum.value.sizeBits, r.payload)
  {
    if r.wasBuffered {
      var state := StateOf(rules, frames[..i], KeyOf(frames[i]));
      FinishedBuffer(rules, state, frames[i], r);
      var payload := RStrip(Concat(state.value.fragments + [frames[i].message]));
      ValidIsChecksum(rules, r.target, r.command, payload);
    }
  }

  lemma {:induction false} ValidIsChecksum(rules: Rules, target: string, command: string, payload: string)
    ensures var (message, sum) := Finalize(rules, target, command, payload);
            sum.Some? && sum.value.valid ==>
              && sum.value.sizeBits == rules.checksumBits(command) && sum.value.sizeBits in {16, 32}
              && sum.value.value == ChecksumOf(rules.crcs, sum.value.sizeBits, message)
  {
  }

  /** The command set has no other checksum sizes. */
  lemma {:induction false} WireSizes(crcs: Crcs, command: string)
    ensures WireRules(crcs).checksumBits(command) == 0 || WireRules(crcs).checksumBits(command) == 16
  {
    if FromWire(command).Some? {
      ChecksummedKinds(FromWire(command).value);
    }
  }

  /** Under the command set a completion with a checksum has three letters that spell the CRC of its payload. */
  lemma {:induction false} WireCompletedIsValid(rules: Rules, frames: seq<Decoded>, i: nat, r: BufferedCommandResult)
    requires rules == WireRules(rules.crcs)
    requires i < |frames| && EventAt(rules, frames, i) == Some(Completed(r)) && r.checksum.Some?
    ensures r.checksum == Some(BufferedChecksum(16, Checksum16(rules.crcs, r.payload), true))
    ensures Spells(r.checksum.value.value, rules.crcs.crc16(r.payload) % 0x1_0000)
  {
    CompletedIsValid(rules, frames, i, r);
    WireSizes(rules.crcs, r.command);
    Checksum16Spells(rules.crcs, r.payload, r.checksum.value.value);
  }

  /** The text of the key's fragments from frame `s` to frame `i`, without its trailing spaces. */
  function TextOf(frames: seq<Decoded>, s: nat, i: nat): string
    requires i < |frames|
  {
    RStrip(Concat(TextsFrom(frames[..i], KeyOf(frames[i]), s + 1) + [frames[i].message]))
  }

  /** The event that ends the buffer opened by `header`: the header's fields with a payload, or a failed checksum. */
  predicate EndsWith(header: Decoded, event: Option<Event>, payload: string, checksum: Option<BufferedChecksum>)
    requires IsDirected(header)
  {
    event == Some(Completed(BufferedCommandResult(
      KeyOf(header), header.directed[0], header.directed[1], header.directed[2], payload, checksum, header.utc,
      header.snr, header.flags.(last := true), true)))
  }

  lemma {:induction false} EndingEvent(rules: Rules, frames: seq<Decoded>, s: nat, i: nat)
    requires i < |frames| && OpenAt(rules, frames[..i], KeyOf(frames[i]), s) && Ends(frames[i])
    ensures var header := frames[s];
            var (payload, sum) := Finalize(rules, header.directed[1], header.directed[2], TextOf(frames, s, i));
            if sum.Some? && !sum.value.valid
            then EventAt(rules, frames, i) == Some(DroppedInvalidChecksum(KeyOf(header)))
            else EndsWith(header, EventAt(rules, frames, i), payload, sum)
  {
    OpenBuffer(rules, frames[..i], KeyOf(frames[i]), s);
    assert frames[..i][s] == frames[s];
  }

  predicate ToGateway(target: string, command: string) {
    IsAprs(target) && (command == " MSG" || command == " MSG TO:")
  }

  /** The last fragment of an open buffer completes a command without checksum, and one to the gateway, as it is. */
  lemma {:induction false} UncheckedIsComplete(rules: Rules, frames: seq<Decoded>, s: nat, i: nat)
    requires i < |frames| && OpenAt(rules, frames[..i], KeyOf(frames[i]), s) && Ends(frames[i])
    requires rules.checksumBits(frames[s].directed[2]) == 0 || ToGateway(frames[s].directed[1], frames[s].directed[2])
    ensures EndsWith(frames[s], EventAt(rules, frames, i), TextOf(frames, s, i), None)
  {
    EndingEvent(rules, frames, s, i);
  }

  lemma {:induction false} SplitParts(text: string, body: string, letters: string, n: nat)
    requires text == body + " " + letters && |letters| == 3 && n == |text|
    ensures n >= 4 && text[n - 4] == ' ' && text[..n - 4] == body && text[n - 3..] == letters
  {
  }

  lemma {:induction false} SplitOff(crcs: Crcs, payload: string, body: string, letters: string)
    requires LStrip(payload) == body + " " + letters && |letters| == 3
    ensures FinalizeSized(crcs, 16, payload) ==
            (body, Some(BufferedChecksum(16, letters, Spells(letters, crcs.crc16(body) % 0x1_0000))))
  {
    var text := LStrip(payload);
    SplitParts(text, body, letters, |text|);
    Checksum16Spells(crcs, body, letters);
    assert SplitChecksum(text, 3, 16, (s: string) => Checksum16(crcs, s)) ==
           (body, BufferedChecksum(16, letters, Checksum16(crcs, body) == letters));
  }

  lemma {:induction false} NotSplit(crcs: Crcs, payload: string, text: string, end: string)
    requires text == LStrip(payload) && (|text| < 4 || text[|text| - 4] != ' ')
    requires end == if |text| < 4 then "" else text[|text| - 3..]
    ensures FinalizeSized(crcs, 16, payload) == (text, Some(BufferedChecksum(16, end, false)))
  {
  }

  /** The commands whose payload must end in a 16-bit checksum: not those sent to the gateway. */
  predicate Checked(rules: Rules, target: string, command: string) {
    rules.checksumBits(command) == 16 && !ToGateway(target, command)
  }

  lemma {:induction false} FinalizeChecked(rules: Rules, target: string, command: string, payload: string)
    requires Checked(rules, target, command) && rules.buffered(command)
    ensures Finalize(rules, target, command, payload) == FinalizeSized(rules.crcs, 16, payload)
  {
    assert !Unchecked(rules, target, command);
  }

  lemma {:induction false} CheckedEvent(rules: Rules, frames: seq<Decoded>, s: nat, i: nat, text: string,
                                        payload: string, sum: BufferedChecksum)
    requires i < |frames| && OpenAt(rules, frames[..i], KeyOf(frames[i]), s) && Ends(frames[i])
    requires text == TextOf(frames, s, i)
    requires Finalize(rules, frames[s].directed[1], frames[s].directed[2], text) == (payload, Some(sum))
    ensures if !sum.valid
            then EventAt(rules, frames, i) == Some(DroppedInvalidChecksum(KeyOf(frames[s])))
            else EndsWith(frames[s], EventAt(rules, frames, i), payload, Some(sum))
  {
    EndingEvent(rules, frames, s, i);
  }

  /**
   * Of a command with a checksum it completes exactly if the text ends in a space and three letters that spell the
   * CRC of what is before them; such a text is dropped if the letters spell anything else.
   */
  lemma {:induction false} CheckedIsCompleteOrDropped(rules: Rules, frames: seq<Decoded>, s: nat, i: nat, body: string,
                                                      letters: string)
    requires i < |frames| && OpenAt(rules, frames[..i], KeyOf(frames[i]), s) && Ends(frames[i])
    requires Checked(rules, frames[s].directed[1], frames[s].directed[2])
    requires LStrip(TextOf(frames, s, i)) == body + " " + letters && |letters| == 3
    ensures if Spells(letters, rules.crcs.crc16(body) % 0x1_0000)
            then EndsWith(frames[s], EventAt(rules, frames, i), body, Some(BufferedChecksum(16, letters, true)))
            else EventAt(rules, frames, i) == Some(DroppedInvalidChecksum(KeyOf(frames[s])))
  {
    var text := TextOf(frames, s, i);
    assert frames[..i][s] == frames[s];
    SplitOff(rules.crcs, text, body, letters);
    FinalizeChecked(rules, frames[s].directed[1], frames[s].directed[2], text);
    CheckedEvent(rules, frames, s, i, text, body,
                 BufferedChecksum(16, letters, Spells(letters, rules.crcs.crc16(body) % 0x1_0000)));
  }

  /** A text that has no space before its last three characters is dropped. */
  lemma {:induction false} UnsplitIsDropped(rules: Rules, frames: seq<Decoded>, s: nat, i: nat)
    requires i < |frames| && OpenAt(rules, frames[..i], KeyOf(frames[i]), s) && Ends(frames[i])
    requires Checked(rules, frames[s].directed[1], frames[s].directed[2])
    requires var text := LStrip(TextOf(frames, s, i)); |text| < 4 || text[|text| - 4] != ' '
    ensures EventAt(rules, frames, i) == Some(DroppedInvalidChecksum(KeyOf(frames[s])))
  {
    var text := TextOf(frames, s, i);
    assert frames[..i][s] == frames[s];
    var payload := LStrip(text);
    var end := if |payload| < 4 then "" else payload[|payload| - 3..];
    NotSplit(rules.crcs, text, payload, end);
    FinalizeChecked(rules, frames[s].directed[1], frames[s].directed[2], text);
    CheckedEvent(rules, frames, s, i, text, payload, BufferedChecksum(16, end, false));
  }

  /**
   * A frame that is not directed is silent if it carries a compound callsign or its key has no open buffer; otherwise
   * it ends the buffer if it is the last one, and is appended if not.
   */
  lemma {:induction false} OtherFrameIsFragment(rules: Rules, frames: seq<Decoded>, i: nat)
    requires i < |frames| && !IsDirected(frames[i])
    ensures var key, event := KeyOf(frames[i]), EventAt(rules, frames, i);
      if frames[i].compound != "" || !exists s: nat :: OpenAt(rules, frames[..i], key, s) then event == None
      else if frames[i].flags.last
      then event == Some(DroppedInvalidChecksum(key)) || (event.Some? && event.value.Completed?)
      else event == Some(BufferedAppended(key))
  {
    var key := KeyOf(frames[i]);
    if StateOf(rules, frames[..i], key).Some? {
      var s := OpenedSomewhere(rules, frames[..i], key);
    } else if s: nat :| OpenAt(rules, frames[..i], key, s) {
      OpenBuffer(rules, frames[..i], key, s);
    }
  }

  /**
   * A completion that was not buffered is a directed frame that opens no buffer: of a command that is not buffered,
   * or the last frame and without a callsign still to come. Its payload is the frame's further parts.
   */
  lemma {:induction false} SingleIsItsFrame(rules: Rules, frames: seq<Decoded>, i: nat)
    requires i < |frames| && IsDirected(frames[i])
    ensures var d, event := frames[i], EventAt(rules, frames, i);
      if rules.buffered(d.directed[2]) && (!d.flags.last || PLACEHOLDER in d.directed[..2])
      then event == Some(BufferedStarted(KeyOf(d)))
      else event.Some? && event.value.Completed? &&
           var r := event.value.result;
           && r.key == KeyOf(d) && r.flags == d.flags && r.utc == d.utc && r.snr == d.snr
           && [r.from, r.target, r.command] == d.directed[..3] && !r.wasBuffered && r.checksum.None?
           && (|d.directed| == 3 ==> r.payload == "") && (|d.directed| == 4 ==> r.payload == d.directed[3])
           && (forall k :: 3 < k < |d.directed| ==>
                r.payload == JoinSpaces(d.directed[3..k]) + " " + JoinSpaces(d.directed[k..]))
  {
    var d := frames[i];
    assert d.directed[..2] == [d.directed[0], d.directed[1]];
    forall k | 3 < k < |d.directed|
      ensures JoinSpaces(d.directed[3..]) == JoinSpaces(d.directed[3..k]) + " " + JoinSpaces(d.directed[k..])
    {
      assert d.directed[3..] == d.directed[3..k] + d.directed[k..];
      JoinSpacesIs(d.directed[3..k], d.directed[k..]);
    }
  }

  /** Every completion that was not buffered comes from such a frame. */
  lemma {:induction false} SingleIsDirected(rules: Rules, frames: seq<Decoded>, i: nat, r: BufferedCommandResult)
    requires i < |frames| && EventAt(rules, frames, i) == Some(Completed(r))
    ensures r.wasBuffered <==> !IsDirected(frames[i])
  {
  }
}
