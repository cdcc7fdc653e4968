/** Frames on the air: text and flags as 79 tones, and what is heard of them. */
module Air {
  import opened Wrappers
  import opened Words
  import opened Alphabet
  import opened Frame72
  import opened ChannelFrame
  import opened ChannelTones
  import opened ChannelEncoder
  import opened CrcCheck
  import opened Framing
  import Reassembly

  /** The frame type: first 1, last 2, data 4. */
  function TypeOf(flags: Flags): (typ: nat)
    ensures typ < 8
  {
    (if flags.first then 1 else 0) + (if flags.last then 2 else 0) + if flags.data then 4 else 0
  }

  /** The flags in the three type bits of a frame. */
  function FlagsOf(bits: seq<bool>): Flags
    requires |bits| == 3
  {
    Reassembly.Flags(bits[2], bits[1], bits[0])
  }

  lemma {:induction false} FlagsReadBack(flags: Flags)
    ensures FlagsOf(Bits(TypeOf(flags), 3)) == flags
  {
    var typ := TypeOf(flags);
    BitOfType(typ, typ / 2, typ / 4);
  }

  lemma {:induction false} BitOfType(typ: nat, half: nat, quarter: nat)
    requires half == typ / 2 && quarter == typ / 4
    ensures Bits(typ, 3) == [quarter % 2 == 1, half % 2 == 1, typ % 2 == 1]
  {
    assert Bits(typ, 3) == Bits(half, 2) + [typ % 2 == 1];
    assert half / 2 == quarter;
    assert Bits(half, 2) == Bits(quarter, 1) + [half % 2 == 1];
    assert Bits(quarter, 1) == Bits(quarter / 2, 0) + [quarter % 2 == 1];
  }

  /** A text that the channel encoder takes. */
  predicate Encodable(text: string) {
    Refusal(text).None?
  }

  /** The synchronisation patterns and the parity matrix of a mode. */
  datatype Channel = Channel(costas: seq<seq<nat>>, matrix: seq<seq<bool>>)

  predicate GoodChannel(ch: Channel) {
    IsCostas(ch.costas) && IsMatrix(ch.matrix)
  }

  /** The tones of a frame, as `EncodeWithCostas` fills them. */
  function TonesOf(ch: Channel, frame: Frame): (tones: seq<nat>)
    requires GoodChannel(ch) && Encodable(frame.text)
    ensures |tones| == 79
  {
    var word := Codeword(frame.text, TypeOf(frame.flags));
    Layout(ch.costas, ParityBits(ch.matrix, word), word)
  }

  /** The frame read from the data tones, if its checksum is right. */
  function Heard(tones: seq<nat>): Option<Frame>
    requires |tones| == 79
  {
    var bits := ToneBits(tones, 43, 29);
    if Accepted(Received(AsInts(bits))) then Some(Frame(FieldText(Received(AsInts(bits)), 12), FlagsOf(bits[72..75])))
    else None
  }

  /** Every encodable frame is heard as it was sent. */
  lemma {:induction false} FrameIsHeard(ch: Channel, frame: Frame)
    requires GoodChannel(ch) && Encodable(frame.text)
    ensures Heard(TonesOf(ch, frame)) == Some(frame)
  {
    FrameRoundTrip(TypeOf(frame.flags), ch.costas, frame.text, ch.matrix);
    FlagsReadBack(frame.flags);
  }

  /** A frame sent and heard: none if the encoder refuses its text or the check fails. */
  function Carry(ch: Channel, frame: Frame): Option<Frame>
    requires GoodChannel(ch)
  {
    if Encodable(frame.text) then Heard(TonesOf(ch, frame)) else None
  }

  function Collected<T>(results: seq<Option<T>>): seq<T> {
    if results == [] then []
    else
      var last := results[|results| - 1];
      Collected(results[..|results| - 1]) + if last.Some? then [last.value] else []
  }

  /** The frames that are heard of a sequence of frames. */
  function CarryAll(ch: Channel, frames: seq<Frame>): seq<Frame>
    requires GoodChannel(ch)
  {
    Collected(seq(|frames|, i requires 0 <= i < |frames| => Carry(ch, frames[i])))
  }

  lemma {:induction false} AllCollected<T>(results: seq<Option<T>>, values: seq<T>)
    requires |results| == |values| && forall i :: 0 <= i < |results| ==> results[i] == Some(values[i])
    ensures Collected(results) == values
  {
    if results != [] {
      var n := |results| - 1;
      AllCollected(results[..n], values[..n]);
      assert values == values[..n] + [values[n]];
    }
  }

  /** Encodable frames are all heard, in order, as they were sent. */
  lemma {:induction false} AllAreHeard(ch: Channel, frames: seq<Frame>)
    requires GoodChannel(ch) && forall i :: 0 <= i < |frames| ==> Encodable(frames[i].text)
    ensures CarryAll(ch, frames) == frames
  {
    var results := seq(|frames|, i requires 0 <= i < |frames| => Carry(ch, frames[i]));
    forall i | 0 <= i < |frames|
      ensures results[i] == Some(frames[i])
    {
      FrameIsHeard(ch, frames[i]);
    }
    AllCollected(results, frames);
  }

  // ---- texts of twelve digits

  lemma {:induction false} DigitIsValid(d: nat)
    requires d < 64
    ensures ValidChar(AlphabetChar(d))
  {
    IndexOfChar(d);
  }

  /** Texts of twelve base-64 digits are encodable. */
  lemma {:induction false} DigitsAreEncodable(ds: seq<nat>)
    requires |ds| == 12 && Plain(ds)
    ensures Encodable(Text(ds))
  {
    forall i | 0 <= i < 12
      ensures ValidChar(Text(ds)[i])
    {
      DigitIsValid(ds[i]);
    }
  }
}
