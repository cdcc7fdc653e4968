/** Data frames: twelve characters that carry one padded run of codewords. */
module FastData {
  import opened Wrappers
  import opened Words
  import opened Alphabet
  import opened Frame72
  import opened JscTables
  import opened JscCode
  import opened JscCompress
  import opened JscRoundTrip

  /** The characters of the frame that carries a message. */
  function PackedFrame(message: seq<bool>): (frame: string)
    requires |message| <= 72
    ensures |frame| == 12
  {
    Text(Sextets(ToNat(Padded(message)), 12))
  }

  lemma {:induction false} FrameAsNumber(value: nat, rem: nat)
    requires value < U64 && rem < 256
    ensures ToNat(FrameBits(value, rem)) == value * 256 + rem
  {
    U64IsPow2();
    Pow2Values();
    ToNatOfBits(value, 64);
    ToNatOfBits(rem, 8);
    ToNatAppend(Bits(value, 64), Bits(rem, 8));
    ShlIsMultiple(value, 8);
  }

  lemma {:induction false} FrameOfNumber(value: nat, rem: nat, bits: seq<bool>)
    requires value < U64 && rem < 256 && |bits| == 72 && value * 256 + rem == ToNat(bits)
    ensures FrameBits(value, rem) == bits
  {
    FrameAsNumber(value, rem);
    BitsOfToNat(bits);
    BitsOfToNat(FrameBits(value, rem));
  }

  lemma {:induction false} CharsAreNotSpaces(ds: seq<nat>)
    requires Plain(ds)
    ensures ' ' !in Text(ds)
  {
    forall i | 0 <= i < |ds|
      ensures Text(ds)[i] != ' '
    {
      NoSpaceInAlphabet(ds[i]);
    }
  }

  lemma {:induction false} NoSpaceInAlphabet(d: nat)
    requires d < 67
    ensures AlphabetChar(d) != ' '
  {
  }

  /** The codewords of a frame always leave room for the zero that ends them. */
  lemma {:induction false} CodewordsFit(d: Dictionary, text: string)
    ensures |Message(Encode(d, text, 0).tokens)| < 72
  {
    WordsFit(d, Split(text), 0, 0, Progress([], 0, false));
    MessageLengthIs(Encode(d, text, 0).tokens);
  }

  /** The frame for the start of a text, and how many of its characters it carries. */
  function Packed(d: Dictionary, text: string): (r: (string, nat))
    ensures |r.0| == 12 && r.1 <= |text|
  {
    CodewordsFit(d, text);
    ConsumedWithinText(d, text, 0);
    var p := Encode(d, text, 0);
    (PackedFrame(Message(p.tokens)), p.consumed)
  }

  method PackFastData(t: Tables, ghost d: Dictionary, text: string) returns (frame: string, consumed: nat)
    requires Implements(t, d) && IsBytes(text)
    ensures (frame, consumed) == Packed(d, text)
  {
    var value, rem;
    value, rem, consumed := CompressFrame(t, d, text, []);
    frame := Pack72Bits(value, rem);
    FrameIsPacked(d, text, [], value, rem);
  }

  /** The twelve characters of the frame's number are the packed frame. */
  lemma {:induction false} FrameIsPacked(d: Dictionary, text: string, none: seq<bool>, value: nat, rem: nat)
    requires value < U64 && rem < 256 && none == []
    requires |none + Message(Encode(d, text, 0).tokens)| <= 72
    requires FrameBits(value, rem) == Padded(none + Message(Encode(d, text, 0).tokens))
    ensures Text(Sextets(value * 256 + rem, 12)) == Packed(d, text).0
  {
    var message := Message(Encode(d, text, 0).tokens);
    CodewordsFit(d, text);
    assert none + message == message;
    FrameOfMessage(message, value, rem);
  }

  lemma {:induction false} FrameOfMessage(message: seq<bool>, value: nat, rem: nat)
    requires value < U64 && rem < 256 && |message| <= 72 && FrameBits(value, rem) == Padded(message)
    ensures Text(Sextets(value * 256 + rem, 12)) == PackedFrame(message)
  {
    FrameAsNumber(value, rem);
  }

  /** The text a data frame shows; malformed frames show nothing. */
  function Unpack(map_: seq<Entry>, text: string): string {
    if |text| < 12 || ' ' in text then ""
    else
      var (value, rem) := Unpacked(Indices(text[..12]));
      match LastIndexOfZero(FrameBits(value, rem))
      case None => ""
      case Some(n) => Decode(map_, FrameBits(value, rem)[..n])
  }

  /** Texts that are too short or hold a space show nothing, and neither does a frame of ones only. */
  lemma {:induction false} MalformedShowsNothing(map_: seq<Entry>, text: string)
    requires |text| < 12 || ' ' in text
             || var (value, rem) := Unpacked(Indices(text[..12]));
                forall i :: 0 <= i < 72 ==> FrameBits(value, rem)[i]
    ensures Unpack(map_, text) == ""
  {
  }

  /** Any other text shows what the bits before the last zero of its first twelve characters are the codewords of. */
  lemma {:induction false} OthersShowMessage(map_: seq<Entry>, text: string, message: seq<bool>)
    requires |text| >= 12 && ' ' !in text && |message| < 72
    requires var (value, rem) := Unpacked(Indices(text[..12])); FrameBits(value, rem) == Padded(message)
    ensures Unpack(map_, text) == Decode(map_, message)
  {
    PaddingIsSelfDelimiting(message);
  }

  method UnpackFastData(map_: seq<Entry>, text: string) returns (unpacked: string)
    ensures unpacked == Unpack(map_, text)
  {
    if |text| < 12 || ' ' in text {
      return "";
    }
    var value, rem := Unpack72Bits(text);
    var bits := Bits72(value, rem);
    match LastIndexOfZero(bits)
    case None => return "";
    case Some(n) => unpacked := Decompress(map_, bits[..n]);
  }

  /** A frame shows exactly the bits that were packed into it. */
  lemma {:induction false} UnpackPacked(map_: seq<Entry>, message: seq<bool>)
    requires |message| < 72
    ensures Unpack(map_, PackedFrame(message)) == Decode(map_, message)
  {
    var bits := Padded(message);
    var total := ToNat(bits);
    assert total < U64 * 256 by {
      U64IsPow2();
      Pow2Values();
      Pow2Add(64, 8);
    }
    var (value, rem) := Unpacked(Sextets(total, 12));
    UnpackedSextets(total);
    assert value < U64;
    FrameOfNumber(value, rem, bits);
    var text := PackedFrame(message);
    IndicesOfText(Sextets(total, 12));
    CharsAreNotSpaces(Sextets(total, 12));
    assert text[..12] == text;
    PaddingIsSelfDelimiting(message);
  }

  /**
   * For every covered text, a packed frame unpacks to the consumed characters
   * if and only if every entry sent declares the size of its text.
   */
  lemma {:induction false} FrameRoundTrip(d: Dictionary, text: string)
    requires Covered(d, text, false)
    ensures var (frame, consumed) := Packed(d, text);
            Unpack(d.map_, frame) == text[..consumed] <==> Exact(d, Encode(d, text, 0).tokens)
  {
    var p := Encode(d, text, 0);
    CodewordsFit(d, text);
    UnpackPacked(d.map_, Message(p.tokens));
    ShownIsConsumed(d, text, false, 0);
    DecodeMessage(d.map_, p.tokens);
  }

  /** Where every lookup finds an exact entry the frame unpacks to the consumed characters, at least one. */
  lemma {:induction false} ExactFrameRoundTrip(d: Dictionary, text: string)
    requires Covered(d, text, true)
    ensures var (frame, consumed) := Packed(d, text);
            && Unpack(d.map_, frame) == text[..consumed]
            && (text != "" ==> consumed >= 1)
  {
    var p := Encode(d, text, 0);
    CodewordsFit(d, text);
    UnpackPacked(d.map_, Message(p.tokens));
    ShownIsConsumed(d, text, true, 0);
    DecodeMessage(d.map_, p.tokens);
    if text != "" {
      FrameAdvances(d, text, 0);
    }
  }
}
