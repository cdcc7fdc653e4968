/** Classifying a received frame: data, or a directed header, or a form left to other unpackers. */
module FrameParse {
  import opened Wrappers
  import opened Words
  import opened Alphabet
  import opened Frame72
  import opened Callsign
  import opened Commands
  import opened DirectedFrame
  import JscTables
  import FastData
  import Reassembly
  import opened Transport

  /**
   * What parsing depends on: the dictionary, the group names, the token of a command code, how its number is
   * shown, and the unpackers of legacy data and of compound callsigns, which are arbitrary.
   */
  datatype Parser = Parser(map_: seq<JscTables.Entry>, names: seq<string>, token: nat -> string,
                           number: (nat, int) -> string, legacy: string -> string, compound: string -> ParsedFrame)

  predicate Framed(m: string) {
    |m| >= 12 && ' ' !in m
  }

  function ValueOf(m: string): (nat, nat)
    requires |m| >= 12
  {
    Unpacked(Indices(m[..12]))
  }

  /** The sender, target, command and perhaps number of a directed frame. */
  function UnpackDirected(parser: Parser, m: string): (parts: seq<string>) {
    if !Framed(m) then []
    else
      var (value, extra) := ValueOf(m);
      if FlagOf(WIDTHS, value) != FRAME_DIRECTED then []
      else
        Parts(parser, UnpackFields(WIDTHS, value, extra))
  }

  /** What the fields of a header stand for. */
  function Parts(parser: Parser, f: Fields): (parts: seq<string>)
    ensures |parts| >= 3
  {
    var parts := [UnpackCallsign(parser.names, f.from, f.portableFrom),
                  UnpackCallsign(parser.names, f.target, f.portableTo), parser.token(f.code % 32)];
    if f.number != 0 then parts + [parser.number(f.code % 32, f.number - 31)] else parts
  }

  /** A parser's tokens are those of the command set. */
  ghost predicate WireTokens(parser: Parser) {
    forall code: nat {:trigger parser.token(code)} :: code < 32 ==> parser.token(code) == WireToken(FromWireCode(code))
  }

  /** The sender of a directed message, its target and the rest, as one line. */
  function DirectedLine(parts: seq<string>): string
    requires |parts| >= 3
  {
    parts[0] + ": " + parts[1] + Reassembly.JoinSpaces(parts[2..]) + " "
  }

  /** Frames marked as data are data or stay unread; the others are legacy data, compound or directed frames. */
  function ParseFrame(parser: Parser, encoded: string, isData: bool): ParsedFrame {
    var m := Trim(encoded);
    if !Framed(m) then ParsedFrame([], "", encoded)
    else if isData then
      var data := FastData.Unpack(parser.map_, m);
      ParsedFrame([], "", if data == "" then encoded else data)
    else
      var (value, rem) := ValueOf(m);
      var legacy := if FrameBits(value, rem)[0] then parser.legacy(m) else "";
      if legacy != "" then ParsedFrame([], "", legacy)
      else if FlagOf(WIDTHS, value) in {0, 1, 2} then parser.compound(m)
      else
        var parts := UnpackDirected(parser, m);
        if parts == [] then ParsedFrame([], "", encoded) else ParsedFrame(parts, "", DirectedLine(parts))
  }

  // ---- frames of the transmitter

  function HeaderText(f: Fields): (s: string) {
    Text(Sextets(PackValue(WIDTHS, f) * 256 + PackExtra(f), 12))
  }

  lemma {:induction false} CharIsNotBlank(d: nat)
    requires d < 67
    ensures !IsBlank(AlphabetChar(d))
  {
  }

  lemma {:induction false} FrameTextIsFramed(ds: seq<nat>)
    requires |ds| == 12 && Frame72.Plain(ds)
    ensures Trim(Text(ds)) == Text(ds) && Framed(Text(ds))
  {
    CharIsNotBlank(ds[0]);
    CharIsNotBlank(ds[11]);
    FastData.CharsAreNotSpaces(ds);
  }

  lemma {:induction false} TopBit(value: nat, rem: nat, k: nat)
    requires k < 64
    ensures FrameBits(value, rem)[63 - k] == (Shr(value, k) % 2 == 1)
  {
    BitsAreHasBit(value, 64, 63 - k);
    HasBitIsShr(value, k);
  }

  lemma {:induction false} HasBitIsShr(v: nat, k: nat)
    ensures HasBit(v, k) <==> Shr(v, k) % 2 == 1
  {
    if k > 0 {
      HasBitIsShr(v / 2, k - 1);
    }
  }

  lemma {:induction false} DirectedIsNotData(value: nat, rem: nat)
    requires FlagOf(WIDTHS, value) == FRAME_DIRECTED
    ensures !FrameBits(value, rem)[0]
  {
    TopBit(value, rem, 63);
    ShrTwice(value, WIDTHS.code + WIDTHS.call + WIDTHS.call, 2);
    assert Shr(FRAME_DIRECTED, 2) == 0 by {
      assert Shr(1, 1) == 0;
    }
  }

  lemma {:induction false} ParseDirected(parser: Parser, m: string, value: nat, rem: nat, f: Fields)
    requires Trim(m) == m && Framed(m) && ValueOf(m) == (value, rem)
    requires FlagOf(WIDTHS, value) == FRAME_DIRECTED && UnpackFields(WIDTHS, value, rem) == f
    ensures var p := ParseFrame(parser, m, false);
            p.compound == "" && p.directed == Parts(parser, f)
  {
    DirectedIsNotData(value, rem);
    assert UnpackDirected(parser, m) == Parts(parser, f);
  }

  lemma {:induction false} DataBit(value: nat, rem: nat, flag: nat)
    requires value < U64 && flag == FlagOf(WIDTHS, value)
    ensures flag < 8 && (FrameBits(value, rem)[0] <==> flag >= 4)
  {
    U64IsPow2();
    ShrBound(value, 61, 3);
    TopBit(value, rem, 63);
    ShrTwice(value, WIDTHS.code + WIDTHS.call + WIDTHS.call, 2);
    assert Shr(flag, 2) == flag / 2 / 2 by {
      assert Shr(flag / 2, 1) == flag / 2 / 2;
    }
    assert Pow2(3) == 8 by {
      assert Pow2(1) == 2 && Pow2(2) == 4;
    }
  }

  lemma {:induction false} ShrBound(value: nat, n: nat, k: nat)
    requires value < Pow2(n + k)
    ensures Shr(value, n) < Pow2(k)
  {
    if n > 0 {
      ShrBound(value / 2, n - 1, k);
    }
  }

  /** What a frame that is not marked as data is taken for: the three bits in front tell. */
  lemma {:induction false} OtherFrameIsParsed(parser: Parser, value: nat, rem: nat, m: string)
    requires value < U64 && rem < 256 && m == Text(Sextets(value * 256 + rem, 12))
    ensures var p, flag := ParseFrame(parser, m, false), FlagOf(WIDTHS, value);
      if flag < 3 then p == parser.compound(m)
      else if flag == 3 then p.compound == "" && p.directed == Parts(parser, UnpackFields(WIDTHS, value, rem))
      else p == ParsedFrame([], "", if parser.legacy(m) != "" then parser.legacy(m) else m)
  {
    ReadValue(value, rem, m);
    DataBit(value, rem, FlagOf(WIDTHS, value));
  }

  lemma {:induction false} ReadValue(value: nat, rem: nat, m: string)
    requires value < U64 && rem < 256 && m == Text(Sextets(value * 256 + rem, 12))
    ensures Trim(m) == m && Framed(m) && ValueOf(m) == (value, rem)
  {
    PackedIsUnpacked(value, rem);
    FrameTextIsFramed(Sextets(value * 256 + rem, 12));
    assert m[..12] == m;
  }

  lemma {:induction false} HeaderIsRead(f: Fields, m: string)
    requires FieldsFit(WIDTHS, f) && m == HeaderText(f)
    ensures Trim(m) == m && Framed(m) && ValueOf(m) == (PackValue(WIDTHS, f), PackExtra(f))
  {
    var value, rem := PackValue(WIDTHS, f), PackExtra(f);
    FieldsReadBack(WIDTHS, f);
    ValueFits(value, WIDTHS);
    ReadValue(value, rem, m);
  }

  /** A header frame is parsed as a directed frame with its own fields. */
  lemma {:induction false} HeaderIsParsed(parser: Parser, f: Fields, m: string)
    requires FieldsFit(WIDTHS, f) && m == HeaderText(f)
    ensures var p := ParseFrame(parser, m, false);
            p.compound == "" && p.directed == Parts(parser, f)
  {
    HeaderIsRead(f, m);
    FieldsReadBack(WIDTHS, f);
    ParseDirected(parser, m, PackValue(WIDTHS, f), PackExtra(f), f);
  }

  lemma {:induction false} ValueFits(value: nat, w: Widths)
    requires w == WIDTHS && value < Pow2(2 + w.call + w.call + w.code)
    ensures value < U64
  {
    Pow2Monotone(2 + w.call + w.call + w.code, 64);
    U64IsPow2();
  }

  /** A data frame is parsed as the text it shows. */
  lemma {:induction false} DataIsParsed(parser: Parser, message: seq<bool>)
    requires |message| <= 72 && FastData.Unpack(parser.map_, FastData.PackedFrame(message)) != ""
    ensures ParseFrame(parser, FastData.PackedFrame(message), true) ==
            ParsedFrame([], "", FastData.Unpack(parser.map_, FastData.PackedFrame(message)))
  {
    FrameTextIsFramed(Sextets(ToNat(Padded(message)), 12));
  }
}
