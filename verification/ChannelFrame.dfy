/** The 79 tones of a frame, and the message read back from its data tones. */
module ChannelFrame {
  import opened Wrappers
  import opened Words
  import opened Gf2
  import opened BitWords
  import opened Alphabet
  import opened Crc12
  import opened CrcCheck
  import opened ChannelEncoder
  import opened ChannelTones

  predicate IsCostas(costas: seq<seq<nat>>) {
    |costas| == 3 && forall k :: 0 <= k < 3 ==> |costas[k]| == 7
  }

  /** The tone of symbol `s`: three bits, most significant first. */
  function Symbol(bits: seq<bool>, s: nat): (tone: nat)
    requires 3 * s + 3 <= |bits|
    ensures tone < 8
  {
    Pow2Values();
    assert Pow2(3) == 8;
    ToNat(bits[3 * s..3 * s + 3])
  }

  /** Synchronisation patterns at 0, 36 and 72; parity symbols from 7, message symbols from 43. */
  function ToneAt(costas: seq<seq<nat>>, parity: seq<bool>, word: seq<bool>, i: nat): nat
    requires IsCostas(costas) && |parity| == 87 && |word| == 87 && i < 79
  {
    if i % 36 < 7 then costas[i / 36][i % 36]
    else if i < 36 then Symbol(parity, i - 7)
    else Symbol(word, i - 43)
  }

  function Layout(costas: seq<seq<nat>>, parity: seq<bool>, word: seq<bool>): (tones: seq<nat>)
    requires IsCostas(costas) && |parity| == 87 && |word| == 87
    ensures |tones| == 79
  {
    seq(79, i requires 0 <= i < 79 => ToneAt(costas, parity, word, i))
  }

  /** Which positions are written once `k` patterns, `j` tones of the next one and `s` symbols are. */
  predicate Done(i: nat, k: nat, j: nat, s: nat) {
    if i % 36 < 7 then i / 36 < k || (i / 36 == k && i % 36 < j) else i % 36 - 7 < s
  }

  /** The written positions hold the layout and were written exactly once, the others not at all. */
  predicate Filled(tones: seq<nat>, writes: seq<nat>, layout: seq<nat>, k: nat, j: nat, s: nat) {
    |tones| == 79 && |writes| == 79 && |layout| == 79 &&
    forall i :: 0 <= i < 79 ==>
      writes[i] == (if Done(i, k, j, s) then 1 else 0) && (Done(i, k, j, s) ==> tones[i] == layout[i])
  }

  function Bump(writes: seq<nat>, i: nat): (w: seq<nat>)
    requires i < |writes|
    ensures |w| == |writes|
  {
    writes[i := writes[i] + 1]
  }

  /** `(p0 << 2) | (p1 << 1) | p2` over the parity rows of one symbol. */
  method ParitySymbol(matrix: seq<seq<bool>>, wide: seq<bool>, symbol: nat, ghost word: seq<bool>) returns (tone: nat)
    requires IsMatrix(matrix) && |word| == 87 && wide == Wide(word) && symbol < 29
    ensures tone == Symbol(ParityBits(matrix, word), symbol)
  {
    var row := symbol * 3;
    var p0 := CountOnes(And(matrix[row], wide)) % 2;
    var p1 := CountOnes(And(matrix[row + 1], wide)) % 2;
    var p2 := CountOnes(And(matrix[row + 2], wide)) % 2;
    tone := BitOr(BitOr(Shl(p0, 2), Shl(p1, 1)), p2);
    ParityAt(matrix, word, row, p0);
    ParityAt(matrix, word, row + 1, p1);
    ParityAt(matrix, word, row + 2, p2);
    ThreeRows(ParityBits(matrix, word), symbol, p0, p1, p2);
  }

  lemma {:induction false} ParityAt(matrix: seq<seq<bool>>, word: seq<bool>, r: nat, p: nat)
    requires IsMatrix(matrix) && |word| == 87 && r < 87 && p == CountOnes(And(matrix[r], Wide(word))) % 2
    ensures p == if ParityBits(matrix, word)[r] then 1 else 0
  {
  }

  lemma {:induction false} ThreeRows(parity: seq<bool>, s: nat, p0: nat, p1: nat, p2: nat)
    requires 3 * s + 3 <= |parity|
    requires p0 == (if parity[3 * s] then 1 else 0) && p1 == (if parity[3 * s + 1] then 1 else 0)
    requires p2 == if parity[3 * s + 2] then 1 else 0
    ensures BitOr(BitOr(Shl(p0, 2), Shl(p1, 1)), p2) == Symbol(parity, s)
  {
    ThreeBits(parity[3 * s], parity[3 * s + 1], parity[3 * s + 2], p0, p1, p2);
    assert parity[3 * s..3 * s + 3] == [parity[3 * s], parity[3 * s + 1], parity[3 * s + 2]];
  }

  lemma {:induction false} ThreeBits(a: bool, b: bool, c: bool, p0: nat, p1: nat, p2: nat)
    requires p0 == (if a then 1 else 0) && p1 == (if b then 1 else 0) && p2 == (if c then 1 else 0)
    ensures BitOr(BitOr(Shl(p0, 2), Shl(p1, 1)), p2) == ToNat([a, b, c])
  {
    var none: seq<bool> := [];
    ToNatPush(none, a);
    ToNatPush([a], b);
    ToNatPush([a, b], c);
    assert none + [a] == [a] && [a] + [b] == [a, b] && [a, b] + [c] == [a, b, c];
  }

  /** `((message_bits >> (125 - row)) & 0b111) as u8`. */
  method DataSymbol(wide: seq<bool>, symbol: nat, ghost word: seq<bool>) returns (tone: nat)
    requires |word| == 87 && wide == Wide(word) && symbol < 29
    ensures tone == Symbol(word, symbol)
  {
    var shifted := ShiftRight(wide, 125 - symbol * 3);
    tone := ToNat(And(shifted, LowMask(128, 3)));
    LowField(wide, 125 - symbol * 3, 3);
    TakeFromWide(word, symbol * 3);
    assert symbol * 3 == 3 * symbol;
  }

  lemma {:induction false} LowField(w: seq<bool>, k: nat, n: nat)
    requires k + n <= |w|
    ensures ToNat(And(ShiftRight(w, k), LowMask(|w|, n))) == ToNat(w[|w| - k - n..|w| - k])
  {
    var shifted := ShiftRight(w, k);
    AndLowMask(shifted, n);
    assert shifted[|w| - n..] == w[|w| - k - n..|w| - k];
    ToNatSkipsZeros(|w| - n, shifted[|w| - n..]);
  }

  lemma {:induction false} TakeFromWide(word: seq<bool>, i: nat)
    requires |word| == 87 && i + 3 <= 87
    ensures Wide(word)[i..i + 3] == word[i..i + 3]
  {
  }

  lemma {:induction false} FillStep(tones: seq<nat>, writes: seq<nat>, layout: seq<nat>, k: nat, j: nat, next: seq<nat>)
    requires Filled(tones, writes, layout, k, j, 0) && k < 3 && j < 7
    requires next == tones[36 * k + j := layout[36 * k + j]]
    ensures Filled(next, Bump(writes, 36 * k + j), layout, k, j + 1, 0)
  {
    assert forall i :: 0 <= i < 79 ==> (Done(i, k, j + 1, 0) <==> Done(i, k, j, 0) || i == 36 * k + j);
  }

  /** Copies the three synchronisation patterns. */
  method WriteCostas(costas: seq<seq<nat>>, tones: array<nat>, ghost layout: seq<nat>) returns (ghost writes: seq<nat>)
    requires IsCostas(costas) && tones.Length == 79 && |layout| == 79
    requires forall k, j :: 0 <= k < 3 && 0 <= j < 7 ==> layout[36 * k + j] == costas[k][j]
    modifies tones
    ensures Filled(tones[..], writes, layout, 3, 0, 0)
  {
    writes := seq(79, _ => 0);
    for k := 0 to 3
      invariant Filled(tones[..], writes, layout, k, 0, 0)
    {
      for j := 0 to 7
        invariant Filled(tones[..], writes, layout, k, j, 0)
      {
        FillStep(tones[..], writes, layout, k, j, tones[..][36 * k + j := costas[k][j]]);
        tones[36 * k + j] := costas[k][j];
        writes := Bump(writes, 36 * k + j);
      }
    }
  }

  lemma {:induction false} SymbolStep(tones: seq<nat>, writes: seq<nat>, layout: seq<nat>, s: nat, next: seq<nat>,
                                      more: seq<nat>)
    requires Filled(tones, writes, layout, 3, 0, s) && s < 29
    requires next == tones[7 + s := layout[7 + s]][43 + s := layout[43 + s]]
    requires more == Bump(Bump(writes, 7 + s), 43 + s)
    ensures Filled(next, more, layout, 3, 0, s + 1)
  {
    assert forall i: nat :: i < 79 ==> (Done(i, 3, 0, s + 1) <==> Done(i, 3, 0, s) || i == 7 + s || i == 43 + s);
  }

  method WriteSymbols(matrix: seq<seq<bool>>, wide: seq<bool>, tones: array<nat>,
                      ghost costas: seq<seq<nat>>, ghost word: seq<bool>, ghost before: seq<nat>)
      returns (ghost writes: seq<nat>)
    requires IsMatrix(matrix) && IsCostas(costas) && |word| == 87 && wide == Wide(word)
    requires Filled(tones[..], before, Layout(costas, ParityBits(matrix, word), word), 3, 0, 0)
    modifies tones
    ensures Filled(tones[..], writes, Layout(costas, ParityBits(matrix, word), word), 3, 0, 29)
  {
    ghost var parity := ParityBits(matrix, word);
    ghost var layout := Layout(costas, parity, word);
    writes := before;
    for symbol := 0 to 29
      invariant Filled(tones[..], writes, layout, 3, 0, symbol)
    {
      var p := ParitySymbol(matrix, wide, symbol, word);
      var m := DataSymbol(wide, symbol, word);
      ghost var tones0, writes0 := tones[..], writes;
      SymbolTones(costas, parity, word, symbol);
      tones[7 + symbol] := p;
      writes := Bump(writes, 7 + symbol);
      tones[43 + symbol] := m;
      writes := Bump(writes, 43 + symbol);
      SymbolStep(tones0, writes0, layout, symbol, tones[..], writes);
    }
  }

  lemma {:induction false} SymbolTones(costas: seq<seq<nat>>, parity: seq<bool>, word: seq<bool>, s: nat)
    requires IsCostas(costas) && |parity| == 87 && |word| == 87 && s < 29
    ensures Layout(costas, parity, word)[7 + s] == Symbol(parity, s)
    ensures Layout(costas, parity, word)[43 + s] == Symbol(word, s)
  {
  }

  /** What encoding a message must report: its length, then its first invalid character. */
  function Refusal(message: string): (r: Option<EncodeError>)
  {
    if |message| != 12 then Some(InvalidMessageLength(|message|))
    else
      match FirstInvalid(message)
      case Some(c) => Some(InvalidCharacter(c as nat))
      case None => None
  }

  /** Fills the tones, each position exactly once; on refusal nothing is written. */
  method EncodeWithCostas(typ: nat, costas: seq<seq<nat>>, message: string, tones: array<nat>, matrix: seq<seq<bool>>)
      returns (error: Option<EncodeError>, ghost writes: seq<nat>)
    requires IsCostas(costas) && IsMatrix(matrix) && tones.Length == 79
    requires forall k :: 0 <= k < |message| ==> message[k] as nat < 256
    modifies tones
    ensures error == Refusal(message)
    ensures error.Some? ==> tones[..] == old(tones[..]) && writes == seq(79, _ => 0)
    ensures error.None? ==> writes == seq(79, _ => 1)
    ensures error.None? ==>
      tones[..] == Layout(costas, ParityBits(matrix, Codeword(message, typ)), Codeword(message, typ))
  {
    writes := seq(79, _ => 0);
    if |message| != 12 {
      return Some(InvalidMessageLength(|message|)), writes;
    }
    var r := CodewordBytes(message, typ);
    if r.Failed? {
      return Some(r.error), writes;
    }
    writes := WriteTones(r.value, costas, tones, matrix, Codeword(message, typ));
    error := None;
  }

  method WriteTones(bytes: seq<Byte>, costas: seq<seq<nat>>, tones: array<nat>, matrix: seq<seq<bool>>,
                    ghost word: seq<bool>)
      returns (ghost writes: seq<nat>)
    requires IsCostas(costas) && IsMatrix(matrix) && tones.Length == 79
    requires |bytes| == 11 && |word| == 87 && BytesBits(bytes) == word + [false]
    modifies tones
    ensures writes == seq(79, _ => 1) && tones[..] == Layout(costas, ParityBits(matrix, word), word)
  {
    ghost var layout := Layout(costas, ParityBits(matrix, word), word);
    var wide := BytesBits(bytes) + Zeros(40);
    WideIs(word, wide);
    writes := WriteCostas(costas, tones, layout);
    writes := WriteSymbols(matrix, wide, tones, costas, word, writes);
    AllFilled(tones[..], writes, layout);
  }

  lemma {:induction false} WideIs(word: seq<bool>, wide: seq<bool>)
    requires |word| == 87 && wide == word + [false] + Zeros(40)
    ensures wide == Wide(word)
  {
    ZerosAppend(1, 40);
    assert |Zeros(1)| == 1 && Zeros(1) == [false];
  }

  lemma {:induction false} AllFilled(tones: seq<nat>, writes: seq<nat>, layout: seq<nat>)
    requires Filled(tones, writes, layout, 3, 0, 29)
    ensures tones == layout && writes == seq(79, _ => 1)
  {
    assert forall i: nat :: i < 79 ==> Done(i, 3, 0, 29);
  }

  // ---- reading the frame back

  /** The bits carried by `n` tones from position `from`, three for each tone. */
  function ToneBits(tones: seq<nat>, from: nat, n: nat): (s: seq<bool>)
    requires from + n <= |tones|
    ensures |s| == 3 * n
  {
    if n == 0 then [] else ToneBits(tones, from, n - 1) + Bits(tones[from + n - 1], 3)
  }

  lemma {:induction false} SymbolsReadBack(tones: seq<nat>, from: nat, n: nat, bits: seq<bool>)
    requires from + n <= |tones| && 3 * n <= |bits|
    requires forall s: nat :: s < n ==> tones[from + s] == Symbol(bits, s)
    ensures ToneBits(tones, from, n) == bits[..3 * n]
  {
    if n > 0 {
      var k: nat := n - 1;
      SymbolsReadBack(tones, from, k, bits);
      var last := bits[3 * k..3 * k + 3];
      assert tones[from + k] == Symbol(bits, k);
      BitsOfToNat(last);
      assert bits[..3 * n] == bits[..3 * k] + last;
    } else {
      assert bits[..0] == [];
    }
  }

  /** Data tones carry the codeword and parity tones its parity bits; every tone is below 8 if the patterns are. */
  lemma {:induction false} TonesReadBack(costas: seq<seq<nat>>, parity: seq<bool>, word: seq<bool>)
    requires IsCostas(costas) && |parity| == 87 && |word| == 87
    requires forall k, j :: 0 <= k < 3 && 0 <= j < 7 ==> costas[k][j] < 8
    ensures var tones := Layout(costas, parity, word);
            && ToneBits(tones, 43, 29) == word && ToneBits(tones, 7, 29) == parity
            && forall i :: 0 <= i < 79 ==> tones[i] < 8
  {
    var tones := Layout(costas, parity, word);
    forall s: nat | s < 29
      ensures tones[43 + s] == Symbol(word, s) && tones[7 + s] == Symbol(parity, s)
    {
      SymbolTones(costas, parity, word, s);
    }
    SymbolsReadBack(tones, 43, 29, word);
    SymbolsReadBack(tones, 7, 29, parity);
    assert word[..87] == word && parity[..87] == parity;
  }

  // ---- extracting the message

  predicate ZeroOrOne(bits: seq<int>) {
    forall i :: 0 <= i < |bits| ==> bits[i] == 0 || bits[i] == 1
  }

  /** The text of `n` six-bit fields. */
  function FieldText(bits: seq<bool>, n: nat): (s: string)
    requires 6 * n <= |bits|
    ensures |s| == n
  {
    if n == 0 then ""
    else
      var field := bits[6 * (n - 1)..6 * n];
      Pow2Values();
      FieldText(bits, n - 1) + [AlphabetChar(ToNat(field))]
  }

  method ExtractMessage174(decodedBits: seq<int>) returns (msg: string)
    requires ZeroOrOne(decodedBits) && |decodedBits| >= 72
    ensures msg == if Accepted(Received(decodedBits)) then FieldText(Received(decodedBits), 12) else ""
  {
    var ok := CheckCrc12(decodedBits);
    if !ok {
      return "";
    }
    msg := "";
    for i := 0 to 12
      invariant msg == FieldText(Received(decodedBits), i)
    {
      var w := SixBits(decodedBits, 6 * i);
      assert 6 * (i + 1 - 1) == 6 * i && 6 * (i + 1) == 6 * i + 6;
      msg := msg + [AlphabetChar(w)];
    }
  }

  /** `b0 << 5 | b1 << 4 | b2 << 3 | b3 << 2 | b4 << 1 | b5`. */
  method SixBits(decodedBits: seq<int>, base: nat) returns (w: nat)
    requires ZeroOrOne(decodedBits) && base + 6 <= |decodedBits| && base + 6 <= 88
    ensures w == ToNat(Received(decodedBits)[base..base + 6]) < 64
  {
    w := 0;
    ghost var bits := Received(decodedBits);
    ShlOfZero(6);
    assert ToNat(bits[base..base]) == 0;
    for k := 0 to 6
      invariant w == Shl(ToNat(bits[base..base + k]), 6 - k)
    {
      var v: nat := decodedBits[base + k];
      SixBitsStep(bits, base, k, w, v);
      w := BitOr(w, Shl(v, 5 - k));
    }
    SixBitsBound(bits[base..base + 6]);
  }

  lemma {:induction false} SixBitsBound(s: seq<bool>)
    requires |s| == 6
    ensures ToNat(s) < 64
  {
    Pow2Values();
  }

  lemma {:induction false} SixBitsStep(bits: seq<bool>, base: nat, k: nat, w: nat, v: nat)
    requires k < 6 && base + k < |bits| && v == (if bits[base + k] then 1 else 0)
    requires w == Shl(ToNat(bits[base..base + k]), 6 - k)
    ensures BitOr(w, Shl(v, 5 - k)) == Shl(ToNat(bits[base..base + k + 1]), 5 - k)
  {
    OrBit(bits[base..base + k], bits[base + k], v, 5 - k);
    assert bits[base..base + k] + [bits[base + k]] == bits[base..base + k + 1];
  }

  lemma {:induction false} OrBit(high: seq<bool>, b: bool, v: nat, k: nat)
    requires v == if b then 1 else 0
    ensures BitOr(Shl(ToNat(high), k + 1), Shl(v, k)) == Shl(ToNat(high + [b]), k)
  {
    var h := ToNat(high);
    ToNatPush(high, b);
    assert Pow2(1) == 2 && Shl(h, 1) == 2 * h by {
      assert Pow2(0) == 1;
    }
    OrOfShifted(h, 1, v, k);
    assert 1 + k == k + 1;
    ShlSum(h, 1, k, v);
  }

  // ---- the round trip

  lemma {:induction false} FieldsOfMessage(message: string, bits: seq<bool>, n: nat)
    requires ValidChars(message) && n <= |message| && MessageBits(message) <= bits
    ensures FieldText(bits, n) == message[..n]
  {
    if n > 0 {
      var k: nat := n - 1;
      FieldsOfMessage(message, bits, k);
      MessageField(message, k);
      var field := bits[6 * k..6 * n];
      assert field == MessageBits(message)[6 * k..6 * k + 6];
      CharReadBack(message[k]);
      assert message[..n] == message[..k] + [message[k]];
    }
  }

  lemma {:induction false} MessageField(message: string, k: nat)
    requires k < |message|
    ensures MessageBits(message)[6 * k..6 * k + 6] == CharBits(message[k])
  {
    var init := message[..|message| - 1];
    if k < |message| - 1 {
      MessageField(init, k);
      assert MessageBits(message)[6 * k..6 * k + 6] == MessageBits(init)[6 * k..6 * k + 6];
    }
  }

  lemma {:induction false} CharReadBack(c: char)
    requires ValidChar(c)
    ensures ToNat(CharBits(c)) < 67 && AlphabetChar(ToNat(CharBits(c))) == c
  {
    Pow2Values();
    ToNatOfBits(AlphabetIndex(c), 6);
  }

  /** Hard decisions as the integers the receiver stores. */
  function AsInts(bits: seq<bool>): (s: seq<int>)
    ensures |s| == |bits| && ZeroOrOne(s)
  {
    seq(|bits|, i requires 0 <= i < |bits| => if bits[i] then 1 else 0)
  }

  lemma {:induction false} ReceivedWord(word: seq<bool>)
    requires |word| == 87
    ensures Received(AsInts(word)) == word + [false]
    ensures Accepted(Received(AsInts(word))) <==> Accepted(word)
  {
    var received := Received(AsInts(word));
    assert received == word + [false];
    assert received[75..87] == word[75..87] && received[..75] == word[..75];
  }

  /**
   * For every valid message and type, the bits read from the data tones of its frame pass the check,
   * extract to the message, and carry the three low bits of the type after it.
   */
  lemma {:induction false} FrameRoundTrip(typ: nat, costas: seq<seq<nat>>, message: string, matrix: seq<seq<bool>>)
    requires IsCostas(costas) && IsMatrix(matrix) && Refusal(message).None?
    ensures var word := Codeword(message, typ);
            var bits := ToneBits(Layout(costas, ParityBits(matrix, word), word), 43, 29);
            && Accepted(Received(AsInts(bits)))
            && FieldText(Received(AsInts(bits)), 12) == message
            && bits[72..75] == Bits(typ, 3)
  {
    var word := Codeword(message, typ);
    forall s: nat | s < 29
      ensures Layout(costas, ParityBits(matrix, word), word)[43 + s] == Symbol(word, s)
    {
      SymbolTones(costas, ParityBits(matrix, word), word, s);
    }
    SymbolsReadBack(Layout(costas, ParityBits(matrix, word), word), 43, 29, word);
    assert word[..87] == word;
    ReceivedWord(word);
    assert MessageBits(message) == word[..72] && MessageBits(message) <= word + [false];
    FieldsOfMessage(message, word + [false], 12);
    assert message[..12] == message;
  }

  // ---- the way back

  /** Six bits are the bits of the channel character they stand for. */
  lemma {:induction false} FieldIsChar(field: seq<bool>, c: char)
    requires |field| == 6 && ToNat(field) < 64 && c == AlphabetChar(ToNat(field))
    ensures ValidChar(c) && CharBits(c) == field
  {
    IndexOfChar(ToNat(field));
    BitsOfToNat(field);
  }

  lemma {:induction false} JoinSlices(bits: seq<bool>, a: nat, b: nat)
    requires a <= b <= |bits|
    ensures bits[..a] + bits[a..b] == bits[..b]
  {
  }

  /** The text of any fields is valid, and its bits are the fields. */
  lemma {:induction false} FieldTextBits(bits: seq<bool>, n: nat)
    requires 6 * n <= |bits|
    ensures ValidChars(FieldText(bits, n)) && MessageBits(FieldText(bits, n)) == bits[..6 * n]
  {
    if n > 0 {
      var field, text := bits[6 * (n - 1)..6 * n], FieldText(bits, n);
      FieldTextBits(bits, n - 1);
      SixBitsBound(field);
      FieldIsChar(field, text[n - 1]);
      assert text[..n - 1] == FieldText(bits, n - 1);
      JoinSlices(bits, 6 * (n - 1), 6 * n);
    }
  }

  /** Every accepted word is the codeword of its own twelve characters and three type bits. */
  lemma {:induction false} AcceptedIsCodeword(word: seq<bool>, message: string, typ: nat)
    requires |word| == 87 && Accepted(word)
    requires message == FieldText(Received(AsInts(word)), 12) && typ == ToNat(word[72..75])
    ensures Refusal(message).None? && Codeword(message, typ) == word
  {
    var bits := Received(AsInts(word));
    ReceivedWord(word);
    FieldTextBits(bits, 12);
    BitsOfToNat(word[72..75]);
    assert bits[..72] == word[..72];
    assert word[..75] == word[..72] + word[72..75];
    assert word == word[..75] + word[75..87];
  }

  /** So the tones that the receiver encodes again from an accepted word are those of that word. */
  lemma {:induction false} AcceptedEncodesBack(word: seq<bool>, message: string, typ: nat, costas: seq<seq<nat>>,
                                               matrix: seq<seq<bool>>)
    requires IsCostas(costas) && IsMatrix(matrix) && |word| == 87 && Accepted(word)
    requires forall k, j :: 0 <= k < 3 && 0 <= j < 7 ==> costas[k][j] < 8
    requires message == FieldText(Received(AsInts(word)), 12) && typ == ToNat(word[72..75])
    ensures Refusal(message).None?
    ensures var again := Codeword(message, typ);
            var tones := Layout(costas, ParityBits(matrix, again), again);
            ToneBits(tones, 7, 29) + ToneBits(tones, 43, 29) == FullWord(matrix, word)
  {
    AcceptedIsCodeword(word, message, typ);
    TonesReadBack(costas, ParityBits(matrix, word), word);
  }
}
