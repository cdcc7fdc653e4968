/** The dense code: dictionary indices as bijective base-9 digits, and the two-pass decoder. */
module JscCode {
  import opened Words
  import opened Wrappers
  import opened Slices
  import opened JscTables

  /** A codeword to send: a map index and whether a space follows. */
  datatype Token = Token(index: nat, separate: bool)

  /** A nibble read from a frame: values below 7 end a codeword and carry a separator flag. */
  datatype Nibble = Nibble(value: nat, separate: bool)

  // ---- numbers as bijective base-9 digits, most significant first

  predicate BelowNine(ds: seq<nat>) {
    forall i :: 0 <= i < |ds| ==> ds[i] < 9
  }

  function Digits(x: nat): (ds: seq<nat>)
    ensures BelowNine(ds)
  {
    if x == 0 then [] else Digits((x - 1) / 9) + [(x - 1) % 9]
  }

  /** Ordinary base-9 value. */
  function Value9(ds: seq<nat>): nat {
    if ds == [] then 0 else Value9(ds[..|ds| - 1]) * 9 + ds[|ds| - 1]
  }

  /** The number of digit strings shorter than `k`, that is (9^k - 1) / 8. */
  function Shorter(k: nat): nat {
    if k == 0 then 0 else 9 * Shorter(k - 1) + 1
  }

  function Pow9(k: nat): nat {
    if k == 0 then 1 else 9 * Pow9(k - 1)
  }

  lemma {:induction false} ShorterStep(k: nat)
    ensures Shorter(k + 1) == Shorter(k) + Pow9(k)
  {
    if k > 0 {
      ShorterStep(k - 1);
    }
  }

  lemma {:induction false} ShorterMonotone(j: nat, k: nat)
    requires j <= k
    ensures Shorter(j) <= Shorter(k)
  {
    if j < k {
      ShorterMonotone(j, k - 1);
    }
  }

  /** Digits, value and length determine the number. */
  lemma {:induction false} DigitsHaveValue(x: nat)
    ensures x == Value9(Digits(x)) + Shorter(|Digits(x)|)
  {
    if x > 0 {
      var rest := (x - 1) / 9;
      DigitsHaveValue(rest);
      assert Digits(x)[..|Digits(x)| - 1] == Digits(rest);
    }
  }

  /** Every digit string is the digits of exactly one number. */
  lemma {:induction false} ValueDigits(ds: seq<nat>)
    requires BelowNine(ds)
    ensures Digits(Value9(ds) + Shorter(|ds|)) == ds
  {
    if ds != [] {
      var init, last := ds[..|ds| - 1], ds[|ds| - 1];
      ValueDigits(init);
      var x := Value9(ds) + Shorter(|ds|);
      assert x - 1 == 9 * (Value9(init) + Shorter(|init|)) + last;
      assert (x - 1) / 9 == Value9(init) + Shorter(|init|) && (x - 1) % 9 == last;
    }
  }

  lemma {:induction false} DigitCount(x: nat, k: nat)
    ensures |Digits(x)| >= k <==> x >= Shorter(k)
  {
    if x > 0 && k > 0 {
      DigitCount((x - 1) / 9, k - 1);
    }
  }

  // ---- codewords as bit strings

  function NibbleBits(ds: seq<nat>): (s: seq<bool>)
    ensures |s| == 4 * |ds|
  {
    if ds == [] then [] else NibbleBits(ds[..|ds| - 1]) + Bits(ds[|ds| - 1] + 7, 4)
  }

  function CodeLength(token: Token): nat {
    4 * |Digits(token.index / 7)| + 5
  }

  /** Continuation nibbles (7 to 15), the final nibble (0 to 6) and the separator bit. */
  function CodeBits(token: Token): (s: seq<bool>) {
    NibbleBits(Digits(token.index / 7)) + Bits(token.index % 7, 4) + [token.separate]
  }

  lemma {:induction false} CodeLengthIs(token: Token)
    ensures |CodeBits(token)| == CodeLength(token)
  {
  }

  lemma {:induction false} CodeFromDigits(token: Token, x: nat, d: nat, word: nat, len: nat)
    requires x == token.index / 7 && d == token.index % 7
    requires word == d * 2 + (if token.separate then 1 else 0) && len == 5
    ensures AddDigits(x, word, len) == (ToNat(CodeBits(token)), CodeLength(token))
  {
    var final := Bits(d, 4) + [token.separate];
    FinalNibble(d, token.separate);
    AddDigitsWritesCode(x, final);
    CodeLengthIs(token);
    assert NibbleBits(Digits(x)) + final == CodeBits(token);
    assert |final| == len && ToNat(final) == word;
  }

  method Codeword(index: nat, separate: bool) returns (word: nat, len: nat)
    ensures len == CodeLength(Token(index, separate))
    ensures word == ToNat(CodeBits(Token(index, separate)))
  {
    word := (index % 7) * 2 + (if separate then 1 else 0);
    len := 5;
    var x: nat := index / 7;
    CodeFromDigits(Token(index, separate), x, index % 7, word, len);
    while x > 0
      invariant AddDigits(x, word, len) == (ToNat(CodeBits(Token(index, separate))), CodeLength(Token(index, separate)))
    {
      x := x - 1;
      word := BitOr(word, Shl(x % 9 + 7, len));
      len := len + 4;
      x := x / 9;
    }
  }

  /** A 32-bit index has a codeword of at most 45 bits, so the source's 64-bit word never overflows. */
  lemma {:induction false} CodewordFits(index: nat, separate: bool)
    requires index < 0x1_0000_0000
    ensures CodeLength(Token(index, separate)) <= 45
  {
    assert Shorter(3) == 91;
    assert Shorter(6) == 9 * (9 * (9 * Shorter(3) + 1) + 1) + 1;
    assert Shorter(9) == 9 * (9 * (9 * Shorter(6) + 1) + 1) + 1;
    assert Shorter(11) == 9 * (9 * Shorter(9) + 1) + 1;
    DigitCount(index / 7, 11);
  }

  /** The final word and length when the digits of `x` are still to be written above `word`. */
  function AddDigits(x: nat, word: nat, len: nat): (nat, nat)
    decreases x
  {
    if x == 0 then (word, len)
    else AddDigits((x - 1) / 9, BitOr(word, Shl((x - 1) % 9 + 7, len)), len + 4)
  }

  lemma {:induction false} AddDigitsWritesCode(x: nat, done: seq<bool>)
    ensures var all := NibbleBits(Digits(x)) + done;
            AddDigits(x, ToNat(done), |done|) == (ToNat(all), |all|)
    decreases x
  {
    if x == 0 {
      assert NibbleBits(Digits(x)) + done == done;
    } else {
      var nibble := (x - 1) % 9 + 7;
      var ds := Digits(x);
      assert ds[..|ds| - 1] == Digits((x - 1) / 9);
      assert NibbleBits(ds) + done == NibbleBits(Digits((x - 1) / 9)) + (Bits(nibble, 4) + done);
      PrependNibble(nibble, done);
      AddDigitsWritesCode((x - 1) / 9, Bits(nibble, 4) + done);
    }
  }

  lemma {:induction false} FinalNibble(d: nat, separate: bool)
    requires d < 7
    ensures ToNat(Bits(d, 4) + [separate]) == d * 2 + (if separate then 1 else 0)
  {
    assert (Bits(d, 4) + [separate])[..4] == Bits(d, 4);
    Pow2Values();
    ToNatOfBits(d, 4);
  }

  lemma {:induction false} PrependNibble(n: nat, done: seq<bool>)
    requires n < 16
    ensures BitOr(ToNat(done), Shl(n, |done|)) == ToNat(Bits(n, 4) + done)
  {
    Pow2Values();
    ToNatOfBits(n, 4);
    ToNatAppend(Bits(n, 4), done);
    OrIsCommutative(ToNat(done), Shl(n, |done|));
    OrOfDisjointFields(n, |done|, ToNat(done));
  }

  // ---- decoding

  /**
   * The nibbles of a bit string from position `i` on, after those already read; a final nibble
   * swallows its separator bit, and a missing separator bit means no space.
   */
  function ParseFrom(bits: seq<bool>, i: nat, read: seq<Nibble>): (items: seq<Nibble>)
    decreases |bits| - i
  {
    if i + 4 > |bits| then read else ParseFrom(bits, NextNibble(bits, i), read + [NibbleAt(bits, i)])
  }

  function Parse(bits: seq<bool>): seq<Nibble> {
    ParseFrom(bits, 0, [])
  }

  function NibbleAt(bits: seq<bool>, i: nat): (item: Nibble)
    requires i + 4 <= |bits|
    ensures item.value < 16 && (item.value >= 7 ==> !item.separate)
  {
    var value := ToNat(bits[i..i + 4]);
    assert value < 16 by { Pow2Values(); }
    Nibble(value, value < 7 && i + 4 < |bits| && bits[i + 4])
  }

  function NextNibble(bits: seq<bool>, i: nat): (next: nat)
    requires i + 4 <= |bits|
  {
    if NibbleAt(bits, i).value >= 7 then i + 4 else i + 5
  }

  /** Only final nibbles carry separators. */
  predicate WellFormed(items: seq<Nibble>) {
    forall i :: 0 <= i < |items| && items[i].value >= 7 ==> !items[i].separate
  }

  lemma {:induction false} ParsedIsWellFormed(bits: seq<bool>, i: nat, read: seq<Nibble>)
    requires WellFormed(read)
    ensures WellFormed(ParseFrom(bits, i, read))
    decreases |bits| - i
  {
    if i + 4 <= |bits| {
      ParsedIsWellFormed(bits, NextNibble(bits, i), read + [NibbleAt(bits, i)]);
    }
  }

  /** The base of indices with `k` continuation digits, tabulated for k < 8 only. */
  function Base(k: nat): (b: nat) {
    if k < 8 then 7 * Shorter(k) else 0
  }

  /** Position of the first final nibble at or after `start`. */
  function RunEnd(items: seq<Nibble>, start: nat): (end: nat)
    requires start <= |items|
    ensures start <= end <= |items|
    decreases |items| - start
  {
    if start == |items| || items[start].value < 7 then start else RunEnd(items, start + 1)
  }

  /** Base-9 value of the continuation nibbles in `start..end`. */
  function RunValue(items: seq<Nibble>, start: nat, end: nat): nat
    requires start <= end <= |items|
    requires forall i :: start <= i < end ==> items[i].value >= 7
  {
    if start == end then 0 else RunValue(items, start, end - 1) * 9 + (items[end - 1].value - 7)
  }

  lemma {:induction false} RunEndIsFirst(items: seq<Nibble>, start: nat)
    requires start <= |items|
    ensures forall i :: start <= i < RunEnd(items, start) ==> items[i].value >= 7
    ensures RunEnd(items, start) < |items| ==> items[RunEnd(items, start)].value < 7
    decreases |items| - start
  {
    if start < |items| && items[start].value >= 7 {
      RunEndIsFirst(items, start + 1);
    }
  }

  lemma {:induction false} RunEndIs(items: seq<Nibble>, start: nat, end: nat)
    requires start <= end <= |items|
    requires forall i :: start <= i < end ==> items[i].value >= 7
    requires end < |items| ==> items[end].value < 7
    ensures RunEnd(items, start) == end
  {
    RunEndIsFirst(items, start);
  }

  /** The map index of the codeword at `start`, if it is complete and in range. */
  function IndexAt(map_: seq<Entry>, items: seq<Nibble>, start: nat): (index: Option<nat>)
    requires start <= |items|
    ensures index.Some? ==> index.value < |map_| && RunEnd(items, start) < |items|
  {
    var end := RunEnd(items, start);
    RunEndIsFirst(items, start);
    var run := RunValue(items, start, end);
    if run >= |map_| || end == |items| then None
    else
      var index := run * 7 + items[end].value + Base(end - start);
      if index < |map_| then Some(index) else None
  }

  /**
   * One-pass reference decoder: codeword by codeword, stopping at the first that is incomplete or
   * out of range.
   */
  function DecodeFrom(map_: seq<Entry>, items: seq<Nibble>, start: nat, text: string): string
    requires start <= |items|
    decreases |items| - start
  {
    match IndexAt(map_, items, start)
    case None => text
    case Some(index) =>
      var end := RunEnd(items, start);
      DecodeFrom(map_, items, end + 1, AndShown(text, map_, Token(index, items[end].separate)))
  }

  /** The text of a bit string. */
  function Decode(map_: seq<Entry>, bits: seq<bool>): string {
    DecodeFrom(map_, Parse(bits), 0, "")
  }

  /** A text followed by what one codeword stands for. */
  function AndShown(text: string, map_: seq<Entry>, token: Token): string
    requires token.index < |map_|
  {
    var word := TextTrimmed(map_[token.index].text);
    if token.separate then text + word + " " else text + word
  }

  lemma {:induction false} DecodeStep(map_: seq<Entry>, items: seq<Nibble>, start: nat, text: string,
                                      token: Token, next: nat)
    requires start < next <= |items| && RunEnd(items, start) + 1 == next
    requires IndexAt(map_, items, start) == Some(token.index) && items[next - 1].separate == token.separate
    ensures DecodeFrom(map_, items, start, text) == DecodeFrom(map_, items, next, AndShown(text, map_, token))
  {
    assert items[RunEnd(items, start)].separate == token.separate;
  }

  /** Positions at or after `from` whose nibble carries a separator, in order. */
  function SeparatorsFrom(items: seq<Nibble>, from: nat): (s: seq<nat>)
    requires from <= |items|
    ensures forall p :: p in s ==> from <= p < |items| && items[p].separate
    decreases |items| - from
  {
    if from == |items| then []
    else (if items[from].separate then [from] else []) + SeparatorsFrom(items, from + 1)
  }

  lemma {:induction false} SeparatorsOfAppended(items: seq<Nibble>, item: Nibble, from: nat)
    requires from <= |items|
    ensures SeparatorsFrom(items + [item], from) ==
            SeparatorsFrom(items, from) + if item.separate then [|items|] else []
    decreases |items| - from
  {
    if from < |items| {
      SeparatorsOfAppended(items, item, from + 1);
      assert (items + [item])[from] == items[from];
    } else {
      assert SeparatorsFrom(items + [item], |items| + 1) == [];
    }
  }

  lemma {:induction false} NoSeparatorsInRun(items: seq<Nibble>, from: nat, end: nat)
    requires from <= end <= |items|
    requires forall i :: from <= i < end ==> !items[i].separate
    ensures SeparatorsFrom(items, from) == SeparatorsFrom(items, end)
    decreases |items| - from
  {
    if from < end {
      NoSeparatorsInRun(items, from + 1, end);
    }
  }

  function Values(items: seq<Nibble>): (vs: seq<nat>)
    ensures |vs| == |items|
  {
    seq(|items|, i requires 0 <= i < |items| => items[i].value)
  }

  /** First pass: the nibbles, and the positions of the final nibbles that carry a separator. */
  method ReadNibbles(bitvec: seq<bool>) returns (bytes: seq<nat>, separators: seq<nat>)
    ensures bytes == Values(Parse(bitvec))
    ensures separators == SeparatorsFrom(Parse(bitvec), 0)
  {
    bytes, separators := [], [];
    ghost var items: seq<Nibble> := [];
    var i := 0;
    while i < |bitvec|
      invariant 0 <= i
      invariant bytes == Values(items)
      invariant separators == SeparatorsFrom(items, 0)
      invariant Parse(bitvec) == ParseFrom(bitvec, i, items)
    {
      var end := i + 4;
      if end > |bitvec| {
        break;
      }
      var byte := ToNat(bitvec[i..end]);
      SeparatorsOfAppended(items, NibbleAt(bitvec, i), 0);
      items := items + [NibbleAt(bitvec, i)];
      bytes := bytes + [byte];
      i := i + 4;
      if byte < 7 {
        if i < |bitvec| && bitvec[i] {
          separators := separators + [|bytes| - 1];
        }
        i := i + 1;
      }
    }
  }

  /** The continuation nibbles from `start` on: how many, and their base-9 value. */
  method ReadRun(bytes: seq<nat>, start: nat, ghost items: seq<Nibble>) returns (k: nat, j: nat)
    requires bytes == Values(items) && start <= |items|
    ensures start + k == RunEnd(items, start)
    ensures (forall i :: start <= i < start + k ==> items[i].value >= 7) && j == RunValue(items, start, start + k)
  {
    k, j := 0, 0;
    while start + k < |bytes| && bytes[start + k] >= 7
      invariant start + k <= |items|
      invariant forall i :: start <= i < start + k ==> items[i].value >= 7
      invariant j == RunValue(items, start, start + k)
    {
      j := j * 9 + (bytes[start + k] - 7);
      k := k + 1;
    }
    RunEndIs(items, start, start + k);
  }

  lemma {:induction false} IndexIs(map_: seq<Entry>, items: seq<Nibble>, start: nat, k: nat, j: nat)
    requires start + k <= |items| && start + k == RunEnd(items, start)
    requires forall i :: start <= i < start + k ==> items[i].value >= 7
    requires j == RunValue(items, start, start + k)
    ensures IndexAt(map_, items, start) ==
            if j < |map_| && start + k < |items| && j * 7 + items[start + k].value + Base(k) < |map_|
            then Some(j * 7 + items[start + k].value + Base(k)) else None
  {
  }

  /** The index of the codeword at `start`, and how many continuation nibbles it has. */
  method NextIndex(map_: seq<Entry>, bytes: seq<nat>, start: nat, ghost items: seq<Nibble>)
      returns (index: Option<nat>, k: nat)
    requires bytes == Values(items) && start < |items|
    ensures start + k == RunEnd(items, start) && index == IndexAt(map_, items, start)
  {
    var j;
    k, j := ReadRun(bytes, start, items);
    IndexIs(map_, items, start, k, j);
    if j >= |map_| {
      return None, k;
    }
    if start + k >= |bytes| {
      return None, k;
    }
    var i := j * 7 + bytes[start + k] + Base(k);
    if i >= |map_| {
      return None, k;
    }
    index := Some(i);
  }

  /** Second pass: matches the queue of separator positions against the codewords as they are decoded. */
  method DecodeNibbles(map_: seq<Entry>, bytes: seq<nat>, separators: seq<nat>, ghost items: seq<Nibble>)
      returns (out: string)
    requires WellFormed(items) && bytes == Values(items) && separators == SeparatorsFrom(items, 0)
    ensures out == DecodeFrom(map_, items, 0, "")
  {
    var queue := separators;
    out := "";
    var start := 0;
    while start < |bytes|
      invariant start <= |items|
      invariant queue == SeparatorsFrom(items, start)
      invariant DecodeFrom(map_, items, 0, "") == DecodeFrom(map_, items, start, out)
    {
      var index, k := NextIndex(map_, bytes, start, items);
      if index.None? {
        break;
      }
      var end: nat, next: nat := start + k, start + k + 1;
      DecodeStep(map_, items, start, out, Token(index.value, items[end].separate), next);
      QueueStep(items, start, end);
      out := out + TextTrimmed(map_[index.value].text);
      if queue != [] && queue[0] == end {
        out := out + " ";
        queue := queue[1..];
      }
      start := next;
    }
  }

  lemma {:induction false} QueueStep(items: seq<Nibble>, start: nat, end: nat)
    requires WellFormed(items) && start <= end < |items| && RunEnd(items, start) == end
    ensures var queue := SeparatorsFrom(items, start);
            && (items[end].separate <==> queue != [] && queue[0] == end)
            && SeparatorsFrom(items, end + 1) == if items[end].separate then queue[1..] else queue
  {
    RunEndIsFirst(items, start);
    NoSeparatorsInRun(items, start, end);
    var later := SeparatorsFrom(items, end + 1);
    assert later != [] ==> later[0] in later;
  }

  method Decompress(map_: seq<Entry>, bitvec: seq<bool>) returns (out: string)
    ensures out == Decode(map_, bitvec)
  {
    var bytes, separators := ReadNibbles(bitvec);
    ParsedIsWellFormed(bitvec, 0, []);
    out := DecodeNibbles(map_, bytes, separators, Parse(bitvec));
  }

  // ---- the 64-bit accumulator

  predicate AreNibbles(items: seq<Nibble>) {
    forall i :: 0 <= i < |items| ==> items[i].value < 16
  }

  lemma {:induction false} ParsedCount(bits: seq<bool>, i: nat, read: seq<Nibble>)
    requires i <= |bits| + 1 && AreNibbles(read)
    ensures AreNibbles(ParseFrom(bits, i, read))
    ensures 4 * |ParseFrom(bits, i, read)| <= 4 * |read| + (if i <= |bits| then |bits| - i else 0)
    decreases |bits| - i
  {
    if i + 4 <= |bits| {
      ParsedCount(bits, NextNibble(bits, i), read + [NibbleAt(bits, i)]);
    }
  }

  lemma {:induction false} RunValueBound(items: seq<Nibble>, start: nat, end: nat)
    requires start <= end <= |items| && AreNibbles(items) && forall i :: start <= i < end ==> items[i].value >= 7
    ensures RunValue(items, start, end) < Pow9(end - start)
  {
    if start < end {
      RunValueBound(items, start, end - 1);
    }
  }

  lemma {:induction false} Pow9Monotone(a: nat, b: nat)
    requires a <= b
    ensures 1 <= Pow9(a) <= Pow9(b)
  {
    if a < b {
      Pow9Monotone(a, b - 1);
    } else if a > 0 {
      Pow9Monotone(a - 1, a - 1);
    }
  }

  lemma {:induction false} Pow9Of18(n: nat)
    requires n <= 18
    ensures Pow9(n) <= 150_094_635_296_999_121
  {
    Pow9Monotone(n, 18);
    assert Pow9(3) == 729;
    assert Pow9(6) == 9 * (9 * (9 * Pow9(3)));
    assert Pow9(9) == 9 * (9 * (9 * Pow9(6)));
    assert Pow9(12) == 9 * (9 * (9 * Pow9(9)));
    assert Pow9(15) == 9 * (9 * (9 * Pow9(12)));
    assert Pow9(18) == 9 * (9 * (9 * Pow9(15)));
  }

  lemma {:induction false} BaseBound(k: nat)
    ensures Base(k) <= 7 * Shorter(7) <= 0x1_0000_0000
  {
    assert Shorter(3) == 91;
    assert Shorter(6) == 9 * (9 * (9 * Shorter(3) + 1) + 1) + 1;
    if k < 8 && k > 0 {
      ShorterMonotone(k, 7);
    }
  }

  /** For every bit string that a frame can hold, the decoder's accumulator and index stay below 2^64. */
  lemma {:induction false} AccumulatorFits(bits: seq<bool>, start: nat, end: nat)
    requires |bits| <= 72 && start <= end <= |Parse(bits)|
    requires forall i :: start <= i < end ==> Parse(bits)[i].value >= 7
    ensures RunValue(Parse(bits), start, end) * 9 + 8 < U64
    ensures RunValue(Parse(bits), start, end) * 7 + 15 + Base(end - start) < U64
  {
    ParsedCount(bits, 0, []);
    RunValueBound(Parse(bits), start, end);
    Pow9Of18(end - start);
    BaseBound(end - start);
  }

  // ---- decoding undoes encoding

  /** Indices below this have at most seven continuation digits, which is what the base table covers. */
  function IndexLimit(): nat { 7 * Shorter(8) }

  /** Every codeword refers to a table entry below the limit. */
  predicate Sendable(map_: seq<Entry>, tokens: seq<Token>) {
    forall i :: 0 <= i < |tokens| ==> tokens[i].index < |map_| && tokens[i].index < IndexLimit()
  }

  function RunNibbles(ds: seq<nat>): (items: seq<Nibble>)
    ensures |items| == |ds|
  {
    seq(|ds|, i requires 0 <= i < |ds| => Nibble(ds[i] + 7, false))
  }

  function TokenNibbles(token: Token): (items: seq<Nibble>)
    ensures |items| == |Digits(token.index / 7)| + 1
  {
    RunNibbles(Digits(token.index / 7)) + [Nibble(token.index % 7, token.separate)]
  }

  function MessageLength(tokens: seq<Token>): nat {
    if tokens == [] then 0 else MessageLength(tokens[..|tokens| - 1]) + CodeLength(tokens[|tokens| - 1])
  }

  /** The bits of a run of codewords. */
  function Message(tokens: seq<Token>): (s: seq<bool>) {
    if tokens == [] then [] else Message(tokens[..|tokens| - 1]) + CodeBits(tokens[|tokens| - 1])
  }

  lemma {:induction false} MessageLengthIs(tokens: seq<Token>)
    ensures |Message(tokens)| == MessageLength(tokens)
  {
    if tokens != [] {
      MessageLengthIs(tokens[..|tokens| - 1]);
    }
  }

  function AllNibbles(tokens: seq<Token>): seq<Nibble> {
    if tokens == [] then [] else AllNibbles(tokens[..|tokens| - 1]) + TokenNibbles(tokens[|tokens| - 1])
  }

  function AllShown(map_: seq<Entry>, tokens: seq<Token>): string
    requires Sendable(map_, tokens)
  {
    if tokens == [] then ""
    else AndShown(AllShown(map_, tokens[..|tokens| - 1]), map_, tokens[|tokens| - 1])
  }

  /** Reading one nibble whose four bits are known. */
  lemma {:induction false} ParseNibble(bits: seq<bool>, i: nat, read: seq<Nibble>, item: Nibble, four: seq<bool>,
                                       next: nat)
    requires item.value < 16 && four == Bits(item.value, 4) && At(bits, i, four)
    requires item.value >= 7 ==> !item.separate && next == i + 4
    requires item.value < 7 ==> i + 4 < |bits| && item.separate == bits[i + 4] && next == i + 5
    ensures ParseFrom(bits, i, read) == ParseFrom(bits, next, read + [item])
  {
    AtIsSlice(bits, i, four);
    Pow2Values();
    ToNatOfBits(item.value, 4);
    assert NibbleAt(bits, i) == item;
  }

  lemma {:induction false} RunNibblesLast(ds: seq<nat>, read: seq<Nibble>)
    requires ds != []
    ensures var init := ds[..|ds| - 1];
            var last := Nibble(ds[|ds| - 1] + 7, false);
            && RunNibbles(ds) == RunNibbles(init) + [last]
            && read + RunNibbles(ds) == read + RunNibbles(init) + [last]
  {
  }

  lemma {:induction false} NibbleBitsLast(bits: seq<bool>, i: nat, ds: seq<nat>)
    requires ds != [] && At(bits, i, NibbleBits(ds))
    ensures var init := ds[..|ds| - 1];
            At(bits, i, NibbleBits(init)) && At(bits, i + 4 * |init|, Bits(ds[|ds| - 1] + 7, 4))
  {
    var init := ds[..|ds| - 1];
    AtSplit(bits, i, NibbleBits(init), Bits(ds[|ds| - 1] + 7, 4));
  }

  lemma {:induction false} ParseDigits(bits: seq<bool>, i: nat, read: seq<Nibble>, ds: seq<nat>)
    requires BelowNine(ds) && At(bits, i, NibbleBits(ds))
    ensures ParseFrom(bits, i, read) == ParseFrom(bits, i + 4 * |ds|, read + RunNibbles(ds))
  {
    if ds == [] {
      assert read + RunNibbles(ds) == read;
    } else {
      var init, last := ds[..|ds| - 1], ds[|ds| - 1];
      NibbleBitsLast(bits, i, ds);
      ParseDigits(bits, i, read, init);
      RunNibblesLast(ds, read);
      var j: nat, next: nat, item := i + 4 * |init|, i + 4 * |ds|, Nibble(last + 7, false);
      ParseNibble(bits, j, read + RunNibbles(init), item, Bits(last + 7, 4), next);
    }
  }

  lemma {:induction false} ParseRun(bits: seq<bool>, i: nat, read: seq<Nibble>, ds: seq<nat>, final: Nibble)
    requires BelowNine(ds) && final.value < 7
    requires At(bits, i, NibbleBits(ds)) && At(bits, i + 4 * |ds|, Bits(final.value, 4))
    requires At(bits, i + 4 * |ds| + 4, [final.separate])
    ensures ParseFrom(bits, i, read) == ParseFrom(bits, i + 4 * |ds| + 5, read + RunNibbles(ds) + [final])
  {
    var j: nat := i + 4 * |ds|;
    AtElement(bits, j + 4, [final.separate], 0);
    ParseDigits(bits, i, read, ds);
    ParseNibble(bits, j, read + RunNibbles(ds), final, Bits(final.value, 4), j + 5);
  }

  /** One codeword is read back as its own nibbles. */
  lemma {:induction false} ParseToken(bits: seq<bool>, i: nat, read: seq<Nibble>, token: Token)
    requires At(bits, i, CodeBits(token))
    ensures ParseFrom(bits, i, read) == ParseFrom(bits, i + |CodeBits(token)|, read + TokenNibbles(token))
  {
    var ds := Digits(token.index / 7);
    var last := Bits(token.index % 7, 4);
    AtSplit(bits, i, NibbleBits(ds) + last, [token.separate]);
    AtSplit(bits, i, NibbleBits(ds), last);
    ParseRun(bits, i, read, ds, Nibble(token.index % 7, token.separate));
    assert read + RunNibbles(ds) + [Nibble(token.index % 7, token.separate)] == read + TokenNibbles(token);
  }

  lemma {:induction false} ParseMessage(tokens: seq<Token>, rest: seq<bool>, all: seq<bool>)
    requires all == Message(tokens) + rest
    ensures Parse(all) == ParseFrom(all, |Message(tokens)|, AllNibbles(tokens))
  {
    if tokens != [] {
      var init, last := tokens[..|tokens| - 1], tokens[|tokens| - 1];
      var before, code := Message(init), CodeBits(last);
      AtAppended(before, code, rest);
      ParseMessage(init, code + rest, all);
      ParseToken(all, |before|, AllNibbles(init), last);
    }
  }

  lemma {:induction false} RunValueIsValue9(items: seq<Nibble>, start: nat, ds: seq<nat>)
    requires At(items, start, RunNibbles(ds))
    ensures forall i :: start <= i < start + |ds| ==> items[i].value >= 7
    ensures RunValue(items, start, start + |ds|) == Value9(ds)
  {
    forall i | start <= i < start + |ds|
      ensures items[i].value >= 7
    {
      AtElement(items, start, RunNibbles(ds), i - start);
    }
    if ds != [] {
      var init, last := ds[..|ds| - 1], ds[|ds| - 1];
      RunNibblesLast(ds, []);
      AtSplit(items, start, RunNibbles(init), [Nibble(last + 7, false)]);
      AtElement(items, start, RunNibbles(ds), |init|);
      RunValueIsValue9(items, start, init);
    }
  }

  /** The index the decoder computes from one codeword: its own, unless the base table is too short. */
  function DecodedIndex(token: Token): int {
    if token.index < IndexLimit() then token.index else token.index - 7 * Shorter(|Digits(token.index / 7)|)
  }

  lemma {:induction false} DigitsOfIndex(token: Token, ds: seq<nat>)
    requires ds == Digits(token.index / 7)
    ensures |ds| < 8 <==> token.index < IndexLimit()
    ensures Value9(ds) <= token.index
    ensures DecodedIndex(token) == Value9(ds) * 7 + token.index % 7 + Base(|ds|) <= token.index
  {
    DigitsHaveValue(token.index / 7);
    DigitCount(token.index / 7, 8);
    assert token.index == 7 * (Value9(ds) + Shorter(|ds|)) + token.index % 7;
  }

  lemma {:induction false} DecodeRun(map_: seq<Entry>, items: seq<Nibble>, start: nat, ds: seq<nat>, final: Nibble)
    requires At(items, start, RunNibbles(ds)) && At(items, start + |ds|, [final]) && final.value < 7
    ensures start + |ds| < |items| && items[start + |ds|] == final && RunEnd(items, start) == start + |ds|
    ensures var index := Value9(ds) * 7 + final.value + Base(|ds|);
            IndexAt(map_, items, start) == if Value9(ds) < |map_| && index < |map_| then Some(index) else None
  {
    AtElement(items, start + |ds|, [final], 0);
    RunValueIsValue9(items, start, ds);
    RunEndIs(items, start, start + |ds|);
    IndexIs(map_, items, start, |ds|, Value9(ds));
  }

  lemma {:induction false} DecodeToken(map_: seq<Entry>, items: seq<Nibble>, start: nat, token: Token)
    requires At(items, start, TokenNibbles(token)) && token.index < |map_|
    ensures RunEnd(items, start) == start + |Digits(token.index / 7)| < |items|
    ensures items[RunEnd(items, start)].separate == token.separate
    ensures IndexAt(map_, items, start) == Some(DecodedIndex(token))
  {
    var ds := Digits(token.index / 7);
    var final := Nibble(token.index % 7, token.separate);
    AtSplit(items, start, RunNibbles(ds), [final]);
    DecodeRun(map_, items, start, ds, final);
    DigitsOfIndex(token, ds);
  }

  /** A codeword is decoded to its own index exactly when the index is below the limit. */
  lemma {:induction false} CodeIsInvertibleBelowLimit(map_: seq<Entry>, token: Token)
    requires token.index < |map_|
    ensures IndexAt(map_, TokenNibbles(token), 0) == Some(token.index) <==> token.index < IndexLimit()
  {
    var ds := Digits(token.index / 7);
    AtIsSlice(TokenNibbles(token), 0, TokenNibbles(token));
    DecodeToken(map_, TokenNibbles(token), 0, token);
    DigitsOfIndex(token, Digits(token.index / 7));
    if token.index >= IndexLimit() {
      ShorterMonotone(1, |ds|);
      assert Shorter(1) == 1;
    }
  }

  lemma {:induction false} DecodeTokens(map_: seq<Entry>, tokens: seq<Token>, rest: seq<Nibble>, all: seq<Nibble>)
    requires Sendable(map_, tokens) && all == AllNibbles(tokens) + rest
    ensures DecodeFrom(map_, all, 0, "") == DecodeFrom(map_, all, |AllNibbles(tokens)|, AllShown(map_, tokens))
  {
    if tokens != [] {
      var init, last := tokens[..|tokens| - 1], tokens[|tokens| - 1];
      var before, code := AllNibbles(init), TokenNibbles(last);
      AtAppended(before, code, rest);
      DecodeTokens(map_, init, code + rest, all);
      DecodeToken(map_, all, |before|, last);
      DecodeStep(map_, all, |before|, AllShown(map_, init), last, |AllNibbles(tokens)|);
    }
  }

  /** Any run of codewords decodes to its entries, with spaces after exactly the flagged ones. */
  lemma {:induction false} DecodeMessage(map_: seq<Entry>, tokens: seq<Token>)
    requires Sendable(map_, tokens)
    ensures Decode(map_, Message(tokens)) == AllShown(map_, tokens)
  {
    ParseMessage(tokens, [], Message(tokens));
    DecodeTokens(map_, tokens, [], AllNibbles(tokens));
  }
}
