/** Building the parity rows from their hexadecimal text. */
module ParityMatrix {
  import opened Words
  import opened Gf2
  import opened BitWords
  import opened ChannelTones

  predicate IsHex(c: char) {
    '0' <= c <= '9' || 'a' <= c <= 'f' || 'A' <= c <= 'F'
  }

  predicate AllHex(text: string) {
    forall i :: 0 <= i < |text| ==> IsHex(text[i])
  }

  function HexNibble(c: char): (v: nat)
    requires IsHex(c)
    ensures v < 16
  {
    if '0' <= c <= '9' then (c - '0') as nat
    else if 'a' <= c <= 'f' then (c - 'a') as nat + 10
    else (c - 'A') as nat + 10
  }

  /** It is the place among the digits, in either case of the letters. */
  lemma {:induction false} HexNibbleIs(c: char)
    requires IsHex(c)
    ensures "0123456789abcdef"[HexNibble(c)] == c || "0123456789ABCDEF"[HexNibble(c)] == c
  {
  }

  /** Four bits for every digit, most significant first. */
  function HexBit(text: string, col: nat): bool
    requires AllHex(text) && col < 4 * |text|
  {
    Bits(HexNibble(text[col / 4]), 4)[col % 4]
  }

  /** The first 87 bits the text spells, in the high bits of a 128-bit row. */
  function RowOf(text: string): (row: seq<bool>)
    requires AllHex(text)
    ensures |row| == 128
  {
    seq(128, col requires 0 <= col < 128 => col < 87 && col < 4 * |text| && HexBit(text, col))
  }

  /** The row with its first `col` columns decided. */
  predicate RowUpTo(row: seq<bool>, text: string, col: nat)
    requires AllHex(text) && |row| == 128
  {
    forall c :: 0 <= c < 128 ==> (row[c] <==> c < col && RowOf(text)[c])
  }

  /** One bit of digit `i` decides column `4 * i + m`. */
  lemma {:induction false} RowStep(row: seq<bool>, text: string, i: nat, m: nat, col: nat, bit: bool, next: seq<bool>)
    requires AllHex(text) && |row| == 128 && i < |text| && m < 4 && col == 4 * i + m < 87 && RowUpTo(row, text, col)
    requires bit == (BitAnd(HexNibble(text[i]), Pow2(3 - m)) != 0)
    requires next == if bit then row[col := true] else row
    ensures RowUpTo(next, text, col + 1)
  {
    MaskedBit(HexNibble(text[i]), 4, m);
    assert col / 4 == i && col % 4 == m;
  }

  method BuildParityRow(text: string) returns (row: seq<bool>)
    requires AllHex(text)
    ensures row == RowOf(text)
  {
    row := Zeros(128);
    forall c | 0 <= c < 128
      ensures !row[c]
    {
      ZerosAt(128, c);
    }
    var col: nat := 0;
    var i: nat := 0;
    while i < |text|
      invariant i <= |text| && |row| == 128 && col <= 87
      invariant col == (if 4 * i < 87 then 4 * i else 87) && RowUpTo(row, text, col)
    {
      var v := HexNibble(text[i]);
      var m: nat := 0;
      while m < 4
        invariant m <= 4 && |row| == 128
        invariant col == (if 4 * i + m < 87 then 4 * i + m else 87) && RowUpTo(row, text, col)
      {
        if col >= 87 {
          break;
        }
        var bit := BitAnd(v, Pow2(3 - m)) != 0;
        var next := if bit then row[col := true] else row;
        RowStep(row, text, i, m, col, bit, next);
        row := next;
        col := col + 1;
        m := m + 1;
      }
      if col >= 87 {
        break;
      }
      i := i + 1;
    }
  }

  /** The matrix the encoder uses: one row for every line of digits. */
  method BuildParityMatrix(data: seq<string>) returns (matrix: seq<seq<bool>>)
    requires |data| == 87 && forall r :: 0 <= r < 87 ==> AllHex(data[r])
    ensures IsMatrix(matrix) && forall r :: 0 <= r < 87 ==> matrix[r] == RowOf(data[r])
  {
    matrix := [];
    for row := 0 to 87
      invariant |matrix| == row && forall r :: 0 <= r < row ==> matrix[r] == RowOf(data[r])
    {
      var bits := BuildParityRow(data[row]);
      matrix := matrix + [bits];
    }
  }

  lemma {:induction false} RowColumn(text: string, i: nat, m: nat, col: nat)
    requires AllHex(text) && i < |text| && m < 4 && col == 4 * i + m < 87
    ensures RowOf(text)[col] == Bits(HexNibble(text[i]), 4)[m]
  {
    assert col / 4 == i && col % 4 == m;
  }

  lemma {:induction false} NibbleValue(v: nat, bits: seq<bool>)
    requires v < 16 && |bits| == 4 && forall m :: 0 <= m < 4 ==> bits[m] == Bits(v, 4)[m]
    ensures ToNat(bits) == v
  {
    assert Pow2(4) == 16 by {
      Pow2Add(2, 2);
    }
    ToNatOfBits(v, 4);
    assert bits == Bits(v, 4);
  }

  /** Each four columns of a row are the value of its digit. */
  lemma {:induction false} RowSpellsText(text: string, i: nat, col: nat)
    requires AllHex(text) && i < |text| && col == 4 * i && col + 4 <= 87
    ensures ToNat(RowOf(text)[col..col + 4]) == HexNibble(text[i])
  {
    var bits := RowOf(text)[col..col + 4];
    forall m | 0 <= m < 4
      ensures bits[m] == Bits(HexNibble(text[i]), 4)[m]
    {
      RowColumn(text, i, m, col + m);
    }
    NibbleValue(HexNibble(text[i]), bits);
  }

  /** The padding of a wide word never reaches a parity: only the 87 columns count. */
  lemma {:induction false} OnlyColumnsCount(text: string, word: seq<bool>)
    requires AllHex(text) && |word| == 87
    ensures And(RowOf(text), Wide(word)) == And(RowOf(text)[..87], word) + Zeros(41)
  {
    forall c | 0 <= c < 128
      ensures And(RowOf(text), Wide(word))[c] == (And(RowOf(text)[..87], word) + Zeros(41))[c]
    {
      if c >= 87 {
        ZerosAt(41, c - 87);
      }
    }
  }
}
