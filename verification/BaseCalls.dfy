/** The shape of plain callsigns, and why they pack. */
module BaseCalls {
  import opened Wrappers
  import opened Callsign
  import Arith

  predicate IsLetter(c: char) { IsUpper(c) || 'a' <= c <= 'z' }

  predicate IsLetterOrDigit(c: char) { IsLetter(c) || IsDigit(c) }

  predicate AllLettersOrDigits(s: string) {
    forall i :: 0 <= i < |s| ==> IsLetterOrDigit(s[i])
  }

  predicate AllLetters(s: string) {
    forall i :: 0 <= i < |s| ==> IsLetter(s[i])
  }

  /** A digit at position `k`, letters or digits before it and at most three letters after it. */
  predicate DigitAt(call: string, k: nat) {
    && k < |call| && IsDigit(call[k]) && AllLettersOrDigits(call[..k])
    && AllLetters(call[k + 1..]) && |call| - k - 1 <= 3
  }

  predicate IsBaseCall(call: string) {
    2 <= |call| <= 6 && (DigitAt(call, 1) || DigitAt(call, 2))
  }

  /** A letter and a digit stand next to each other. */
  predicate HasPair(call: string) {
    exists i :: 0 <= i < |call| && PairAt(call, i)
  }

  predicate PairAt(call: string, i: int) {
    && 0 <= i && i + 1 < |call|
    && ((IsDigit(call[i]) && IsLetter(call[i + 1])) || (IsLetter(call[i]) && IsDigit(call[i + 1])))
  }

  /** Without the portable suffix, if there is one. */
  function WithoutSuffix(call: string): string {
    if HasSuffixP(call) then call[..|call| - 2] else call
  }

  predicate IsValidBase(call: string) {
    var base := WithoutSuffix(call);
    IsBaseCall(base) && |base| > 2 && HasPair(base)
  }

  // ---- parties

  /** A callsign without suffix, in upper case, of the base shape. */
  predicate Party(call: string) {
    && (forall i :: 0 <= i < |call| ==> IsAlnum(call[i]))
    && IsBaseCall(call) && |call| > 2 && HasPair(call)
  }

  /** A callsign as it is written: with its suffix if it has one. */
  function Written(call: string, portable: bool): string {
    call + if portable then "/P" else ""
  }

  lemma {:induction false} WrittenIsValid(call: string, portable: bool)
    requires Party(call)
    ensures IsValidBase(Written(call, portable)) && WithoutSuffix(Written(call, portable)) == call
  {
    var w := Written(call, portable);
    if portable {
      assert w[|w| - 2] == '/' && w[..|w| - 2] == call;
    } else {
      assert w == call;
      if |call| >= 2 {
        assert IsAlnum(call[|call| - 2]);
      }
    }
  }

  lemma {:induction false} UpperStays(call: string)
    requires forall i :: 0 <= i < |call| ==> IsAlnum(call[i])
    ensures UpperText(call) == call
  {
  }

  lemma {:induction false} PrefixIsLetters(call: string)
    requires HasPrefix(call, "3DA0")
    ensures |call| > 2 && !IsDigit(call[1]) && !IsDigit(call[2])
  {
  }

  /** No rewriting applies: the third or second character is the digit. */
  lemma {:induction false} PartyIsNotRewritten(call: string)
    requires Party(call)
    ensures Rewritten(call) == call
  {
    assert IsDigit(call[1]) || IsDigit(call[2]);
    if HasPrefix(call, "3DA0") {
      PrefixIsLetters(call);
    }
  }

  lemma {:induction false} LettersAfter(call: string, k: nat, i: nat)
    requires DigitAt(call, k) && k < i < |call| && IsAlnum(call[i])
    ensures IsUpper(call[i])
  {
    assert call[k + 1..][i - k - 1] == call[i];
  }

  lemma {:induction false} PartyIsWord(call: string)
    requires Party(call)
    ensures IsWord(Aligned(call))
  {
    var word := Aligned(call);
    if DigitAt(call, 2) {
      assert word == call + Spaces(6 - |call|);
      forall i | 3 <= i < 6
        ensures word[i] == ' ' || IsUpper(word[i])
      {
        if i < |call| {
          LettersAfter(call, 2, i);
        }
      }
    } else {
      LettersAfter(call, 1, 2);
      assert word == " " + call + Spaces(5 - |call|);
      forall i | 3 <= i < 6
        ensures word[i] == ' ' || IsUpper(word[i])
      {
        if i - 1 < |call| {
          LettersAfter(call, 1, i - 1);
        }
      }
    }
  }

  /** Every party packs. */
  lemma {:induction false} PartyIsPlain(call: string)
    requires Party(call)
    ensures Plain(call) && WordOf(call) == Some(Aligned(call))
  {
    UpperStays(call);
    PartyIsNotRewritten(call);
    PartyIsWord(call);
    assert IsAlnum(call[0]) && IsAlnum(call[|call| - 1]);
  }

  // ---- the one word that packs to zero

  lemma {:induction false} AppendIsZero(v: nat, radix: nat, digit: nat)
    requires radix > 0
    ensures Append(v, radix, digit) == 0 <==> v == 0 && digit == 0
  {
    if v > 0 {
      Arith.MulMonotone(1, v, radix);
    }
  }

  lemma {:induction false} ZeroWord(word: string)
    requires IsWord(word)
    ensures PackWord(word) == 0 <==> word == "000AAA"
  {
    var h0 := AlnumIdx(word[0]);
    var h1 := Append(h0, 36, AlnumIdx(word[1]));
    var a := Append(PackHead(word), 27, AlnumIdx(word[3]) - 10);
    AppendIsZero(h0, 36, AlnumIdx(word[1]));
    AppendIsZero(h1, 10, AlnumIdx(word[2]));
    AppendIsZero(PackHead(word), 27, AlnumIdx(word[3]) - 10);
    AppendIsZero(a, 27, AlnumIdx(word[4]) - 10);
    AppendIsZero(Append(a, 27, AlnumIdx(word[4]) - 10), 27, AlnumIdx(word[5]) - 10);
    SixChars(word);
  }

  lemma {:induction false} SixChars(word: string)
    requires |word| == 6
    ensures word == "000AAA" <==>
            word[0] == '0' && word[1] == '0' && word[2] == '0' && word[3] == 'A' && word[4] == 'A' && word[5] == 'A'
  {
  }

  /** A party packs to zero, which stands for no callsign, exactly if it is this one. */
  lemma {:induction false} ZeroParty(call: string)
    requires Party(call)
    ensures WordOf(call).Some? && (PackWord(WordOf(call).value) == 0 <==> call == "000AAA")
  {
    PartyIsPlain(call);
    ZeroWord(Aligned(call));
    assert |call| < 6 ==> Aligned(call)[5] == ' ' || Aligned(call)[0] == ' ';
    assert call + Spaces(0) == call;
  }
}
