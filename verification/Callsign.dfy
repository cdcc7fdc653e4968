/** Callsigns in 28 bits: six characters in mixed radix, with two rewritten prefixes and a table of group names. */
module Callsign {
  import opened Wrappers
  import opened Alphabet
  import opened Arith

  const NBASECALL: nat := 37 * 36 * 10 * 27 * 27 * 27

  predicate IsDigit(c: char) { '0' <= c <= '9' }

  predicate IsUpper(c: char) { 'A' <= c <= 'Z' }

  predicate IsAlnum(c: char) { IsDigit(c) || IsUpper(c) }

  function UpperText(s: string): (u: string)
    ensures |u| == |s|
  {
    seq(|s|, i requires 0 <= i < |s| => ToUpper(s[i]))
  }

  /** Position among digits, letters and the space. */
  function AlnumIdx(c: char): (i: nat)
    requires IsAlnum(c) || c == ' '
    ensures i < 37 && (IsDigit(c) ==> i < 10) && (IsAlnum(c) ==> i < 36) && (IsUpper(c) || c == ' ' ==> i >= 10)
  {
    if IsDigit(c) then (c - '0') as nat else if IsUpper(c) then (c - 'A') as nat + 10 else 36
  }

  function AlnumByte(i: nat): (c: char) {
    if i < 10 then '0' + i as char
    else if i < 36 then 'A' + (i - 10) as char
    else if i == 36 then ' '
    else if i == 37 then '/'
    else if i == 38 then '@'
    else '\0'
  }

  lemma {:induction false} AlnumReadsBack(c: char)
    requires IsAlnum(c) || c == ' '
    ensures AlnumByte(AlnumIdx(c)) == c
  {
  }

  // ---- six-character words

  /** A prefix character or space, a character, a digit, and three letters or spaces. */
  predicate IsWord(word: string) {
    && |word| == 6 && (word[0] == ' ' || IsAlnum(word[0])) && IsAlnum(word[1]) && IsDigit(word[2])
    && (forall i :: 3 <= i < 6 ==> word[i] == ' ' || IsUpper(word[i]))
  }

  /** Appends a digit of the given radix. */
  function Append(v: nat, radix: nat, digit: nat): nat { v * radix + digit }

  lemma {:induction false} TakeDigit(v: nat, radix: nat, digit: nat)
    requires digit < radix
    ensures Append(v, radix, digit) / radix == v && Append(v, radix, digit) % radix == digit
  {
    DivModIs(Append(v, radix, digit), v, digit, radix);
  }

  lemma {:induction false} AppendBound(v: nat, bound: nat, radix: nat, digit: nat)
    requires v < bound && digit < radix
    ensures Append(v, radix, digit) < bound * radix
  {
    MulMonotone(v + 1, bound, radix);
    Distribute(v, 1, radix);
  }

  function PackHead(word: string): (v: nat)
    requires IsWord(word)
  {
    Append(Append(AlnumIdx(word[0]), 36, AlnumIdx(word[1])), 10, AlnumIdx(word[2]))
  }

  function PackWord(word: string): (v: nat)
    requires IsWord(word)
  {
    var a := Append(PackHead(word), 27, AlnumIdx(word[3]) - 10);
    var b := Append(a, 27, AlnumIdx(word[4]) - 10);
    Append(b, 27, AlnumIdx(word[5]) - 10)
  }

  lemma {:induction false} PackWordBound(word: string)
    requires IsWord(word)
    ensures PackWord(word) < NBASECALL
  {
    var h0 := AlnumIdx(word[0]);
    var h1 := Append(h0, 36, AlnumIdx(word[1]));
    AppendBound(h0, 37, 36, AlnumIdx(word[1]));
    AppendBound(h1, 37 * 36, 10, AlnumIdx(word[2]));
    var a := Append(PackHead(word), 27, AlnumIdx(word[3]) - 10);
    AppendBound(PackHead(word), 37 * 36 * 10, 27, AlnumIdx(word[3]) - 10);
    AppendBound(a, 37 * 36 * 10 * 27, 27, AlnumIdx(word[4]) - 10);
    AppendBound(Append(a, 27, AlnumIdx(word[4]) - 10), 37 * 36 * 10 * 27 * 27, 27, AlnumIdx(word[5]) - 10);
  }

  /** The six characters of a packed value. */
  function UnpackWord(v: nat): (word: string)
    ensures |word| == 6
  {
    var c5, v5 := v % 27 + 10, v / 27;
    var c4, v4 := v5 % 27 + 10, v5 / 27;
    var c3, v3 := v4 % 27 + 10, v4 / 27;
    var c2, v2 := v3 % 10, v3 / 10;
    var c1, v1 := v2 % 36, v2 / 36;
    [AlnumByte(v1), AlnumByte(c1), AlnumByte(c2), AlnumByte(c3), AlnumByte(c4), AlnumByte(c5)]
  }

  /** The values of the last three characters and of the first three together. */
  lemma {:induction false} TailReadsBack(word: string, v: nat, head: nat)
    requires IsWord(word) && v == PackWord(word) && head == PackHead(word)
    ensures v % 27 == AlnumIdx(word[5]) - 10 && v / 27 % 27 == AlnumIdx(word[4]) - 10
    ensures v / 27 / 27 % 27 == AlnumIdx(word[3]) - 10 && v / 27 / 27 / 27 == head
  {
    var a := Append(head, 27, AlnumIdx(word[3]) - 10);
    var b := Append(a, 27, AlnumIdx(word[4]) - 10);
    TakeDigit(b, 27, AlnumIdx(word[5]) - 10);
    TakeDigit(a, 27, AlnumIdx(word[4]) - 10);
    TakeDigit(head, 27, AlnumIdx(word[3]) - 10);
  }

  lemma {:induction false} HeadReadsBack(word: string, head: nat)
    requires IsWord(word) && head == PackHead(word)
    ensures head % 10 == AlnumIdx(word[2]) && head / 10 % 36 == AlnumIdx(word[1])
    ensures head / 10 / 36 == AlnumIdx(word[0])
  {
    var h0 := AlnumIdx(word[0]);
    TakeDigit(Append(h0, 36, AlnumIdx(word[1])), 10, AlnumIdx(word[2]));
    TakeDigit(h0, 36, AlnumIdx(word[1]));
  }

  /** Every word is read back. */
  lemma {:induction false} WordReadsBack(word: string)
    requires IsWord(word)
    ensures PackWord(word) < NBASECALL && UnpackWord(PackWord(word)) == word
  {
    PackWordBound(word);
    TailReadsBack(word, PackWord(word), PackHead(word));
    HeadReadsBack(word, PackHead(word));
    forall i | 0 <= i < 6
      ensures AlnumByte(AlnumIdx(word[i])) == word[i]
    {
      AlnumReadsBack(word[i]);
    }
    assert word == [word[0], word[1], word[2], word[3], word[4], word[5]];
  }

  // ---- callsign texts

  predicate IsBlank(c: char) { c in {' ', '\t', '\n', '\r', '\U{000B}', '\U{000C}'} }

  function Trim(s: string): string {
    if s != "" && IsBlank(s[0]) then Trim(s[1..])
    else if s != "" && IsBlank(s[|s| - 1]) then Trim(s[..|s| - 1])
    else s
  }

  /** Without the spaces at both ends. */
  function TrimSpaces(s: string): (t: string) {
    if s != "" && s[0] == ' ' then TrimSpaces(s[1..])
    else if s != "" && s[|s| - 1] == ' ' then TrimSpaces(s[..|s| - 1])
    else s
  }

  predicate HasPrefix(s: string, prefix: string) {
    prefix <= s
  }

  /** Rewrites the two prefixes that would not fit: `3DA0` as `3D0`, and `3X` before a letter as `Q`. */
  function Rewritten(call: string): string {
    var a := if HasPrefix(call, "3DA0") then "3D0" + call[4..] else call;
    if |a| >= 3 && a[0] == '3' && a[1] == 'X' && IsUpper(a[2]) then "Q" + a[2..] else a
  }

  /** The six-character word of a call whose digit is its third or second character. */
  function Aligned(call: string): (word: string) {
    var len := |call|;
    if !(2 <= len <= 6) then ""
    else if len >= 3 && IsDigit(call[2]) then call + Spaces(6 - len)
    else if len <= 5 && IsDigit(call[1]) then " " + call + Spaces(5 - len)
    else ""
  }

  function Spaces(n: nat): (s: string)
    ensures |s| == n && forall i :: 0 <= i < n ==> s[i] == ' '
  {
    if n == 0 then "" else Spaces(n - 1) + " "
  }

  /** The word of an upper-case call without suffix, if it has one. */
  function WordOf(call: string): (word: Option<string>)
    ensures word.Some? ==> IsWord(word.value)
  {
    if |call| <= 7 && IsWord(Aligned(Rewritten(call))) then Some(Aligned(Rewritten(call))) else None
  }

  /** The call a word shows. */
  function Shown(word: string): string
    requires |word| == 6
  {
    if HasPrefix(word, "3D0") then TrimSpaces("3DA0" + word[3..])
    else if word[0] == 'Q' && IsUpper(word[1]) then TrimSpaces("3X" + word[1..])
    else TrimSpaces(word)
  }

  lemma {:induction false} TrimTrailing(s: string, n: nat)
    requires s != "" && s[0] != ' ' && s[|s| - 1] != ' '
    ensures TrimSpaces(s + Spaces(n)) == s
  {
    if n == 0 {
      assert s + Spaces(0) == s;
    } else {
      assert (s + Spaces(n))[..|s| + n - 1] == s + Spaces(n - 1);
      TrimTrailing(s, n - 1);
    }
  }

  lemma {:induction false} TrimBoth(s: string, n: nat)
    requires s != "" && s[0] != ' ' && s[|s| - 1] != ' '
    ensures TrimSpaces(" " + s + Spaces(n)) == s
  {
    assert (" " + s + Spaces(n))[1..] == s + Spaces(n);
    TrimTrailing(s, n);
  }

  /** Calls that the display rewrites: those that already begin with a rewritten prefix. */
  predicate LooksRewritten(call: string) {
    HasPrefix(call, "3D0") || (|call| >= 2 && call[0] == 'Q' && IsUpper(call[1]))
  }

  /** A word that is an unrewritten call shows the call, unless the display takes it for a rewritten one. */
  lemma {:induction false} PlainShows(call: string)
    requires call != "" && call[0] != ' ' && call[|call| - 1] != ' ' && IsWord(Aligned(call))
    ensures !LooksRewritten(call) ==> Shown(Aligned(call)) == call
    ensures LooksRewritten(call) ==> LooksRewritten(Aligned(call)) && Aligned(call) == call + Spaces(6 - |call|)
  {
    var word, len := Aligned(call), |call|;
    if len >= 3 && IsDigit(call[2]) {
      TrimTrailing(call, 6 - len);
      assert word[0] == call[0] && word[1] == call[1] && word[2] == call[2];
      assert HasPrefix(word, "3D0") <==> HasPrefix(call, "3D0") by {
        assert word[..3] == call[..3];
      }
    } else {
      TrimBoth(call, 5 - len);
      assert word[0] == ' ' && word[1] == call[0] && word[2] == call[1];
    }
  }

  /** The display's rewriting undoes the packing's. */
  lemma {:induction false} RewrittenShows(call: string)
    requires call != "" && call[|call| - 1] != ' ' && Rewritten(call) != call && IsWord(Aligned(Rewritten(call)))
    ensures Shown(Aligned(Rewritten(call))) == call
  {
    var a := Rewritten(call);
    var word := Aligned(a);
    if HasPrefix(call, "3DA0") {
      assert call == "3DA0" + call[4..];
      assert a == "3D0" + call[4..] && a[2] == '0';
      assert word == a + Spaces(6 - |a|);
      assert "3DA0" + word[3..] == call + Spaces(6 - |a|);
      TrimTrailing(call, 6 - |a|);
    } else {
      assert call == "3X" + call[2..] && a == "Q" + call[2..];
      assert IsUpper(a[1]) && !IsDigit(a[1]);
      assert word == a + Spaces(6 - |a|);
      assert "3X" + word[1..] == call + Spaces(6 - |a|);
      TrimTrailing(call, 6 - |a|);
    }
  }

  /**
   * A packed call is shown as itself if and only if it does not begin with `3D0`, nor with `Q` before a letter.
   */
  lemma {:induction false} CallReadsBack(call: string)
    requires call != "" && call[0] != ' ' && call[|call| - 1] != ' ' && WordOf(call).Some?
    ensures Shown(UnpackWord(PackWord(WordOf(call).value))) == call <==> !LooksRewritten(call)
  {
    var word := WordOf(call).value;
    WordReadsBack(word);
    if Rewritten(call) != call {
      RewrittenShows(call);
      RewrittenIsNew(call);
    } else {
      PlainShows(call);
      if LooksRewritten(call) {
        OtherShown(call, word);
      }
    }
  }

  lemma {:induction false} RewrittenIsNew(call: string)
    requires Rewritten(call) != call
    ensures !LooksRewritten(call)
  {
    if HasPrefix(call, "3DA0") {
      assert call[2] == 'A';
    }
  }

  /** A call that looks rewritten is shown with a different third or first character. */
  lemma {:induction false} OtherShown(call: string, word: string)
    requires |call| <= 6 && call != "" && call[|call| - 1] != ' '
    requires LooksRewritten(call) && word == call + Spaces(6 - |call|)
    ensures Shown(word) != call
  {
    var rest := 6 - |call|;
    if HasPrefix(call, "3D0") {
      assert "3DA0" + word[3..] == "3DA0" + call[3..] + Spaces(rest);
      TrimTrailing("3DA0" + call[3..], rest);
      assert word[..3] == call[..3];
      assert call[2] == '0' && ("3DA0" + call[3..])[2] == 'A';
    } else {
      assert word[0] == call[0] == 'Q' && word[1] == call[1];
      assert "3X" + word[1..] == "3X" + call[1..] + Spaces(rest);
      TrimTrailing("3X" + call[1..], rest);
      assert ("3X" + call[1..])[0] == '3';
    }
  }

  // ---- the 28-bit field

  function IndexOf(names: seq<string>, name: string): (i: Option<nat>)
    ensures i.Some? ==> i.value < |names| && names[i.value] == name
  {
    if names == [] then None
    else
      var n := |names| - 1;
      match IndexOf(names[..n], name)
      case Some(i) => Some(i)
      case None => if names[n] == name then Some(n) else None
  }

  predicate HasSuffixP(s: string) {
    |s| >= 2 && s[|s| - 2] == '/' && (s[|s| - 1] == 'P' || s[|s| - 1] == 'p')
  }

  /** Packs a group name or a callsign; zero stands for neither. The flag tells of a portable suffix. */
  function PackCallsign(names: seq<string>, value: string): (nat, bool) {
    var call := Trim(value);
    var group := if call != "" && call[0] in {'@', '<'} && |call| <= 10 then IndexOf(names, UpperText(call)) else None;
    if group.Some? then (NBASECALL + 1 + group.value, false)
    else
      var portable := HasSuffixP(call);
      var base := UpperText(if portable then call[..|call| - 2] else call);
      match WordOf(base)
      case Some(word) => (PackWord(word), portable)
      case None => (0, portable)
  }

  function UnpackCallsign(names: seq<string>, value: nat, portable: bool): string {
    if NBASECALL < value <= NBASECALL + |names| then names[value - NBASECALL - 1]
    else Shown(UnpackWord(value)) + if portable then "/P" else ""
  }

  lemma {:induction false} NameIsFound(names: seq<string>, name: string)
    requires name in names
    ensures IndexOf(names, name).Some?
  {
    var n := |names| - 1;
    if names[n] != name {
      assert name in names[..n];
      NameIsFound(names[..n], name);
    }
  }

  /** A group or placeholder of the table, in any case of its letters, packs beyond all callsigns and reads back. */
  lemma {:induction false} GroupReadsBack(names: seq<string>, value: string)
    requires value != "" && value[0] in {'@', '<'} && |value| <= 10 && !IsBlank(value[|value| - 1])
    requires UpperText(value) in names
    ensures var (packed, portable) := PackCallsign(names, value);
            packed > NBASECALL && !portable && UnpackCallsign(names, packed, portable) == UpperText(value)
  {
    AlreadyTrimmed(value);
    NameIsFound(names, UpperText(value));
  }

  /** A callsign without suffix: upper case and fitting a word. */
  predicate Plain(call: string) {
    && call != "" && !IsBlank(call[0]) && !IsBlank(call[|call| - 1]) && UpperText(call) == call
    && WordOf(call).Some?
  }

  lemma {:induction false} AlreadyTrimmed(s: string)
    requires s != "" && !IsBlank(s[0]) && !IsBlank(s[|s| - 1])
    ensures Trim(s) == s
  {
  }

  /** The characters of a call that fits a word. */
  lemma {:induction false} CallChars(call: string, i: nat)
    requires WordOf(call).Some? && i < |call|
    ensures IsAlnum(call[i]) || call[i] == ' '
  {
    var a := Rewritten(call);
    var word := Aligned(a);
    if HasPrefix(call, "3DA0") {
      if i < 4 {
        assert call[i] == "3DA0"[i];
      } else {
        assert a[i - 1] == call[i] && word[i - 1] == a[i - 1];
      }
    } else if a != call {
      if i >= 2 {
        assert a[i - 1] == call[i] && word[i - 1] == a[i - 1];
      }
    } else {
      assert word[i] == call[i] || word[i + 1] == call[i];
    }
  }

  /** The call and the suffix are told apart again. */
  lemma {:induction false} SuffixIsFound(call: string, portable: bool, value: string)
    requires Plain(call) && value == call + (if portable then "/P" else "")
    ensures Trim(value) == value && value[0] != '@' && value[0] != '<' && HasSuffixP(value) == portable
    ensures call == if portable then value[..|value| - 2] else value
  {
    AlreadyTrimmed(value);
    CallChars(call, 0);
    CallChars(call, |call| - 1);
    if |call| >= 2 {
      CallChars(call, |call| - 2);
    }
    assert value[0] == call[0];
  }

  /**
   * A plain callsign, with or without the portable suffix, packs to a non-group value and is read back
   * if and only if it does not begin with a rewritten prefix.
   */
  lemma {:induction false} CallsignReadsBack(names: seq<string>, call: string, portable: bool)
    requires Plain(call)
    ensures var value := call + (if portable then "/P" else "");
            var (packed, flag) := PackCallsign(names, value);
            && packed == PackWord(WordOf(call).value) < NBASECALL && flag == portable
            && (UnpackCallsign(names, packed, flag) == value <==> !LooksRewritten(call))
  {
    var value := call + (if portable then "/P" else "");
    SuffixIsFound(call, portable, value);
    PackWordBound(WordOf(call).value);
    CallReadsBack(call);
    var shown := Shown(UnpackWord(PackWord(WordOf(call).value)));
    SameSuffix(shown, call, if portable then "/P" else "");
  }

  lemma {:induction false} FiveFit(call: string)
    requires |call| == 5 && IsAlnum(call[0]) && IsAlnum(call[1])
    requires IsDigit(call[2]) && IsUpper(call[3]) && IsUpper(call[4])
    ensures Plain(call)
  {
    var word := call + Spaces(1);
    assert word[0] == call[0] && word[1] == call[1] && word[2] == call[2] && word[3] == call[3] && word[4] == call[4];
    assert Rewritten(call) == call && Aligned(call) == word;
    assert UpperText(call) == call;
  }

  /** Such calls exist: this one packs as every other call does, and is shown as `3DA0AB`. */
  lemma {:induction false} RewrittenPrefixIsNotReadBack(names: seq<string>, call: string)
    requires call == "3D0AB"
    ensures Plain(call) && LooksRewritten(call)
    ensures var (packed, flag) := PackCallsign(names, call);
            UnpackCallsign(names, packed, flag) != call
  {
    FiveFit(call);
    CallsignReadsBack(names, call, false);
    assert call + "" == call;
  }

  /** And this one is shown as `3XA1BC`. */
  lemma {:induction false} RewrittenLetterIsNotReadBack(names: seq<string>, call: string)
    requires call == "QA1BC"
    ensures Plain(call) && LooksRewritten(call)
    ensures var (packed, flag) := PackCallsign(names, call);
            UnpackCallsign(names, packed, flag) != call
  {
    FiveFit(call);
    CallsignReadsBack(names, call, false);
    assert call + "" == call;
  }

  lemma {:induction false} SameSuffix(a: string, b: string, suffix: string)
    ensures a + suffix == b + suffix <==> a == b
  {
    if a + suffix == b + suffix {
      assert |a| == |b| && (a + suffix)[..|a|] == a && (b + suffix)[..|b|] == b;
    }
  }
}
