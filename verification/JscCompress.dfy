/** Packing text into one 72-bit data frame, and reading it back. */
module JscCompress {
  import opened Wrappers
  import opened Words
  import opened JscTables
  import opened JscLookup
  import opened JscCode
  import opened Alphabet
  import opened Frame72
  import JscPack

  predicate IsBytes(text: string) {
    forall i :: 0 <= i < |text| ==> text[i] as nat < 256
  }

  /** A dictionary as the coder sees it: map records, and a lookup of the entry to use for a text. */
  datatype Dictionary = Dictionary(map_: seq<Entry>, look: string -> Option<nat>)

  /** The tables implement the dictionary: it answers as their lookups do. */
  ghost predicate Implements(t: Tables, d: Dictionary) {
    && ValidRanks(t) && |t.routes| == 256 && t.map_ == d.map_
    && forall query {:trigger Answer(t, query)} :: IsBytes(query) ==>
         (query != [] ==> GoodRoute(t, query[0])) && d.look(query) == Answer(t, query)
  }

  /** The dictionary of the source lines: its lookups are read off the lines, with no index structure. */
  ghost function DictionaryOf(map_: seq<Entry>, rankLines: seq<JscPack.Source>,
                              prefixes: seq<JscPack.Source>): Dictionary
  {
    Dictionary(map_, (query: string) =>
      var found := JscPack.LineLookup(prefixes, rankLines, query);
      if found.Some? && found.value >= 0 then Some(found.value) else None)
  }

  /** No route of the tables is overrun. */
  ghost predicate NeverOverruns(t: Tables)
    requires ValidRanks(t) && |t.routes| == 256
  {
    forall byte: char :: byte as nat < 256 && GoodRoute(t, byte) ==> !Overruns(t, byte)
  }

  lemma {:induction false} ScansAreLines(mapLines: seq<JscPack.Source>, rankLines: seq<JscPack.Source>,
                                         prefixes: seq<JscPack.Source>, t: Tables, query: string)
    requires JscPack.Packed(mapLines, rankLines, prefixes, t) && ValidRanks(t) && IsBytes(query)
    ensures query != [] ==> GoodRoute(t, query[0])
    ensures DictionaryOf(t.map_, rankLines, prefixes).look(query) == LinearLookup(t, query)
  {
    JscPack.PackedLookup(mapLines, rankLines, prefixes, t, query);
  }

  lemma {:induction false} ScannedImplements(mapLines: seq<JscPack.Source>, rankLines: seq<JscPack.Source>,
                                             prefixes: seq<JscPack.Source>, t: Tables, d: Dictionary)
    requires JscPack.Packed(mapLines, rankLines, prefixes, t) && ValidRanks(t) && NeverOverruns(t)
    requires d == DictionaryOf(t.map_, rankLines, prefixes)
    ensures Implements(t, d)
  {
    forall query | IsBytes(query)
      ensures query != [] ==> GoodRoute(t, query[0])
      ensures d.look(query) == Answer(t, query)
    {
      ScansAreLines(mapLines, rankLines, prefixes, t, query);
      if query != [] {
        QueryIsScanned(t, query[0], query);
      }
    }
  }

  lemma {:induction false} KeyIsBytes(mapLines: seq<JscPack.Source>, rankLines: seq<JscPack.Source>,
                                      prefixes: seq<JscPack.Source>, t: Tables, r: nat)
    requires JscPack.Packed(mapLines, rankLines, prefixes, t) && ValidRanks(t) && r < |t.ranks|
    ensures IsBytes(Key(t, r))
  {
    JscPack.PackedKey(mapLines, rankLines, prefixes, t, r);
    var line := rankLines[r];
    assert JscPack.EntryKey(line).Ok?;
    forall i | 0 <= i < line.size
      ensures Key(t, r)[i] as nat < 256
    {
      assert line.text[i] in line.text;
    }
  }

  lemma {:induction false} OverrunIsSeen(mapLines: seq<JscPack.Source>, rankLines: seq<JscPack.Source>,
                                         prefixes: seq<JscPack.Source>, t: Tables, d: Dictionary, byte: char)
    requires JscPack.Packed(mapLines, rankLines, prefixes, t) && ValidRanks(t)
    requires d == DictionaryOf(t.map_, rankLines, prefixes)
    requires byte as nat < 256 && GoodRoute(t, byte) && Overruns(t, byte)
    ensures !Implements(t, d)
  {
    var hi := RouteEnd(t, t.routes[byte as nat]);
    var key := Key(t, hi);
    OverrunIsAnswered(t, byte, key);
    KeyIsBytes(mapLines, rankLines, prefixes, t, hi);
    ScansAreLines(mapLines, rankLines, prefixes, t, key);
    assert Answer(t, key) != d.look(key);
  }

  /** Packed tables implement the dictionary of their source lines if and only if no route is overrun. */
  lemma {:induction false} PackedImplements(mapLines: seq<JscPack.Source>, rankLines: seq<JscPack.Source>,
                                            prefixes: seq<JscPack.Source>, t: Tables, d: Dictionary)
    requires JscPack.Packed(mapLines, rankLines, prefixes, t) && ValidRanks(t)
    requires d == DictionaryOf(t.map_, rankLines, prefixes)
    ensures Implements(t, d) <==> NeverOverruns(t)
  {
    if NeverOverruns(t) {
      ScannedImplements(mapLines, rankLines, prefixes, t, d);
    } else {
      forall byte: char | byte as nat < 256 && GoodRoute(t, byte) && Overruns(t, byte)
        ensures !Implements(t, d)
      {
        OverrunIsSeen(mapLines, rankLines, prefixes, t, d, byte);
      }
    }
  }

  /** It is enough that no rank line right after a prefix line's range begins with its byte. */
  lemma {:induction false} EndedRangesImplement(mapLines: seq<JscPack.Source>, rankLines: seq<JscPack.Source>,
                                                prefixes: seq<JscPack.Source>, t: Tables)
    requires JscPack.Packed(mapLines, rankLines, prefixes, t) && ValidRanks(t)
    requires JscPack.RangesEnd(prefixes, rankLines)
    ensures NeverOverruns(t) && Implements(t, DictionaryOf(t.map_, rankLines, prefixes))
  {
    forall byte: char | byte as nat < 256
      ensures GoodRoute(t, byte) && !Overruns(t, byte)
    {
      JscPack.EndedRangesAreScanned(mapLines, rankLines, prefixes, t, [byte]);
    }
    PackedImplements(mapLines, rankLines, prefixes, t, DictionaryOf(t.map_, rankLines, prefixes));
  }

  /** Lookup in tables that implement a dictionary answers from the dictionary. */
  method Find(t: Tables, ghost d: Dictionary, query: string) returns (r: Option<nat>)
    requires IsBytes(query) && Implements(t, d)
    ensures r == d.look(query)
  {
    r := LookupBytes(t, query);
  }

  // ---- words

  /** `text.split(' ')`: always at least one word, words between adjacent spaces being empty. */
  function Split(text: string): (words: seq<string>)
    ensures |words| > 0
  {
    if text == "" then [""]
    else
      var rest := Split(text[1..]);
      if text[0] == ' ' then [""] + rest else [[text[0]] + rest[0]] + rest[1..]
  }

  function Join(words: seq<string>): string
    requires |words| > 0
  {
    if |words| == 1 then words[0] else words[0] + " " + Join(words[1..])
  }

  lemma {:induction false} JoinOfSplit(text: string)
    ensures Join(Split(text)) == text
  {
    if text != "" {
      var rest := Split(text[1..]);
      JoinOfSplit(text[1..]);
      assert text == [text[0]] + text[1..];
      if text[0] == ' ' {
        assert Split(text)[1..] == rest;
      } else if |rest| > 1 {
        assert Split(text)[1..] == rest[1..];
      }
    }
  }

  predicate AllBytes(words: seq<string>) {
    forall i :: 0 <= i < |words| ==> IsBytes(words[i])
  }

  lemma {:induction false} SplitIsBytes(text: string)
    requires IsBytes(text)
    ensures AllBytes(Split(text))
  {
    if text != "" {
      SplitIsBytes(text[1..]);
    }
  }

  /** What is encoded for word `w`: an empty word before another one stands for a space. */
  function Word(words: seq<string>, w: nat): string
    requires w < |words|
  {
    if IsSpace(words, w) then " " else words[w]
  }

  predicate IsSpace(words: seq<string>, w: nat)
    requires w < |words|
  {
    words[w] == "" && w + 1 < |words|
  }

  /** Whether the separator bit is used at the end of word `w`: it is not the last word, nor a space itself. */
  predicate Separable(words: seq<string>, w: nat)
    requires w < |words|
  {
    !IsSpace(words, w) && w + 1 < |words|
  }

  // ---- the greedy encoding

  /** Codewords chosen so far, characters consumed, and whether the frame ran out of room. */
  datatype Progress = Progress(tokens: seq<Token>, consumed: nat, full: bool)

  /** The codeword sent for the rest of a word, if the dictionary has a usable entry. */
  function Choice(d: Dictionary, word: string, separable: bool, pos: nat): (token: Option<Token>)
    requires pos < |word|
    ensures token.Some? ==> token.value.index < |d.map_| && pos + Size(d, token.value) <= |word|
  {
    match d.look(word[pos..])
    case None => None
    case Some(index) =>
      if index < |d.map_| && d.map_[index].size <= |word| - pos then
        Some(Token(index, separable && pos + d.map_[index].size == |word|))
      else None
  }

  function Size(d: Dictionary, token: Token): nat
    requires token.index < |d.map_|
  {
    d.map_[token.index].size
  }

  function Advance(d: Dictionary, p: Progress, token: Token): Progress
    requires token.index < |d.map_|
  {
    Progress(p.tokens + [token], p.consumed + Size(d, token) + (if token.separate then 1 else 0), false)
  }

  function EncodeWord(d: Dictionary, word: string, separable: bool, pos: nat, used: nat, p: Progress): (r: Progress)
    requires pos <= |word|
    decreases 72 - used
  {
    if pos == |word| then p
    else
      match Choice(d, word, separable, pos)
      case None => p
      case Some(token) =>
        var now := used + CodeLength(token);
        if now >= 72 then p.(full := true)
        else EncodeWord(d, word, separable, pos + Size(d, token), now, Advance(d, p, token))
  }

  function Used(prefix: nat, p: Progress): nat {
    prefix + MessageLength(p.tokens)
  }

  function EncodeWords(d: Dictionary, words: seq<string>, w: nat, prefix: nat, p: Progress): (r: Progress)
    requires w <= |words|
    decreases |words| - w
  {
    if w == |words| || p.full then p
    else
      var next := EncodeWord(d, Word(words, w), Separable(words, w), 0, Used(prefix, p), p);
      EncodeWords(d, words, w + 1, prefix, next)
  }

  /** The codewords and consumed count of one frame whose first `prefix` bits are taken. */
  function Encode(d: Dictionary, text: string, prefix: nat): Progress {
    EncodeWords(d, Split(text), 0, prefix, Progress([], 0, false))
  }

  /** The accumulator holds the prefix and the codewords chosen so far. */
  ghost predicate Holds(bits: nat, bitLen: nat, prefix: seq<bool>, p: Progress) {
    bits == ToNat(prefix + Message(p.tokens)) && bitLen == |prefix| + MessageLength(p.tokens) <= 72
  }

  /** Encodes one word greedily, stopping early when an entry is missing or the frame is full. */
  lemma {:induction false} FoundIsChoice(d: Dictionary, word: string, separable: bool, pos: nat, found: Option<nat>,
                                         size: nat, token: Token)
    requires pos < |word| && found == d.look(word[pos..]) && found.Some? && found.value < |d.map_|
    requires size == d.map_[found.value].size <= |word| - pos
    requires token == Token(found.value, pos + size == |word| && separable)
    ensures Choice(d, word, separable, pos) == Some(token) && Size(d, token) == size
  {
  }

  /** The entry to use at a position of a word: its index, its size, and whether a space goes with it. */
  method Choose(t: Tables, ghost d: Dictionary, word: string, separable: bool, pos: nat)
      returns (c: Option<(nat, nat, bool)>)
    requires Implements(t, d) && IsBytes(word) && pos < |word|
    ensures c.None? <==> Choice(d, word, separable, pos).None?
    ensures c.Some? ==>
      var token := Token(c.value.0, c.value.2);
      Choice(d, word, separable, pos) == Some(token) && Size(d, token) == c.value.1
  {
    var found := Find(t, d, word[pos..]);
    if found.None? || found.value >= |t.map_| {
      return None;
    }
    var size := t.map_[found.value].size;
    if size > |word| - pos {
      return None;
    }
    var separate := pos + size == |word| && separable;
    FoundIsChoice(d, word, separable, pos, found, size, Token(found.value, separate));
    return Some((found.value, size, separate));
  }

  method CompressWord(t: Tables, ghost d: Dictionary, word: string, separable: bool, bits0: nat, bitLen0: nat,
                      consumed0: nat, ghost prefix: seq<bool>, ghost before: Progress)
      returns (bits: nat, bitLen: nat, consumed: nat, full: bool, ghost p: Progress)
    requires Implements(t, d) && IsBytes(word)
    requires Holds(bits0, bitLen0, prefix, before) && consumed0 == before.consumed && !before.full
    ensures Holds(bits, bitLen, prefix, p) && consumed == p.consumed && full == p.full
    ensures p == EncodeWord(d, word, separable, 0, bitLen0, before)
  {
    var pos: nat := 0;
    bits, bitLen, consumed, full, p := bits0, bitLen0, consumed0, false, before;
    ghost var result := EncodeWord(d, word, separable, 0, bitLen0, before);
    while pos < |word|
      invariant pos <= |word|
      invariant Holds(bits, bitLen, prefix, p) && consumed == p.consumed && !p.full && !full
      invariant result == EncodeWord(d, word, separable, pos, bitLen, p)
      decreases 72 - bitLen
    {
      var choice := Choose(t, d, word, separable, pos);
      if choice.None? {
        break;
      }
      var (index, size, separate) := choice.value;
      ghost var token := Token(index, separate);
      var code, codeLen := Codeword(index, separate);
      if bitLen + codeLen >= 72 {
        full := true;
        p := p.(full := true);
        return;
      }
      var newBits: nat, newLen: nat, newPos: nat := BitOr(Shl(bits, codeLen), code), bitLen + codeLen, pos + size;
      ghost var next := Advance(d, p, token);
      CodeStep(d, word, separable, pos, bits, bitLen, prefix, p, token, newBits, newLen, newPos, next);
      bits, bitLen, pos := newBits, newLen, newPos;
      consumed := consumed + size + (if separate then 1 else 0);
      p := next;
    }
  }

  /** One codeword more. */
  lemma {:induction false} CodeStep(d: Dictionary, word: string, separable: bool, pos: nat, bits: nat, bitLen: nat,
                                    prefix: seq<bool>, p: Progress, token: Token,
                                    newBits: nat, newLen: nat, newPos: nat, next: Progress)
    requires pos < |word| && Choice(d, word, separable, pos) == Some(token) && Holds(bits, bitLen, prefix, p)
    requires newPos == pos + Size(d, token) && newLen == bitLen + CodeLength(token) < 72 && next == Advance(d, p, token)
    requires newBits == BitOr(Shl(bits, CodeLength(token)), ToNat(CodeBits(token)))
    ensures newPos <= |word| && Holds(newBits, newLen, prefix, next)
    ensures EncodeWord(d, word, separable, pos, bitLen, p) == EncodeWord(d, word, separable, newPos, newLen, next)
  {
    WordStep(d, word, separable, pos, bitLen, p, token, newPos, newLen, next);
    AppendCode(bits, bitLen, prefix, p, token, newBits, newLen, next);
  }

  lemma {:induction false} MessagePush(prefix: seq<bool>, tokens: seq<Token>, token: Token, next: seq<Token>)
    requires next == tokens + [token]
    ensures prefix + Message(next) == prefix + Message(tokens) + CodeBits(token)
  {
    assert next[..|next| - 1] == tokens;
  }

  lemma {:induction false} AppendCode(bits: nat, bitLen: nat, prefix: seq<bool>, p: Progress, token: Token,
                                      newBits: nat, newLen: nat, next: Progress)
    requires Holds(bits, bitLen, prefix, p) && next.tokens == p.tokens + [token]
    requires newLen == bitLen + CodeLength(token) < 72
    requires newBits == BitOr(Shl(bits, CodeLength(token)), ToNat(CodeBits(token)))
    ensures Holds(newBits, newLen, prefix, next)
  {
    var sent, code := prefix + Message(p.tokens), CodeBits(token);
    MessagePush(prefix, p.tokens, token, next.tokens);
    CodeLengthIs(token);
    Concatenate(sent, code);
    MessageLengthPush(p.tokens, token);
  }

  /** `(bits << code_len) | code` appends the code. */
  lemma {:induction false} Concatenate(sent: seq<bool>, code: seq<bool>)
    ensures BitOr(Shl(ToNat(sent), |code|), ToNat(code)) == ToNat(sent + code)
  {
    ToNatAppend(sent, code);
    OrOfDisjointFields(ToNat(sent), |code|, ToNat(code));
  }

  lemma {:induction false} MessageLengthPush(tokens: seq<Token>, token: Token)
    ensures MessageLength(tokens + [token]) == MessageLength(tokens) + CodeLength(token)
  {
    assert (tokens + [token])[..|tokens|] == tokens;
  }

  /** One step of the greedy encoding of a word. */
  lemma {:induction false} WordStep(d: Dictionary, word: string, separable: bool, pos: nat, used: nat, p: Progress,
                                    token: Token, newPos: nat, now: nat, next: Progress)
    requires pos < |word| && Choice(d, word, separable, pos) == Some(token)
    requires newPos == pos + Size(d, token) && now == used + CodeLength(token) < 72 && next == Advance(d, p, token)
    ensures newPos <= |word|
    ensures EncodeWord(d, word, separable, pos, used, p) == EncodeWord(d, word, separable, newPos, now, next)
  {
  }

  lemma {:induction false} WordsStep(d: Dictionary, words: seq<string>, w: nat, prefix: nat, p: Progress,
                                     word: string, separable: bool, used: nat, now: nat, next: Progress)
    requires w < |words| && !p.full && now == w + 1
    requires word == Word(words, w) && separable == Separable(words, w) && used == Used(prefix, p)
    requires next == EncodeWord(d, word, separable, 0, used, p)
    ensures EncodeWords(d, words, w, prefix, p) == EncodeWords(d, words, now, prefix, next)
  {
  }

  method WritePrefix(prefix: seq<bool>) returns (bits: nat)
    ensures bits == ToNat(prefix)
  {
    bits := 0;
    for i := 0 to |prefix|
      invariant bits == ToNat(prefix[..i])
    {
      assert prefix[..i + 1][..i] == prefix[..i];
      OrOfDisjointFields(bits, 1, if prefix[i] then 1 else 0);
      bits := BitOr(Shl(bits, 1), if prefix[i] then 1 else 0);
    }
    assert prefix[..|prefix|] == prefix;
  }

  lemma {:induction false} NothingSent(prefix: seq<bool>, bits: nat, p: Progress)
    requires |prefix| <= 72 && bits == ToNat(prefix) && p.tokens == []
    ensures Holds(bits, |prefix|, prefix, p) && Used(|prefix|, p) == |prefix|
  {
    assert prefix + Message([]) == prefix;
  }

  /** Encodes the words in turn until one of them no longer fits. */
  method CompressWords(t: Tables, ghost d: Dictionary, words: seq<string>, prefix: seq<bool>)
      returns (bits: nat, bitLen: nat, consumed: nat, ghost p: Progress)
    requires Implements(t, d) && |prefix| <= 72 && AllBytes(words)
    ensures p == EncodeWords(d, words, 0, |prefix|, Progress([], 0, false))
    ensures Holds(bits, bitLen, prefix, p) && consumed == p.consumed
  {
    bits := WritePrefix(prefix);
    bitLen, consumed := |prefix|, 0;
    var w: nat, full := 0, false;
    p := Progress([], 0, false);
    NothingSent(prefix, bits, p);
    ghost var all := EncodeWords(d, words, 0, |prefix|, p);
    while w < |words| && !full
      invariant w <= |words|
      invariant Holds(bits, bitLen, prefix, p) && consumed == p.consumed && full == p.full
      invariant all == EncodeWords(d, words, w, |prefix|, p)
    {
      var isLastWord := w + 1 == |words|;
      var isSpace := words[w] == "" && !isLastWord;
      var word := if isSpace then " " else words[w];
      var separable := !isSpace && !isLastWord;
      var next: nat := w + 1;
      ghost var before: Progress, used: nat := p, bitLen;
      bits, bitLen, consumed, full, p := CompressWord(t, d, word, separable, bits, bitLen, consumed, prefix, p);
      WordsStep(d, words, w, |prefix|, before, word, separable, used, next, p);
      w := next;
    }
  }

  method CompressFrame(t: Tables, ghost d: Dictionary, text: string, prefix: seq<bool>)
      returns (value: nat, rem: nat, consumed: nat)
    requires Implements(t, d) && |prefix| <= 72 && IsBytes(text)
    ensures value < U64 && rem < 256
    ensures var p := Encode(d, text, |prefix|);
            && consumed == p.consumed
            && |prefix + Message(p.tokens)| <= 72
            && FrameBits(value, rem) == Padded(prefix + Message(p.tokens))
  {
    SplitIsBytes(text);
    ghost var p;
    var bits, bitLen;
    bits, bitLen, consumed, p := CompressWords(t, d, Split(text), prefix);
    MessageLengthIs(p.tokens);
    value, rem := FinishFrame(bits, bitLen, prefix + Message(p.tokens));
  }
}
