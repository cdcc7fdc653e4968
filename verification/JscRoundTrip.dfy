/**
 * One data frame as text: what packing a line and unpacking the frame gives back.
 * The frame shows exactly the characters counted as consumed if and only if every entry used
 * declares the size of its own text.
 */
module JscRoundTrip {
  import opened Wrappers
  import opened Words
  import opened JscTables
  import opened JscCode
  import opened JscCompress
  import opened Alphabet
  import opened Frame72

  // ---- dictionaries that cover a text

  /** The characters before the first space. */
  function FirstWord(s: string): string {
    if s == "" || s[0] == ' ' then "" else [s[0]] + FirstWord(s[1..])
  }

  /** What the coder looks up when it stands at the start of `s`. */
  function Query(s: string): (q: string)
    requires s != ""
    ensures q != ""
  {
    if s[0] == ' ' then " " else FirstWord(s)
  }

  /** The declared size does not exceed the entry's text; for an exact entry it is the length of a non-empty text. */
  predicate Sized(d: Dictionary, index: nat, exact: bool)
    requires index < |d.map_|
  {
    var length := |TextTrimmed(d.map_[index].text)|;
    d.map_[index].size <= length && (exact ==> 1 <= length == d.map_[index].size)
  }

  /** The lookup succeeds with an entry whose text begins the query. */
  predicate Usable(d: Dictionary, query: string, exact: bool) {
    var found := d.look(query);
    && found.Some? && found.value < |d.map_| && found.value < IndexLimit()
    && TextTrimmed(d.map_[found.value].text) <= query && Sized(d, found.value, exact)
  }

  /** Every lookup the coder can make in the text is usable. */
  predicate Covered(d: Dictionary, text: string, exact: bool) {
    forall i :: 0 <= i < |text| ==> Usable(d, Query(text[i..]), exact)
  }

  lemma {:induction false} CoveredSuffix(d: Dictionary, text: string, exact: bool, m: nat)
    requires Covered(d, text, exact) && m <= |text|
    ensures Covered(d, text[m..], exact)
  {
    forall i | 0 <= i < |text[m..]|
      ensures Usable(d, Query(text[m..][i..]), exact)
    {
      assert text[m..][i..] == text[m + i..];
    }
  }

  /** The declared size of every codeword sent is the length of its text. */
  predicate Exact(d: Dictionary, tokens: seq<Token>) {
    forall i :: 0 <= i < |tokens| ==> ExactToken(d, tokens[i])
  }

  predicate ExactToken(d: Dictionary, token: Token) {
    token.index < |d.map_| && Size(d, token) == |TextTrimmed(d.map_[token.index].text)|
  }

  // ---- the text still to be encoded

  function JoinFrom(words: seq<string>, w: nat): string
    requires w <= |words|
    decreases |words| - w
  {
    if w == |words| then "" else words[w] + Tail(words, w)
  }

  /** Everything after word `w`, with the space that ends it. */
  function Tail(words: seq<string>, w: nat): string
    requires w < |words|
    decreases |words| - w, 0
  {
    if w + 1 == |words| then "" else " " + JoinFrom(words, w + 1)
  }

  lemma {:induction false} JoinFromIsJoin(words: seq<string>, w: nat)
    requires w < |words|
    ensures JoinFrom(words, w) == Join(words[w..])
    decreases |words| - w
  {
    if w + 1 < |words| {
      JoinFromIsJoin(words, w + 1);
      assert words[w..][1..] == words[w + 1..];
    }
  }

  predicate NoSpaces(s: string) {
    forall i :: 0 <= i < |s| ==> s[i] != ' '
  }

  predicate SpaceFree(words: seq<string>) {
    forall i :: 0 <= i < |words| ==> NoSpaces(words[i])
  }

  lemma {:induction false} SplitIsSpaceFree(text: string)
    ensures SpaceFree(Split(text))
  {
    if text != "" {
      SplitIsSpaceFree(text[1..]);
    }
  }

  /** What follows the characters encoded for word `w`. */
  function After(words: seq<string>, w: nat): string
    requires w < |words|
  {
    if IsSpace(words, w) then JoinFrom(words, w + 1) else Tail(words, w)
  }

  lemma {:induction false} WordThenAfter(words: seq<string>, w: nat)
    requires w < |words|
    ensures JoinFrom(words, w) == Word(words, w) + After(words, w)
    ensures Separable(words, w) ==> After(words, w) == " " + JoinFrom(words, w + 1)
    ensures !Separable(words, w) ==> After(words, w) == JoinFrom(words, w + 1)
  {
  }

  lemma {:induction false} FirstWordStops(a: string, b: string)
    requires NoSpaces(a) && (b == "" || b[0] == ' ')
    ensures FirstWord(a + b) == a
  {
    if a == "" {
      assert a + b == b;
    } else {
      assert (a + b)[1..] == a[1..] + b;
      FirstWordStops(a[1..], b);
    }
  }

  /** The coder's query is determined by the text still to be encoded. */
  lemma {:induction false} QueryIsRest(words: seq<string>, w: nat, pos: nat, rest: string)
    requires w < |words| && SpaceFree(words) && pos < |Word(words, w)|
    requires rest == Word(words, w)[pos..] + After(words, w)
    ensures rest != "" && Query(rest) == Word(words, w)[pos..]
  {
    if IsSpace(words, w) {
      assert rest[0] == ' ';
    } else {
      FirstWordStops(words[w][pos..], Tail(words, w));
      assert rest[0] == words[w][pos];
    }
  }

  // ---- the bytes consumed never exceed the text

  lemma {:induction false} WordConsumes(d: Dictionary, word: string, separable: bool, pos: nat, used: nat, p: Progress,
                                        bound: nat)
    requires pos <= |word| && p.consumed + |word| - pos + (if separable && pos < |word| then 1 else 0) <= bound
    ensures EncodeWord(d, word, separable, pos, used, p).consumed <= bound
    decreases 72 - used
  {
    if pos < |word| {
      var choice := Choice(d, word, separable, pos);
      if choice.Some? && used + CodeLength(choice.value) < 72 {
        var token := choice.value;
        var newPos: nat, now: nat, next := pos + Size(d, token), used + CodeLength(token), Advance(d, p, token);
        WordStep(d, word, separable, pos, used, p, token, newPos, now, next);
        WordConsumes(d, word, separable, newPos, now, next, bound);
      }
    }
  }

  lemma {:induction false} WordsConsume(d: Dictionary, words: seq<string>, w: nat, prefix: nat, p: Progress, bound: nat)
    requires w <= |words| && p.consumed + |JoinFrom(words, w)| <= bound
    ensures EncodeWords(d, words, w, prefix, p).consumed <= bound
    decreases |words| - w
  {
    if w < |words| && !p.full {
      WordThenAfter(words, w);
      var word, separable, used, now := Word(words, w), Separable(words, w), Used(prefix, p), w + 1;
      var next := EncodeWord(d, word, separable, 0, used, p);
      WordConsumes(d, word, separable, 0, used, p, bound - |JoinFrom(words, now)|);
      WordsStep(d, words, w, prefix, p, word, separable, used, now, next);
      WordsConsume(d, words, now, prefix, next, bound);
    }
  }

  /** For every dictionary and text, the consumed count stays inside the text. */
  lemma {:induction false} ConsumedWithinText(d: Dictionary, text: string, prefix: nat)
    ensures Encode(d, text, prefix).consumed <= |text|
  {
    JoinOfSplit(text);
    JoinFromIsJoin(Split(text), 0);
    assert Split(text)[0..] == Split(text);
    WordsConsume(d, Split(text), 0, prefix, Progress([], 0, false), |text|);
  }

  // ---- a frame always keeps room for the padding

  lemma {:induction false} WordFits(d: Dictionary, word: string, separable: bool, pos: nat, used: nat, prefix: nat,
                                    p: Progress)
    requires pos <= |word| && used == Used(prefix, p) < 72
    ensures Used(prefix, EncodeWord(d, word, separable, pos, used, p)) < 72
    decreases 72 - used
  {
    if pos < |word| {
      var choice := Choice(d, word, separable, pos);
      if choice.Some? && used + CodeLength(choice.value) < 72 {
        var token := choice.value;
        var newPos: nat, now: nat, next := pos + Size(d, token), used + CodeLength(token), Advance(d, p, token);
        MessageLengthPush(p.tokens, token);
        WordStep(d, word, separable, pos, used, p, token, newPos, now, next);
        WordFits(d, word, separable, newPos, now, prefix, next);
      }
    }
  }

  lemma {:induction false} WordsFit(d: Dictionary, words: seq<string>, w: nat, prefix: nat, p: Progress)
    requires w <= |words| && Used(prefix, p) < 72
    ensures Used(prefix, EncodeWords(d, words, w, prefix, p)) < 72
    decreases |words| - w
  {
    if w < |words| && !p.full {
      var word, used := Word(words, w), Used(prefix, p);
      WordFits(d, word, Separable(words, w), 0, used, prefix, p);
      WordsFit(d, words, w + 1, prefix, EncodeWord(d, word, Separable(words, w), 0, used, p));
    }
  }

  // ---- what the codewords show

  /** Characters counted for codewords: their declared sizes and one for every separator. */
  function Counted(d: Dictionary, tokens: seq<Token>): nat
    requires Sendable(d.map_, tokens)
  {
    if tokens == [] then 0
    else
      var last := tokens[|tokens| - 1];
      Counted(d, tokens[..|tokens| - 1]) + Size(d, last) + if last.separate then 1 else 0
  }

  predicate AllSized(d: Dictionary, tokens: seq<Token>, exact: bool) {
    forall i :: 0 <= i < |tokens| ==> tokens[i].index < |d.map_| && Sized(d, tokens[i].index, exact)
  }

  /** The count is the length of what is shown exactly when every declared size is exact. */
  lemma {:induction false} CountedIsShown(d: Dictionary, tokens: seq<Token>, exact: bool)
    requires Sendable(d.map_, tokens) && AllSized(d, tokens, exact)
    ensures exact ==> Exact(d, tokens)
    ensures Counted(d, tokens) <= |AllShown(d.map_, tokens)|
    ensures Counted(d, tokens) == |AllShown(d.map_, tokens)| <==> Exact(d, tokens)
  {
    if tokens != [] {
      var init := tokens[..|tokens| - 1];
      CountedIsShown(d, init, exact);
      ExactAppended(d, init, tokens[|tokens| - 1]);
      assert tokens == init + [tokens[|tokens| - 1]];
    }
  }

  lemma {:induction false} ExactAppended(d: Dictionary, tokens: seq<Token>, token: Token)
    ensures Exact(d, tokens + [token]) <==> Exact(d, tokens) && ExactToken(d, token)
  {
    var more := tokens + [token];
    assert more[|tokens|] == token;
    if Exact(d, more) {
      forall i | 0 <= i < |tokens|
        ensures ExactToken(d, tokens[i])
      {
        assert more[i] == tokens[i];
      }
    }
  }

  /** Everything the coder has sent so far is accounted for. */
  ghost predicate Sound(d: Dictionary, p: Progress, exact: bool) {
    Sendable(d.map_, p.tokens) && AllSized(d, p.tokens, exact) && p.consumed == Counted(d, p.tokens)
  }

  lemma {:induction false} SoundStep(d: Dictionary, p: Progress, exact: bool, token: Token, next: Progress)
    requires Sound(d, p, exact) && token.index < |d.map_| && token.index < IndexLimit()
    requires Sized(d, token.index, exact) && next == Advance(d, p, token)
    ensures Sound(d, next, exact)
    ensures AllShown(d.map_, next.tokens) == AndShown(AllShown(d.map_, p.tokens), d.map_, token)
  {
    EachAppended(d, p.tokens, exact, token);
    CountedAppended(d, p.tokens, token);
  }

  lemma {:induction false} EachAppended(d: Dictionary, tokens: seq<Token>, exact: bool, token: Token)
    requires Sendable(d.map_, tokens) && AllSized(d, tokens, exact)
    requires token.index < |d.map_| && token.index < IndexLimit() && Sized(d, token.index, exact)
    ensures Sendable(d.map_, tokens + [token]) && AllSized(d, tokens + [token], exact)
  {
  }

  lemma {:induction false} CountedAppended(d: Dictionary, tokens: seq<Token>, token: Token)
    requires Sendable(d.map_, tokens) && Sendable(d.map_, tokens + [token]) && token.index < |d.map_|
    ensures Counted(d, tokens + [token]) == Counted(d, tokens) + Size(d, token) + (if token.separate then 1 else 0)
    ensures AllShown(d.map_, tokens + [token]) == AndShown(AllShown(d.map_, tokens), d.map_, token)
  {
    assert (tokens + [token])[..|tokens|] == tokens;
  }

  /** While every declared size is exact, the text shown so far and the text still to be encoded make up the whole. */
  ghost predicate Continues(d: Dictionary, text: string, p: Progress, rest: string)
    requires Sendable(d.map_, p.tokens)
  {
    Exact(d, p.tokens) ==> text == AllShown(d.map_, p.tokens) + rest
  }

  /** Sound, and showing a beginning of the text as long as every declared size is exact. */
  ghost predicate Faithful(d: Dictionary, text: string, p: Progress, exact: bool) {
    Sound(d, p, exact) && (Exact(d, p.tokens) ==> AllShown(d.map_, p.tokens) <= text)
  }

  /** The text still to be encoded from position `pos` of word `w`, the ending space going with the last codeword. */
  function RestAt(words: seq<string>, w: nat, pos: nat): string
    requires w < |words|
  {
    if pos < |Word(words, w)| then Word(words, w)[pos..] + After(words, w) else JoinFrom(words, w + 1)
  }

  /** What one codeword takes from the text. */
  lemma {:induction false} RestStep(words: seq<string>, w: nat, pos: nat, part: string, separate: bool, newPos: nat)
    requires w < |words| && pos < |Word(words, w)| && part <= Word(words, w)[pos..]
    requires newPos == pos + |part| && (separate <==> Separable(words, w) && newPos == |Word(words, w)|)
    ensures RestAt(words, w, pos) == part + (if separate then " " else "") + RestAt(words, w, newPos)
  {
    var word, after := Word(words, w), After(words, w);
    WordThenAfter(words, w);
    var rest := word[newPos..];
    assert word[pos..] == part + rest;
    if newPos < |word| {
      Regroup(part, "", rest, after);
    } else {
      assert rest == "";
      Regroup(part, if separate then " " else "", "", JoinFrom(words, w + 1));
    }
  }

  lemma {:induction false} Regroup(a: string, b: string, c: string, e: string)
    ensures a + (b + (c + e)) == a + b + (c + e)
    ensures b == "" ==> a + c + e == a + b + (c + e)
    ensures c == "" ==> a + (b + e) == a + b + e
  {
  }

  lemma {:induction false} DropPrefix(a: string, b: string)
    ensures (a + b)[|a + b| - |b|..] == b
  {
  }

  lemma {:induction false} RestIsSuffix(words: seq<string>, w: nat, pos: nat, newPos: nat)
    requires w < |words| && pos < |Word(words, w)| && pos <= newPos <= |Word(words, w)|
    ensures |RestAt(words, w, newPos)| <= |RestAt(words, w, pos)|
    ensures RestAt(words, w, newPos) == RestAt(words, w, pos)[|RestAt(words, w, pos)| - |RestAt(words, w, newPos)|..]
  {
    var separate := Separable(words, w) && newPos == |Word(words, w)|;
    RestStep(words, w, pos, Word(words, w)[pos..newPos], separate, newPos);
    DropPrefix(Word(words, w)[pos..newPos] + (if separate then " " else ""), RestAt(words, w, newPos));
  }

  lemma {:induction false} TokenStep(d: Dictionary, text: string, exact: bool, words: seq<string>, w: nat, pos: nat,
                                     p: Progress, token: Token, newPos: nat, next: Progress)
    requires w < |words| && SpaceFree(words) && pos < |Word(words, w)|
    requires Covered(d, RestAt(words, w, pos), exact) && Sound(d, p, exact)
    requires Continues(d, text, p, RestAt(words, w, pos))
    requires Choice(d, Word(words, w), Separable(words, w), pos) == Some(token)
    requires newPos == pos + Size(d, token) && next == Advance(d, p, token)
    ensures newPos <= |Word(words, w)| && Sound(d, next, exact) && Covered(d, RestAt(words, w, newPos), exact)
    ensures Continues(d, text, next, RestAt(words, w, newPos))
  {
    var part := TextTrimmed(d.map_[token.index].text);
    ChoiceIsUsable(d, exact, words, w, pos);
    SoundStep(d, p, exact, token, next);
    RestIsSuffix(words, w, pos, newPos);
    CoveredSuffix(d, RestAt(words, w, pos), exact, |RestAt(words, w, pos)| - |RestAt(words, w, newPos)|);
    ExactAppended(d, p.tokens, token);
    if Exact(d, next.tokens) {
      RestStep(words, w, pos, part, token.separate, newPos);
      Shown(text, AllShown(d.map_, p.tokens), part, token.separate, RestAt(words, w, pos), RestAt(words, w, newPos));
    }
  }

  lemma {:induction false} Shown(text: string, shown: string, part: string, separate: bool, rest: string,
                                 newRest: string)
    requires text == shown + rest && rest == part + (if separate then " " else "") + newRest
    ensures text == (if separate then shown + part + " " else shown + part) + newRest
  {
    assert part + "" == part;
  }

  /** Standing inside a covered text, the coder has a codeword whose entry begins what it is looking at. */
  lemma {:induction false} ChoiceIsUsable(d: Dictionary, exact: bool, words: seq<string>, w: nat, pos: nat)
    requires w < |words| && SpaceFree(words) && pos < |Word(words, w)| && Covered(d, RestAt(words, w, pos), exact)
    ensures var choice := Choice(d, Word(words, w), Separable(words, w), pos);
            && choice.Some? && choice.value.index < IndexLimit()
            && TextTrimmed(d.map_[choice.value.index].text) <= Word(words, w)[pos..]
            && Sized(d, choice.value.index, exact)
            && (choice.value.separate <==>
                Separable(words, w) && pos + Size(d, choice.value) == |Word(words, w)|)
  {
    var rest := RestAt(words, w, pos);
    QueryIsRest(words, w, pos, rest);
    assert rest[0..] == rest;
    assert Usable(d, Query(rest[0..]), exact);
  }

  lemma {:induction false} WordShown(d: Dictionary, text: string, exact: bool, words: seq<string>, w: nat, pos: nat,
                                     used: nat, p: Progress)
    requires w < |words| && SpaceFree(words) && pos <= |Word(words, w)| && !p.full
    requires Covered(d, RestAt(words, w, pos), exact) && Sound(d, p, exact)
    requires Continues(d, text, p, RestAt(words, w, pos))
    ensures var r := EncodeWord(d, Word(words, w), Separable(words, w), pos, used, p);
            && Faithful(d, text, r, exact)
            && (!r.full ==> Continues(d, text, r, JoinFrom(words, w + 1)))
    decreases 72 - used
  {
    var word, separable := Word(words, w), Separable(words, w);
    if pos < |word| {
      ChoiceIsUsable(d, exact, words, w, pos);
      var token := Choice(d, word, separable, pos).value;
      var now: nat, newPos: nat, next := used + CodeLength(token), pos + Size(d, token), Advance(d, p, token);
      if now < 72 {
        TokenStep(d, text, exact, words, w, pos, p, token, newPos, next);
        WordStep(d, word, separable, pos, used, p, token, newPos, now, next);
        WordShown(d, text, exact, words, w, newPos, now, next);
      }
    }
  }

  lemma {:induction false} WordsShown(d: Dictionary, text: string, exact: bool, words: seq<string>, w: nat, prefix: nat,
                                      p: Progress)
    requires w <= |words| && SpaceFree(words) && !p.full
    requires Covered(d, JoinFrom(words, w), exact) && Sound(d, p, exact) && Continues(d, text, p, JoinFrom(words, w))
    ensures Faithful(d, text, EncodeWords(d, words, w, prefix, p), exact)
    decreases |words| - w
  {
    if w < |words| {
      var word, separable, used, now := Word(words, w), Separable(words, w), Used(prefix, p), w + 1;
      var next := EncodeWord(d, word, separable, 0, used, p);
      WordThenAfter(words, w);
      WordShown(d, text, exact, words, w, 0, used, p);
      WordsStep(d, words, w, prefix, p, word, separable, used, now, next);
      if !next.full {
        JoinFromSuffix(words, w);
        CoveredSuffix(d, JoinFrom(words, w), exact, |JoinFrom(words, w)| - |JoinFrom(words, now)|);
        WordsShown(d, text, exact, words, now, prefix, next);
      }
    }
  }

  lemma {:induction false} JoinFromSuffix(words: seq<string>, w: nat)
    requires w < |words|
    ensures |JoinFrom(words, w + 1)| <= |JoinFrom(words, w)|
    ensures JoinFrom(words, w + 1) == JoinFrom(words, w)[|JoinFrom(words, w)| - |JoinFrom(words, w + 1)|..]
  {
  }

  /**
   * For every covered text, the codewords of a frame show the consumed characters
   * if and only if every entry sent declares the size of its text.
   */
  lemma {:induction false} ShownIsConsumed(d: Dictionary, text: string, exact: bool, prefix: nat)
    requires Covered(d, text, exact)
    ensures var p := Encode(d, text, prefix);
            && p.consumed <= |text| && Sendable(d.map_, p.tokens)
            && (AllShown(d.map_, p.tokens) == text[..p.consumed] <==> Exact(d, p.tokens))
            && (exact ==> Exact(d, p.tokens))
  {
    var words, p := Split(text), Encode(d, text, prefix);
    ConsumedWithinText(d, text, prefix);
    SplitIsSpaceFree(text);
    SplitStart(text);
    WordsShown(d, text, exact, words, 0, prefix, Progress([], 0, false));
    CountedIsShown(d, p.tokens, exact);
  }

  lemma {:induction false} SplitStart(text: string)
    ensures JoinFrom(Split(text), 0) == text
    ensures text != "" ==> RestAt(Split(text), 0, 0) == text && Word(Split(text), 0) != ""
  {
    var words := Split(text);
    JoinOfSplit(text);
    JoinFromIsJoin(words, 0);
    assert words[0..] == words;
    WordThenAfter(words, 0);
    if text != "" && text[0] == ' ' {
      assert words[0] == "" && |words| > 1;
    }
  }

  // ---- progress

  lemma {:induction false} WordAdvances(d: Dictionary, word: string, separable: bool, pos: nat, used: nat, p: Progress)
    requires pos <= |word|
    ensures EncodeWord(d, word, separable, pos, used, p).consumed >= p.consumed
    decreases 72 - used
  {
    if pos < |word| {
      var choice := Choice(d, word, separable, pos);
      if choice.Some? && used + CodeLength(choice.value) < 72 {
        var token := choice.value;
        var newPos: nat, now: nat, next := pos + Size(d, token), used + CodeLength(token), Advance(d, p, token);
        WordStep(d, word, separable, pos, used, p, token, newPos, now, next);
        WordAdvances(d, word, separable, newPos, now, next);
      }
    }
  }

  lemma {:induction false} WordsAdvance(d: Dictionary, words: seq<string>, w: nat, prefix: nat, p: Progress)
    requires w <= |words|
    ensures EncodeWords(d, words, w, prefix, p).consumed >= p.consumed
    decreases |words| - w
  {
    if w < |words| && !p.full {
      var word, separable, used, now := Word(words, w), Separable(words, w), Used(prefix, p), w + 1;
      var next := EncodeWord(d, word, separable, 0, used, p);
      WordAdvances(d, word, separable, 0, used, p);
      WordsStep(d, words, w, prefix, p, word, separable, used, now, next);
      WordsAdvance(d, words, now, prefix, next);
    }
  }

  lemma {:induction false} CodeLengthBound(token: Token)
    requires token.index < IndexLimit()
    ensures CodeLength(token) <= 33
  {
    DigitCount(token.index / 7, 8);
  }

  /** The first codeword of a word whose lookup is exact takes at least one character. */
  lemma {:induction false} CoveredWordAdvances(d: Dictionary, words: seq<string>, w: nat, pos: nat, used: nat,
                                               p: Progress)
    requires w < |words| && SpaceFree(words) && pos < |Word(words, w)| && used < 39
    requires Covered(d, RestAt(words, w, pos), true)
    ensures EncodeWord(d, Word(words, w), Separable(words, w), pos, used, p).consumed > p.consumed
  {
    var word, separable := Word(words, w), Separable(words, w);
    ChoiceIsUsable(d, true, words, w, pos);
    var token := Choice(d, word, separable, pos).value;
    CodeLengthBound(token);
    var newPos: nat, now: nat, next := pos + Size(d, token), used + CodeLength(token), Advance(d, p, token);
    WordStep(d, word, separable, pos, used, p, token, newPos, now, next);
    WordAdvances(d, word, separable, newPos, now, next);
  }

  lemma {:induction false} CoveredWordsAdvance(d: Dictionary, words: seq<string>, w: nat, prefix: nat, p: Progress)
    requires w < |words| && SpaceFree(words) && Word(words, w) != "" && Used(prefix, p) < 39 && !p.full
    requires Covered(d, RestAt(words, w, 0), true)
    ensures EncodeWords(d, words, w, prefix, p).consumed > p.consumed
  {
    var word, separable, used, now := Word(words, w), Separable(words, w), Used(prefix, p), w + 1;
    var next := EncodeWord(d, word, separable, 0, used, p);
    CoveredWordAdvances(d, words, w, 0, used, p);
    WordsStep(d, words, w, prefix, p, word, separable, used, now, next);
    WordsAdvance(d, words, now, prefix, next);
  }

  /** On a text covered exactly, a frame carries at least one character. */
  lemma {:induction false} FrameAdvances(d: Dictionary, text: string, prefix: nat)
    requires text != "" && Covered(d, text, true) && prefix < 39
    ensures Encode(d, text, prefix).consumed >= 1
  {
    SplitIsSpaceFree(text);
    SplitStart(text);
    CoveredWordsAdvance(d, Split(text), 0, prefix, Progress([], 0, false));
  }
}
