/** What the greedy coder puts into a frame: as many of a text's codewords as fit. */
module JscGreedy {
  import opened Wrappers
  import opened JscTables
  import opened JscCode
  import opened JscCompress
  import opened JscRoundTrip

  /** The codeword at the start of a text: the entry looked up, with the space after it if it ends a word. */
  function Code(d: Dictionary, text: string): (token: Token)
    requires text != "" && Usable(d, Query(text), true)
    ensures token.index < |d.map_|
  {
    var index := d.look(Query(text)).value;
    Token(index, text[0] != ' ' && d.map_[index].size == |Query(text)| < |text|)
  }

  /** The characters it takes. */
  function Taken(d: Dictionary, token: Token): nat
    requires token.index < |d.map_|
  {
    Size(d, token) + if token.separate then 1 else 0
  }

  lemma {:induction false} CodeTakes(d: Dictionary, text: string)
    requires text != "" && Covered(d, text, true)
    ensures Usable(d, Query(text), true) && 1 <= Taken(d, Code(d, text)) <= |text|
  {
    assert text[0..] == text;
    assert Usable(d, Query(text[0..]), true);
    FirstWordBound(text);
  }

  lemma {:induction false} FirstWordBound(text: string)
    ensures |FirstWord(text)| <= |text|
  {
    if text != "" && text[0] != ' ' {
      FirstWordBound(text[1..]);
    }
  }

  /** The codewords of a whole text. */
  function AllCodes(d: Dictionary, text: string): seq<Token>
    requires Covered(d, text, true)
    decreases |text|
  {
    if text == "" then []
    else
      CodeTakes(d, text);
      var token := Code(d, text);
      CoveredSuffix(d, text, true, Taken(d, token));
      [token] + AllCodes(d, text[Taken(d, token)..])
  }

  /** A frame that is full: the next codeword would leave no room for the zero that ends the message. */
  ghost predicate Fills(all: seq<Token>, prefix: nat, p: Progress) {
    && |p.tokens| < |all| && p.tokens == all[..|p.tokens|]
    && Used(prefix, p) + CodeLength(all[|p.tokens|]) >= 72
  }

  /** The codewords chosen so far, and those of the text still to be encoded. */
  ghost predicate Chosen(d: Dictionary, all: seq<Token>, p: Progress, rest: string) {
    Covered(d, rest, true) && all == p.tokens + AllCodes(d, rest)
  }

  /** Standing in a word, the coder chooses the codeword of the text still to be encoded. */
  lemma {:induction false} ChoiceIsCode(d: Dictionary, words: seq<string>, w: nat, pos: nat, token: Token, rest: string)
    requires w < |words| && SpaceFree(words) && pos < |Word(words, w)|
    requires rest == RestAt(words, w, pos) && Covered(d, rest, true)
    requires Choice(d, Word(words, w), Separable(words, w), pos) == Some(token)
    ensures rest != "" && Usable(d, Query(rest), true) && token == Code(d, rest)
    ensures Size(d, token) == |TextTrimmed(d.map_[token.index].text)|
    ensures TextTrimmed(d.map_[token.index].text) <= Word(words, w)[pos..]
    ensures token.separate <==> Separable(words, w) && pos + Size(d, token) == |Word(words, w)|
  {
    QueryIsRest(words, w, pos, rest);
    ChoiceIsUsable(d, true, words, w, pos);
    WordThenAfter(words, w);
    CodeTakes(d, rest);
    SpaceStarts(words, w, pos, rest);
  }

  /** Only the word that stands for a space begins with one. */
  lemma {:induction false} SpaceStarts(words: seq<string>, w: nat, pos: nat, rest: string)
    requires w < |words| && SpaceFree(words) && pos < |Word(words, w)|
    requires rest == Word(words, w)[pos..] + After(words, w)
    ensures rest[0] == ' ' <==> IsSpace(words, w)
  {
    if !IsSpace(words, w) {
      assert rest[0] == words[w][pos];
    }
  }

  /** The text still to be encoded after it. */
  lemma {:induction false} RestAfterCode(words: seq<string>, w: nat, pos: nat, part: string, separate: bool,
                                         newPos: nat, taken: nat, rest: string)
    requires w < |words| && pos < |Word(words, w)| && part <= Word(words, w)[pos..] && newPos == pos + |part|
    requires (separate <==> Separable(words, w) && newPos == |Word(words, w)|) && rest == RestAt(words, w, pos)
    requires taken == |part| + if separate then 1 else 0
    ensures taken <= |rest| && RestAt(words, w, newPos) == rest[taken..]
  {
    var front := part + (if separate then " " else "");
    RestStep(words, w, pos, part, separate, newPos);
    DropPrefix(front, RestAt(words, w, newPos));
    assert rest == front + RestAt(words, w, newPos);
  }

  lemma {:induction false} CodesSplit(d: Dictionary, rest: string, token: Token, more: string)
    requires Covered(d, rest, true) && rest != "" && Usable(d, Query(rest), true) && token == Code(d, rest)
    requires Taken(d, token) <= |rest| && more == rest[Taken(d, token)..]
    ensures Covered(d, more, true) && AllCodes(d, rest) == [token] + AllCodes(d, more)
  {
    CoveredSuffix(d, rest, true, Taken(d, token));
  }

  lemma {:induction false} CodesStep(d: Dictionary, all: seq<Token>, p: Progress, rest: string, token: Token,
                                     next: Progress, more: string)
    requires Chosen(d, all, p, rest) && Covered(d, more, true) && token.index < |d.map_|
    requires AllCodes(d, rest) == [token] + AllCodes(d, more) && next == Advance(d, p, token)
    ensures Chosen(d, all, next, more)
    ensures |p.tokens| < |all| && p.tokens == all[..|p.tokens|] && all[|p.tokens|] == token
  {
    assert p.tokens + ([token] + AllCodes(d, more)) == p.tokens + [token] + AllCodes(d, more);
  }

  /** One codeword more of a word. */
  lemma {:induction false} TokenFills(d: Dictionary, all: seq<Token>, words: seq<string>, w: nat, pos: nat, p: Progress)
      returns (token: Token, newPos: nat, next: Progress)
    requires w < |words| && SpaceFree(words) && pos < |Word(words, w)| && Chosen(d, all, p, RestAt(words, w, pos))
    ensures Choice(d, Word(words, w), Separable(words, w), pos) == Some(token) && newPos == pos + Size(d, token)
    ensures newPos <= |Word(words, w)| && next == Advance(d, p, token) && Chosen(d, all, next, RestAt(words, w, newPos))
    ensures |p.tokens| < |all| && p.tokens == all[..|p.tokens|] && all[|p.tokens|] == token
  {
    var rest := RestAt(words, w, pos);
    ChoiceIsUsable(d, true, words, w, pos);
    token := Choice(d, Word(words, w), Separable(words, w), pos).value;
    newPos, next := pos + Size(d, token), Advance(d, p, token);
    ChoiceIsCode(d, words, w, pos, token, rest);
    RestAfterCode(words, w, pos, TextTrimmed(d.map_[token.index].text), token.separate, newPos, Taken(d, token), rest);
    CodesSplit(d, rest, token, RestAt(words, w, newPos));
    CodesStep(d, all, p, rest, token, next, RestAt(words, w, newPos));
  }

  /** A codeword that does not fit ends the frame. */
  lemma {:induction false} FrameIsFull(d: Dictionary, word: string, separable: bool, pos: nat, used: nat, p: Progress,
                                       token: Token, prefix: nat, all: seq<Token>)
    requires pos < |word| && Choice(d, word, separable, pos) == Some(token) && used == Used(prefix, p)
    requires used + CodeLength(token) >= 72
    requires |p.tokens| < |all| && p.tokens == all[..|p.tokens|] && all[|p.tokens|] == token
    ensures var r := EncodeWord(d, word, separable, pos, used, p);
            r.full && Fills(all, prefix, r)
  {
  }

  lemma {:induction false} WordFills(d: Dictionary, all: seq<Token>, words: seq<string>, w: nat, pos: nat, prefix: nat,
                                     used: nat, p: Progress)
    requires w < |words| && SpaceFree(words) && pos <= |Word(words, w)| && !p.full && used == Used(prefix, p) < 72
    requires Chosen(d, all, p, RestAt(words, w, pos))
    ensures var r := EncodeWord(d, Word(words, w), Separable(words, w), pos, used, p);
            if r.full then Fills(all, prefix, r) else Chosen(d, all, r, JoinFrom(words, w + 1))
    decreases 72 - used
  {
    var word, separable := Word(words, w), Separable(words, w);
    if pos < |word| {
      var token, newPos, next := TokenFills(d, all, words, w, pos, p);
      var now: nat := used + CodeLength(token);
      if now < 72 {
        MessageLengthPush(p.tokens, token);
        WordStep(d, word, separable, pos, used, p, token, newPos, now, next);
        WordFills(d, all, words, w, newPos, prefix, now, next);
      } else {
        FrameIsFull(d, word, separable, pos, used, p, token, prefix, all);
      }
    }
  }

  lemma {:induction false} WordsFill(d: Dictionary, all: seq<Token>, words: seq<string>, w: nat, prefix: nat,
                                     p: Progress)
    requires w <= |words| && SpaceFree(words) && !p.full && Used(prefix, p) < 72
    requires Chosen(d, all, p, JoinFrom(words, w))
    ensures var r := EncodeWords(d, words, w, prefix, p);
            if r.full then Fills(all, prefix, r) else r.tokens == all
    decreases |words| - w
  {
    if w < |words| {
      var word, separable, used, now := Word(words, w), Separable(words, w), Used(prefix, p), w + 1;
      var next := EncodeWord(d, word, separable, 0, used, p);
      WordThenAfter(words, w);
      WordFills(d, all, words, w, 0, prefix, used, p);
      WordFits(d, word, separable, 0, used, prefix, p);
      WordsStep(d, words, w, prefix, p, word, separable, used, now, next);
      if !next.full {
        WordsFill(d, all, words, now, prefix, next);
      }
    }
  }

  /**
   * A frame of an exactly covered text holds the beginning of the text's codewords, and either all of them or so many
   * that the next one would leave no room.
   */
  lemma {:induction false} FrameIsFilled(d: Dictionary, text: string, prefix: nat)
    requires Covered(d, text, true) && prefix < 72
    ensures var p, all := Encode(d, text, prefix), AllCodes(d, text);
      && |p.tokens| <= |all| && p.tokens == all[..|p.tokens|] && prefix + MessageLength(p.tokens) < 72
      && (p.tokens != all ==> prefix + MessageLength(p.tokens) + CodeLength(all[|p.tokens|]) >= 72)
  {
    var words, none := Split(text), Progress([], 0, false);
    SplitIsSpaceFree(text);
    SplitStart(text);
    WordsFit(d, words, 0, prefix, none);
    WordsFill(d, AllCodes(d, text), words, 0, prefix, none);
  }
}
