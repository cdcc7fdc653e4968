/** When a dictionary's frames show what they consume: a condition on its entries alone. */
module DictionaryRoundTrip {
  import opened Wrappers
  import opened JscTables
  import opened JscCode
  import opened JscCompress
  import opened JscRoundTrip
  import opened FastData

  /** An entry found for a query declares the size of its text. */
  predicate LooksExact(d: Dictionary, query: string) {
    var found := d.look(query);
    found.Some? && found.value < |d.map_| ==> d.map_[found.value].size == |TextTrimmed(d.map_[found.value].text)|
  }

  /** Every entry that a lookup on covered text can return declares the size of its text. */
  ghost predicate ReturnsExact(d: Dictionary) {
    forall q: string :: q != "" && Query(q) == q && Covered(d, q, false) ==> LooksExact(d, q)
  }

  /** A frame of the text shows the characters it consumes. */
  predicate ShowsConsumed(d: Dictionary, text: string) {
    var (frame, consumed) := Packed(d, text);
    Unpack(d.map_, frame) == text[..consumed]
  }

  // ---- every codeword comes from a lookup on covered text

  lemma {:induction false} CoveredFrom(d: Dictionary, words: seq<string>, w: nat)
    requires w <= |words| && Covered(d, JoinFrom(words, 0), false)
    ensures Covered(d, JoinFrom(words, w), false)
  {
    if w > 0 {
      CoveredFrom(d, words, w - 1);
      JoinFromSuffix(words, w - 1);
      CoveredSuffix(d, JoinFrom(words, w - 1), false, |JoinFrom(words, w - 1)| - |JoinFrom(words, w)|);
    }
  }

  /** What the coder looks up inside a word is usable. */
  lemma {:induction false} WordIsUsable(d: Dictionary, words: seq<string>, w: nat, pos: nat)
    requires w < |words| && SpaceFree(words) && pos < |Word(words, w)| && Covered(d, JoinFrom(words, 0), false)
    ensures Usable(d, Word(words, w)[pos..], false)
  {
    CoveredFrom(d, words, w);
    WordThenAfter(words, w);
    var all, rest := RestAt(words, w, 0), RestAt(words, w, pos);
    assert all == JoinFrom(words, w);
    RestIsSuffix(words, w, 0, pos);
    CoveredSuffix(d, all, false, |all| - |rest|);
    QueryIsRest(words, w, pos, rest);
    assert rest[0..] == rest;
  }

  lemma {:induction false} SpaceOrWord(words: seq<string>, w: nat, pos: nat)
    requires w < |words| && SpaceFree(words) && pos < |Word(words, w)|
    ensures var q := Word(words, w)[pos..];
            q != "" && Query(q) == q
  {
    var q := Word(words, w)[pos..];
    if !IsSpace(words, w) {
      FirstWordStops(q, "");
      assert q + "" == q && q[0] == words[w][pos];
    }
  }

  lemma {:induction false} SubqueryIsUsable(d: Dictionary, words: seq<string>, w: nat, pos: nat, q: string, i: nat)
    requires w < |words| && SpaceFree(words) && pos < |Word(words, w)| && Covered(d, JoinFrom(words, 0), false)
    requires q == Word(words, w)[pos..] && i < |q|
    ensures Usable(d, Query(q[i..]), false)
  {
    WordIsUsable(d, words, w, pos + i);
    SpaceOrWord(words, w, pos + i);
    assert q[i..] == Word(words, w)[pos + i..];
  }

  lemma {:induction false} WordLooksExact(d: Dictionary, words: seq<string>, w: nat, pos: nat)
    requires w < |words| && SpaceFree(words) && pos < |Word(words, w)|
    requires Covered(d, JoinFrom(words, 0), false) && ReturnsExact(d)
    ensures LooksExact(d, Word(words, w)[pos..])
  {
    var q := Word(words, w)[pos..];
    SpaceOrWord(words, w, pos);
    forall i | 0 <= i < |q|
      ensures Usable(d, Query(q[i..]), false)
    {
      SubqueryIsUsable(d, words, w, pos, q, i);
    }
  }

  lemma {:induction false} WordSendsExact(d: Dictionary, word: string, separable: bool, pos: nat, used: nat,
                                          p: Progress)
    requires pos <= |word| && Exact(d, p.tokens) && forall i :: 0 <= i < |word| ==> LooksExact(d, word[i..])
    ensures Exact(d, EncodeWord(d, word, separable, pos, used, p).tokens)
    decreases 72 - used
  {
    if pos < |word| {
      var choice := Choice(d, word, separable, pos);
      if choice.Some? && used + CodeLength(choice.value) < 72 {
        var token := choice.value;
        var newPos: nat, now: nat, next := pos + Size(d, token), used + CodeLength(token), Advance(d, p, token);
        WordStep(d, word, separable, pos, used, p, token, newPos, now, next);
        assert LooksExact(d, word[pos..]) && ExactToken(d, token);
        WordSendsExact(d, word, separable, newPos, now, next);
      }
    }
  }

  lemma {:induction false} WordsSendExact(d: Dictionary, words: seq<string>, w: nat, prefix: nat, p: Progress)
    requires w <= |words| && SpaceFree(words) && Exact(d, p.tokens)
    requires Covered(d, JoinFrom(words, 0), false) && ReturnsExact(d)
    ensures Exact(d, EncodeWords(d, words, w, prefix, p).tokens)
    decreases |words| - w
  {
    if w < |words| && !p.full {
      var word, separable, used, now := Word(words, w), Separable(words, w), Used(prefix, p), w + 1;
      var next := EncodeWord(d, word, separable, 0, used, p);
      forall i | 0 <= i < |word|
        ensures LooksExact(d, word[i..])
      {
        WordLooksExact(d, words, w, i);
      }
      WordSendsExact(d, word, separable, 0, used, p);
      WordsStep(d, words, w, prefix, p, word, separable, used, now, next);
      WordsSendExact(d, words, now, prefix, next);
    }
  }

  // ---- an entry of another size shows

  lemma {:induction false} WordKeepsTokens(d: Dictionary, word: string, separable: bool, pos: nat, used: nat,
                                           p: Progress)
    requires pos <= |word|
    ensures p.tokens <= EncodeWord(d, word, separable, pos, used, p).tokens
    decreases 72 - used
  {
    if pos < |word| {
      var choice := Choice(d, word, separable, pos);
      if choice.Some? && used + CodeLength(choice.value) < 72 {
        var token := choice.value;
        var newPos: nat, now: nat, next := pos + Size(d, token), used + CodeLength(token), Advance(d, p, token);
        WordStep(d, word, separable, pos, used, p, token, newPos, now, next);
        WordKeepsTokens(d, word, separable, newPos, now, next);
      }
    }
  }

  lemma {:induction false} WordsKeepTokens(d: Dictionary, words: seq<string>, w: nat, prefix: nat, p: Progress)
    requires w <= |words|
    ensures p.tokens <= EncodeWords(d, words, w, prefix, p).tokens
    decreases |words| - w
  {
    if w < |words| && !p.full {
      var word, separable, used, now := Word(words, w), Separable(words, w), Used(prefix, p), w + 1;
      var next := EncodeWord(d, word, separable, 0, used, p);
      WordKeepsTokens(d, word, separable, 0, used, p);
      WordsStep(d, words, w, prefix, p, word, separable, used, now, next);
      WordsKeepTokens(d, words, now, prefix, next);
    }
  }

  lemma {:induction false} SplitOfWord(word: string)
    requires NoSpaces(word)
    ensures Split(word) == [word]
  {
    if word != "" {
      SplitOfWord(word[1..]);
      assert [word[0]] + word[1..] == word;
      assert [word[1..]][1..] == [];
    }
  }

  lemma {:induction false} FirstWordIsSpaceFree(s: string)
    ensures NoSpaces(FirstWord(s))
  {
    if s != "" && s[0] != ' ' {
      FirstWordIsSpaceFree(s[1..]);
    }
  }

  /** A query is its own first word. */
  lemma {:induction false} QueryIsFirst(q: string)
    requires q != "" && Query(q) == q
    ensures Word(Split(q), 0) == q
  {
    if q[0] == ' ' {
      assert q[1..] == "" && Split(q) == [""] + [""];
    } else {
      FirstWordIsSpaceFree(q);
      SplitOfWord(q);
    }
  }

  /** The first codeword of a query is its entry, and it always fits. */
  lemma {:induction false} FirstToken(d: Dictionary, q: string, separable: bool, none: Progress)
    requires q != "" && Usable(d, q, false) && none == Progress([], 0, false)
    ensures var tokens := EncodeWord(d, q, separable, 0, 0, none).tokens;
            |tokens| > 0 && tokens[0].index == d.look(q).value
  {
    assert q[0..] == q;
    var token := Choice(d, q, separable, 0).value;
    CodeLengthBound(token);
    var newPos: nat, now: nat, next := Size(d, token), CodeLength(token), Advance(d, none, token);
    WordStep(d, q, separable, 0, 0, none, token, newPos, now, next);
    WordKeepsTokens(d, q, separable, newPos, now, next);
    assert next.tokens == [token];
  }

  lemma {:induction false} FirstSent(d: Dictionary, words: seq<string>, w: nat, prefix: nat, none: Progress, q: string,
                                     separable: bool)
    requires w < |words| && Word(words, w) == q && separable == Separable(words, w)
    requires prefix == 0 && none == Progress([], 0, false) && q != "" && Usable(d, q, false)
    ensures var tokens := EncodeWords(d, words, w, prefix, none).tokens;
            |tokens| > 0 && tokens[0].index == d.look(q).value
  {
    FirstToken(d, q, separable, none);
    var used, now := Used(prefix, none), w + 1;
    assert used == 0;
    var next := EncodeWord(d, q, separable, 0, used, none);
    WordsStep(d, words, w, prefix, none, q, separable, used, now, next);
    WordsKeepTokens(d, words, now, prefix, next);
  }

  /** A covered query whose entry has another size is itself a text that is not shown as consumed. */
  lemma {:induction false} InexactEntryShows(d: Dictionary, q: string)
    requires q != "" && Query(q) == q && Covered(d, q, false) && !LooksExact(d, q)
    ensures !ShowsConsumed(d, q)
  {
    assert q[0..] == q;
    QueryIsFirst(q);
    FirstSent(d, Split(q), 0, 0, Progress([], 0, false), q, Separable(Split(q), 0));
    var tokens := Encode(d, q, 0).tokens;
    assert !ExactToken(d, tokens[0]);
    FrameRoundTrip(d, q);
  }

  lemma {:induction false} ExactEntriesShow(d: Dictionary, text: string)
    requires Covered(d, text, false) && ReturnsExact(d)
    ensures ShowsConsumed(d, text)
  {
    SplitIsSpaceFree(text);
    SplitStart(text);
    WordsSendExact(d, Split(text), 0, 0, Progress([], 0, false));
    FrameRoundTrip(d, text);
  }

  /**
   * A dictionary's frames show what they consume, for every text it covers, if and only if every
   * entry that its lookups return declares the size of its text.
   */
  lemma {:induction false} DictionaryShowsConsumed(d: Dictionary)
    ensures (forall text: string :: Covered(d, text, false) ==> ShowsConsumed(d, text)) <==> ReturnsExact(d)
  {
    if ReturnsExact(d) {
      forall text: string | Covered(d, text, false)
        ensures ShowsConsumed(d, text)
      {
        ExactEntriesShow(d, text);
      }
    } else {
      var q: string :| q != "" && Query(q) == q && Covered(d, q, false) && !LooksExact(d, q);
      InexactEntryShows(d, q);
    }
  }

  // ---- the shipped entry

  /** The entry for ROSIDS declares the size 1, as the shipped one does; the other entries are single letters. */
  function Misdeclared(): Dictionary {
    Dictionary([Entry("ROSIDS", 1), Entry("O", 1), Entry("S", 1), Entry("I", 1), Entry("D", 1)],
               (query: string) => LetterIndex(query))
  }

  function LetterIndex(query: string): Option<nat> {
    if query == "" then None
    else if query[0] == 'R' then Some(0)
    else if query[0] == 'O' then Some(1)
    else if query[0] == 'S' then Some(2)
    else if query[0] == 'I' then Some(3)
    else Some(4)
  }

  lemma {:induction false} WordSuffix(word: string, i: nat)
    requires NoSpaces(word) && i < |word|
    ensures Query(word[i..]) == word[i..]
  {
    FirstWordStops(word[i..], "");
    assert word[i..] + "" == word[i..] && word[i..][0] == word[i];
  }

  lemma {:induction false} LetterIsUsable(d: Dictionary, query: string, index: nat)
    requires d == Misdeclared() && query != "" && d.look(query) == Some(index) && 1 <= index < 5
    requires query[0] == "?OSID"[index]
    ensures Usable(d, query, false)
  {
    assert Shorter(8) >= 1;
    var text := d.map_[index].text;
    assert |text| == 1 && text[0] == query[0];
    assert TextTrimmed(text) == text;
    assert text <= query;
  }

  lemma {:induction false} RosidsIsUsable(d: Dictionary, query: string)
    requires d == Misdeclared() && query == "ROSIDS"
    ensures Usable(d, query, false) && !LooksExact(d, query)
  {
    assert Shorter(8) >= 1;
    assert TextTrimmed("ROSIDS") == "ROSIDS";
  }

  lemma {:induction false} SuffixIsUsable(d: Dictionary, text: string, i: nat)
    requires d == Misdeclared() && text == "ROSIDS" && i < |text|
    ensures Usable(d, text[i..], false) && Query(text[i..]) == text[i..]
  {
    WordSuffix(text, i);
    var q := text[i..];
    assert q[0] == text[i];
    if i == 0 {
      RosidsIsUsable(d, q);
    } else {
      LetterIsUsable(d, q, d.look(q).value);
    }
  }

  lemma {:induction false} AllUsable(d: Dictionary, text: string)
    requires forall i :: 0 <= i < |text| ==> Usable(d, text[i..], false) && Query(text[i..]) == text[i..]
    ensures Covered(d, text, false)
  {
  }

  /** With such an entry the text is covered, and its frame does not show what it consumes. */
  lemma {:induction false} MisdeclaredSizeShowsMore(d: Dictionary, text: string)
    requires d == Misdeclared() && text == "ROSIDS"
    ensures Covered(d, text, false) && !ShowsConsumed(d, text) && !ReturnsExact(d)
  {
    forall i | 0 <= i < |text|
      ensures Usable(d, text[i..], false) && Query(text[i..]) == text[i..]
    {
      SuffixIsUsable(d, text, i);
    }
    AllUsable(d, text);
    RosidsIsUsable(d, text);
    WordSuffix(text, 0);
    assert text[0..] == text;
    InexactEntryShows(d, text);
  }
}
