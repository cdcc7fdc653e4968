/** Dictionary lookup: binary search in descending spans against a plain first-match scan. */
module JscLookup {
  import opened Wrappers
  import opened Words
  import opened JscTables

  /** The first rank in `lo..hi` whose key is a prefix of `b`, as a map index. */
  function FirstMatch(t: Tables, lo: nat, hi: nat, b: string): (r: Option<nat>)
    requires ValidRanks(t) && hi <= |t.ranks|
    decreases hi - lo
  {
    if lo >= hi then None
    else if Key(t, lo) <= b then Some(t.ranks[lo].index)
    else FirstMatch(t, lo + 1, hi, b)
  }

  /** Every span from `first` on lies inside the rank list and starts where the previous one ends. */
  predicate ConsecutiveSpans(t: Tables, first: nat, count: nat) {
    first + count <= |t.spans| &&
    (forall s :: first <= s < first + count ==> t.spans[s].start + t.spans[s].count <= |t.ranks|) &&
    (forall s :: first < s < first + count ==> t.spans[s].start == t.spans[s - 1].start + t.spans[s - 1].count)
  }

  /** A span is descending and its mask has exactly the key sizes that occur in it. */
  ghost predicate GoodSpan(t: Tables, s: LookupSpan)
    requires ValidRanks(t)
  {
    && Descending(t, s.start, s.start + s.count)
    && forall n: nat :: HasBit(s.sizes, n) <==> exists r :: s.start <= r < s.start + s.count && |Key(t, r)| == n
  }

  predicate StartsWith(s: string, c: char) {
    s != [] && s[0] == c
  }

  function FirstSpan(route: nat): nat { route % 0x1_0000 }
  function SpanCount(route: nat): nat { route / 0x1_0000 }

  /** The layout the search relies on for one first byte: consecutive good spans. */
  ghost predicate GoodRoute(t: Tables, byte: char)
    requires ValidRanks(t) && byte as nat < |t.routes|
  {
    var route := t.routes[byte as nat];
    route < DIRECT_ROUTE ==>
      && ConsecutiveSpans(t, FirstSpan(route), SpanCount(route))
      && (forall s :: FirstSpan(route) <= s < FirstSpan(route) + SpanCount(route) ==> GoodSpan(t, t.spans[s]))
  }

  function RouteStart(t: Tables, route: nat): nat
    requires SpanCount(route) > 0 && ConsecutiveSpans(t, FirstSpan(route), SpanCount(route))
  {
    t.spans[FirstSpan(route)].start
  }

  function RouteEnd(t: Tables, route: nat): (e: nat)
    requires SpanCount(route) > 0 && ConsecutiveSpans(t, FirstSpan(route), SpanCount(route))
    ensures e <= |t.ranks|
  {
    var last := t.spans[FirstSpan(route) + SpanCount(route) - 1];
    last.start + last.count
  }

  /** The reference answer: scan the ranks of the byte's route in order. */
  ghost function LinearLookup(t: Tables, b: string): (r: Option<nat>)
    requires ValidRanks(t) && |t.routes| == 256
    requires b != [] ==> b[0] as nat < 256 && GoodRoute(t, b[0])
  {
    if b == [] then None
    else
      var route := t.routes[b[0] as nat];
      if route == NO_ROUTE then None
      else if route >= DIRECT_ROUTE then Some(route % INDEX_MODULUS)
      else if SpanCount(route) == 0 then None
      else FirstMatch(t, RouteStart(t, route), RouteEnd(t, route), b)
  }

  /** A query that the search of a span answers with the rank after it: the binary search lands there. */
  ghost predicate PastSpan(t: Tables, span: LookupSpan, b: string)
    requires ValidRanks(t)
  {
    var hi := span.start + span.count;
    && hi < |t.ranks| && Key(t, hi) <= b && HasBit(span.sizes, |Key(t, hi)|)
    && forall r :: span.start <= r < hi ==> Less(Key(t, hi), Key(t, r))
  }

  /** The same for a span at the end of a route, so that the rank is not one of the route's. */
  ghost predicate PastRoute(t: Tables, route: nat, b: string)
    requires ValidRanks(t) && SpanCount(route) > 0 && ConsecutiveSpans(t, FirstSpan(route), SpanCount(route))
  {
    exists s :: FirstSpan(route) <= s < FirstSpan(route) + SpanCount(route)
                && t.spans[s].start + t.spans[s].count == RouteEnd(t, route) && PastSpan(t, t.spans[s], b)
  }

  /** What the search of a route answers: its first match, or else the rank after it if the search lands there. */
  ghost function RouteAnswer(t: Tables, route: nat, b: string): (r: Option<nat>)
    requires ValidRanks(t) && SpanCount(route) > 0 && ConsecutiveSpans(t, FirstSpan(route), SpanCount(route))
  {
    var found := FirstMatch(t, RouteStart(t, route), RouteEnd(t, route), b);
    if found.None? && PastRoute(t, route, b) then Some(t.ranks[RouteEnd(t, route)].index) else found
  }

  ghost function Answer(t: Tables, b: string): (r: Option<nat>)
    requires ValidRanks(t) && |t.routes| == 256
    requires b != [] ==> b[0] as nat < 256 && GoodRoute(t, b[0])
  {
    if b == [] then None
    else
      var route := t.routes[b[0] as nat];
      if route == NO_ROUTE then None
      else if route >= DIRECT_ROUTE then Some(route % INDEX_MODULUS)
      else if SpanCount(route) == 0 then None
      else RouteAnswer(t, route, b)
  }

  /** What a binary search over `lo..hi` for `needle` may return; it can land on rank `hi` itself. */
  predicate SearchResult(t: Tables, lo: nat, hi: nat, needle: string, r: Option<(nat, nat)>)
    requires ValidRanks(t) && lo <= hi <= |t.ranks|
  {
    match r
    case Some((low, index)) =>
      && lo <= low <= hi && low < |t.ranks|
      && Key(t, low) == needle && index == t.ranks[low].index
      && forall i :: lo <= i < low ==> Less(needle, Key(t, i))
    case None =>
      && (forall i :: lo <= i < hi ==> Key(t, i) != needle)
      && (hi < |t.ranks| && Key(t, hi) == needle ==> exists i :: lo <= i < hi && !Less(needle, Key(t, i)))
  }

  method FindRank(t: Tables, needle: string, span: LookupSpan) returns (r: Option<(nat, nat)>)
    ensures ValidRanks(t) && Descending(t, span.start, span.start + span.count) ==>
              SearchResult(t, span.start, span.start + span.count, needle, r)
  {
    ghost var good := ValidRanks(t) && Descending(t, span.start, span.start + span.count);
    var low := span.start;
    var high := span.start + span.count;
    while low < high
      invariant span.start <= low <= high <= span.start + span.count
      invariant good ==> forall i :: span.start <= i < low ==> Less(needle, Key(t, i))
      invariant good ==> forall i :: high <= i < span.start + span.count ==> !Less(needle, Key(t, i))
    {
      var mid := low + (high - low) / 2;
      if mid >= |t.ranks| || !ValidRank(t.map_, t.ranks[mid]) {
        return None;
      }
      var key := t.map_[t.ranks[mid].index].text[..t.ranks[mid].size];
      if Less(needle, key) {
        if good {
          AboveNeedle(t, span.start, span.start + span.count, mid, needle);
        }
        low := mid + 1;
      } else {
        if good {
          BelowNeedle(t, span.start, span.start + span.count, mid, needle);
        }
        high := mid;
      }
    }
    if good {
      NotFoundAround(t, span.start, low, span.start + span.count, needle);
    }
    if low >= |t.ranks| || !ValidRank(t.map_, t.ranks[low]) {
      return None;
    }
    var key := t.map_[t.ranks[low].index].text[..t.ranks[low].size];
    if key == needle {
      return Some((low, t.ranks[low].index));
    }
    return None;
  }

  /** Everything left of a key above the needle is above the needle. */
  lemma {:induction false} AboveNeedle(t: Tables, lo: nat, hi: nat, mid: nat, needle: string)
    requires ValidRanks(t) && Descending(t, lo, hi) && lo <= mid < hi
    requires Less(needle, Key(t, mid))
    ensures forall i :: lo <= i <= mid ==> Less(needle, Key(t, i))
  {
    forall i | lo <= i < mid
      ensures Less(needle, Key(t, i))
    {
      LessTotal(Key(t, i), Key(t, mid));
      if Less(Key(t, mid), Key(t, i)) {
        LessTransitive(needle, Key(t, mid), Key(t, i));
      }
    }
  }

  /** Everything right of a key not above the needle is not above the needle. */
  lemma {:induction false} BelowNeedle(t: Tables, lo: nat, hi: nat, mid: nat, needle: string)
    requires ValidRanks(t) && Descending(t, lo, hi) && lo <= mid < hi
    requires !Less(needle, Key(t, mid))
    ensures forall i :: mid <= i < hi ==> !Less(needle, Key(t, i))
  {
    forall i | mid < i < hi
      ensures !Less(needle, Key(t, i))
    {
      if Less(needle, Key(t, i)) {
        LessTotal(Key(t, i), Key(t, mid));
        if Less(Key(t, i), Key(t, mid)) {
          LessTransitive(needle, Key(t, i), Key(t, mid));
        }
      }
    }
  }

  /** The landing point decides: its key is the needle, or nothing in the range is. */
  lemma {:induction false} NotFoundAround(t: Tables, lo: nat, low: nat, hi: nat, needle: string)
    requires ValidRanks(t) && Descending(t, lo, hi) && lo <= low <= hi
    requires forall i :: lo <= i < low ==> Less(needle, Key(t, i))
    requires forall i :: low <= i < hi ==> !Less(needle, Key(t, i))
    ensures low < |t.ranks| && Key(t, low) == needle ==>
              SearchResult(t, lo, hi, needle, Some((low, t.ranks[low].index)))
    ensures low >= |t.ranks| || Key(t, low) != needle ==> SearchResult(t, lo, hi, needle, None)
  {
    LessIrreflexive(needle);
    if low < hi && Key(t, low) != needle {
      forall i | low <= i < hi
        ensures Key(t, i) != needle
      {
        LessTotal(Key(t, low), needle);
      }
      assert !Less(needle, Key(t, low));
    }
  }

  /** `best` is the first rank of the span that matches `b`, else the rank after it if the search lands there. */
  ghost predicate BestInSpan(t: Tables, span: LookupSpan, b: string, best: (nat, nat))
    requires ValidRanks(t)
  {
    var lo, hi := span.start, span.start + span.count;
    hi <= |t.ranks| &&
    if best.0 == 0xFFFF_FFFF then (forall i :: lo <= i < hi ==> !(Key(t, i) <= b)) && !PastSpan(t, span, b)
    else
      && lo <= best.0 <= hi && best.0 < |t.ranks| && (best.0 == hi ==> PastSpan(t, span, b))
      && Key(t, best.0) <= b && best.1 == t.ranks[best.0].index
      && forall i :: lo <= i < best.0 ==> !(Key(t, i) <= b)
  }

  /** Every match whose size is no longer in the mask is at or after rank `best`. */
  ghost predicate Untried(t: Tables, span: LookupSpan, b: string, sizes: nat, best: nat)
    requires ValidRanks(t) && span.start + span.count <= |t.ranks|
  {
    var hi := span.start + span.count;
    && (forall i :: span.start <= i < hi && Key(t, i) <= b && !HasBit(sizes, |Key(t, i)|) ==> best <= i)
    && (PastSpan(t, span, b) && !HasBit(sizes, |Key(t, hi)|) ==> best <= hi)
  }

  /** What is best so far is a match of the span, or the rank the search lands on after it. */
  ghost predicate IsCandidate(t: Tables, span: LookupSpan, b: string, best: (nat, nat))
    requires ValidRanks(t) && span.start + span.count <= |t.ranks|
  {
    best.0 != 0xFFFF_FFFF ==>
      && span.start <= best.0 <= span.start + span.count && best.0 < |t.ranks|
      && (best.0 == span.start + span.count ==> PastSpan(t, span, b))
      && Key(t, best.0) <= b && best.1 == t.ranks[best.0].index
  }

  /** Trying a size leaves only the other sizes untried. */
  lemma {:induction false} SizeTried(t: Tables, span: LookupSpan, b: string, sizes: nat, len: nat, rest: nat,
                                     best: (nat, nat), found: Option<(nat, nat)>, next: (nat, nat))
    requires ValidRanks(t) && GoodSpan(t, span) && HasBit(span.sizes, len) && len <= |b|
    requires Untried(t, span, b, sizes, best.0) && IsCandidate(t, span, b, best)
    requires SearchResult(t, span.start, span.start + span.count, b[..len], found)
    requires next == if found.Some? && found.value.0 < best.0 then found.value else best
    requires forall n :: HasBit(rest, n) <==> HasBit(sizes, n) && n != len
    ensures Untried(t, span, b, rest, next.0) && IsCandidate(t, span, b, next)
  {
    var hi := span.start + span.count;
    LessIrreflexive(b[..len]);
    forall i | span.start <= i < hi && Key(t, i) <= b && !HasBit(rest, |Key(t, i)|)
      ensures next.0 <= i
    {
      if |Key(t, i)| == len {
        assert Key(t, i) == b[..len];
      }
    }
    if PastSpan(t, span, b) && |Key(t, hi)| == len {
      assert Key(t, hi) == b[..len];
    }
  }

  /** Tries each key size of the span, shortest first, and keeps the candidate of least rank. */
  method SearchSpan(t: Tables, b: string, span: LookupSpan) returns (best: (nat, nat))
    ensures ValidRanks(t) && GoodSpan(t, span) ==> BestInSpan(t, span, b, best)
  {
    ghost var good := ValidRanks(t) && GoodSpan(t, span);
    var sizes := span.sizes;
    best := (0xFFFF_FFFF, 0);
    while sizes != 0
      invariant good ==> forall n :: HasBit(sizes, n) ==> HasBit(span.sizes, n)
      invariant good ==> Untried(t, span, b, sizes, best.0) && IsCandidate(t, span, b, best)
      decreases sizes
    {
      var len := TrailingZeros(sizes);
      if len > |b| {
        break;
      }
      var candidate := FindRank(t, b[..len], span);
      ghost var before := best;
      if candidate.Some? && candidate.value.0 < best.0 {
        best := candidate.value;
      }
      forall i: nat
        ensures HasBit(BitAnd(sizes, sizes - 1), i) <==> HasBit(sizes, i) && i != len
      {
        ClearLowestBit(sizes, i);
      }
      ClearLowestBit(sizes, 0);
      if good {
        SizeTried(t, span, b, sizes, len, BitAnd(sizes, sizes - 1), before, candidate, best);
      }
      sizes := BitAnd(sizes, sizes - 1);
    }
    if good {
      AllTried(t, span, b, sizes, best);
    }
  }

  /** When no size is left that the query could have, the candidate is the best. */
  lemma {:induction false} AllTried(t: Tables, span: LookupSpan, b: string, sizes: nat, best: (nat, nat))
    requires ValidRanks(t) && GoodSpan(t, span)
    requires Untried(t, span, b, sizes, best.0) && IsCandidate(t, span, b, best)
    requires sizes == 0 || forall n: nat :: HasBit(sizes, n) ==> n > |b|
    ensures BestInSpan(t, span, b, best)
  {
    var hi := span.start + span.count;
    forall n: nat | n <= |b|
      ensures !HasBit(sizes, n)
    {
      if sizes == 0 {
        NoBits(n);
      }
    }
  }

  lemma {:induction false} FirstMatchSkip(t: Tables, lo: nat, mid: nat, hi: nat, b: string)
    requires ValidRanks(t) && lo <= mid <= hi <= |t.ranks|
    requires forall i :: lo <= i < mid ==> !(Key(t, i) <= b)
    ensures FirstMatch(t, lo, hi, b) == FirstMatch(t, mid, hi, b)
    decreases mid - lo
  {
    if lo < mid {
      FirstMatchSkip(t, lo + 1, mid, hi, b);
    }
  }

  lemma {:induction false} SpansAreOrdered(t: Tables, first: nat, count: nat, s: nat, u: nat)
    requires ConsecutiveSpans(t, first, count) && first <= s <= u < first + count
    ensures t.spans[s].start <= t.spans[u].start
    ensures s < u ==> t.spans[s].start + t.spans[s].count <= t.spans[u].start
    decreases u - s
  {
    if s < u {
      SpansAreOrdered(t, first, count, s + 1, u);
    }
  }

  lemma {:induction false} FirstMatchNone(t: Tables, lo: nat, hi: nat, b: string)
    requires ValidRanks(t) && hi <= |t.ranks|
    ensures FirstMatch(t, lo, hi, b).None? <==> forall r :: lo <= r < hi ==> !(Key(t, r) <= b)
    decreases hi - lo
  {
    if lo < hi {
      FirstMatchNone(t, lo + 1, hi, b);
    }
  }

  /** One span's best candidate settles the scan from that span on, unless it is the rank after the route. */
  lemma {:induction false} SpanAnswer(t: Tables, b: string, hi: nat, span: LookupSpan, best: (nat, nat))
    requires ValidRanks(t) && span.start + span.count <= hi <= |t.ranks| && BestInSpan(t, span, b, best)
    ensures FirstMatch(t, span.start, hi, b) ==
              if best.0 == 0xFFFF_FFFF then FirstMatch(t, span.start + span.count, hi, b)
              else if best.0 < hi then Some(best.1) else None
  {
    if best.0 == 0xFFFF_FFFF {
      FirstMatchSkip(t, span.start, span.start + span.count, hi, b);
    } else {
      FirstMatchSkip(t, span.start, best.0, hi, b);
    }
  }

  lemma {:induction false} SpanOfRoute(t: Tables, route: nat, s: nat, b: string, lo: nat, hi: nat, best: (nat, nat))
    requires ValidRanks(t) && SpanCount(route) > 0
    requires ConsecutiveSpans(t, FirstSpan(route), SpanCount(route))
    requires RouteStart(t, route) == lo && RouteEnd(t, route) == hi
    requires FirstSpan(route) <= s < FirstSpan(route) + SpanCount(route) && BestInSpan(t, t.spans[s], b, best)
    ensures lo <= t.spans[s].start && t.spans[s].start + t.spans[s].count <= hi
    ensures FirstMatch(t, t.spans[s].start, hi, b) ==
              if best.0 == 0xFFFF_FFFF then FirstMatch(t, t.spans[s].start + t.spans[s].count, hi, b)
              else if best.0 < hi then Some(best.1) else None
    ensures best.0 != 0xFFFF_FFFF && best.0 >= hi ==>
              best.0 == hi == t.spans[s].start + t.spans[s].count && best.1 == t.ranks[hi].index
  {
    var first, count := FirstSpan(route), SpanCount(route);
    SpansAreOrdered(t, first, count, first, s);
    SpansAreOrdered(t, first, count, s, first + count - 1);
    SpanAnswer(t, b, hi, t.spans[s], best);
  }

  /** None of the first spans of a route answers. */
  ghost predicate NoneUpTo(t: Tables, route: nat, s: nat, lo: nat, hi: nat, b: string)
    requires ValidRanks(t) && hi <= |t.ranks| && SpanCount(route) > 0
    requires ConsecutiveSpans(t, FirstSpan(route), SpanCount(route))
    requires FirstSpan(route) <= s <= FirstSpan(route) + SpanCount(route)
  {
    var end := FirstSpan(route) + SpanCount(route);
    && FirstMatch(t, lo, hi, b) == FirstMatch(t, if s < end then t.spans[s].start else hi, hi, b)
    && forall u :: FirstSpan(route) <= u < s ==> !PastSpan(t, t.spans[u], b)
  }

  /** The best candidate of the next span is the answer, or the span does not answer either. */
  lemma {:induction false} NextSpan(t: Tables, route: nat, s: nat, b: string, lo: nat, hi: nat, best: (nat, nat))
    requires ValidRanks(t) && SpanCount(route) > 0
    requires ConsecutiveSpans(t, FirstSpan(route), SpanCount(route))
    requires RouteStart(t, route) == lo && RouteEnd(t, route) == hi
    requires FirstSpan(route) <= s < FirstSpan(route) + SpanCount(route) && BestInSpan(t, t.spans[s], b, best)
    requires NoneUpTo(t, route, s, lo, hi, b)
    ensures if best.0 == 0xFFFF_FFFF then NoneUpTo(t, route, s + 1, lo, hi, b)
            else RouteAnswer(t, route, b) == Some(best.1)
  {
    SpanOfRoute(t, route, s, b, lo, hi, best);
    if best.0 != 0xFFFF_FFFF && best.0 >= hi {
      assert PastSpan(t, t.spans[s], b);
    }
  }

  lemma {:induction false} NoSpanAnswers(t: Tables, route: nat, b: string, lo: nat, hi: nat)
    requires ValidRanks(t) && SpanCount(route) > 0
    requires ConsecutiveSpans(t, FirstSpan(route), SpanCount(route))
    requires RouteStart(t, route) == lo && RouteEnd(t, route) == hi
    requires NoneUpTo(t, route, FirstSpan(route) + SpanCount(route), lo, hi, b)
    ensures RouteAnswer(t, route, b).None?
  {
  }

  method LookupBytes(t: Tables, b: string) returns (r: Option<nat>)
    requires |t.routes| == 256
    requires b != [] ==> b[0] as nat < 256
    ensures ValidRanks(t) && (b != [] ==> GoodRoute(t, b[0])) ==> r == Answer(t, b)
  {
    if b == [] {
      return None;
    }
    var route := t.routes[b[0] as nat];
    if route == NO_ROUTE {
      return None;
    }
    if route >= DIRECT_ROUTE {
      return Some(route % INDEX_MODULUS);
    }
    ghost var good := ValidRanks(t) && GoodRoute(t, b[0]);
    var first, count := FirstSpan(route), SpanCount(route);
    ghost var lo, hi := 0, 0;
    if good && count > 0 {
      lo, hi := RouteStart(t, route), RouteEnd(t, route);
    }
    var s := first;
    while s < first + count
      invariant first <= s <= first + count
      invariant good && count > 0 ==> NoneUpTo(t, route, s, lo, hi, b)
    {
      if s >= |t.spans| {
        return None;
      }
      var span := t.spans[s];
      var best := SearchSpan(t, b, span);
      if good {
        NextSpan(t, route, s, b, lo, hi, best);
      }
      if best.0 != 0xFFFF_FFFF {
        return Some(best.1);
      }
      s := s + 1;
    }
    if good && count > 0 {
      NoSpanAnswers(t, route, b, lo, hi);
    }
    return None;
  }

  // ---- when a lookup is the scan

  /** The key is below every key of a span at the end of a route, and has a size in the span's mask. */
  ghost predicate BelowLastSpan(t: Tables, route: nat, key: string)
    requires ValidRanks(t) && SpanCount(route) > 0 && ConsecutiveSpans(t, FirstSpan(route), SpanCount(route))
  {
    var hi := RouteEnd(t, route);
    exists s :: FirstSpan(route) <= s < FirstSpan(route) + SpanCount(route)
                && t.spans[s].start + t.spans[s].count == hi && HasBit(t.spans[s].sizes, |key|)
                && forall r :: t.spans[s].start <= r < hi ==> Less(key, Key(t, r))
  }

  /**
   * The rank after a route can be answered though it is not one of the route's: its key begins with the byte, has a
   * size in the mask of a span at the route's end and is below every key of that span, and no key of the route is a
   * prefix of it.
   */
  ghost predicate RouteOverruns(t: Tables, route: nat, byte: char)
    requires ValidRanks(t) && SpanCount(route) > 0 && ConsecutiveSpans(t, FirstSpan(route), SpanCount(route))
  {
    var lo, hi := RouteStart(t, route), RouteEnd(t, route);
    && hi < |t.ranks| && StartsWith(Key(t, hi), byte) && BelowLastSpan(t, route, Key(t, hi))
    && forall r :: lo <= r < hi ==> !(Key(t, r) <= Key(t, hi))
  }

  ghost predicate Overruns(t: Tables, byte: char)
    requires ValidRanks(t) && |t.routes| == 256 && byte as nat < 256 && GoodRoute(t, byte)
  {
    var route := t.routes[byte as nat];
    route < DIRECT_ROUTE && SpanCount(route) > 0 && RouteOverruns(t, route, byte)
  }

  /** Lookups of a byte's queries are the scan of its route if and only if its route is not overrun. */
  lemma {:induction false} LookupIsScan(t: Tables, byte: char)
    requires ValidRanks(t) && |t.routes| == 256 && byte as nat < 256 && GoodRoute(t, byte)
    ensures (forall b: string :: StartsWith(b, byte) ==> Answer(t, b) == LinearLookup(t, b)) <==> !Overruns(t, byte)
  {
    forall b: string | StartsWith(b, byte) && !Overruns(t, byte)
      ensures Answer(t, b) == LinearLookup(t, b)
    {
      QueryIsScanned(t, byte, b);
    }
    if Overruns(t, byte) {
      OverrunIsAnswered(t, byte, Key(t, RouteEnd(t, t.routes[byte as nat])));
    }
  }

  lemma {:induction false} QueryIsScanned(t: Tables, byte: char, b: string)
    requires ValidRanks(t) && |t.routes| == 256 && byte as nat < 256 && GoodRoute(t, byte)
    requires StartsWith(b, byte) && !Overruns(t, byte)
    ensures Answer(t, b) == LinearLookup(t, b)
  {
    var route := t.routes[byte as nat];
    if route < DIRECT_ROUTE && SpanCount(route) > 0 {
      RouteIsScanned(t, route, byte, b, RouteStart(t, route), RouteEnd(t, route));
    }
  }

  /** If the search answers with the rank after the route, the route is overrun. */
  lemma {:induction false} RouteIsScanned(t: Tables, route: nat, byte: char, b: string, lo: nat, hi: nat)
    requires ValidRanks(t) && SpanCount(route) > 0 && ConsecutiveSpans(t, FirstSpan(route), SpanCount(route))
    requires forall s :: FirstSpan(route) <= s < FirstSpan(route) + SpanCount(route) ==> GoodSpan(t, t.spans[s])
    requires lo == RouteStart(t, route) && hi == RouteEnd(t, route) && StartsWith(b, byte)
    ensures RouteAnswer(t, route, b) == FirstMatch(t, lo, hi, b) || RouteOverruns(t, route, byte)
  {
    FirstMatchNone(t, lo, hi, b);
    if FirstMatch(t, lo, hi, b).None? && PastRoute(t, route, b) {
      var s :| FirstSpan(route) <= s < FirstSpan(route) + SpanCount(route)
               && t.spans[s].start + t.spans[s].count == hi && PastSpan(t, t.spans[s], b);
      SpanIsOverrun(t, route, s, byte, b, hi);
    }
  }

  lemma {:induction false} PrefixOfPrefix(a: string, b: string, c: string)
    requires a <= b <= c
    ensures a <= c
  {
  }

  lemma {:induction false} SpanIsOverrun(t: Tables, route: nat, s: nat, byte: char, b: string, hi: nat)
    requires ValidRanks(t) && SpanCount(route) > 0 && ConsecutiveSpans(t, FirstSpan(route), SpanCount(route))
    requires FirstSpan(route) <= s < FirstSpan(route) + SpanCount(route) && StartsWith(b, byte)
    requires t.spans[s].start + t.spans[s].count == hi == RouteEnd(t, route)
    requires GoodSpan(t, t.spans[s]) && PastSpan(t, t.spans[s], b)
    requires forall r :: RouteStart(t, route) <= r < hi ==> !(Key(t, r) <= b)
    ensures RouteOverruns(t, route, byte)
  {
    var key := Key(t, hi);
    PastIsNotEmpty(t, t.spans[s], b, hi);
    forall r | RouteStart(t, route) <= r < hi
      ensures !(Key(t, r) <= key)
    {
      if Key(t, r) <= key {
        PrefixOfPrefix(Key(t, r), key, b);
      }
    }
  }

  lemma {:induction false} PastIsNotEmpty(t: Tables, span: LookupSpan, b: string, hi: nat)
    requires ValidRanks(t) && GoodSpan(t, span) && PastSpan(t, span, b) && hi == span.start + span.count
    ensures Key(t, hi) != "" && Key(t, hi)[0] == b[0]
  {
    var r :| span.start <= r < hi && |Key(t, r)| == |Key(t, hi)|;
    assert Less(Key(t, hi), Key(t, r));
  }

  /** The query that is the key itself is answered with the rank after the route, and the scan finds nothing. */
  lemma {:induction false} OverrunIsAnswered(t: Tables, byte: char, key: string)
    requires ValidRanks(t) && |t.routes| == 256 && byte as nat < 256 && GoodRoute(t, byte) && Overruns(t, byte)
    requires key == Key(t, RouteEnd(t, t.routes[byte as nat]))
    ensures StartsWith(key, byte) && LinearLookup(t, key).None?
    ensures Answer(t, key) == Some(t.ranks[RouteEnd(t, t.routes[byte as nat])].index)
  {
    var route := t.routes[byte as nat];
    RouteIsOverrun(t, route, byte, key, RouteStart(t, route), RouteEnd(t, route));
  }

  lemma {:induction false} RouteIsOverrun(t: Tables, route: nat, byte: char, key: string, lo: nat, hi: nat)
    requires ValidRanks(t) && SpanCount(route) > 0 && ConsecutiveSpans(t, FirstSpan(route), SpanCount(route))
    requires lo == RouteStart(t, route) && hi == RouteEnd(t, route)
    requires RouteOverruns(t, route, byte) && key == Key(t, hi)
    ensures FirstMatch(t, lo, hi, key).None? && RouteAnswer(t, route, key) == Some(t.ranks[hi].index)
  {
    FirstMatchNone(t, lo, hi, key);
    var s :| FirstSpan(route) <= s < FirstSpan(route) + SpanCount(route)
             && t.spans[s].start + t.spans[s].count == hi && HasBit(t.spans[s].sizes, |key|)
             && forall r :: t.spans[s].start <= r < hi ==> Less(key, Key(t, r));
    assert PastSpan(t, t.spans[s], key);
  }
}
