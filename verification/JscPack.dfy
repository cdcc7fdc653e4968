/** The table packer: from the text sources of the dictionary to the tables that lookup searches. */
module JscPack {
  import opened Wrappers
  import opened Words
  import opened JscTables
  import opened JscLookup

  /** One parsed line of a source table. */
  datatype Source = Source(text: string, size: int, index: int)

  predicate IsLatin1(s: string) {
    forall c :: c in s ==> c as int < 256
  }

  /** The comparison key of a rank line; raises when the text or size is unusable. */
  function EntryKey(e: Source): (key: Result<string>)
    ensures key.Ok? ==> |key.value| == e.size
  {
    if !IsLatin1(e.text) || e.size < 0 || e.size > |e.text| then Raised
    else Ok(e.text[..e.size])
  }

  /** The rank lines `lo..hi` all have keys, and the keys never increase. */
  ghost predicate DescendingLines(ranks: seq<Source>, lo: nat, hi: nat) {
    && hi <= |ranks|
    && (forall i :: lo <= i < hi ==> EntryKey(ranks[i]).Ok?)
    && forall i, j :: lo <= i < j < hi ==> !Less(EntryKey(ranks[i]).value, EntryKey(ranks[j]).value)
  }

  /** The mask holds exactly the sizes of the rank lines `lo..hi`. */
  ghost predicate MaskOfLines(ranks: seq<Source>, lo: nat, hi: nat, sizes: nat)
    requires hi <= |ranks|
  {
    forall n: nat :: HasBit(sizes, n) <==> exists i :: lo <= i < hi && ranks[i].size == n
  }

  ghost predicate GoodLines(ranks: seq<Source>, s: LookupSpan) {
    && DescendingLines(ranks, s.start, s.start + s.count)
    && MaskOfLines(ranks, s.start, s.start + s.count, s.sizes)
  }

  lemma {:induction false} DescendingExtends(ranks: seq<Source>, lo: nat, hi: nat)
    requires DescendingLines(ranks, lo, hi) && lo < hi < |ranks| && EntryKey(ranks[hi]).Ok?
    requires !Less(EntryKey(ranks[hi - 1]).value, EntryKey(ranks[hi]).value)
    ensures DescendingLines(ranks, lo, hi + 1)
  {
    var last, next := EntryKey(ranks[hi - 1]).value, EntryKey(ranks[hi]).value;
    forall i | lo <= i < hi
      ensures !Less(EntryKey(ranks[i]).value, next)
    {
      var key := EntryKey(ranks[i]).value;
      if i < hi - 1 && Less(key, next) {
        LessTotal(next, last);
        if Less(next, last) {
          LessTransitive(key, next, last);
        }
      }
    }
  }

  method AddSpan(spans: seq<LookupSpan>, ranks: seq<Source>, start: nat, end: nat)
      returns (r: Result<seq<LookupSpan>>)
    requires start <= end <= |ranks|
    ensures r.Ok? ==> |r.value| == |spans| + 1 && spans < r.value
    ensures r.Ok? ==> r.value[|spans|].start == start && r.value[|spans|].count == end - start
    ensures r.Ok? ==> GoodLines(ranks, r.value[|spans|])
    ensures r.Raised? <==> !DescendingLines(ranks, start, end) || exists i :: start <= i < end && ranks[i].size >= 32
  {
    var sizes := 0;
    var previous: Option<string> := None;
    forall n: nat ensures !HasBit(sizes, n) { NoBits(n); }
    for i := start to end
      invariant previous.None? <==> i == start
      invariant i > start ==> EntryKey(ranks[i - 1]) == Ok(previous.value)
      invariant DescendingLines(ranks, start, i)
      invariant forall k :: start <= k < i ==> ranks[k].size < 32
      invariant MaskOfLines(ranks, start, i, sizes)
    {
      var key := EntryKey(ranks[i]);
      if key.Raised? {
        return Raised;
      }
      if previous.Some? && Less(previous.value, key.value) {
        return Raised;
      }
      if ranks[i].size >= 32 {
        return Raised;
      }
      if i > start {
        DescendingExtends(ranks, start, i);
      }
      ghost var before := sizes;
      sizes := BitOr(sizes, Pow2(ranks[i].size));
      forall n: nat
        ensures HasBit(sizes, n) <==> exists k :: start <= k < i + 1 && ranks[k].size == n
      {
        SetBit(before, ranks[i].size, n);
      }
      previous := Some(key.value);
    }
    return Ok(spans + [LookupSpan(start, end - start, sizes)]);
  }

  /** Spans `first..` of the list cover the rank lines `lo..hi` with good spans, without gaps. */
  ghost predicate Cover(ranks: seq<Source>, spans: seq<LookupSpan>, first: nat, lo: nat, hi: nat) {
    && first <= |spans| && hi <= |ranks|
    && (forall s :: first <= s < |spans| ==> GoodLines(ranks, spans[s]))
    && (forall s :: first < s < |spans| ==> spans[s].start == spans[s - 1].start + spans[s - 1].count)
    && if first == |spans| then lo == hi
       else spans[first].start == lo && spans[|spans| - 1].start + spans[|spans| - 1].count == hi
  }

  lemma {:induction false} CoverExtends(ranks: seq<Source>, spans: seq<LookupSpan>, added: seq<LookupSpan>,
                     first: nat, lo: nat, start: nat, end: nat)
    requires Cover(ranks, spans, first, lo, start) && spans < added && |added| == |spans| + 1
    requires start <= end <= |ranks|
    requires added[|spans|].start == start && added[|spans|].count == end - start && GoodLines(ranks, added[|spans|])
    ensures Cover(ranks, added, first, lo, end)
  {
    assert forall s :: 0 <= s < |spans| ==> added[s] == spans[s];
  }

  /** A rank line that no span can hold. */
  predicate Unusable(line: Source) {
    EntryKey(line).Raised? || line.size >= 32
  }

  predicate Increases(a: Source, b: Source) {
    EntryKey(a).Ok? && EntryKey(b).Ok? && Less(EntryKey(a).value, EntryKey(b).value)
  }

  /** How many spans the rank lines `lo..hi` need: one more than their keys increase. */
  function SpansNeeded(ranks: seq<Source>, lo: nat, hi: nat): (n: nat)
    requires lo < hi <= |ranks|
    ensures n > 0
  {
    if hi == lo + 1 then 1
    else SpansNeeded(ranks, lo, hi - 1) + if Increases(ranks[hi - 2], ranks[hi - 1]) then 1 else 0
  }

  /** The rank lines `lo..start` are cut into spans, and `start..rank` belongs to the next one. */
  ghost predicate CutBefore(ranks: seq<Source>, spans: seq<LookupSpan>, out: seq<LookupSpan>, lo: nat, start: nat,
                            rank: nat)
    requires lo <= start < rank <= |ranks|
  {
    && spans <= out && Cover(ranks, out, |spans|, lo, start) && DescendingLines(ranks, start, rank)
    && (forall i :: lo <= i < start ==> !Unusable(ranks[i]))
    && |out| + 1 == |spans| + SpansNeeded(ranks, lo, rank)
  }

  lemma {:induction false} CutHere(ranks: seq<Source>, spans: seq<LookupSpan>, out: seq<LookupSpan>,
                                   added: seq<LookupSpan>, lo: nat, start: nat, rank: nat)
    requires lo <= start < rank < |ranks| && CutBefore(ranks, spans, out, lo, start, rank)
    requires Increases(ranks[rank - 1], ranks[rank]) && out < added && |added| == |out| + 1
    requires added[|out|].start == start && added[|out|].count == rank - start && GoodLines(ranks, added[|out|])
    requires forall i :: start <= i < rank ==> ranks[i].size < 32
    ensures CutBefore(ranks, spans, added, lo, rank, rank + 1)
  {
    CoverExtends(ranks, out, added, |spans|, lo, start, rank);
  }

  lemma {:induction false} CutLater(ranks: seq<Source>, spans: seq<LookupSpan>, out: seq<LookupSpan>, lo: nat,
                                    start: nat, rank: nat)
    requires lo <= start < rank < |ranks| && CutBefore(ranks, spans, out, lo, start, rank)
    requires EntryKey(ranks[rank]).Ok? && !Increases(ranks[rank - 1], ranks[rank])
    ensures CutBefore(ranks, spans, out, lo, start, rank + 1)
  {
    DescendingExtends(ranks, start, rank);
  }

  lemma {:induction false} OversizedLine(ranks: seq<Source>, lo: nat, hi: nat)
    requires hi <= |ranks| && exists i :: lo <= i < hi && ranks[i].size >= 32
    ensures exists i :: lo <= i < hi && Unusable(ranks[i])
  {
    var i :| lo <= i < hi && ranks[i].size >= 32;
    assert Unusable(ranks[i]);
  }

  /** The last span ends the cut. */
  lemma {:induction false} CutDone(ranks: seq<Source>, spans: seq<LookupSpan>, out: seq<LookupSpan>,
                                   added: seq<LookupSpan>, lo: nat, start: nat, hi: nat)
    requires lo <= start < hi <= |ranks| && CutBefore(ranks, spans, out, lo, start, hi)
    requires out < added && |added| == |out| + 1 && GoodLines(ranks, added[|out|])
    requires added[|out|].start == start && added[|out|].count == hi - start
    requires forall i :: start <= i < hi ==> ranks[i].size < 32
    ensures |added| == |spans| + SpansNeeded(ranks, lo, hi) && spans <= added && Cover(ranks, added, |spans|, lo, hi)
    ensures forall i :: lo <= i < hi ==> !Unusable(ranks[i])
  {
    CoverExtends(ranks, out, added, |spans|, lo, start, hi);
  }

  /** Cuts the rank lines `lo..hi` at every increase of the key. */
  method CutSpans(spans: seq<LookupSpan>, ranks: seq<Source>, lo: nat, hi: nat)
      returns (r: Result<seq<LookupSpan>>)
    requires lo < hi <= |ranks|
    ensures r.Raised? <==> exists i :: lo <= i < hi && Unusable(ranks[i])
    ensures r.Ok? ==> |r.value| == |spans| + SpansNeeded(ranks, lo, hi)
    ensures r.Ok? ==> spans <= r.value && Cover(ranks, r.value, |spans|, lo, hi)
  {
    var out := spans;
    var start := lo;
    var previous := EntryKey(ranks[lo]);
    if previous.Raised? {
      assert Unusable(ranks[lo]);
      return Raised;
    }
    for rank := lo + 1 to hi
      invariant lo <= start < rank
      invariant previous == EntryKey(ranks[rank - 1]) && previous.Ok?
      invariant CutBefore(ranks, spans, out, lo, start, rank)
    {
      var current := EntryKey(ranks[rank]);
      if current.Raised? {
        assert Unusable(ranks[rank]);
        return Raised;
      }
      if Less(previous.value, current.value) {
        var added := AddSpan(out, ranks, start, rank);
        if added.Raised? {
          OversizedLine(ranks, start, rank);
          return Raised;
        }
        CutHere(ranks, spans, out, added.value, lo, start, rank);
        out := added.value;
        start := rank;
      } else {
        CutLater(ranks, spans, out, lo, start, rank);
      }
      previous := current;
    }
    var added := AddSpan(out, ranks, start, hi);
    if added.Raised? {
      OversizedLine(ranks, start, hi);
    } else {
      CutDone(ranks, spans, out, added.value, lo, start, hi);
    }
    return added;
  }

  function DirectRouteTo(index: nat): nat {
    BitOr(DIRECT_ROUTE, index)
  }

  /** The route stored for a prefix line: the single entry itself, or its run of spans. */
  ghost predicate RouteFor(ranks: seq<Source>, prefix: Source, route: nat, spans: seq<LookupSpan>) {
    && 0 <= prefix.index < |ranks|
    && route < NO_ROUTE
    && if prefix.size == 1 then
         0 <= ranks[prefix.index].index < INDEX_MODULUS ==> route == DIRECT_ROUTE + ranks[prefix.index].index
       else
         && prefix.size > 1 && prefix.index + prefix.size <= |ranks|
         && SpanCount(route) > 0 && route < DIRECT_ROUTE
         && FirstSpan(route) + SpanCount(route) <= |spans|
         && Cover(ranks, spans[..FirstSpan(route) + SpanCount(route)], FirstSpan(route),
                  prefix.index, prefix.index + prefix.size)
  }

  /** A prefix line whose route is not lost: a direct route to the greatest 31-bit index reads as "no route". */
  predicate Live(ranks: seq<Source>, p: Source) {
    p.size == 1 && 0 <= p.index < |ranks| && 0 <= ranks[p.index].index ==>
      DirectRouteTo(ranks[p.index].index) != NO_ROUTE
  }

  /** Every live prefix line has its route. */
  ghost predicate AllRouted(ranks: seq<Source>, prefixes: seq<Source>, routes: seq<nat>, spans: seq<LookupSpan>)
    requires |routes| == 256
  {
    forall p :: p in prefixes ==>
      && |p.text| == 1 && p.text[0] as nat < 256
      && (Live(ranks, p) ==> RouteFor(ranks, p, routes[p.text[0] as nat], spans))
  }

  /** A byte without a live prefix line has no route. */
  ghost predicate OthersUnrouted(ranks: seq<Source>, prefixes: seq<Source>, routes: seq<nat>)
    requires |routes| == 256
  {
    forall c: nat :: c < 256 ==>
      routes[c] == NO_ROUTE || exists p :: p in prefixes && Live(ranks, p) && p.text == [c as char]
  }

  predicate DistinctTexts(ranks: seq<Source>, prefixes: seq<Source>) {
    forall i, j :: 0 <= i < j < |prefixes| && Live(ranks, prefixes[i]) ==> prefixes[i].text != prefixes[j].text
  }

  /** The routes answer exactly the prefix lines. */
  ghost predicate RoutesFor(ranks: seq<Source>, prefixes: seq<Source>, routes: seq<nat>, spans: seq<LookupSpan>) {
    && |routes| == 256
    && AllRouted(ranks, prefixes, routes, spans)
    && OthersUnrouted(ranks, prefixes, routes)
    && DistinctTexts(ranks, prefixes)
  }

  lemma {:induction false} RouteForStable(ranks: seq<Source>, prefix: Source, route: nat, spans: seq<LookupSpan>,
                                          more: seq<LookupSpan>)
    requires RouteFor(ranks, prefix, route, spans) && spans <= more
    ensures RouteFor(ranks, prefix, route, more)
  {
    if prefix.size != 1 {
      var n := FirstSpan(route) + SpanCount(route);
      assert more[..n] == spans[..n];
    }
  }

  lemma {:induction false} RoutesExtend(ranks: seq<Source>, prefixes: seq<Source>, routes: seq<nat>,
                                        spans: seq<LookupSpan>, prefix: Source, route: nat, more: seq<LookupSpan>)
    requires RoutesFor(ranks, prefixes, routes, spans) && spans <= more
    requires |prefix.text| == 1 && prefix.text[0] as nat < 256 && routes[prefix.text[0] as nat] == NO_ROUTE
    requires if Live(ranks, prefix) then RouteFor(ranks, prefix, route, more) else route == NO_ROUTE
    ensures RoutesFor(ranks, prefixes + [prefix], routes[prefix.text[0] as nat := route], more)
  {
    AllRoutedExtends(ranks, prefixes, routes, spans, prefix, route, more);
    OthersUnroutedExtends(ranks, prefixes, routes, prefix, route);
    var all := prefixes + [prefix];
    forall i, j | 0 <= i < j < |all| && Live(ranks, all[i])
      ensures all[i].text != all[j].text
    {
      assert all[i] in prefixes;
      assert RouteFor(ranks, all[i], routes[all[i].text[0] as nat], spans);
    }
  }

  lemma {:induction false} OthersUnroutedExtends(ranks: seq<Source>, prefixes: seq<Source>, routes: seq<nat>,
                     prefix: Source, route: nat)
    requires |routes| == 256 && OthersUnrouted(ranks, prefixes, routes)
    requires |prefix.text| == 1 && prefix.text[0] as nat < 256
    requires Live(ranks, prefix) || route == NO_ROUTE
    ensures OthersUnrouted(ranks, prefixes + [prefix], routes[prefix.text[0] as nat := route])
  {
    var byte := prefix.text[0] as nat;
    var all, updated := prefixes + [prefix], routes[byte := route];
    forall c: nat | c < 256
      ensures updated[c] == NO_ROUTE || exists p :: p in all && Live(ranks, p) && p.text == [c as char]
    {
      if c == byte {
        assert prefix in all && prefix.text == [c as char];
      } else if routes[c] != NO_ROUTE {
        var p :| p in prefixes && Live(ranks, p) && p.text == [c as char];
        assert p in all;
      }
    }
  }

  lemma {:induction false} AllRoutedExtends(ranks: seq<Source>, prefixes: seq<Source>, routes: seq<nat>,
                                            spans: seq<LookupSpan>, prefix: Source, route: nat, more: seq<LookupSpan>)
    requires |routes| == 256 && AllRouted(ranks, prefixes, routes, spans) && spans <= more
    requires |prefix.text| == 1 && prefix.text[0] as nat < 256 && routes[prefix.text[0] as nat] == NO_ROUTE
    requires if Live(ranks, prefix) then RouteFor(ranks, prefix, route, more) else route == NO_ROUTE
    ensures AllRouted(ranks, prefixes + [prefix], routes[prefix.text[0] as nat := route], more)
  {
    var updated := routes[prefix.text[0] as nat := route];
    forall p | p in prefixes + [prefix]
      ensures |p.text| == 1 && p.text[0] as nat < 256
      ensures (Live(ranks, p) ==> RouteFor(ranks, p, updated[p.text[0] as nat], more))
    {
      if p in prefixes && Live(ranks, p) {
        RouteForStable(ranks, p, routes[p.text[0] as nat], spans, more);
      }
    }
  }

  /** A prefix line that can be added after `earlier` ones when `used` spans are taken. */
  predicate Routable(earlier: seq<Source>, ranks: seq<Source>, used: nat, p: Source) {
    && |p.text| == 1 && IsLatin1(p.text) && (forall q :: q in earlier && Live(ranks, q) ==> q.text != p.text)
    && 0 <= p.index < |ranks|
    && if p.size == 1 then 0 <= ranks[p.index].index && DirectRouteTo(ranks[p.index].index) <= NO_ROUTE
       else
         && 1 < p.size <= |ranks| - p.index
         && (forall i :: p.index <= i < p.index + p.size ==> !Unusable(ranks[i]))
         && used < 0x1_0000 && SpansNeeded(ranks, p.index, p.index + p.size) < 0x8000
  }

  /** The spans taken by prefix lines that can all be added in turn, or none if one of them cannot. */
  function SpansUsed(prefixes: seq<Source>, ranks: seq<Source>): Option<nat> {
    if prefixes == [] then Some(0)
    else
      var init, p := prefixes[..|prefixes| - 1], prefixes[|prefixes| - 1];
      match SpansUsed(init, ranks)
      case None => None
      case Some(used) =>
        if !Routable(init, ranks, used, p) then None
        else Some(UsedAfter(ranks, used, p))
  }

  lemma {:induction false} UnusedBeyond(prefixes: seq<Source>, ranks: seq<Source>, n: nat)
    requires n <= |prefixes| && SpansUsed(prefixes[..n], ranks).None?
    ensures SpansUsed(prefixes, ranks).None?
    decreases |prefixes|
  {
    if n < |prefixes| {
      var init := prefixes[..|prefixes| - 1];
      assert init[..n] == prefixes[..n];
      UnusedBeyond(init, ranks, n);
    } else {
      assert prefixes[..n] == prefixes;
    }
  }

  /** One more prefix line. */
  lemma {:induction false} SpansStep(prefixes: seq<Source>, ranks: seq<Source>, n: nat, used: nat, p: Source)
    requires n < |prefixes| && p == prefixes[n] && SpansUsed(prefixes[..n], ranks) == Some(used)
    ensures !Routable(prefixes[..n], ranks, used, p) ==> SpansUsed(prefixes, ranks).None?
    ensures Routable(prefixes[..n], ranks, used, p) ==>
      SpansUsed(prefixes[..n + 1], ranks) ==
      Some(UsedAfter(ranks, used, p))
  {
    assert prefixes[..n + 1][..n] == prefixes[..n];
    if !Routable(prefixes[..n], ranks, used, p) {
      UnusedBeyond(prefixes, ranks, n + 1);
    }
  }

  lemma {:induction false} RoutedBefore(prefixes: seq<Source>, ranks: seq<Source>, routes: seq<nat>,
                                        spans: seq<LookupSpan>, text: string)
    requires RoutesFor(ranks, prefixes, routes, spans) && |text| == 1 && text[0] as nat < 256
    ensures routes[text[0] as nat] != NO_ROUTE <==> exists q :: q in prefixes && Live(ranks, q) && q.text == text
  {
    var c := text[0] as nat;
    assert text == [c as char];
    if q :| q in prefixes && Live(ranks, q) && q.text == text {
      assert RouteFor(ranks, q, routes[q.text[0] as nat], spans);
    }
  }

  /** How many spans are taken once a prefix line is added. */
  function UsedAfter(ranks: seq<Source>, used: nat, p: Source): nat
    requires 0 <= p.index < p.index + p.size <= |ranks|
  {
    if p.size == 1 then used else used + SpansNeeded(ranks, p.index, p.index + p.size)
  }

  /** The route of a prefix line that stands for a single entry. */
  method AddDirect(earlier: seq<Source>, ranks: seq<Source>, routes0: seq<nat>, spans: seq<LookupSpan>, p: Source)
      returns (r: Result<seq<nat>>)
    requires RoutesFor(ranks, earlier, routes0, spans) && |p.text| == 1 && p.text[0] as nat < 256
    requires routes0[p.text[0] as nat] == NO_ROUTE && 0 <= p.index < |ranks| && p.size == 1
    ensures r.Ok? <==> 0 <= ranks[p.index].index && DirectRouteTo(ranks[p.index].index) <= NO_ROUTE
    ensures r.Ok? ==> RoutesFor(ranks, earlier + [p], r.value, spans)
  {
    // A route that does not fit 32 bits cannot be packed.
    if ranks[p.index].index < 0 || DirectRouteTo(ranks[p.index].index) > NO_ROUTE {
      return Raised;
    }
    var route := DirectRouteTo(ranks[p.index].index);
    if ranks[p.index].index < INDEX_MODULUS {
      DirectRoute(ranks[p.index].index);
    }
    RoutesExtend(ranks, earlier, routes0, spans, p, route, spans);
    return Ok(routes0[p.text[0] as nat := route]);
  }

  lemma {:induction false} RangeRoute(ranks: seq<Source>, spans: seq<LookupSpan>, p: Source, first: nat, count: nat,
                                      route: nat)
    requires 0 <= p.index < |ranks| && 1 < p.size <= |ranks| - p.index
    requires 0 < count < 0x8000 && first < 0x1_0000 && first + count == |spans|
    requires route == BitOr(first, count * 0x1_0000)
    requires Cover(ranks, spans, first, p.index, p.index + p.size)
    ensures RouteFor(ranks, p, route, spans)
  {
    PackedRoute(first, count);
    assert spans[..first + count] == spans;
  }

  lemma {:induction false} RangeAdded(earlier: seq<Source>, ranks: seq<Source>, routes: seq<nat>,
                                      spans: seq<LookupSpan>, p: Source, cut: seq<LookupSpan>, count: nat, route: nat)
    requires RoutesFor(ranks, earlier, routes, spans) && |p.text| == 1 && p.text[0] as nat < 256
    requires routes[p.text[0] as nat] == NO_ROUTE && 0 <= p.index < |ranks| && 1 < p.size <= |ranks| - p.index
    requires 0 < count < 0x8000 && |spans| < 0x1_0000 && |spans| + count == |cut| && spans <= cut
    requires Cover(ranks, cut, |spans|, p.index, p.index + p.size) && route == BitOr(|spans|, count * 0x1_0000)
    ensures RoutesFor(ranks, earlier + [p], routes[p.text[0] as nat := route], cut)
  {
    RangeRoute(ranks, cut, p, |spans|, count, route);
    RoutesExtend(ranks, earlier, routes, spans, p, route, cut);
  }

  /** The spans of a range of rank lines and the route to them; raises if they do not fit. */
  method CutRange(ranks: seq<Source>, spans0: seq<LookupSpan>, p: Source)
      returns (r: Result<(seq<LookupSpan>, nat)>)
    requires 0 <= p.index < |ranks| && 1 < p.size <= |ranks| - p.index
    ensures r.Ok? <==>
      && (forall i :: p.index <= i < p.index + p.size ==> !Unusable(ranks[i]))
      && |spans0| < 0x1_0000 && SpansNeeded(ranks, p.index, p.index + p.size) < 0x8000
    ensures r.Ok? ==>
      && spans0 <= r.value.0 && Cover(ranks, r.value.0, |spans0|, p.index, p.index + p.size)
      && |r.value.0| == |spans0| + SpansNeeded(ranks, p.index, p.index + p.size)
      && r.value.1 == BitOr(|spans0|, (|r.value.0| - |spans0|) * 0x1_0000)
  {
    var first := |spans0|;
    var cut := CutSpans(spans0, ranks, p.index, p.index + p.size);
    if cut.Raised? {
      return Raised;
    }
    var count := |cut.value| - first;
    if first >= 0x1_0000 || count >= 0x8000 {
      return Raised;
    }
    return Ok((cut.value, BitOr(first, count * 0x1_0000)));
  }

  method SetRoute(earlier: seq<Source>, ranks: seq<Source>, routes0: seq<nat>, ghost spans: seq<LookupSpan>, p: Source,
                  ghost cut: seq<LookupSpan>, route: nat)
      returns (routes: seq<nat>)
    requires RoutesFor(ranks, earlier, routes0, spans) && |p.text| == 1 && p.text[0] as nat < 256
    requires routes0[p.text[0] as nat] == NO_ROUTE && 0 <= p.index < |ranks| && 1 < p.size <= |ranks| - p.index
    requires spans <= cut && |spans| < |cut| < |spans| + 0x8000 && |spans| < 0x1_0000
    requires Cover(ranks, cut, |spans|, p.index, p.index + p.size)
    requires route == BitOr(|spans|, (|cut| - |spans|) * 0x1_0000)
    ensures RoutesFor(ranks, earlier + [p], routes, cut)
  {
    RangeAdded(earlier, ranks, routes0, spans, p, cut, |cut| - |spans|, route);
    return routes0[p.text[0] as nat := route];
  }

  /** The route of a prefix line that stands for a range of rank lines, and its spans. */
  method AddRange(earlier: seq<Source>, ranks: seq<Source>, routes0: seq<nat>, spans0: seq<LookupSpan>, p: Source)
      returns (r: Result<(seq<nat>, seq<LookupSpan>)>)
    requires RoutesFor(ranks, earlier, routes0, spans0) && |p.text| == 1 && p.text[0] as nat < 256
    requires routes0[p.text[0] as nat] == NO_ROUTE && 0 <= p.index < |ranks| && 1 < p.size <= |ranks| - p.index
    ensures r.Ok? <==>
      && (forall i :: p.index <= i < p.index + p.size ==> !Unusable(ranks[i]))
      && |spans0| < 0x1_0000 && SpansNeeded(ranks, p.index, p.index + p.size) < 0x8000
    ensures r.Ok? ==> RoutesFor(ranks, earlier + [p], r.value.0, r.value.1)
    ensures r.Ok? ==> |r.value.1| == UsedAfter(ranks, |spans0|, p)
  {
    var range := CutRange(ranks, spans0, p);
    if range.Raised? {
      return Raised;
    }
    var routes := SetRoute(earlier, ranks, routes0, spans0, p, range.value.0, range.value.1);
    return Ok((routes, range.value.0));
  }

  /** One prefix line: raises exactly when the line cannot be added. */
  method AddPrefix(earlier: seq<Source>, ranks: seq<Source>, routes0: seq<nat>, spans0: seq<LookupSpan>, p: Source)
      returns (r: Result<(seq<nat>, seq<LookupSpan>)>)
    requires RoutesFor(ranks, earlier, routes0, spans0)
    ensures r.Ok? <==> Routable(earlier, ranks, |spans0|, p)
    ensures r.Ok? ==>
      RoutesFor(ranks, earlier + [p], r.value.0, r.value.1) && |r.value.1| == UsedAfter(ranks, |spans0|, p)
  {
    if !IsLatin1(p.text) || |p.text| != 1 {
      return Raised;
    }
    assert p.text[0] in p.text;
    RoutedBefore(earlier, ranks, routes0, spans0, p.text);
    if routes0[p.text[0] as nat] != NO_ROUTE || p.index < 0 || p.index >= |ranks| {
      return Raised;
    }
    if p.size == 1 {
      var routes := AddDirect(earlier, ranks, routes0, spans0, p);
      return if routes.Ok? then Ok((routes.value, spans0)) else Raised;
    }
    if p.size < 1 || p.index + p.size > |ranks| {
      return Raised;
    }
    r := AddRange(earlier, ranks, routes0, spans0, p);
  }

  method WriteLookup(prefixes: seq<Source>, ranks: seq<Source>) returns (r: Result<(seq<nat>, seq<LookupSpan>)>)
    ensures r.Ok? <==> SpansUsed(prefixes, ranks).Some?
    ensures r.Ok? ==> RoutesFor(ranks, prefixes, r.value.0, r.value.1)
  {
    var routes: seq<nat> := seq(256, _ => NO_ROUTE);
    var spans: seq<LookupSpan> := [];
    for n := 0 to |prefixes|
      invariant RoutesFor(ranks, prefixes[..n], routes, spans) && SpansUsed(prefixes[..n], ranks) == Some(|spans|)
    {
      SpansStep(prefixes, ranks, n, |spans|, prefixes[n]);
      var added := AddPrefix(prefixes[..n], ranks, routes, spans, prefixes[n]);
      if added.Raised? {
        return Raised;
      }
      routes, spans := added.value.0, added.value.1;
      assert prefixes[..n + 1] == prefixes[..n] + [prefixes[n]];
    }
    assert prefixes[..|prefixes|] == prefixes;
    return Ok((routes, spans));
  }

  lemma {:induction false} PackedRoute(first: nat, count: nat)
    requires first < 0x1_0000 && count < 0x8000
    ensures BitOr(first, count * 0x1_0000) == count * 0x1_0000 + first < DIRECT_ROUTE
    ensures FirstSpan(BitOr(first, count * 0x1_0000)) == first
    ensures SpanCount(BitOr(first, count * 0x1_0000)) == count
  {
    assert Pow2(16) == 0x1_0000 by {
      Pow2Values();
    }
    OrIsCommutative(first, count * 0x1_0000);
    ShlIsMultiple(count, 16);
    OrOfDisjointFields(count, 16, first);
  }

  function Padding(n: nat): (s: string)
    ensures |s| == n && forall c :: c in s ==> c == '\0'
  {
    seq(n, _ => '\0')
  }

  function MaxLen(lines: seq<Source>): (m: nat)
    ensures forall l :: l in lines ==> |l.text| <= m
    ensures m == 0 || exists l :: l in lines && |l.text| == m
  {
    if lines == [] then 0
    else
      var rest := MaxLen(lines[..|lines| - 1]);
      var last := |lines[|lines| - 1].text|;
      if last > rest then last else rest
  }

  /** The map record written for a line, as the reader sees it: padded text, negative sizes read as zero. */
  function MapRecord(line: Source, maxLen: nat): Entry
    requires |line.text| <= maxLen
  {
    Entry(line.text + Padding(maxLen - |line.text|), if line.size < 0 then 0 else line.size)
  }

  lemma {:induction false} PaddingIsTrimmed(text: string, n: nat)
    ensures TextTrimmed(text + Padding(n)) == TextTrimmed(text)
  {
    if n == 0 {
      assert text + Padding(0) == text;
    } else {
      assert (text + Padding(n))[..|text| + n - 1] == text + Padding(n - 1);
      PaddingIsTrimmed(text, n - 1);
    }
  }

  /** A record shows the line's text, whatever it is padded to, and a declared size that is not negative. */
  lemma {:induction false} RecordShowsLine(line: Source, maxLen: nat)
    requires |line.text| <= maxLen
    ensures var record := MapRecord(line, maxLen);
            && |record.text| == maxLen && line.text <= record.text
            && TextTrimmed(record.text) == TextTrimmed(line.text)
            && (line.text == "" || line.text[|line.text| - 1] != '\0' ==> TextTrimmed(record.text) == line.text)
            && record.size as int == if line.size >= 0 then line.size else 0
  {
    PaddingIsTrimmed(line.text, maxLen - |line.text|);
  }

  /** The tables hold the given source lines. */
  ghost predicate Packed(mapLines: seq<Source>, rankLines: seq<Source>, prefixes: seq<Source>, t: Tables) {
    && |t.map_| == |mapLines| && |t.ranks| == |rankLines| == |mapLines|
    && (forall i :: 0 <= i < |mapLines| ==> mapLines[i].text <= t.map_[i].text)
    && (forall i :: 0 <= i < |rankLines| ==>
          && EntryKey(rankLines[i]).Ok? && 0 <= rankLines[i].index < |mapLines|
          && rankLines[i].index < INDEX_MODULUS
          && t.ranks[i] == Rank(rankLines[i].size, rankLines[i].index)
          && mapLines[rankLines[i].index].text == rankLines[i].text)
    && RoutesFor(rankLines, prefixes, t.routes, t.spans)
  }

  predicate IsInt32(n: int) { -0x8000_0000 <= n < 0x8000_0000 }

  /** A map line that fits its record. */
  predicate FitsRecord(line: Source) {
    IsLatin1(line.text) && IsInt32(line.size) && IsInt32(line.index)
  }

  method WriteMap(lines: seq<Source>) returns (r: Result<seq<Entry>>)
    ensures r.Raised? <==>
      |lines| > NO_ROUTE || MaxLen(lines) > NO_ROUTE || exists i :: 0 <= i < |lines| && !FitsRecord(lines[i])
    ensures r.Ok? ==> |r.value| == |lines| <= NO_ROUTE
    ensures r.Ok? ==> forall i :: 0 <= i < |lines| ==> r.value[i] == MapRecord(lines[i], MaxLen(lines))
  {
    for i := 0 to |lines|
      invariant forall k :: 0 <= k < i ==> FitsRecord(lines[k])
    {
      if !FitsRecord(lines[i]) {
        return Raised;
      }
    }
    if |lines| > NO_ROUTE || MaxLen(lines) > NO_ROUTE {
      return Raised;
    }
    return Ok(seq(|lines|, i requires 0 <= i < |lines| => MapRecord(lines[i], MaxLen(lines))));
  }

  /** A rank line that fits its record and names its own map line. */
  predicate NamesMapLine(line: Source, mapLines: seq<Source>) {
    && 0 <= line.index < INDEX_MODULUS && line.index < |mapLines| && line.size < 0x4000
    && mapLines[line.index].index == line.index && mapLines[line.index].text == line.text && EntryKey(line).Ok?
  }

  method WriteRanks(lines: seq<Source>, mapLines: seq<Source>) returns (r: Result<seq<Rank>>)
    ensures r.Raised? <==> |lines| != |mapLines| || exists i :: 0 <= i < |lines| && !NamesMapLine(lines[i], mapLines)
    ensures r.Ok? ==> |r.value| == |lines| == |mapLines|
    ensures r.Ok? ==> forall i :: 0 <= i < |lines| ==>
              && EntryKey(lines[i]).Ok? && 0 <= lines[i].index < |mapLines| && lines[i].index < INDEX_MODULUS
              && r.value[i] == Rank(lines[i].size, lines[i].index)
              && mapLines[lines[i].index].text == lines[i].text
  {
    if |lines| != |mapLines| {
      return Raised;
    }
    var out: seq<Rank> := [];
    for i := 0 to |lines|
      invariant |out| == i
      invariant forall k :: 0 <= k < i ==> NamesMapLine(lines[k], mapLines)
      invariant forall k :: 0 <= k < i ==>
              && EntryKey(lines[k]).Ok? && 0 <= lines[k].index < |mapLines| && lines[k].index < INDEX_MODULUS
              && out[k] == Rank(lines[k].size, lines[k].index)
              && mapLines[lines[k].index].text == lines[k].text
    {
      var line := lines[i];
      if line.index < 0 || line.index >= INDEX_MODULUS || line.size >= 0x4000 || line.index >= |mapLines| {
        return Raised;
      }
      var mapped := mapLines[line.index];
      if mapped.index != line.index || mapped.text != line.text || EntryKey(line).Raised? {
        return Raised;
      }
      out := out + [Rank(line.size, line.index)];
    }
    return Ok(out);
  }

  /** Source lines that pack without an error. */
  predicate Packable(mapLines: seq<Source>, rankLines: seq<Source>, prefixes: seq<Source>) {
    && |mapLines| <= NO_ROUTE && MaxLen(mapLines) <= NO_ROUTE
    && (forall i :: 0 <= i < |mapLines| ==> FitsRecord(mapLines[i]))
    && |rankLines| == |mapLines| && (forall i :: 0 <= i < |rankLines| ==> NamesMapLine(rankLines[i], mapLines))
    && SpansUsed(prefixes, rankLines).Some?
  }

  method PackTables(mapLines: seq<Source>, rankLines: seq<Source>, prefixes: seq<Source>)
      returns (r: Result<Tables>)
    ensures r.Ok? <==> Packable(mapLines, rankLines, prefixes)
    ensures r.Ok? ==> Packed(mapLines, rankLines, prefixes, r.value) && ValidRanks(r.value)
    ensures r.Ok? ==> forall i :: 0 <= i < |mapLines| ==> r.value.map_[i] == MapRecord(mapLines[i], MaxLen(mapLines))
  {
    var map_ := WriteMap(mapLines);
    if map_.Raised? {
      return Raised;
    }
    var ranks := WriteRanks(rankLines, mapLines);
    if ranks.Raised? {
      return Raised;
    }
    var lookup := WriteLookup(prefixes, rankLines);
    if lookup.Raised? {
      return Raised;
    }
    return Ok(Tables(map_.value, ranks.value, lookup.value.0, lookup.value.1));
  }

  /** The prefix line of a byte, if there is one. */
  ghost function PrefixLine(prefixes: seq<Source>, byte: char): (p: Option<Source>)
    ensures p.Some? ==> p.value in prefixes && p.value.text == [byte]
    ensures p.None? ==> forall q :: q in prefixes ==> q.text != [byte]
  {
    if exists p :: p in prefixes && p.text == [byte] then
      var p :| p in prefixes && p.text == [byte];
      Some(p)
    else None
  }

  /** The first rank line in `lo..hi` whose key is a prefix of `b`. */
  function FirstLine(ranks: seq<Source>, lo: int, hi: int, b: string): (r: Option<int>)
    decreases hi - lo
  {
    if !(0 <= lo < hi <= |ranks|) then None
    else if EntryKey(ranks[lo]).Ok? && EntryKey(ranks[lo]).value <= b then Some(ranks[lo].index)
    else FirstLine(ranks, lo + 1, hi, b)
  }

  /** A lookup read off the source lines, with no index structure at all. */
  ghost function LineLookup(prefixes: seq<Source>, ranks: seq<Source>, b: string): (r: Option<int>) {
    if b == [] then None
    else
      match PrefixLine(prefixes, b[0])
      case None => None
      case Some(p) =>
        if p.size != 1 then FirstLine(ranks, p.index, p.index + p.size, b)
        else if 0 <= p.index < |ranks| then Some(ranks[p.index].index)
        else None
  }

  /** Indices of packed rank lines have 18 bits, so no route is lost. */
  lemma {:induction false} PackedIsLive(mapLines: seq<Source>, rankLines: seq<Source>, prefixes: seq<Source>, t: Tables,
                                        p: Source)
    requires Packed(mapLines, rankLines, prefixes, t)
    ensures Live(rankLines, p)
  {
    if p.size == 1 && 0 <= p.index < |rankLines| {
      DirectRoute(rankLines[p.index].index);
    }
  }

  lemma {:induction false} PackedKey(mapLines: seq<Source>, rankLines: seq<Source>, prefixes: seq<Source>, t: Tables,
                                     r: nat)
    requires Packed(mapLines, rankLines, prefixes, t) && ValidRanks(t) && r < |t.ranks|
    ensures Key(t, r) == EntryKey(rankLines[r]).value
  {
    var index := rankLines[r].index;
    assert mapLines[index].text <= t.map_[index].text;
  }

  lemma {:induction false} PackedSpan(mapLines: seq<Source>, rankLines: seq<Source>, prefixes: seq<Source>, t: Tables,
                                      s: LookupSpan)
    requires Packed(mapLines, rankLines, prefixes, t) && ValidRanks(t) && GoodLines(rankLines, s)
    ensures GoodSpan(t, s)
  {
    forall r: nat | r < |t.ranks|
      ensures Key(t, r) == EntryKey(rankLines[r]).value && |Key(t, r)| == rankLines[r].size
    {
      PackedKey(mapLines, rankLines, prefixes, t, r);
    }
    forall n: nat
      ensures HasBit(s.sizes, n) <==> exists r :: s.start <= r < s.start + s.count && |Key(t, r)| == n
    {
      if HasBit(s.sizes, n) {
        var i :| s.start <= i < s.start + s.count && rankLines[i].size == n;
        assert |Key(t, i)| == n;
      }
    }
  }

  /** A cover of rank lines read back through a packed route. */
  lemma {:induction false} CoveredRoute(ranks: seq<Source>, t: Tables, route: nat, lo: nat, hi: nat)
    requires |t.ranks| == |ranks| && SpanCount(route) > 0 && FirstSpan(route) + SpanCount(route) <= |t.spans|
    requires Cover(ranks, t.spans[..FirstSpan(route) + SpanCount(route)], FirstSpan(route), lo, hi)
    ensures ConsecutiveSpans(t, FirstSpan(route), SpanCount(route))
    ensures RouteStart(t, route) == lo && RouteEnd(t, route) == hi
    ensures forall s :: FirstSpan(route) <= s < FirstSpan(route) + SpanCount(route) ==> GoodLines(ranks, t.spans[s])
  {
    var spans := t.spans[..FirstSpan(route) + SpanCount(route)];
    assert forall s :: 0 <= s < |spans| ==> spans[s] == t.spans[s];
    forall s | FirstSpan(route) <= s < |spans|
      ensures GoodLines(ranks, t.spans[s])
    {
      assert GoodLines(ranks, spans[s]);
    }
    forall s | FirstSpan(route) < s < |spans|
      ensures t.spans[s].start == t.spans[s - 1].start + t.spans[s - 1].count
    {
      assert spans[s].start == spans[s - 1].start + spans[s - 1].count;
    }
  }

  /** The spans of a prefix line form a good route over exactly its range. */
  lemma {:induction false} PackedRange(mapLines: seq<Source>, rankLines: seq<Source>, prefixes: seq<Source>, t: Tables,
                                       p: Source)
    requires Packed(mapLines, rankLines, prefixes, t) && ValidRanks(t)
    requires p in prefixes && p.size != 1
    ensures |p.text| == 1 && GoodRoute(t, p.text[0])
    ensures var route := t.routes[p.text[0] as nat];
            && SpanCount(route) > 0 && route < DIRECT_ROUTE
            && ConsecutiveSpans(t, FirstSpan(route), SpanCount(route))
            && RouteStart(t, route) == p.index && RouteEnd(t, route) == p.index + p.size
  {
    var route := t.routes[p.text[0] as nat];
    PackedIsLive(mapLines, rankLines, prefixes, t, p);
    assert RouteFor(rankLines, p, route, t.spans);
    CoveredRoute(rankLines, t, route, p.index, p.index + p.size);
    forall s | FirstSpan(route) <= s < FirstSpan(route) + SpanCount(route)
      ensures GoodSpan(t, t.spans[s])
    {
      PackedSpan(mapLines, rankLines, prefixes, t, t.spans[s]);
    }
  }

  /** A direct route answers the one entry it was built from. */
  lemma {:induction false} DirectRoute(index: nat)
    requires index < INDEX_MODULUS
    ensures DirectRouteTo(index) == DIRECT_ROUTE + index < NO_ROUTE
    ensures (DIRECT_ROUTE + index) % INDEX_MODULUS == index
  {
    assert Pow2(31) == DIRECT_ROUTE by {
      Pow2Values();
    }
    ShlIsMultiple(1, 31);
    OrOfDisjointFields(1, 31, index);
  }

  lemma {:induction false} FirstMatchIsFirstLine(mapLines: seq<Source>, rankLines: seq<Source>, prefixes: seq<Source>,
                                                 t: Tables, lo: nat, hi: nat, b: string)
    requires Packed(mapLines, rankLines, prefixes, t) && ValidRanks(t) && hi <= |rankLines|
    ensures FirstMatch(t, lo, hi, b) == FirstLine(rankLines, lo, hi, b)
    decreases hi - lo
  {
    if lo < hi {
      PackedKey(mapLines, rankLines, prefixes, t, lo);
      FirstMatchIsFirstLine(mapLines, rankLines, prefixes, t, lo + 1, hi, b);
    }
  }

  /** Packing gives every byte the layout lookup needs, and the scan of its route is that of the source lines. */
  lemma {:induction false} PackedLookup(mapLines: seq<Source>, rankLines: seq<Source>, prefixes: seq<Source>,
                                        t: Tables, b: string)
    requires Packed(mapLines, rankLines, prefixes, t) && ValidRanks(t)
    requires b != [] ==> b[0] as nat < 256
    ensures b != [] ==> GoodRoute(t, b[0])
    ensures LinearLookup(t, b) == LineLookup(prefixes, rankLines, b)
  {
    if b != [] {
      var line := PrefixLine(prefixes, b[0]);
      if line.Some? {
        PackedPrefix(mapLines, rankLines, prefixes, t, line.value, b);
      } else {
        UnroutedByte(rankLines, prefixes, t, b);
      }
    }
  }

  /** The rank line after a prefix line's range, if there is one, does not begin with its byte. */
  predicate RangesEnd(prefixes: seq<Source>, ranks: seq<Source>) {
    forall p :: p in prefixes && |p.text| == 1 && p.size != 1 && 0 <= p.index + p.size < |ranks| ==>
      EntryKey(ranks[p.index + p.size]).Ok? ==> !StartsWith(EntryKey(ranks[p.index + p.size]).value, p.text[0])
  }

  /** Then no route is overrun. */
  lemma {:induction false} EndedRangesAreScanned(mapLines: seq<Source>, rankLines: seq<Source>, prefixes: seq<Source>,
                                                 t: Tables, b: string)
    requires Packed(mapLines, rankLines, prefixes, t) && ValidRanks(t) && RangesEnd(prefixes, rankLines)
    requires b != [] && b[0] as nat < 256
    ensures GoodRoute(t, b[0]) && !Overruns(t, b[0])
  {
    var line := PrefixLine(prefixes, b[0]);
    if line.None? {
      UnroutedByte(rankLines, prefixes, t, b);
    } else if line.value.size == 1 {
      PackedOne(mapLines, rankLines, prefixes, t, line.value, b);
    } else {
      EndedRange(mapLines, rankLines, prefixes, t, line.value, b[0]);
    }
  }

  lemma {:induction false} EndedRange(mapLines: seq<Source>, rankLines: seq<Source>, prefixes: seq<Source>,
                                      t: Tables, p: Source, byte: char)
    requires Packed(mapLines, rankLines, prefixes, t) && ValidRanks(t) && RangesEnd(prefixes, rankLines)
    requires byte as nat < 256 && p in prefixes && p.text == [byte] && p.size != 1
    ensures GoodRoute(t, byte) && !Overruns(t, byte)
  {
    PackedRange(mapLines, rankLines, prefixes, t, p);
    var hi := p.index + p.size;
    if hi < |t.ranks| {
      PackedKey(mapLines, rankLines, prefixes, t, hi);
    }
    EndedIsNotOverrun(t, byte, hi);
  }

  lemma {:induction false} EndedIsNotOverrun(t: Tables, byte: char, hi: nat)
    requires ValidRanks(t) && |t.routes| == 256 && byte as nat < 256 && GoodRoute(t, byte)
    requires var route := t.routes[byte as nat];
             && SpanCount(route) > 0 && ConsecutiveSpans(t, FirstSpan(route), SpanCount(route))
             && RouteEnd(t, route) == hi
    requires hi < |t.ranks| ==> !StartsWith(Key(t, hi), byte)
    ensures !Overruns(t, byte)
  {
  }

  lemma {:induction false} UnroutedByte(ranks: seq<Source>, prefixes: seq<Source>, t: Tables, b: string)
    requires |t.routes| == 256 && OthersUnrouted(ranks, prefixes, t.routes) && ValidRanks(t)
    requires b != [] && b[0] as nat < 256 && PrefixLine(prefixes, b[0]).None?
    ensures GoodRoute(t, b[0]) && LinearLookup(t, b) == LineLookup(prefixes, ranks, b) && !Overruns(t, b[0])
  {
    var c := b[0] as nat;
    assert c as char == b[0];
    assert t.routes[c] == NO_ROUTE;
  }

  lemma {:induction false} PackedDirect(ranks: seq<Source>, prefixes: seq<Source>, t: Tables, p: Source, b: string)
    requires ValidRanks(t) && |t.routes| == 256 && b != [] && b[0] as nat < 256
    requires PrefixLine(prefixes, b[0]) == Some(p) && p.size == 1
    requires RouteFor(ranks, p, t.routes[b[0] as nat], t.spans) && 0 <= ranks[p.index].index < INDEX_MODULUS
    ensures GoodRoute(t, b[0]) && LinearLookup(t, b) == LineLookup(prefixes, ranks, b) && !Overruns(t, b[0])
  {
    DirectRoute(ranks[p.index].index);
  }

  lemma {:induction false} PackedOne(mapLines: seq<Source>, rankLines: seq<Source>, prefixes: seq<Source>,
                                     t: Tables, p: Source, b: string)
    requires Packed(mapLines, rankLines, prefixes, t) && ValidRanks(t)
    requires b != [] && b[0] as nat < 256 && PrefixLine(prefixes, b[0]) == Some(p) && p.size == 1
    ensures GoodRoute(t, b[0]) && LinearLookup(t, b) == LineLookup(prefixes, rankLines, b) && !Overruns(t, b[0])
  {
    PackedIsLive(mapLines, rankLines, prefixes, t, p);
    assert RouteFor(rankLines, p, t.routes[p.text[0] as nat], t.spans);
    PackedDirect(rankLines, prefixes, t, p, b);
  }

  lemma {:induction false} PackedRun(mapLines: seq<Source>, rankLines: seq<Source>, prefixes: seq<Source>,
                                     t: Tables, p: Source, b: string)
    requires Packed(mapLines, rankLines, prefixes, t) && ValidRanks(t)
    requires b != [] && b[0] as nat < 256 && p in prefixes && p.text == [b[0]] && p.size != 1
    ensures 0 <= p.index <= p.index + p.size <= |t.ranks| == |rankLines|
    ensures GoodRoute(t, b[0]) && LinearLookup(t, b) == FirstMatch(t, p.index, p.index + p.size, b)
  {
    PackedIsLive(mapLines, rankLines, prefixes, t, p);
    assert RouteFor(rankLines, p, t.routes[p.text[0] as nat], t.spans);
    PackedRange(mapLines, rankLines, prefixes, t, p);
    RunAnswer(t, b, p.index, p.index + p.size);
  }

  lemma {:induction false} RunAnswer(t: Tables, b: string, lo: nat, hi: nat)
    requires ValidRanks(t) && |t.routes| == 256 && b != [] && b[0] as nat < 256 && GoodRoute(t, b[0])
    requires var route := t.routes[b[0] as nat];
             && SpanCount(route) > 0 && route < DIRECT_ROUTE
             && ConsecutiveSpans(t, FirstSpan(route), SpanCount(route))
             && RouteStart(t, route) == lo && RouteEnd(t, route) == hi
    ensures hi <= |t.ranks| && LinearLookup(t, b) == FirstMatch(t, lo, hi, b)
  {
  }

  lemma {:induction false} PackedMany(mapLines: seq<Source>, rankLines: seq<Source>, prefixes: seq<Source>,
                                      t: Tables, p: Source, b: string)
    requires Packed(mapLines, rankLines, prefixes, t) && ValidRanks(t)
    requires b != [] && b[0] as nat < 256 && p in prefixes && p.text == [b[0]] && p.size != 1
    ensures GoodRoute(t, b[0]) && LinearLookup(t, b) == FirstLine(rankLines, p.index, p.index + p.size, b)
  {
    PackedRun(mapLines, rankLines, prefixes, t, p, b);
    FirstMatchIsFirstLine(mapLines, rankLines, prefixes, t, p.index, p.index + p.size, b);
  }

  lemma {:induction false} ManyAnswer(prefixes: seq<Source>, ranks: seq<Source>, p: Source, b: string,
                                      found: Option<int>)
    requires b != [] && PrefixLine(prefixes, b[0]) == Some(p) && p.size != 1
    requires found == FirstLine(ranks, p.index, p.index + p.size, b)
    ensures found == LineLookup(prefixes, ranks, b)
  {
  }

  lemma {:induction false} PackedPrefix(mapLines: seq<Source>, rankLines: seq<Source>, prefixes: seq<Source>,
                                        t: Tables, p: Source, b: string)
    requires Packed(mapLines, rankLines, prefixes, t) && ValidRanks(t)
    requires b != [] && b[0] as nat < 256 && PrefixLine(prefixes, b[0]) == Some(p)
    ensures GoodRoute(t, b[0]) && LinearLookup(t, b) == LineLookup(prefixes, rankLines, b)
  {
    if p.size == 1 {
      PackedOne(mapLines, rankLines, prefixes, t, p, b);
    } else {
      PackedMany(mapLines, rankLines, prefixes, t, p, b);
      ManyAnswer(prefixes, rankLines, p, b, LinearLookup(t, b));
    }
  }
}
