/** Source lines that pack, and whose tables answer a query with a rank outside the byte's route. */
module JscOverrun {
  import opened Wrappers
  import opened Words
  import opened JscTables
  import opened JscLookup
  import opened JscPack

  /** Three lines in descending order, each naming its own map line. */
  predicate ThreeLines(lines: seq<Source>) {
    |lines| == 3 && lines[0] == Source("AC", 2, 0) && lines[1] == Source("AB", 2, 1) && lines[2] == Source("AA", 2, 2)
  }

  /** A prefix line that takes the first two. */
  predicate FirstTwo(p: Source) { p == Source("A", 2, 0) }

  /** Their tables: one span of two ranks with keys of size 2, and one route to it. */
  predicate TablesOfTwo(t: Tables) {
    && t.map_ == [Entry("AC", 2), Entry("AB", 2), Entry("AA", 2)]
    && t.ranks == [Rank(2, 0), Rank(2, 1), Rank(2, 2)]
    && t.spans == [LookupSpan(0, 2, 4)]
    && |t.routes| == 256 && forall c :: 0 <= c < 256 ==> t.routes[c] == if c == 65 then 0x1_0000 else NO_ROUTE
  }

  lemma {:induction false} TwoChars(a: string, b: string)
    requires |a| == |b| == 2 && a[0] == b[0]
    ensures (Less(a, b) <==> a[1] < b[1]) && (a <= b <==> a[1] == b[1])
  {
    var x, y := a[1..], b[1..];
    assert x[0] == a[1] && y[0] == b[1] && x[1..] == [] && y[1..] == [];
    assert Less(x, y) <==> a[1] < b[1];
  }

  lemma {:induction false} TextOrder(a: string, b: string, c: string)
    requires a == "AA" && b == "AB" && c == "AC"
    ensures !Less(c, b) && Less(a, b) && Less(a, c) && !Less(b, b) && !Less(c, c) && !(b <= a) && !(c <= a)
  {
    TwoChars(c, b);
    TwoChars(b, a);
    TwoChars(c, a);
    TwoChars(a, b);
    TwoChars(a, c);
    LessIrreflexive(b);
    LessIrreflexive(c);
  }

  lemma {:induction false} LinesHaveKeys(lines: seq<Source>, i: nat)
    requires ThreeLines(lines) && i < 3
    ensures EntryKey(lines[i]) == Ok(lines[i].text) && lines[i].size == 2 && lines[i].index == i
  {
    assert lines[i].text[..2] == lines[i].text;
  }

  lemma {:induction false} MaskOfTwo(mask: nat, n: nat)
    requires mask == 4
    ensures HasBit(mask, n) <==> n == 2
  {
    SingleBit(2, n);
    assert Pow2(2) == 4;
  }

  lemma {:induction false} SpanIsGood(lines: seq<Source>, span: LookupSpan)
    requires ThreeLines(lines) && span == LookupSpan(0, 2, 4)
    ensures GoodLines(lines, span) && Cover(lines, [span], 0, 0, 2)
  {
    LinesHaveKeys(lines, 0);
    LinesHaveKeys(lines, 1);
    TextOrder(lines[2].text, lines[1].text, lines[0].text);
    forall n: nat
      ensures HasBit(span.sizes, n) <==> exists i :: 0 <= i < 2 && lines[i].size == n
    {
      MaskOfTwo(span.sizes, n);
      assert lines[0].size == 2;
    }
  }

  lemma {:induction false} LinesNameMapLines(lines: seq<Source>, i: nat)
    requires ThreeLines(lines) && i < 3
    ensures NamesMapLine(lines[i], lines) && FitsRecord(lines[i])
  {
    LinesHaveKeys(lines, i);
  }

  lemma {:induction false} SpansAreUsed(lines: seq<Source>, prefixes: seq<Source>, p: Source)
    requires ThreeLines(lines) && FirstTwo(p) && prefixes == [p]
    ensures SpansUsed(prefixes, lines).Some?
  {
    LinesHaveKeys(lines, 0);
    LinesHaveKeys(lines, 1);
    TextOrder(lines[2].text, lines[1].text, lines[0].text);
    var none := prefixes[..0];
    assert SpansUsed(none, lines) == Some(0);
    assert SpansNeeded(lines, 0, 2) == SpansNeeded(lines, 0, 1) == 1;
    assert Routable(none, lines, 0, p);
  }

  lemma {:induction false} LinesArePackable(lines: seq<Source>, prefixes: seq<Source>, p: Source)
    requires ThreeLines(lines) && FirstTwo(p) && prefixes == [p]
    ensures Packable(lines, lines, prefixes)
  {
    forall i | 0 <= i < 3
      ensures NamesMapLine(lines[i], lines) && FitsRecord(lines[i])
    {
      LinesNameMapLines(lines, i);
    }
    SpansAreUsed(lines, prefixes, p);
    var two, one := lines[..2], lines[..1];
    assert two[..1] == one && one[..0] == [];
    assert MaxLen(one) == 2 && MaxLen(two) == 2 && MaxLen(lines) == 2;
  }

  lemma {:induction false} RouteIsPacked(lines: seq<Source>, p: Source, t: Tables, route: nat)
    requires ThreeLines(lines) && FirstTwo(p) && TablesOfTwo(t) && route == t.routes[65]
    ensures FirstSpan(route) == 0 && SpanCount(route) == 1 && RouteFor(lines, p, route, t.spans)
  {
    SpanIsGood(lines, t.spans[0]);
    assert t.spans[..1] == [t.spans[0]];
  }

  lemma {:induction false} RoutesArePacked(lines: seq<Source>, prefixes: seq<Source>, p: Source, t: Tables)
    requires ThreeLines(lines) && FirstTwo(p) && prefixes == [p] && TablesOfTwo(t)
    ensures RoutesFor(lines, prefixes, t.routes, t.spans)
  {
    RouteIsPacked(lines, p, t, t.routes[65]);
    var byte := p.text[0];
    assert byte as nat == 65 && |p.text| == 1 && p in prefixes;
    forall c: nat | c < 256 && t.routes[c] != NO_ROUTE
      ensures exists q :: q in prefixes && Live(lines, q) && q.text == [c as char]
    {
      assert p.text == [c as char] && Live(lines, p);
    }
  }

  lemma {:induction false} TablesArePacked(lines: seq<Source>, prefixes: seq<Source>, p: Source, t: Tables)
    requires ThreeLines(lines) && FirstTwo(p) && prefixes == [p] && TablesOfTwo(t)
    ensures Packed(lines, lines, prefixes, t) && ValidRanks(t)
  {
    forall i | 0 <= i < 3
      ensures EntryKey(lines[i]) == Ok(lines[i].text) && lines[i].size == 2 && lines[i].index == i
      ensures t.ranks[i] == Rank(2, i) && t.map_[i].text == lines[i].text && |lines[i].text| == 2
    {
      LinesHaveKeys(lines, i);
    }
    RoutesArePacked(lines, prefixes, p, t);
  }

  lemma {:induction false} KeyOfLine(lines: seq<Source>, prefixes: seq<Source>, t: Tables, r: nat)
    requires ThreeLines(lines) && Packed(lines, lines, prefixes, t) && ValidRanks(t) && r < 3
    ensures Key(t, r) == lines[r].text
  {
    PackedKey(lines, lines, prefixes, t, r);
    LinesHaveKeys(lines, r);
  }

  lemma {:induction false} KeyIsAbove(key: string, above: string)
    requires key == "AA" && (above == "AB" || above == "AC")
    ensures Less(key, above) && !(above <= key)
  {
    TwoChars(key, above);
    TwoChars(above, key);
  }

  lemma {:induction false} SpanIsAbove(lines: seq<Source>, t: Tables, key: string)
    requires ThreeLines(lines) && TablesOfTwo(t) && key == lines[2].text && ValidRanks(t)
    requires forall r :: 0 <= r < 3 ==> Key(t, r) == lines[r].text
    ensures HasBit(t.spans[0].sizes, |key|)
    ensures forall r :: 0 <= r < 2 ==> Less(key, Key(t, r)) && !(Key(t, r) <= key)
  {
    forall r | 0 <= r < 2
      ensures Less(key, Key(t, r)) && !(Key(t, r) <= key)
    {
      KeyIsAbove(key, lines[r].text);
    }
    MaskOfTwo(t.spans[0].sizes, 2);
  }

  lemma {:induction false} RouteOfTwo(t: Tables, route: nat)
    requires TablesOfTwo(t) && route == 0x1_0000
    ensures FirstSpan(route) == 0 && SpanCount(route) == 1 && ConsecutiveSpans(t, 0, 1)
    ensures RouteStart(t, route) == 0 && RouteEnd(t, route) == 2
  {
  }

  lemma {:induction false} SingleSpanOverruns(t: Tables, route: nat, byte: char, hi: nat, key: string)
    requires ValidRanks(t) && FirstSpan(route) == 0 && SpanCount(route) == 1 && ConsecutiveSpans(t, 0, 1)
    requires RouteStart(t, route) == 0 == t.spans[0].start && RouteEnd(t, route) == hi < |t.ranks|
    requires key == Key(t, hi) && StartsWith(key, byte) && HasBit(t.spans[0].sizes, |key|)
    requires forall r :: 0 <= r < hi ==> Less(key, Key(t, r)) && !(Key(t, r) <= key)
    ensures RouteOverruns(t, route, byte)
  {
    assert t.spans[0].start + t.spans[0].count == hi;
    assert BelowLastSpan(t, route, key);
  }

  /** Packing raises nothing, the query for the third line is answered with it, and the route does not hold it. */
  lemma {:induction false} RankAfterRouteIsAnswered(lines: seq<Source>, prefixes: seq<Source>, p: Source, t: Tables,
                                                    query: string)
    requires ThreeLines(lines) && FirstTwo(p) && prefixes == [p] && TablesOfTwo(t) && query == "AA"
    ensures Packable(lines, lines, prefixes) && Packed(lines, lines, prefixes, t) && ValidRanks(t)
    ensures GoodRoute(t, 'A') && Overruns(t, 'A')
    ensures Answer(t, query) == Some(2) && LinearLookup(t, query).None?
  {
    LinesArePackable(lines, prefixes, p);
    TablesArePacked(lines, prefixes, p, t);
    PackedLookup(lines, lines, prefixes, t, query);
    assert 'A' as nat == 65 && query[0] == 'A';
    RouteOfTwo(t, t.routes[65]);
    forall r | 0 <= r < 3
      ensures Key(t, r) == lines[r].text
    {
      KeyOfLine(lines, prefixes, t, r);
    }
    SpanIsAbove(lines, t, query);
    SingleSpanOverruns(t, t.routes[65], 'A', 2, query);
    OverrunIsAnswered(t, 'A', query);
  }
}
