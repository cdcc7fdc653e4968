/**
 * The dictionary of the dense text coder: the map from codeword index to text, the rank list that
 * orders dictionary keys by preference, and the index that routes a first byte to spans of ranks.
 * Text is Latin-1, one character per byte.
 */
module JscTables {
  import opened Wrappers
  import opened Words

  /** A map record: the text field (padded with zero bytes) and the declared size. */
  datatype Entry = Entry(text: string, size: nat)

  datatype Rank = Rank(size: nat, index: nat)

  datatype LookupSpan = LookupSpan(start: nat, count: nat, sizes: nat)

  datatype Tables = Tables(map_: seq<Entry>, ranks: seq<Rank>, routes: seq<nat>, spans: seq<LookupSpan>)

  const NO_ROUTE: nat := 0xFFFF_FFFF
  const DIRECT_ROUTE: nat := 0x8000_0000
  const INDEX_MODULUS: nat := 0x4_0000

  /** The text of an entry without its zero padding. */
  function TextTrimmed(text: string): (t: string) {
    if text != [] && text[|text| - 1] == '\0' then TextTrimmed(text[..|text| - 1]) else text
  }

  /** Byte order of keys: lexicographic, a proper prefix being smaller. */
  predicate Less(a: string, b: string) {
    b != [] && (a == [] || a[0] < b[0] || (a[0] == b[0] && Less(a[1..], b[1..])))
  }

  /** The first `k` characters agree, and then the first text ends or has the smaller character. */
  predicate LessAt(a: string, b: string, k: nat) {
    k <= |a| && k < |b| && a[..k] == b[..k] && (k == |a| || a[k] < b[k])
  }

  lemma {:induction false} SharedStart(a: string, b: string, k: nat)
    requires k > 0 && LessAt(a, b, k)
    ensures a != [] && b != [] && a[0] == b[0]
  {
    assert a[..k][0] == a[0] && b[..k][0] == b[0];
  }

  /** The order is decided by the first character in which the texts differ. */
  lemma {:induction false} LessIsByteOrder(a: string, b: string)
    ensures Less(a, b) <==> exists k: nat :: LessAt(a, b, k)
  {
    if b == [] || a == [] || a[0] != b[0] {
      assert LessAt(a, b, 0) <==> Less(a, b);
      forall k: nat | LessAt(a, b, k)
        ensures k == 0
      {
        if k > 0 {
          SharedStart(a, b, k);
        }
      }
    } else {
      LessIsByteOrder(a[1..], b[1..]);
      forall k: nat
        ensures LessAt(a[1..], b[1..], k) <==> LessAt(a, b, k + 1)
      {
        if k < |a| && k < |b| {
          assert a[..k + 1] == [a[0]] + a[1..][..k] && b[..k + 1] == [b[0]] + b[1..][..k];
        }
      }
      assert !LessAt(a, b, 0);
      forall k: nat | LessAt(a, b, k)
        ensures k > 0 && LessAt(a[1..], b[1..], k - 1)
      {
        assert LessAt(a, b, (k - 1) + 1);
      }
    }
  }

  lemma {:induction false} LessIrreflexive(a: string)
    ensures !Less(a, a)
  {
    if a != [] {
      LessIrreflexive(a[1..]);
    }
  }

  lemma {:induction false} LessTotal(a: string, b: string)
    ensures a == b || Less(a, b) || Less(b, a)
  {
    if a != [] && b != [] && a[0] == b[0] {
      LessTotal(a[1..], b[1..]);
      assert a == [a[0]] + a[1..] && b == [b[0]] + b[1..];
    }
  }

  lemma {:induction false} LessTransitive(a: string, b: string, c: string)
    requires Less(a, b) && Less(b, c)
    ensures Less(a, c)
  {
    if a != [] && a[0] == b[0] && b[0] == c[0] {
      LessTransitive(a[1..], b[1..], c[1..]);
    }
  }

  /** Rank `r` refers to a map record at least as long as its comparison size. */
  predicate ValidRank(map_: seq<Entry>, rank: Rank) {
    rank.index < |map_| && rank.size <= |map_[rank.index].text|
  }

  predicate ValidRanks(t: Tables) {
    |t.ranks| <= 0xFFFF_FFFF && forall r :: 0 <= r < |t.ranks| ==> ValidRank(t.map_, t.ranks[r])
  }

  /** The comparison key of rank `r`. */
  function Key(t: Tables, r: nat): (key: string)
    requires ValidRanks(t) && r < |t.ranks|
    ensures |key| == t.ranks[r].size
  {
    t.map_[t.ranks[r].index].text[..t.ranks[r].size]
  }

  /** Keys never increase over the ranks `lo..hi`. */
  predicate Descending(t: Tables, lo: nat, hi: nat)
    requires ValidRanks(t)
  {
    hi <= |t.ranks| && forall i, j :: lo <= i < j < hi ==> !Less(Key(t, i), Key(t, j))
  }
}
