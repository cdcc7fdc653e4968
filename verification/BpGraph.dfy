/** Pairing the two views of the check graph: bits to checks, and checks to bits. */
module BpGraph {
  import opened Wrappers
  import opened CheckGraph

  const ROWS: nat := 7

  /** The fixed table shapes: three checks for every bit, seven neighbour slots for every check. */
  predicate Shaped(mn: seq<seq<int>>, nm: seq<CheckNode>) {
    (forall b :: 0 <= b < |mn| ==> |mn[b]| == 3) && (forall c :: 0 <= c < |nm| ==> |nm[c].neighbors| == ROWS)
  }

  /** How many of the first `k` slots of a bit name check `c`. */
  function Matches(row: seq<int>, c: int, k: nat): (m: nat)
    requires k <= |row|
  {
    if k == 0 then 0 else Matches(row, c, k - 1) + if row[k - 1] == c then 1 else 0
  }

  /** A check lists existing, distinct bits, each of which names the check exactly once. */
  predicate GoodCheck(mn: seq<seq<int>>, nm: seq<CheckNode>, c: nat)
    requires Shaped(mn, nm) && c < |nm|
  {
    nm[c].valid <= ROWS &&
    (forall e :: 0 <= e < nm[c].valid ==> nm[c].neighbors[e] < |mn| && Matches(mn[nm[c].neighbors[e]], c, 3) == 1) &&
    (forall d, e :: 0 <= d < e < nm[c].valid ==> nm[c].neighbors[d] != nm[c].neighbors[e])
  }

  predicate Lists(node: CheckNode, b: nat) {
    exists e :: 0 <= e < node.valid && e < |node.neighbors| && node.neighbors[e] == b
  }

  /** A slot of a bit names a check that lists the bit. */
  predicate GoodSlot(mn: seq<seq<int>>, nm: seq<CheckNode>, b: nat, k: nat)
    requires Shaped(mn, nm) && b < |mn| && k < 3
  {
    0 <= mn[b][k] < |nm| && Lists(nm[mn[b][k]], b)
  }

  predicate WellFormed(mn: seq<seq<int>>, nm: seq<CheckNode>)
    requires Shaped(mn, nm)
  {
    (forall c :: 0 <= c < |nm| ==> GoodCheck(mn, nm, c)) &&
    (forall b, k :: 0 <= b < |mn| && 0 <= k < 3 ==> GoodSlot(mn, nm, b, k))
  }

  /** An edge: a check and a position in its list. */
  datatype Edge = Edge(chk: nat, e: nat)

  /** A slot: a bit and one of its three positions. */
  datatype Slot = Slot(bit: nat, k: nat)

  predicate IsEdge(nm: seq<CheckNode>, edge: Edge) {
    edge.chk < |nm| && edge.e < nm[edge.chk].valid <= ROWS && |nm[edge.chk].neighbors| == ROWS
  }

  predicate HasEntry(table: seq<seq<nat>>, edge: Edge) {
    edge.chk < |table| && edge.e < |table[edge.chk]|
  }

  /** The slot that the table assigns to an edge. */
  function SlotOf(nm: seq<CheckNode>, table: seq<seq<nat>>, edge: Edge): Slot
    requires IsEdge(nm, edge) && HasEntry(table, edge)
  {
    Slot(nm[edge.chk].neighbors[edge.e], table[edge.chk][edge.e])
  }

  /** The owner of a slot is an edge whose table entry is the slot, on a check named by the slot. */
  ghost predicate Owned(mn: seq<seq<int>>, nm: seq<CheckNode>, table: seq<seq<nat>>, owner: map<Slot, Edge>) {
    forall slot :: slot in owner ==>
      && IsEdge(nm, owner[slot]) && HasEntry(table, owner[slot]) && SlotOf(nm, table, owner[slot]) == slot
      && slot.bit < |mn| && slot.k < |mn[slot.bit]| && mn[slot.bit][slot.k] == owner[slot].chk
  }

  /** Each edge before `upTo` (in the order of checks and positions) owns its slot. */
  predicate EdgeOwns(nm: seq<CheckNode>, table: seq<seq<nat>>, owner: map<Slot, Edge>, edge: Edge) {
    && IsEdge(nm, edge) && HasEntry(table, edge)
    && SlotOf(nm, table, edge) in owner && owner[SlotOf(nm, table, edge)] == edge
  }

  /** The table pairs edges and slots one to one. */
  ghost predicate Paired(mn: seq<seq<int>>, nm: seq<CheckNode>, table: seq<seq<nat>>, owner: map<Slot, Edge>)
  {
    && |table| == |nm| && Owned(mn, nm, table, owner)
    && (forall c, e :: 0 <= c < |nm| && 0 <= e < nm[c].valid ==> EdgeOwns(nm, table, owner, Edge(c, e)))
    && (forall b, k :: 0 <= b < |mn| && 0 <= k < 3 ==> Slot(b, k) in owner)
  }

  // ---- building the table

  /** A slot is marked as seen exactly when it has an owner. */
  predicate SeenIs(seen: seq<seq<bool>>, owner: map<Slot, Edge>, n: nat) {
    |seen| == n &&
    forall b :: 0 <= b < n ==> |seen[b]| == 3 && forall k :: 0 <= k < 3 ==> (seen[b][k] <==> Slot(b, k) in owner)
  }

  /** Every edge before position `e` of check `c` owns its slot. */
  ghost predicate OwnedBefore(mn: seq<seq<int>>, nm: seq<CheckNode>, table: seq<seq<nat>>, owner: map<Slot, Edge>,
                              c: nat, e: nat)
  {
    forall edge: Edge :: IsEdge(nm, edge) && (edge.chk < c || (edge.chk == c && edge.e < e)) ==>
      EdgeOwns(nm, table, owner, edge) && Named(mn, nm, edge)
  }

  /** The bit of an edge names its check exactly once. */
  predicate Named(mn: seq<seq<int>>, nm: seq<CheckNode>, edge: Edge)
    requires IsEdge(nm, edge)
  {
    var bit := nm[edge.chk].neighbors[edge.e];
    bit < |mn| && |mn[bit]| == 3 && Matches(mn[bit], edge.chk, 3) == 1
  }

  /** Owners are edges before position `e` of check `c`. */
  ghost predicate OwnersBefore(owner: map<Slot, Edge>, c: nat, e: nat) {
    forall slot :: slot in owner ==> owner[slot].chk < c || (owner[slot].chk == c && owner[slot].e < e)
  }

  /** The state of the builder before position `e` of check `c`. */
  ghost predicate Building(mn: seq<seq<int>>, nm: seq<CheckNode>, table: seq<seq<nat>>, owner: map<Slot, Edge>, c: nat,
                           e: nat)
  {
    && |table| == |nm| && Owned(mn, nm, table, owner)
    && OwnedBefore(mn, nm, table, owner, c, e) && OwnersBefore(owner, c, e)
    && (forall x :: c < x < |nm| ==> table[x] == []) && (c < |nm| ==> |table[c]| == e)
  }

  lemma {:induction false} AddEdge(mn: seq<seq<int>>, nm: seq<CheckNode>, table: seq<seq<nat>>, owner: map<Slot, Edge>,
                                   c: nat, e: nat, slot: Slot, next: seq<seq<nat>>, more: map<Slot, Edge>)
    requires Shaped(mn, nm) && Building(mn, nm, table, owner, c, e) && IsEdge(nm, Edge(c, e))
    requires slot.bit == nm[c].neighbors[e] && Named(mn, nm, Edge(c, e))
    requires slot.k < 3 && mn[slot.bit][slot.k] == c && slot !in owner
    requires next == table[c := table[c] + [slot.k]] && more == owner[slot := Edge(c, e)]
    ensures Building(mn, nm, next, more, c, e + 1)
  {
    assert SlotOf(nm, next, Edge(c, e)) == slot;
    forall edge: Edge | IsEdge(nm, edge) && HasEntry(table, edge)
      ensures HasEntry(next, edge) && SlotOf(nm, next, edge) == SlotOf(nm, table, edge)
    {
    }
    forall edge: Edge | IsEdge(nm, edge) && (edge.chk < c || (edge.chk == c && edge.e < e + 1))
      ensures EdgeOwns(nm, next, more, edge) && Named(mn, nm, edge)
    {
      if edge != Edge(c, e) {
        assert EdgeOwns(nm, table, owner, edge);
      }
    }
  }

  lemma {:induction false} NextCheck(mn: seq<seq<int>>, nm: seq<CheckNode>, table: seq<seq<nat>>,
                                     owner: map<Slot, Edge>, c: nat)
    requires c < |nm| && Building(mn, nm, table, owner, c, nm[c].valid)
    ensures Building(mn, nm, table, owner, c + 1, 0)
  {
  }

  /** Looks for the slots of a bit that name a check, marking them; fails on a slot already marked. */
  method MatchSlots(row: seq<int>, chk: nat, seen: seq<bool>)
      returns (ok: bool, slot: nat, matches: nat, marked: seq<bool>)
    requires |row| == 3 && |seen| == 3
    ensures |marked| == 3
    ensures ok ==> matches == Matches(row, chk, 3)
    ensures ok && matches == 1 ==> slot < 3 && row[slot] == chk && !seen[slot] && marked == seen[slot := true]
    ensures !ok ==> exists k :: 0 <= k < 3 && row[k] == chk && seen[k]
  {
    ok, slot, matches, marked := true, 0, 0, seen;
    for k := 0 to 3
      invariant matches == Matches(row, chk, k) && |marked| == 3
      invariant forall j :: k <= j < 3 ==> marked[j] == seen[j]
      invariant matches == 0 ==> marked == seen
      invariant matches == 1 ==> slot < k && row[slot] == chk && !seen[slot] && marked == seen[slot := true]
    {
      if row[k] == chk {
        if marked[k] {
          ok := false;
          return;
        }
        marked := marked[k := true];
        slot := k;
        matches := matches + 1;
      }
    }
  }

  /** A marked slot of the same check means that the check lists a bit twice. */
  lemma {:induction false} SeenTwice(mn: seq<seq<int>>, nm: seq<CheckNode>, table: seq<seq<nat>>,
                                     owner: map<Slot, Edge>, c: nat, e: nat, k: nat)
    requires Shaped(mn, nm) && Building(mn, nm, table, owner, c, e) && IsEdge(nm, Edge(c, e))
    requires nm[c].neighbors[e] < |mn| && k < 3 && mn[nm[c].neighbors[e]][k] == c
    requires Slot(nm[c].neighbors[e], k) in owner
    ensures !WellFormed(mn, nm)
  {
    var edge := owner[Slot(nm[c].neighbors[e], k)];
    assert edge.chk == c && edge.e < e && nm[c].neighbors[edge.e] == nm[c].neighbors[e];
    assert !GoodCheck(mn, nm, c);
  }

  /** An unmarked slot at the end means that no check it could name lists the bit. */
  lemma {:induction false} NeverSeen(mn: seq<seq<int>>, nm: seq<CheckNode>, table: seq<seq<nat>>,
                                     owner: map<Slot, Edge>, b: nat, k: nat)
    requires Shaped(mn, nm) && Building(mn, nm, table, owner, |nm|, 0)
    requires b < |mn| && k < 3 && Slot(b, k) !in owner
    ensures !WellFormed(mn, nm)
  {
    if WellFormed(mn, nm) {
      assert GoodSlot(mn, nm, b, k);
      var c := mn[b][k];
      var e :| 0 <= e < nm[c].valid && e < |nm[c].neighbors| && nm[c].neighbors[e] == b;
      assert GoodCheck(mn, nm, c);
      var edge := Edge(c, e);
      assert EdgeOwns(nm, table, owner, edge);
      var slot := SlotOf(nm, table, edge);
      assert slot.bit == b && slot.k < 3 && mn[b][slot.k] == c;
      OneMatch(mn[b], c, slot.k, k);
    }
  }

  lemma {:induction false} OneMatch(row: seq<int>, c: int, i: nat, j: nat)
    requires |row| == 3 && Matches(row, c, 3) == 1 && i < 3 && j < 3 && row[i] == c && row[j] == c
    ensures i == j
  {
    assert Matches(row, c, 3)
        == (if row[0] == c then 1 else 0) + (if row[1] == c then 1 else 0) + (if row[2] == c then 1 else 0) by {
      assert Matches(row, c, 1) == if row[0] == c then 1 else 0;
      assert Matches(row, c, 2) == Matches(row, c, 1) + if row[1] == c then 1 else 0;
    }
  }

  /** One position of a check: finds its bit's slot and enters it in the table. */
  method AddPosition(mn: seq<seq<int>>, nm: seq<CheckNode>, chk: nat, e: nat, table0: seq<seq<nat>>,
                     seen: array<seq<bool>>, ghost owner0: map<Slot, Edge>)
      returns (ok: bool, table: seq<seq<nat>>, ghost owner: map<Slot, Edge>)
    requires Shaped(mn, nm) && IsEdge(nm, Edge(chk, e))
    requires Building(mn, nm, table0, owner0, chk, e) && SeenIs(seen[..], owner0, |mn|)
    modifies seen
    ensures ok ==> Building(mn, nm, table, owner, chk, e + 1) && SeenIs(seen[..], owner, |mn|)
    ensures !ok ==> !WellFormed(mn, nm)
  {
    ok, table, owner := false, table0, owner0;
    var bit := nm[chk].neighbors[e];
    if bit >= |mn| {
      assert !GoodCheck(mn, nm, chk);
      return;
    }
    assert |seen[..][bit]| == 3;
    var free, slot, matches, marked := MatchSlots(mn[bit], chk, seen[bit]);
    if !free {
      ghost var k :| 0 <= k < 3 && mn[bit][k] == chk && seen[bit][k];
      assert seen[..][bit][k];
      SeenTwice(mn, nm, table, owner, chk, e, k);
      return;
    }
    if matches != 1 {
      assert !GoodCheck(mn, nm, chk);
      return;
    }
    assert !seen[..][bit][slot];
    table := table0[chk := table0[chk] + [slot]];
    owner := owner0[Slot(bit, slot) := Edge(chk, e)];
    AddEdge(mn, nm, table0, owner0, chk, e, Slot(bit, slot), table, owner);
    Mark(seen[..], owner0, |mn|, bit, slot, Edge(chk, e));
    seen[bit] := marked;
    ok := true;
  }

  lemma {:induction false} Mark(seen: seq<seq<bool>>, owner: map<Slot, Edge>, n: nat, b: nat, k: nat, edge: Edge)
    requires SeenIs(seen, owner, n) && b < n && k < 3
    ensures SeenIs(seen[b := seen[b][k := true]], owner[Slot(b, k) := edge], n)
  {
  }

  method AddCheck(mn: seq<seq<int>>, nm: seq<CheckNode>, chk: nat, table0: seq<seq<nat>>,
                  seen: array<seq<bool>>, ghost owner0: map<Slot, Edge>)
      returns (ok: bool, table: seq<seq<nat>>, ghost owner: map<Slot, Edge>)
    requires Shaped(mn, nm) && chk < |nm|
    requires Building(mn, nm, table0, owner0, chk, 0) && SeenIs(seen[..], owner0, |mn|)
    modifies seen
    ensures ok ==> Building(mn, nm, table, owner, chk + 1, 0) && SeenIs(seen[..], owner, |mn|) && nm[chk].valid <= ROWS
    ensures !ok ==> !WellFormed(mn, nm)
  {
    ok, table, owner := false, table0, owner0;
    if nm[chk].valid > ROWS {
      assert !GoodCheck(mn, nm, chk);
      return;
    }
    var e: nat := 0;
    while e < nm[chk].valid
      invariant e <= nm[chk].valid && Building(mn, nm, table, owner, chk, e) && SeenIs(seen[..], owner, |mn|)
    {
      ok, table, owner := AddPosition(mn, nm, chk, e, table, seen, owner);
      if !ok {
        return;
      }
      e := e + 1;
    }
    NextCheck(mn, nm, table, owner, chk);
    ok := true;
  }

  /** Every slot must have been seen. */
  method AllSeen(mn: seq<seq<int>>, nm: seq<CheckNode>, ghost table: seq<seq<nat>>, seen: array<seq<bool>>,
                 ghost owner: map<Slot, Edge>) returns (ok: bool)
    requires Shaped(mn, nm) && Building(mn, nm, table, owner, |nm|, 0) && SeenIs(seen[..], owner, |mn|)
    ensures ok ==> forall b, k :: 0 <= b < |mn| && 0 <= k < 3 ==> Slot(b, k) in owner
    ensures !ok ==> !WellFormed(mn, nm)
  {
    ghost var all := seen[..];
    for bit := 0 to |mn|
      invariant forall b, k :: 0 <= b < bit && 0 <= k < 3 ==> Slot(b, k) in owner
    {
      for e := 0 to 3
        invariant forall k :: 0 <= k < e ==> Slot(bit, k) in owner
      {
        assert all[bit] == seen[bit] && |all[bit]| == 3;
        if !seen[bit][e] {
          NeverSeen(mn, nm, table, owner, bit, e);
          return false;
        }
      }
    }
    ok := true;
  }

  /** Succeeds exactly on well-formed graphs, and then pairs edges and slots one to one. */
  method BuildEdges(mn: seq<seq<int>>, nm: seq<CheckNode>)
    returns (r: Option<seq<seq<nat>>>, ghost owner: map<Slot, Edge>)
    requires Shaped(mn, nm)
    ensures r.Some? <==> WellFormed(mn, nm)
    ensures r.Some? ==> Paired(mn, nm, r.value, owner)
  {
    var table := seq(|nm|, _ => []);
    var seen := new seq<bool>[|mn|](_ => [false, false, false]);
    owner := map[];
    r := None;
    var chk: nat := 0;
    while chk < |nm|
      invariant chk <= |nm| && Building(mn, nm, table, owner, chk, 0) && SeenIs(seen[..], owner, |mn|)
      invariant forall c :: 0 <= c < chk ==> nm[c].valid <= ROWS
    {
      var ok;
      ok, table, owner := AddCheck(mn, nm, chk, table, seen, owner);
      if !ok {
        return;
      }
      chk := chk + 1;
    }
    var ok := AllSeen(mn, nm, table, seen, owner);
    if !ok {
      return;
    }
    Finished(mn, nm, table, owner);
    r := Some(table);
  }

  lemma {:induction false} Finished(mn: seq<seq<int>>, nm: seq<CheckNode>, table: seq<seq<nat>>, owner: map<Slot, Edge>)
    requires Shaped(mn, nm) && Building(mn, nm, table, owner, |nm|, 0)
    requires forall c :: 0 <= c < |nm| ==> nm[c].valid <= ROWS
    requires forall b, k :: 0 <= b < |mn| && 0 <= k < 3 ==> Slot(b, k) in owner
    ensures Paired(mn, nm, table, owner) && WellFormed(mn, nm)
  {
    forall c, e | 0 <= c < |nm| && 0 <= e < nm[c].valid
      ensures EdgeOwns(nm, table, owner, Edge(c, e))
    {
      assert IsEdge(nm, Edge(c, e));
    }
    forall b, k | 0 <= b < |mn| && 0 <= k < 3
      ensures GoodSlot(mn, nm, b, k)
    {
      var edge := owner[Slot(b, k)];
      assert mn[b][k] == edge.chk && nm[edge.chk].neighbors[edge.e] == b;
      assert Lists(nm[edge.chk], b);
    }
    forall c | 0 <= c < |nm|
      ensures GoodCheck(mn, nm, c)
    {
      DistinctBits(mn, nm, table, owner, c);
      forall e | 0 <= e < nm[c].valid
        ensures nm[c].neighbors[e] < |mn| && Matches(mn[nm[c].neighbors[e]], c, 3) == 1
      {
        assert EdgeOwns(nm, table, owner, Edge(c, e)) && Named(mn, nm, Edge(c, e));
      }
    }
  }

  /** Two positions of a check with the same bit would share its only slot for the check. */
  lemma {:induction false} DistinctBits(mn: seq<seq<int>>, nm: seq<CheckNode>, table: seq<seq<nat>>,
                                        owner: map<Slot, Edge>, c: nat)
    requires Shaped(mn, nm) && Building(mn, nm, table, owner, |nm|, 0) && c < |nm| && nm[c].valid <= ROWS
    ensures forall d, e :: 0 <= d < e < nm[c].valid ==> nm[c].neighbors[d] != nm[c].neighbors[e]
  {
    forall d, e | 0 <= d < e < nm[c].valid
      ensures nm[c].neighbors[d] != nm[c].neighbors[e]
    {
      assert EdgeOwns(nm, table, owner, Edge(c, d)) && EdgeOwns(nm, table, owner, Edge(c, e));
      var s, t := SlotOf(nm, table, Edge(c, d)), SlotOf(nm, table, Edge(c, e));
      if s.bit == t.bit {
        assert Named(mn, nm, Edge(c, d));
        OneMatch(mn[s.bit], c, s.k, t.k);
      }
    }
  }
}
