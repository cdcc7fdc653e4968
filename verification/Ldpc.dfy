/**
 * The iterative decoder. Message values have an abstract type with arbitrary update functions, so
 * everything stated here holds for the floating-point updates of the program whatever they compute.
 */
module Ldpc {
  import opened Wrappers
  import opened CheckGraph
  import opened BpGraph

  /** The arithmetic of one decoder run: clamped channel values, sums, the two message maps, and the sign tests. */
  datatype Ops<!F> = Ops(zero: F, one: F, channel: F -> F, add: (F, F) -> F, sub: (F, F) -> F, mul: (F, F) -> F,
                         tanhHalf: F -> F, checkMsg: F -> F, positive: F -> bool, contrary: (bool, F) -> bool)

  datatype Code = Code(mn: seq<seq<int>>, nm: seq<CheckNode>, edge: seq<seq<nat>>)

  /** A run: arithmetic, code with the owners of its slots, and channel values. */
  datatype Problem<!F> = Problem(ops: Ops<F>, code: Code, owner: map<Slot, Edge>, ch: seq<F>)

  ghost predicate ValidCode(code: Code, owner: map<Slot, Edge>) {
    && Shaped(code.mn, code.nm) && Paired(code.mn, code.nm, code.edge, owner)
    && NodesFit(code.nm, |code.mn|) && |code.nm| <= |code.mn|
    && forall c :: 0 <= c < |code.nm| ==> code.nm[c].valid <= ROWS
  }

  /** The edge table that the builder makes of two matching tables completes a valid code. */
  lemma {:induction false} BuiltIsValid(mn: seq<seq<int>>, nm: seq<CheckNode>, edge: seq<seq<nat>>,
                                        owner: map<Slot, Edge>)
    requires Shaped(mn, nm) && WellFormed(mn, nm) && Paired(mn, nm, edge, owner) && |nm| <= |mn|
    ensures ValidCode(Code(mn, nm, edge), owner)
  {
    forall c | 0 <= c < |nm|
      ensures NodeFits(nm[c], |mn|) && nm[c].valid <= ROWS
    {
      assert GoodCheck(mn, nm, c);
    }
  }

  /** A problem on a valid code. The quantifier keeps the code's properties out of proofs that do not ask for them. */
  ghost predicate Valid<F>(p: Problem<F>) {
    |p.ch| == |p.code.mn| && forall b {:trigger Unfold(b)} :: Unfold(b) ==> ValidCode(p.code, p.owner)
  }

  lemma {:induction false} CodeIsValid<F>(p: Problem<F>)
    requires Valid(p)
    ensures ValidCode(p.code, p.owner)
  {
    assert Unfold(true);
  }

  predicate IsSlot(code: Code, slot: Slot) {
    slot.bit < |code.mn| && slot.k < 3
  }

  predicate OfCode(code: Code, edge: Edge) {
    edge.chk < |code.nm| && edge.e < code.nm[edge.chk].valid
  }

  /** The slot of an edge of a valid code, and its owner. */
  lemma {:induction false} EdgeIsValid<F>(p: Problem<F>, edge: Edge)
    requires Valid(p) && OfCode(p.code, edge)
    ensures IsEdge(p.code.nm, edge) && HasEntry(p.code.edge, edge)
  {
    CodeIsValid(p);
    assert EdgeOwns(p.code.nm, p.code.edge, p.owner, Edge(edge.chk, edge.e));
  }

  lemma {:induction false} SlotOfEdge<F>(p: Problem<F>, edge: Edge, slot: Slot)
    requires Valid(p) && OfCode(p.code, edge)
    requires IsEdge(p.code.nm, edge) && HasEntry(p.code.edge, edge) ==> slot == SlotOf(p.code.nm, p.code.edge, edge)
    ensures IsEdge(p.code.nm, edge) && HasEntry(p.code.edge, edge) && IsSlot(p.code, slot)
    ensures slot in p.owner && p.owner[slot] == edge
  {
    CodeIsValid(p);
    assert EdgeOwns(p.code.nm, p.code.edge, p.owner, Edge(edge.chk, edge.e));
    assert |p.code.mn[slot.bit]| == 3;
  }

  lemma {:induction false} OwnerOfSlot<F>(p: Problem<F>, slot: Slot)
    requires Valid(p) && IsSlot(p.code, slot)
    ensures slot in p.owner && OfCode(p.code, p.owner[slot])
    ensures IsEdge(p.code.nm, p.owner[slot]) && HasEntry(p.code.edge, p.owner[slot])
    ensures SlotOf(p.code.nm, p.code.edge, p.owner[slot]) == slot
  {
    CodeIsValid(p);
    assert Slot(slot.bit, slot.k) in p.owner;
  }

  lemma {:induction false} NodesOfCode<F>(p: Problem<F>)
    requires Valid(p)
    ensures NodesFit(p.code.nm, |p.ch|) && |p.code.nm| <= |p.ch|
    ensures forall c :: 0 <= c < |p.code.nm| ==> p.code.nm[c].valid <= ROWS
  {
    CodeIsValid(p);
  }

  // ---- flooding: all messages of an iteration depend only on the previous one

  /** The message to a bit after `t` iterations. */
  ghost function Tov<F>(p: Problem<F>, t: nat, slot: Slot): F
    decreases t, 0
  {
    if t == 0 || slot !in p.owner then p.ops.zero else Message(p, t - 1, p.owner[slot])
  }

  /** The total value of a bit. */
  ghost function Zn<F>(p: Problem<F>, t: nat, bit: nat): F
    requires bit < |p.ch|
    decreases t, 1
  {
    var sum := p.ops.add(p.ops.add(Tov(p, t, Slot(bit, 0)), Tov(p, t, Slot(bit, 1))), Tov(p, t, Slot(bit, 2)));
    p.ops.add(p.ch[bit], sum)
  }

  /** The factor an edge contributes to the products of its check. */
  ghost function EdgeFactor<F>(p: Problem<F>, t: nat, edge: Edge): F
    decreases t, 3
  {
    if !IsEdge(p.code.nm, edge) || !HasEntry(p.code.edge, edge) then p.ops.zero
    else SlotFactor(p, t, SlotOf(p.code.nm, p.code.edge, edge))
  }

  ghost function SlotFactor<F>(p: Problem<F>, t: nat, slot: Slot): F
    decreases t, 2
  {
    if slot.bit >= |p.ch| then p.ops.zero
    else p.ops.tanhHalf(p.ops.sub(Zn(p, t, slot.bit), Tov(p, t, slot)))
  }

  /** The product of the first `k` factors of a check without that of position `skip`. */
  ghost function Product<F>(p: Problem<F>, t: nat, chk: nat, skip: nat, k: nat): F
    decreases t, 4, k
  {
    if k == 0 then p.ops.one
    else
      var rest := Product(p, t, chk, skip, k - 1);
      if k - 1 == skip then rest else p.ops.mul(rest, EdgeFactor(p, t, Edge(chk, k - 1)))
  }

  /** The message along an edge: the product of the other factors of its check. */
  ghost function Message<F>(p: Problem<F>, t: nat, edge: Edge): F
    decreases t, 5
  {
    var degree := if edge.chk < |p.code.nm| then p.code.nm[edge.chk].valid else 0;
    p.ops.checkMsg(Product(p, t, edge.chk, edge.e, degree))
  }

  /** The product of some factors in order. */
  function Times<F>(ops: Ops<F>, factors: seq<F>): F {
    if factors == [] then ops.one else ops.mul(Times(ops, factors[..|factors| - 1]), factors[|factors| - 1])
  }

  /** The factors of a check's first `n` edges. */
  ghost function Factors<F>(p: Problem<F>, t: nat, chk: nat, n: nat): (s: seq<F>)
    ensures |s| == n
  {
    seq(n, k requires 0 <= k < n => EdgeFactor(p, t, Edge(chk, k)))
  }

  function Without<F>(s: seq<F>, skip: nat): seq<F> {
    if skip < |s| then s[..skip] + s[skip + 1..] else s
  }

  lemma {:induction false} WithoutMore<F>(s: seq<F>, last: F, skip: nat)
    ensures Without(s + [last], skip) == if skip == |s| then s else Without(s, skip) + [last]
  {
  }

  lemma {:induction false} TimesMore<F>(ops: Ops<F>, s: seq<F>, last: F)
    ensures Times(ops, s + [last]) == ops.mul(Times(ops, s), last)
  {
    assert (s + [last])[..|s|] == s;
  }

  lemma {:induction false} OneMoreFactor<F>(ops: Ops<F>, s: seq<F>, last: F, skip: nat, product: F)
    requires product == Times(ops, Without(s, skip))
    ensures Times(ops, Without(s + [last], skip)) == if skip == |s| then product else ops.mul(product, last)
  {
    WithoutMore(s, last, skip);
    TimesMore(ops, Without(s, skip), last);
  }

  /** The product for an edge is that of all the other edges of its check: it never depends on the edge's own factor. */
  lemma {:induction false} ProductOfOthers<F>(p: Problem<F>, t: nat, chk: nat, skip: nat, n: nat)
    ensures Product(p, t, chk, skip, n) == Times(p.ops, Without(Factors(p, t, chk, n), skip))
  {
    if n > 0 {
      var rest, last := Factors(p, t, chk, n - 1), EdgeFactor(p, t, Edge(chk, n - 1));
      ProductOfOthers(p, t, chk, skip, n - 1);
      assert Factors(p, t, chk, n) == rest + [last];
      OneMoreFactor(p.ops, rest, last, skip, Product(p, t, chk, skip, n - 1));
    }
  }

  /** The hard decisions after `t` iterations, and how many checks they violate. */
  ghost function Hard<F>(p: Problem<F>, t: nat): (cw: seq<bool>)
    ensures |cw| == |p.ch|
  {
    seq(|p.ch|, i requires 0 <= i < |p.ch| => p.ops.positive(Zn(p, t, i)))
  }

  ghost function W<F>(p: Problem<F>, t: nat): (w: nat)
    requires Valid(p)
    ensures w <= |p.code.nm|
  {
    NodesOfCode(p);
    Weight(Hard(p, t), p.code.nm)
  }

  // ---- the in-place steps

  ghost predicate TovIs<F>(tov: array2<F>, p: Problem<F>, t: nat)
    reads tov
  {
    tov.Length0 == |p.ch| && tov.Length1 == 3 &&
    forall bit: nat, k: nat :: bit < |p.ch| && k < 3 ==> tov[bit, k] == Tov(p, t, Slot(bit, k))
  }

  ghost predicate ZnIs<F>(zn: array<F>, p: Problem<F>, t: nat)
    reads zn
  {
    zn.Length == |p.ch| && forall bit: nat :: bit < |p.ch| ==> zn[bit] == Zn(p, t, bit)
  }

  method DecideBits<F>(ops: Ops<F>, ch: seq<F>, tov: array2<F>, zn: array<F>, cw: array<bool>, ghost p: Problem<F>,
                       ghost t: nat)
    requires p.ops == ops && p.ch == ch && TovIs(tov, p, t)
    requires zn.Length == |ch| && cw.Length == |ch| && zn as object != cw as object
    modifies zn, cw
    ensures ZnIs(zn, p, t) && cw[..] == Hard(p, t)
  {
    ghost var hard := Hard(p, t);
    for i := 0 to |ch|
      invariant TovIs(tov, p, t)
      invariant forall bit: nat :: bit < i ==> zn[bit] == Zn(p, t, bit)
      invariant forall bit: nat :: bit < i ==> cw[bit] == hard[bit]
    {
      var sum := ops.add(ops.add(tov[i, 0], tov[i, 1]), tov[i, 2]);
      assert ops.add(ch[i], sum) == Zn(p, t, i);
      zn[i] := ops.add(ch[i], sum);
      cw[i] := ops.positive(zn[i]);
    }
  }

  method CountViolated(nm: seq<CheckNode>, cw: array<bool>) returns (ncheck: nat)
    requires NodesFit(nm, cw.Length)
    ensures ncheck == Weight(cw[..], nm)
  {
    ncheck := 0;
    for c := 0 to |nm|
      invariant ncheck == WeightOf(cw[..], nm, c)
    {
      var sum: nat := 0;
      for e := 0 to nm[c].valid
        invariant sum == OnesOf(cw[..], nm[c], e)
      {
        sum := sum + if cw[nm[c].neighbors[e]] then 1 else 0;
      }
      if sum % 2 == 1 {
        ncheck := ncheck + 1;
      }
    }
  }

  /** The factors of the checks before `c`, and of `c` before position `e`. */
  ghost predicate FactorsBefore<F>(tanhtoc: array2<F>, p: Problem<F>, t: nat, c: nat, e: nat)
    reads tanhtoc
  {
    tanhtoc.Length0 == |p.code.nm| && tanhtoc.Length1 == ROWS &&
    forall x: nat, j: nat :: x < |p.code.nm| && j < ROWS && j < p.code.nm[x].valid && (x < c || (x == c && j < e)) ==>
      tanhtoc[x, j] == EdgeFactor(p, t, Edge(x, j))
  }

  lemma {:induction false} EdgeFactorIs<F>(p: Problem<F>, t: nat, edge: Edge, slot: Slot, zn: F, tov: F)
    requires Valid(p) && OfCode(p.code, edge) && IsEdge(p.code.nm, edge) && HasEntry(p.code.edge, edge)
    requires slot == SlotOf(p.code.nm, p.code.edge, edge) && slot.bit < |p.ch|
    requires zn == Zn(p, t, slot.bit) && tov == Tov(p, t, slot)
    ensures p.ops.tanhHalf(p.ops.sub(zn, tov)) == EdgeFactor(p, t, edge)
  {
  }

  method UpdateFactor<F>(ops: Ops<F>, code: Code, zn: array<F>, tov: array2<F>, toc: array2<F>, tanhtoc: array2<F>,
                         i: nat, j: nat, ghost p: Problem<F>, ghost t: nat)
    requires Valid(p) && p.ops == ops && p.code == code && TovIs(tov, p, t) && ZnIs(zn, p, t)
    requires toc.Length0 == |code.nm| && toc.Length1 == ROWS
    requires FactorsBefore(tanhtoc, p, t, i, j) && OfCode(code, Edge(i, j))
    requires toc != tanhtoc && toc != tov && tanhtoc != tov
    modifies toc, tanhtoc
    ensures FactorsBefore(tanhtoc, p, t, i, j + 1)
  {
    ghost var edge := Edge(i, j);
    EdgeIsValid(p, edge);
    var bit := code.nm[i].neighbors[j];
    ghost var slot := SlotOf(code.nm, code.edge, edge);
    SlotOfEdge(p, edge, slot);
    EdgeFactorIs(p, t, edge, slot, zn[bit], tov[bit, code.edge[i][j]]);
    toc[i, j] := ops.sub(zn[bit], tov[bit, code.edge[i][j]]);
    tanhtoc[i, j] := ops.tanhHalf(toc[i, j]);
  }

  method UpdateFactors<F>(ops: Ops<F>, code: Code, zn: array<F>, tov: array2<F>, toc: array2<F>, tanhtoc: array2<F>,
                          ghost p: Problem<F>, ghost t: nat)
    requires Valid(p) && p.ops == ops && p.code == code && TovIs(tov, p, t) && ZnIs(zn, p, t)
    requires toc.Length0 == |code.nm| && toc.Length1 == ROWS
    requires tanhtoc.Length0 == |code.nm| && tanhtoc.Length1 == ROWS
    requires toc != tanhtoc && toc != tov && tanhtoc != tov
    modifies toc, tanhtoc
    ensures FactorsBefore(tanhtoc, p, t, |code.nm|, 0)
  {
    for i := 0 to |code.nm|
      invariant TovIs(tov, p, t) && ZnIs(zn, p, t) && FactorsBefore(tanhtoc, p, t, i, 0)
    {
      for j := 0 to code.nm[i].valid
        invariant TovIs(tov, p, t) && ZnIs(zn, p, t) && FactorsBefore(tanhtoc, p, t, i, j)
      {
        UpdateFactor(ops, code, zn, tov, toc, tanhtoc, i, j, p, t);
      }
    }
  }

  method ProductWithout<F>(ops: Ops<F>, code: Code, tanhtoc: array2<F>, chk: nat, e: nat, ghost p: Problem<F>,
                           ghost t: nat)
      returns (prod: F)
    requires p.ops == ops && p.code == code && FactorsBefore(tanhtoc, p, t, |code.nm|, 0)
    requires chk < |code.nm| && code.nm[chk].valid <= ROWS
    ensures prod == Product(p, t, chk, e, code.nm[chk].valid)
  {
    prod := ops.one;
    for k := 0 to code.nm[chk].valid
      invariant prod == Product(p, t, chk, e, k)
    {
      if k != e {
        prod := ops.mul(prod, tanhtoc[chk, k]);
      }
    }
  }

  /** The slots whose owners come before position `e` of check `c` hold new messages, the others old ones. */
  ghost predicate Mixed<F>(tov: array2<F>, p: Problem<F>, t: nat, c: nat, e: nat)
    reads tov
  {
    tov.Length0 == |p.ch| && tov.Length1 == 3 &&
    forall bit: nat, k: nat :: bit < |p.ch| && k < 3 ==>
      tov[bit, k] == Tov(p, if Earlier(p.owner, Slot(bit, k), c, e) then t + 1 else t, Slot(bit, k))
  }

  /** The slot is owned by an edge before position `e` of check `c`. */
  predicate Earlier(owner: map<Slot, Edge>, slot: Slot, c: nat, e: nat) {
    slot in owner && (owner[slot].chk < c || (owner[slot].chk == c && owner[slot].e < e))
  }

  method UpdateMessage<F>(ops: Ops<F>, code: Code, tanhtoc: array2<F>, tov: array2<F>, chk: nat, e: nat,
                          ghost p: Problem<F>, ghost t: nat)
    requires Valid(p) && p.ops == ops && p.code == code && OfCode(code, Edge(chk, e)) && tov != tanhtoc
    requires FactorsBefore(tanhtoc, p, t, |code.nm|, 0) && Mixed(tov, p, t, chk, e)
    modifies tov
    ensures Mixed(tov, p, t, chk, e + 1)
  {
    ghost var edge := Edge(chk, e);
    assert IsEdge(code.nm, edge) && HasEntry(code.edge, edge) by {
      CodeIsValid(p);
      assert EdgeOwns(code.nm, code.edge, p.owner, edge);
    }
    ghost var slot := SlotOf(code.nm, code.edge, edge);
    SlotOfEdge(p, edge, slot);
    var prod := ProductWithout(ops, code, tanhtoc, chk, e, p, t);
    NextOwner(p, slot, chk, e);
    assert Tov(p, t + 1, slot) == ops.checkMsg(prod);
    tov[code.nm[chk].neighbors[e], code.edge[chk][e]] := ops.checkMsg(prod);
  }

  method UpdateMessages<F>(ops: Ops<F>, code: Code, tanhtoc: array2<F>, tov: array2<F>, ghost p: Problem<F>,
                           ghost t: nat)
    requires Valid(p) && p.ops == ops && p.code == code && tov != tanhtoc
    requires TovIs(tov, p, t) && FactorsBefore(tanhtoc, p, t, |code.nm|, 0)
    modifies tov
    ensures TovIs(tov, p, t + 1)
  {
    for chk := 0 to |code.nm|
      invariant FactorsBefore(tanhtoc, p, t, |code.nm|, 0) && Mixed(tov, p, t, chk, 0)
    {
      for e := 0 to code.nm[chk].valid
        invariant FactorsBefore(tanhtoc, p, t, |code.nm|, 0) && Mixed(tov, p, t, chk, e)
      {
        UpdateMessage(ops, code, tanhtoc, tov, chk, e, p, t);
      }
      NextCheckOwners(p, chk);
    }
    AllOwned(p);
  }

  lemma {:induction false} NextOwner<F>(p: Problem<F>, slot: Slot, c: nat, e: nat)
    requires Valid(p) && IsSlot(p.code, slot) && slot in p.owner && p.owner[slot] == Edge(c, e)
    ensures forall other: Slot :: IsSlot(p.code, other) ==>
      (Earlier(p.owner, other, c, e + 1) <==> Earlier(p.owner, other, c, e) || other == slot)
  {
    forall other: Slot | IsSlot(p.code, other)
      ensures Earlier(p.owner, other, c, e + 1) <==> Earlier(p.owner, other, c, e) || other == slot
    {
      OwnerOfSlot(p, other);
      OwnerOfSlot(p, slot);
    }
  }

  lemma {:induction false} NextCheckOwners<F>(p: Problem<F>, c: nat)
    requires Valid(p) && c < |p.code.nm|
    ensures forall slot: Slot :: IsSlot(p.code, slot) ==>
      (Earlier(p.owner, slot, c + 1, 0) <==> Earlier(p.owner, slot, c, p.code.nm[c].valid))
  {
    forall slot: Slot | IsSlot(p.code, slot)
      ensures Earlier(p.owner, slot, c + 1, 0) <==> Earlier(p.owner, slot, c, p.code.nm[c].valid)
    {
      OwnerOfSlot(p, slot);
    }
  }

  lemma {:induction false} AllOwned<F>(p: Problem<F>)
    requires Valid(p)
    ensures forall slot: Slot :: IsSlot(p.code, slot) ==> Earlier(p.owner, slot, |p.code.nm|, 0)
  {
    forall slot: Slot | IsSlot(p.code, slot)
      ensures Earlier(p.owner, slot, |p.code.nm|, 0)
    {
      OwnerOfSlot(p, slot);
    }
  }

  // ---- the decoder

  datatype BpOpts = BpOpts(maxIter: nat, earlyAbort: bool)

  datatype BpRes = BpRes(hardErr: int, iter: nat, finalChecks: nat, bestChecks: nat, earlyAbort: bool,
                         bestCw: seq<bool>, bestCwValid: bool)

  /** Iterations in a row, up to `t`, without progress. */
  ghost function Stalls<F>(p: Problem<F>, t: nat): nat
    requires Valid(p)
  {
    if t == 0 || W(p, t) < W(p, t - 1) then 0 else Stalls(p, t - 1) + 1
  }

  ghost predicate Aborts<F>(p: Problem<F>, opts: BpOpts, t: nat)
    requires Valid(p)
  {
    opts.earlyAbort && t > 0 && Stalls(p, t) >= 5 && t >= 10 && W(p, t) > 15
  }

  lemma {:induction false} StallsCount<F>(p: Problem<F>, t: nat, n: nat)
    requires Valid(p)
    ensures Stalls(p, t) >= n <==> n <= t && forall s: nat :: t - n < s <= t ==> W(p, s) >= W(p, s - 1)
  {
    if t > 0 && n > 0 {
      StallsCount(p, t - 1, n - 1);
    }
  }

  /** A run is given up when five iterations in a row brought no progress, ten are over and more than 15 checks fail. */
  lemma {:induction false} AbortsWithoutProgress<F>(p: Problem<F>, opts: BpOpts, t: nat)
    requires Valid(p)
    ensures Aborts(p, opts, t) <==>
      && opts.earlyAbort && t >= 10 && W(p, t) >= 16
      && forall s: nat :: t - 5 < s <= t ==> W(p, s) >= W(p, s - 1)
  {
    StallsCount(p, t, 5);
  }

  /** The run ends at iteration `t` if it gets there. */
  ghost predicate Stops<F>(p: Problem<F>, opts: BpOpts, t: nat)
    requires Valid(p)
  {
    W(p, t) == 0 || Aborts(p, opts, t) || t == opts.maxIter
  }

  /** `b` is the first of the iterates up to `t` that violate fewest checks. */
  ghost predicate FirstBest<F>(p: Problem<F>, b: nat, t: nat)
    requires Valid(p)
  {
    b <= t && (forall s: nat :: s < b ==> W(p, s) > W(p, b)) && (forall s: nat :: s <= t ==> W(p, s) >= W(p, b))
  }

  /** How many of the first `i` decisions contradict the sign of their channel value. */
  function Contradicted<F>(ops: Ops<F>, cw: seq<bool>, llr: seq<F>, i: nat): nat
    requires i <= |cw| && i <= |llr|
  {
    if i == 0 then 0
    else Contradicted(ops, cw, llr, i - 1) + if ops.contrary(cw[i - 1], llr[i - 1]) then 1 else 0
  }

  /** The positions among the first `n` at which a decision contradicts its channel value. */
  function Contradictions<F>(ops: Ops<F>, cw: seq<bool>, llr: seq<F>, n: nat): set<nat>
    requires n <= |cw| && n <= |llr|
  {
    set i: nat | i < n && ops.contrary(cw[i], llr[i])
  }

  lemma {:induction false} MoreContradictions<F>(ops: Ops<F>, cw: seq<bool>, llr: seq<F>, n: nat)
    requires n < |cw| && n < |llr|
    ensures Contradictions(ops, cw, llr, n + 1) ==
            Contradictions(ops, cw, llr, n) + (if ops.contrary(cw[n], llr[n]) then {n} else {})
    ensures n !in Contradictions(ops, cw, llr, n)
  {
  }

  lemma {:induction false} ContradictedIsNumber<F>(ops: Ops<F>, cw: seq<bool>, llr: seq<F>, n: nat)
    requires n <= |cw| && n <= |llr|
    ensures Contradicted(ops, cw, llr, n) == |Contradictions(ops, cw, llr, n)|
  {
    if n > 0 {
      ContradictedIsNumber(ops, cw, llr, n - 1);
      MoreContradictions(ops, cw, llr, n - 1);
    }
  }

  method CountContradicted<F>(ops: Ops<F>, cw: seq<bool>, llr: seq<F>) returns (count: nat)
    requires |cw| == |llr|
    ensures count == Contradicted(ops, cw, llr, |llr|)
  {
    count := 0;
    for i := 0 to |llr|
      invariant count == Contradicted(ops, cw, llr, i)
    {
      if ops.contrary(cw[i], llr[i]) {
        count := count + 1;
      }
    }
  }

  /** The channel values of a run, clamped and scaled. */
  function Channel<F>(ops: Ops<F>, llr: seq<F>): (ch: seq<F>)
    ensures |ch| == |llr|
  {
    seq(|llr|, i requires 0 <= i < |llr| => ops.channel(llr[i]))
  }

  /** What a run reports, whatever the message arithmetic. */
  ghost predicate Reported<F>(p: Problem<F>, llr: seq<F>, opts: BpOpts, res: BpRes, best: nat)
    requires Valid(p) && |llr| == |p.ch|
  {
    && Stops(p, opts, res.iter) && (forall t: nat :: t < res.iter ==> !Stops(p, opts, t))
    && res.finalChecks == W(p, res.iter)
    && res.hardErr == (if W(p, res.iter) == 0 then Contradicted(p.ops, Hard(p, res.iter), llr, |llr|) else -1)
    && (res.earlyAbort <==> W(p, res.iter) != 0 && Aborts(p, opts, res.iter))
    && FirstBest(p, best, res.iter)
    && res.bestChecks == W(p, best) && res.bestCw == Hard(p, best) && res.bestCwValid
  }

  /** The decoded bits after a run: the tail of a word that satisfies every check, or what was there before. */
  ghost predicate DecodedIs<F>(p: Problem<F>, res: BpRes, before: seq<bool>, after: seq<bool>)
    requires Valid(p) && |p.code.nm| <= |p.ch|
  {
    after == if res.hardErr >= 0 then Hard(p, res.iter)[|p.code.nm|..] else before
  }

  /** The hard decisions of one iteration and how many checks they violate. */
  method Decide<F>(ops: Ops<F>, code: Code, ch: seq<F>, tov: array2<F>, zn: array<F>, cw: array<bool>,
                   ghost p: Problem<F>, ghost t: nat) returns (ncheck: nat)
    requires Valid(p) && p.ops == ops && p.code == code && p.ch == ch && TovIs(tov, p, t)
    requires zn.Length == |ch| && cw.Length == |ch| && zn as object != cw as object
    modifies zn, cw
    ensures ZnIs(zn, p, t) && cw[..] == Hard(p, t) && ncheck == W(p, t)
  {
    DecideBits(ops, ch, tov, zn, cw, p, t);
    NodesOfCode(p);
    ncheck := CountViolated(code.nm, cw);
  }

  method CopyTail(decoded: array<bool>, cw: array<bool>)
    requires decoded.Length <= cw.Length && decoded != cw
    modifies decoded
    ensures decoded[..] == cw[cw.Length - decoded.Length..]
  {
    var m := cw.Length - decoded.Length;
    for i := 0 to decoded.Length
      invariant forall k :: 0 <= k < i ==> decoded[k] == cw[m + k]
    {
      decoded[i] := cw[m + i];
    }
  }

  /** No iteration before `t` ended the run. */
  ghost predicate Running<F>(p: Problem<F>, opts: BpOpts, t: nat)
    requires Valid(p)
  {
    forall s: nat :: s < t ==> !Stops(p, opts, s)
  }

  /** The best iterate so far, and what is recorded of it. */
  ghost predicate BestIs<F>(p: Problem<F>, res: BpRes, best: nat, t: nat)
    requires Valid(p)
  {
    FirstBest(p, best, t) && res.bestChecks == W(p, best) && res.bestCw == Hard(p, best) && res.bestCwValid
  }

  /** What the record says before iteration `t`. */
  ghost predicate Recorded<F>(p: Problem<F>, res: BpRes, best: nat, t: nat)
    requires Valid(p)
  {
    && res.hardErr == -1 && !res.earlyAbort
    && if t == 0 then res.bestChecks == |p.code.nm| + 1 else BestIs(p, res, best, t - 1)
  }

  lemma {:induction false} BestStep<F>(p: Problem<F>, res: BpRes, best: nat, t: nat, next: BpRes, nextBest: nat)
    requires Valid(p) && Recorded(p, res, best, t)
    requires if W(p, t) < res.bestChecks
             then next.bestChecks == W(p, t) && next.bestCw == Hard(p, t) && next.bestCwValid && nextBest == t
             else next.bestChecks == res.bestChecks && next.bestCw == res.bestCw
                  && next.bestCwValid == res.bestCwValid && nextBest == best
    ensures BestIs(p, next, nextBest, t)
  {
    assert t == 0 ==> W(p, t) < res.bestChecks;
    if W(p, t) < res.bestChecks {
      forall s: nat | s < t
        ensures W(p, s) > W(p, t)
      {
      }
    }
  }

  /** Both passes of one iteration's message update. */
  method Flood<F>(ops: Ops<F>, code: Code, zn: array<F>, tov: array2<F>, toc: array2<F>, tanhtoc: array2<F>,
                  ghost p: Problem<F>, ghost t: nat)
    requires Valid(p) && p.ops == ops && p.code == code && TovIs(tov, p, t) && ZnIs(zn, p, t)
    requires toc.Length0 == |code.nm| && toc.Length1 == ROWS
    requires tanhtoc.Length0 == |code.nm| && tanhtoc.Length1 == ROWS
    requires toc != tanhtoc && toc != tov && tanhtoc != tov
    modifies toc, tanhtoc, tov
    ensures TovIs(tov, p, t + 1)
  {
    UpdateFactors(ops, code, zn, tov, toc, tanhtoc, p, t);
    UpdateMessages(ops, code, tanhtoc, tov, p, t);
  }

  /** Iterations without progress, counted as the decoder counts them. */
  function CountStall(ncnt: nat, ncheck: nat, nclast: nat, t: nat): nat {
    if t == 0 then ncnt else if ncheck < nclast then 0 else ncnt + 1
  }

  lemma {:induction false} StallStep<F>(p: Problem<F>, t: nat, ncnt: nat, nclast: nat)
    requires Valid(p) && (if t == 0 then ncnt == 0 else nclast == W(p, t - 1) && ncnt == Stalls(p, t - 1))
    ensures CountStall(ncnt, W(p, t), nclast, t) == Stalls(p, t)
  {
  }

  lemma {:induction false} Conclude<F>(p: Problem<F>, llr: seq<F>, opts: BpOpts, res: BpRes, best: nat, t: nat)
    requires Valid(p) && |llr| == |p.ch| && Running(p, opts, t) && Stops(p, opts, t) && BestIs(p, res, best, t)
    requires res.iter == t && res.finalChecks == W(p, t)
    requires res.hardErr == if W(p, t) == 0 then Contradicted(p.ops, Hard(p, t), llr, |llr|) else -1
    requires res.earlyAbort <==> W(p, t) != 0 && Aborts(p, opts, t)
    ensures Reported(p, llr, opts, res, best)
  {
  }

  /** Before iteration `t`: none ended the run, and the record and the count of stalls are those of the iterates. */
  ghost predicate InRun<F>(p: Problem<F>, opts: BpOpts, res: BpRes, best: nat, t: nat, ncnt: nat, nclast: nat)
    requires Valid(p)
  {
    forall b {:trigger Unfold(b)} :: Unfold(b) ==>
      && Running(p, opts, t) && Recorded(p, res, best, t)
      && if t == 0 then ncnt == 0 else nclast == W(p, t - 1) && ncnt == Stalls(p, t - 1)
  }

  /** The report of a run that ends at iteration `t`. */
  ghost predicate EndsAt<F>(p: Problem<F>, llr: seq<F>, opts: BpOpts, res: BpRes, best: nat, t: nat)
    requires Valid(p) && |llr| == |p.ch|
  {
    res.iter == t && forall b {:trigger Unfold(b)} :: Unfold(b) ==> Reported(p, llr, opts, res, best)
  }

  lemma {:induction false} EndIsReported<F>(p: Problem<F>, llr: seq<F>, opts: BpOpts, res: BpRes, best: nat, t: nat)
    requires Valid(p) && |llr| == |p.ch| && EndsAt(p, llr, opts, res, best, t)
    ensures Reported(p, llr, opts, res, best)
  {
    assert Unfold(true);
  }

  /** Records the iterate of one iteration, and says whether it ends the run. */
  method Judge<F>(ops: Ops<F>, llr: seq<F>, opts: BpOpts, res0: BpRes, iter: nat, ncheck: nat, word: seq<bool>,
                  ncnt0: nat, nclast: nat, ghost p: Problem<F>, ghost best0: nat)
      returns (res: BpRes, ncnt: nat, stop: bool, ghost best: nat)
    requires Valid(p) && p.ops == ops && |llr| == |p.ch| && iter <= opts.maxIter
    requires InRun(p, opts, res0, best0, iter, ncnt0, nclast) && ncheck == W(p, iter) && word == Hard(p, iter)
    ensures stop || iter == opts.maxIter ==> EndsAt(p, llr, opts, res, best, iter)
    ensures !stop && iter < opts.maxIter ==> InRun(p, opts, res, best, iter + 1, ncnt, ncheck)
    ensures res.hardErr >= 0 <==> ncheck == 0
    ensures ncheck == 0 ==> stop
  {
    assert Unfold(true);
    res, best, ncnt, stop := res0.(iter := iter, finalChecks := ncheck), best0, ncnt0, false;
    if ncheck < res.bestChecks {
      res := res.(bestChecks := ncheck, bestCw := word, bestCwValid := true);
      best := iter;
    }
    BestStep(p, res0, best0, iter, res, best);
    StallStep(p, iter, ncnt0, nclast);
    if ncheck == 0 {
      var count := CountContradicted(ops, word, llr);
      res := res.(hardErr := count);
      stop := true;
    } else if iter > 0 {
      ncnt := if ncheck < nclast then 0 else ncnt + 1;
      if opts.earlyAbort && ncnt >= 5 && iter >= 10 && ncheck > 15 {
        res := res.(earlyAbort := true);
        stop := true;
      }
    }
    if stop || iter == opts.maxIter {
      Conclude(p, llr, opts, res, best, iter);
    }
  }

  /** The zeroed work arrays of a run. */
  method Allocate<F>(ops: Ops<F>, n: nat, m: nat, ghost p: Problem<F>)
      returns (tov: array2<F>, toc: array2<F>, tanhtoc: array2<F>, zn: array<F>)
    requires p.ops == ops && |p.ch| == n
    ensures fresh(tov) && fresh(toc) && fresh(tanhtoc) && fresh(zn)
    ensures TovIs(tov, p, 0) && zn.Length == n
    ensures toc.Length0 == m && toc.Length1 == ROWS && tanhtoc.Length0 == m && tanhtoc.Length1 == ROWS
    ensures toc != tanhtoc && toc != tov && tanhtoc != tov
  {
    tov := new F[n, 3]((_, _) => ops.zero);
    toc := new F[m, ROWS]((_, _) => ops.zero);
    tanhtoc := new F[m, ROWS]((_, _) => ops.zero);
    zn := new F[n](_ => ops.zero);
  }

  method BpDecode<F>(ops: Ops<F>, code: Code, llr: seq<F>, decoded: array<bool>, cw: array<bool>, opts: BpOpts,
                     ghost p: Problem<F>)
      returns (res: BpRes, ghost best: nat)
    requires p.ops == ops && p.code == code && p.ch == Channel(ops, llr) && Valid(p)
    requires |code.nm| <= |llr| == cw.Length && decoded.Length == |llr| - |code.nm| && decoded != cw
    modifies decoded, cw
    ensures Reported(p, llr, opts, res, best)
    ensures cw[..] == Hard(p, res.iter)
    ensures DecodedIs(p, res, old(decoded[..]), decoded[..])
  {
    var ch := Channel(ops, llr);
    var tov, toc, tanhtoc, zn := Allocate(ops, |llr|, |code.nm|, p);
    res := BpRes(-1, 0, |code.nm|, |code.nm| + 1, false, [], false);
    best := 0;
    var ncnt: nat, nclast: nat := 0, 0;
    var iter: nat := 0;
    ghost var before := decoded[..];
    while true
      invariant iter <= opts.maxIter && decoded[..] == before && TovIs(tov, p, iter)
      invariant InRun(p, opts, res, best, iter, ncnt, nclast)
      decreases opts.maxIter - iter
    {
      var ncheck := Decide(ops, code, ch, tov, zn, cw, p, iter);
      var stop;
      res, ncnt, stop, best := Judge(ops, llr, opts, res, iter, ncheck, cw[..], ncnt, nclast, p, best);
      if ncheck == 0 {
        CopyTail(decoded, cw);
      }
      if stop {
        EndIsReported(p, llr, opts, res, best, iter);
        return;
      }
      nclast := ncheck;
      Flood(ops, code, zn, tov, toc, tanhtoc, p, iter);
      if iter == opts.maxIter {
        EndIsReported(p, llr, opts, res, best, iter);
        return;
      }
      iter := iter + 1;
    }
  }

  /** A non-negative error count means that every check holds for the returned word. */
  lemma {:induction false} HardErrMeansSatisfied<F>(p: Problem<F>, llr: seq<F>, opts: BpOpts, res: BpRes, best: nat)
    requires Valid(p) && |llr| == |p.ch| && Reported(p, llr, opts, res, best)
    ensures NodesFit(p.code.nm, |p.ch|)
    ensures res.hardErr >= 0 <==> Satisfies(Hard(p, res.iter), p.code.nm)
    ensures res.bestChecks == 0 <==> res.hardErr >= 0
  {
    NodesOfCode(p);
    ZeroWeight(Hard(p, res.iter), p.code.nm, |p.code.nm|);
    assert W(p, best) == 0 ==> Stops(p, opts, best);
  }

  /** The report of a run is determined by the problem, the channel values and the options. */
  lemma {:induction false} ReportIsUnique<F>(p: Problem<F>, llr: seq<F>, opts: BpOpts, res: BpRes, best: nat,
                                             other: BpRes, otherBest: nat)
    requires Valid(p) && |llr| == |p.ch| && Reported(p, llr, opts, res, best)
    requires Reported(p, llr, opts, other, otherBest)
    ensures res == other
  {
    assert res.iter == other.iter;
    assert W(p, best) >= W(p, otherBest) && W(p, otherBest) >= W(p, best);
    assert best == otherBest;
  }
}
