/** Parity checks of the code, and the edges between checks and bits. */
module CheckGraph {
  import opened Wrappers
  import opened Gf2

  /** The first `valid` of the listed neighbours are the bits of a check. */
  datatype CheckNode = CheckNode(valid: nat, neighbors: seq<nat>)

  predicate NodeFits(node: CheckNode, n: nat) {
    node.valid <= |node.neighbors| && forall e :: 0 <= e < node.valid ==> node.neighbors[e] < n
  }

  predicate NodesFit(nm: seq<CheckNode>, n: nat) {
    forall c :: 0 <= c < |nm| ==> NodeFits(nm[c], n)
  }

  /** How many of the first `e` bits of a check are ones. */
  function OnesOf(cw: seq<bool>, node: CheckNode, e: nat): nat
    requires NodeFits(node, |cw|) && e <= node.valid
  {
    if e == 0 then 0 else OnesOf(cw, node, e - 1) + if cw[node.neighbors[e - 1]] then 1 else 0
  }

  predicate Violated(cw: seq<bool>, node: CheckNode)
    requires NodeFits(node, |cw|)
  {
    OnesOf(cw, node, node.valid) % 2 == 1
  }

  /** The syndrome weight over the first `c` checks. */
  function WeightOf(cw: seq<bool>, nm: seq<CheckNode>, c: nat): (w: nat)
    requires NodesFit(nm, |cw|) && c <= |nm|
    ensures w <= c
  {
    if c == 0 then 0 else WeightOf(cw, nm, c - 1) + if Violated(cw, nm[c - 1]) then 1 else 0
  }

  function Weight(cw: seq<bool>, nm: seq<CheckNode>): (w: nat)
    requires NodesFit(nm, |cw|)
    ensures w <= |nm|
  {
    WeightOf(cw, nm, |nm|)
  }

  predicate Satisfies(cw: seq<bool>, nm: seq<CheckNode>)
    requires NodesFit(nm, |cw|)
  {
    forall c :: 0 <= c < |nm| ==> !Violated(cw, nm[c])
  }

  /** Weight zero means that every check holds. */
  lemma {:induction false} ZeroWeight(cw: seq<bool>, nm: seq<CheckNode>, c: nat)
    requires NodesFit(nm, |cw|) && c <= |nm|
    ensures WeightOf(cw, nm, c) == 0 <==> forall k :: 0 <= k < c ==> !Violated(cw, nm[k])
  {
    if c > 0 {
      ZeroWeight(cw, nm, c - 1);
    }
  }

  lemma {:induction false} OnesOfSum(a: seq<bool>, b: seq<bool>, node: CheckNode, e: nat)
    requires |a| == |b| && NodeFits(node, |a|) && e <= node.valid
    ensures (OnesOf(Xor(a, b), node, e) + OnesOf(a, node, e) + OnesOf(b, node, e)) % 2 == 0
  {
    if e > 0 {
      OnesOfSum(a, b, node, e - 1);
    }
  }

  /** Checks are linear: the sum of two words satisfying them satisfies them. */
  lemma {:induction false} SatisfiesSum(a: seq<bool>, b: seq<bool>, nm: seq<CheckNode>)
    requires |a| == |b| && NodesFit(nm, |a|) && Satisfies(a, nm) && Satisfies(b, nm)
    ensures Satisfies(Xor(a, b), nm)
  {
    forall c | 0 <= c < |nm|
      ensures !Violated(Xor(a, b), nm[c])
    {
      OnesOfSum(a, b, nm[c], nm[c].valid);
      EvenSum(OnesOf(Xor(a, b), nm[c], nm[c].valid), OnesOf(a, nm[c], nm[c].valid), OnesOf(b, nm[c], nm[c].valid));
    }
  }

  lemma {:induction false} EvenSum(x: nat, y: nat, z: nat)
    requires (x + y + z) % 2 == 0 && y % 2 == 0 && z % 2 == 0
    ensures x % 2 == 0
  {
  }

  lemma {:induction false} NoOnes(n: nat, node: CheckNode, e: nat)
    requires NodeFits(node, n) && e <= node.valid
    ensures OnesOf(Zeros(n), node, e) == 0
  {
    if e > 0 {
      NoOnes(n, node, e - 1);
      ZerosAt(n, node.neighbors[e - 1]);
    }
  }

  lemma {:induction false} ZerosSatisfy(n: nat, nm: seq<CheckNode>)
    requires NodesFit(nm, n)
    ensures Satisfies(Zeros(n), nm)
  {
    forall c | 0 <= c < |nm|
      ensures !Violated(Zeros(n), nm[c])
    {
      NoOnes(n, nm[c], nm[c].valid);
    }
  }
}
