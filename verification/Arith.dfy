/** Facts about products, quotients and remainders. */
module Arith {

  lemma {:induction false} MulMonotone(a: nat, b: nat, c: nat)
    requires a <= b
    ensures a * c <= b * c
  {
  }

  lemma {:induction false} Distribute(a: int, b: int, c: int)
    ensures (a + b) * c == a * c + b * c
    ensures (a - b) * c == a * c - b * c
  {
  }

  /** Quotient and remainder are determined by their sum. */
  lemma {:induction false} DivModIs(x: nat, q: nat, r: nat, size: nat)
    requires 0 < size && r < size && x == q * size + r
    ensures x / size == q && x % size == r
  {
    var d, e := x / size, x % size;
    assert x == d * size + e;
    if d > q {
      MulMonotone(1, d - q, size);
      Distribute(d, q, size);
    } else if d < q {
      MulMonotone(1, q - d, size);
      Distribute(q, d, size);
    }
  }

  /** Numbers less than `size` apart have different remainders. */
  lemma {:induction false} ModDistinct(a: nat, b: nat, size: nat)
    requires a < b < a + size
    ensures a % size != b % size
  {
    var q, r := a / size, a % size;
    Distribute(q, 1, size);
    if r + (b - a) < size {
      DivModIs(b, q, r + (b - a), size);
    } else {
      DivModIs(b, q + 1, r + (b - a) - size, size);
    }
  }

  /** `n` units, by repeated addition. */
  function Multiple(unit: nat, n: nat): nat {
    if n == 0 then 0 else Multiple(unit, n - 1) + unit
  }

  lemma {:induction false} MultipleIs(unit: nat, n: nat)
    ensures Multiple(unit, n) == unit * n
  {
    if n > 0 {
      MultipleIs(unit, n - 1);
      Distribute(n - 1, 1, unit);
    }
  }

  lemma {:induction false} MultipleSum(unit: nat, m: nat, n: nat)
    ensures Multiple(unit, m + n) == Multiple(unit, m) + Multiple(unit, n)
  {
    if n > 0 {
      MultipleSum(unit, m, n - 1);
    }
  }
}
