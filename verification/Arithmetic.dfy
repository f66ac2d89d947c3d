// Bits of a number, and facts about products and quotients that the solver
// needs spelled out.
module Arithmetic {

  function Bit(p: nat, i: nat): bool {           // (p >> i) & 1
    if i == 0 then p % 2 == 1 else Bit(p / 2, i - 1)
  }

  lemma Larger(a: int, b: int, d: nat)
    requires a <= b
    ensures a * d <= b * d && (a - 1) * d == a * d - d
  {
  }

  lemma DivMod(q: nat, r: nat, d: nat)
    requires r < d
    ensures (q * d + r) / d == q && (q * d + r) % d == r
  {
    var x := q * d + r;
    assert x == (x / d) * d + x % d;
    if x / d > q { Larger(q + 1, x / d, d); } else if x / d < q { Larger(x / d + 1, q, d); }
  }
}
