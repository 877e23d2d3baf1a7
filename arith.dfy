/** Small facts about natural-number multiplication and division used by the layouts. */
module Arith {

  lemma LeMul(a: nat, b: nat, c: nat)
    requires a <= b
    ensures a * c <= b * c
  {
  }

  /** Division by `w` recovers the quotient and remainder of q * w + r when r < w. */
  lemma DivModUnique(q: nat, r: nat, w: nat)
    requires r < w
    ensures (q * w + r) / w == q
    ensures (q * w + r) % w == r
  {
    var n := q * w + r;
    var d := n / w;
    assert n == d * w + n % w;
    if d < q {
      LeMul(d + 1, q, w);
    } else if d > q {
      LeMul(q + 1, d, w);
    }
  }

  /**
   Position r of block q, in blocks of w, lies in the first n blocks when q < n,
   and division by w recovers q and r.
   */
  lemma BlockPosition(q: nat, r: nat, w: nat, n: nat)
    requires r < w && q < n
    ensures q * w + r < n * w
    ensures (q * w + r) / w == q && (q * w + r) % w == r
  {
    LeMul(q + 1, n, w);
    DivModUnique(q, r, w);
  }
}
