/** Facts about multiplication and division by a variable that the solver
    does not find unaided; shared by the pixel-index and frame-offset
    reasoning. */
module Arith {

  /** Multiplying by a positive factor keeps order. */
  lemma MulMono(a: int, b: int, s: int)
    requires s > 0 && a <= b
    ensures a * s <= b * s
  {
  }

  /** A value in the i-th block of s consecutive integers has quotient i and
      its offset in the block as remainder. */
  lemma DivInBlock(v: int, i: int, s: int)
    requires s > 0 && 0 <= i && i * s <= v < i * s + s
    ensures v / s == i && v % s == v - i * s
  {
    var q, r := v / s, v % s;
    assert q * s + r == v;
    if q > i {
      MulMono(i + 1, q, s);
    } else if q < i {
      MulMono(q + 1, i, s);
    }
  }
}
