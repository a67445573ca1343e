/** Facts about Euclidean division that the verifier needs spelled out. */
module Arith {

  /** Euclidean division is determined by the identity and the remainder's bounds. */
  lemma DivModUnique(a: int, d: int, q: int, r: int)
    requires d > 0 && a == d * q + r && 0 <= r < d
    ensures a / d == q && a % d == r
  {
    var q', r' := a / d, a % d;
    var k := q - q';
    assert a == d * q' + r';
    assert d * k == d * q - d * q';
    MultipleBounds(d, k);
  }

  /** A non-zero multiple of a positive `d` is at least `d` away from zero. */
  lemma MultipleBounds(d: int, k: int)
    requires d > 0
    ensures k >= 1 ==> d * k >= d
    ensures k <= -1 ==> d * k <= -d
  {
    if k >= 1 {
      assert d * k == d + d * (k - 1);
    } else if k <= -1 {
      assert d * k == -d + d * (k + 1);
    }
  }

  /** Taking `d` away leaves the remainder modulo `d` as it was. */
  lemma ModSubtractDivisor(x: int, d: int)
    requires d > 0
    ensures (x - d) % d == x % d
  {
    DivModUnique(x - d, d, x / d - 1, x % d);
  }

  /** A multiple of `d` leaves no remainder. */
  lemma MultipleMod(d: int, q: int)
    requires d > 0
    ensures (d * q) % d == 0
  {
    DivModUnique(d * q, d, q, 0);
  }
}
