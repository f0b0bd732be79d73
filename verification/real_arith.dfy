/** Facts about division of reals by a positive denominator, which the
    solver does not find on its own. */
module RealArith {

  lemma DivUnique(x: real, y: real, n: real)
    requires n != 0.0 && y * n == x
    ensures x / n == y
  {
  }

  lemma DivStrictMono(a: real, b: real, n: real)
    requires a < b && n > 0.0
    ensures a / n < b / n
  {
    var p := a / n;
    var q := b / n;
    assert p * n == a;
    assert q * n == b;
  }

  lemma DivComplement(a: real, n: real)
    requires n > 0.0
    ensures (n - a) / n == 1.0 - a / n
  {
    var p := a / n;
    assert p * n == a;
    assert (1.0 - p) * n == n - a;
    DivUnique(n - a, 1.0 - p, n);
  }

  lemma MulNonNeg(a: real, b: real)
    requires a >= 0.0 && b >= 0.0
    ensures a * b >= 0.0
  {
  }

  lemma MulPos(a: real, b: real)
    requires a > 0.0 && b > 0.0
    ensures a * b > 0.0
  {
  }
}
