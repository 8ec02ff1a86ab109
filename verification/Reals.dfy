/** Squares, square roots and products of exact reals.  The lemmas about products name them, so
    that their users compare plain reals. */
module Reals {

  function Square(x: real): real {
    x * x
  }

  function Abs(x: real): real {
    if x < 0.0 then -x else x
  }

  /** `sqrt` is a nonnegative root. */
  ghost predicate IsRoot(sqrt: real -> real) {
    sqrt(0.0) == 0.0 && forall x :: x >= 0.0 ==> sqrt(x) >= 0.0 && Square(sqrt(x)) == x
  }

  lemma NonnegativeProduct(a: real, b: real) returns (p: real)
    requires a >= 0.0 && b >= 0.0
    ensures p == a * b && p >= 0.0
  {
    p := a * b;
  }

  lemma PositiveProduct(a: real, b: real) returns (p: real)
    requires a > 0.0 && b > 0.0
    ensures p == a * b && p > 0.0
  {
    p := a * b;
  }

  lemma NonpositiveProduct(a: real, b: real) returns (p: real)
    requires a >= 0.0 && b <= 0.0
    ensures p == a * b && p <= 0.0
  {
    var q := NonnegativeProduct(a, -b);
    p := a * b;
    NegatedFactor(a, b, p, q);
  }

  lemma NegatedFactor(a: real, b: real, p: real, q: real)
    requires p == a * b && q == a * (-b)
    ensures q == -p
  {
  }

  lemma Difference(a: real, b: real, c: real, ac: real, bc: real, d: real)
    requires ac == a * c && bc == b * c && d == (a - b) * c
    ensures d == ac - bc
  {
  }

  lemma LargerProduct(a: real, b: real, c: real) returns (ac: real, bc: real)
    requires a > b && c > 0.0
    ensures ac == a * c && bc == b * c && ac > bc
  {
    var d := PositiveProduct(a - b, c);
    ac, bc := a * c, b * c;
    Difference(a, b, c, ac, bc, d);
  }

  lemma NoSmallerProduct(a: real, b: real, c: real) returns (ac: real, bc: real)
    requires a >= b && c >= 0.0
    ensures ac == a * c && bc == b * c && ac >= bc
  {
    var d := NonnegativeProduct(a - b, c);
    ac, bc := a * c, b * c;
    Difference(a, b, c, ac, bc, d);
  }

  lemma CancelFactor(a: real, b: real, c: real, ac: real, bc: real)
    requires c > 0.0 && ac == a * c && bc == b * c && ac <= bc
    ensures a <= b
  {
    if a > b { var x, y := LargerProduct(a, b, c); }
  }

  lemma ZeroFactor(a: real, b: real, ab: real)
    requires a > 0.0 && b <= 0.0 && ab == b * a && ab == 0.0
    ensures b == 0.0
  {
    if b < 0.0 { var zero, y := LargerProduct(0.0, b, a); }
  }

  lemma Squared(x: real, xx: real)
    requires xx == x * x
    ensures Square(x) == xx
  {
  }

  lemma Swapped(a: real, b: real, ab: real, ba: real)
    requires ab == a * b && ba == b * a
    ensures ab == ba
  {
  }

  lemma SquareOfProduct(k: real, s: real)
    ensures Square(k * s) == Square(k) * Square(s)
  {
    assert (k * s) * (k * s) == (k * k) * (s * s);
  }

  lemma LargerSquare(a: real, b: real)
    requires a >= b >= 0.0
    ensures Square(a) >= Square(b)
  {
    var ab, bb := NoSmallerProduct(a, b, b);
    var aa, ba := NoSmallerProduct(a, b, a);
    Swapped(a, b, ab, ba);
    Squared(a, aa);
    Squared(b, bb);
  }

  lemma StrictlyLargerSquare(a: real, b: real)
    requires a > b >= 0.0
    ensures Square(a) > Square(b)
  {
    var ab, bb := NoSmallerProduct(a, b, b);
    var aa, ba := LargerProduct(a, b, a);
    Swapped(a, b, ab, ba);
    Squared(a, aa);
    Squared(b, bb);
  }

  lemma SquareNotNegative(x: real)
    ensures Square(x) >= 0.0
  {
    if x >= 0.0 {
      LargerSquare(x, 0.0);
    } else {
      LargerSquare(-x, 0.0);
      SquareOfNegative(x);
    }
  }

  lemma SquareOfNegative(x: real)
    ensures Square(-x) == Square(x)
  {
  }

  lemma OneMoreTimes(c: real, x: real)
    ensures (c + 1.0) * x == c * x + x
  {
  }

  lemma Distribute(a: real, b: real, w: real, aw: real, bw: real)
    requires aw == a * w && bw == b * w
    ensures (a + b) * w == aw + bw
  {
  }

  lemma AtMostWhole(p: real, w: real) returns (pw: real)
    requires p <= 1.0 && w >= 0.0
    ensures pw == p * w && pw <= w && (p >= 0.0 ==> pw >= 0.0)
  {
    pw := p * w;
    var d := NonnegativeProduct(1.0 - p, w);
    Difference(1.0, p, w, w, pw, d);
    if p >= 0.0 { var same := NonnegativeProduct(p, w); }
  }

  lemma SelfQuotient(c: real)
    requires c != 0.0
    ensures c / c == 1.0
  {
  }

  lemma SquareOfAbs(x: real)
    ensures Square(Abs(x)) == Square(x)
  {
    SquareOfNegative(x);
  }

  /** Squares are in the order of the absolute values. */
  lemma SquareOrder(a: real, b: real)
    ensures Square(a) <= Square(b) <==> Abs(a) <= Abs(b)
  {
    SquareOfAbs(a);
    SquareOfAbs(b);
    if Abs(a) <= Abs(b) {
      LargerSquare(Abs(b), Abs(a));
    } else {
      StrictlyLargerSquare(Abs(a), Abs(b));
    }
  }
}
