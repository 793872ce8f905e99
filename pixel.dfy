/** Pixels: three integer channel values and the position index recorded at load.
    The source stores channels as `double`, but every channel it ever stores comes
    from an `int` (a decoded sample or a truncated mean), so `int` is exact here. */
module Pixels {

  datatype Pixel = Pixel(r: int, g: int, b: int, index: int)

  datatype Channel = Red | Green | Blue

  function Value(p: Pixel, c: Channel): int
  {
    match c
    case Red => p.r
    case Green => p.g
    case Blue => p.b
  }

  function Abs(x: int): nat
  {
    if x < 0 then -x else x
  }

  /** The square of `Pixel::distance`: the sum of the squared per-channel differences.
      `Pixel::distance` takes the square root of this sum; since the root is strictly
      increasing, every comparison of distances is a comparison of these squares. */
  function SqDistance(p: Pixel, q: Pixel): (d: nat)
    ensures d == 0 <==> (p.r == q.r && p.g == q.g && p.b == q.b)
  {
    var dr, dg, db := p.r - q.r, p.g - q.g, p.b - q.b;
    SquareIsZeroOnlyAtZero(dr);
    SquareIsZeroOnlyAtZero(dg);
    SquareIsZeroOnlyAtZero(db);
    dr * dr + dg * dg + db * db
  }

  lemma SqDistanceSymmetric(p: Pixel, q: Pixel)
    ensures SqDistance(p, q) == SqDistance(q, p)
  {
  }

  lemma SquareIsZeroOnlyAtZero(x: int)
    ensures 0 <= x * x
    ensures x * x == 0 ==> x == 0
  {
    if x < 0 {
      assert x * x == (-x) * (-x);
    }
  }

  /** `Pixel::operator==`: every channel differs by at most the tolerance 1.
      The index is not compared. */
  predicate ApproxEqual(p: Pixel, q: Pixel)
    ensures ApproxEqual(p, q) ==> SqDistance(p, q) <= 3
  {
    SmallSquare(p.r - q.r);
    SmallSquare(p.g - q.g);
    SmallSquare(p.b - q.b);
    Abs(p.r - q.r) <= 1 && Abs(p.g - q.g) <= 1 && Abs(p.b - q.b) <= 1
  }

  /** `Pixel::operator!=`: the negation of `operator==`. */
  function Differs(p: Pixel, q: Pixel): (d: bool)
    ensures d <==> exists c :: Abs(Value(p, c) - Value(q, c)) > 1
  {
    var d := !ApproxEqual(p, q);
    assert d ==> (Abs(Value(p, Red) - Value(q, Red)) > 1
                  || Abs(Value(p, Green) - Value(q, Green)) > 1
                  || Abs(Value(p, Blue) - Value(q, Blue)) > 1);
    d
  }

  lemma ApproxEqualReflexive(p: Pixel)
    ensures ApproxEqual(p, p)
  {
  }

  lemma ApproxEqualSymmetric(p: Pixel, q: Pixel)
    ensures ApproxEqual(p, q) <==> ApproxEqual(q, p)
  {
  }

  /** The tolerance makes `operator==` a non-transitive relation: a chain of
      one-unit steps can drift arbitrarily far. */
  lemma ApproxEqualNotTransitive()
    ensures exists p, q, s :: ApproxEqual(p, q) && ApproxEqual(q, s) && !ApproxEqual(p, s)
  {
    var p, q, s := Pixel(0, 0, 0, 0), Pixel(1, 0, 0, 0), Pixel(2, 0, 0, 0);
    assert ApproxEqual(p, q) && ApproxEqual(q, s) && !ApproxEqual(p, s);
  }

  /** A large difference in one channel is never compensated by the others, unlike
      with the distance: pixels within distance 2 need not be `==`. */
  lemma ApproxEqualIsNotDistanceBound()
    ensures exists p, q :: SqDistance(p, q) == 4 && !ApproxEqual(p, q)
  {
    var p, q := Pixel(0, 0, 0, 0), Pixel(2, 0, 0, 0);
    assert SqDistance(p, q) == 4 && !ApproxEqual(p, q);
  }

  lemma SmallSquare(x: int)
    ensures Abs(x) <= 1 ==> x * x <= 1
  {
  }

  /** `static_cast<int>(a / n)`: integer division rounding toward zero, as C++
      truncates, rather than Dafny's Euclidean division. */
  function TruncDiv(a: int, n: int): int
    requires n > 0
  {
    if a >= 0 then a / n else -((-a) / n)
  }

  /** The truncated quotient brackets the dividend: the remainder keeps the sign of
      the dividend and is smaller than the divisor. */
  lemma TruncDivBrackets(a: int, n: int)
    requires n > 0
    ensures a >= 0 ==> 0 <= TruncDiv(a, n) && TruncDiv(a, n) * n <= a < TruncDiv(a, n) * n + n
    ensures a < 0 ==> TruncDiv(a, n) <= 0 && TruncDiv(a, n) * n - n < a <= TruncDiv(a, n) * n
  {
    var m := if a >= 0 then a else -a;
    var q := m / n;
    EuclideanBrackets(m, n);
    if a < 0 {
      NegatedProduct(q, n);
    }
  }

  /** Dafny's division of a natural number leaves a remainder in [0, n). */
  lemma EuclideanBrackets(m: nat, n: int)
    requires n > 0
    ensures 0 <= m / n && (m / n) * n <= m < (m / n) * n + n
  {
    assert m == (m / n) * n + m % n && 0 <= m % n < n;
  }

  lemma NegatedProduct(x: int, n: int)
    ensures (-x) * n == -(x * n)
  {
  }
}
