/** A cluster: a barycentre (centroid) and the pixels currently assigned to it. */
module Clusters {
  import opened Pixels
  import opened Errors

  /** The sum of one channel over a member list, accumulated front to back. */
  function Sum(ps: seq<Pixel>, c: Channel): int
  {
    if ps == [] then 0 else Sum(ps[..|ps| - 1], c) + Value(ps[|ps| - 1], c)
  }

  /** The centroid `compute_barycentre` stores: per channel, the sum divided by the
      member count and truncated toward zero. `Pixel(int,int,int)` leaves the index
      unset; the model sets it to 0 (no later computation reads it). */
  function Centroid(ps: seq<Pixel>): Pixel
    requires ps != []
  {
    Pixel(TruncDiv(Sum(ps, Red), |ps|), TruncDiv(Sum(ps, Green), |ps|), TruncDiv(Sum(ps, Blue), |ps|), 0)
  }

  /** Each channel of the centroid is the member mean truncated toward zero: with
      s the channel sum and n the member count, n times the channel brackets s
      from below when s is non-negative, and from above when s is negative, with a
      gap smaller than n. */
  lemma CentroidChannel(ps: seq<Pixel>, c: Channel)
    requires ps != []
    ensures Sum(ps, c) >= 0 ==>
      0 <= Value(Centroid(ps), c) && |ps| * Value(Centroid(ps), c) <= Sum(ps, c) < |ps| * Value(Centroid(ps), c) + |ps|
    ensures Sum(ps, c) < 0 ==>
      Value(Centroid(ps), c) <= 0 && |ps| * Value(Centroid(ps), c) - |ps| < Sum(ps, c) <= |ps| * Value(Centroid(ps), c)
  {
    CentroidValue(ps, c);
    TruncDivBrackets(Sum(ps, c), |ps|);
  }

  lemma CentroidValue(ps: seq<Pixel>, c: Channel)
    requires ps != []
    ensures Value(Centroid(ps), c) == TruncDiv(Sum(ps, c), |ps|)
  {
  }

  lemma {:induction false} SumBounds(ps: seq<Pixel>, c: Channel, lo: int, hi: int)
    requires forall i :: 0 <= i < |ps| ==> lo <= Value(ps[i], c) <= hi
    ensures |ps| * lo <= Sum(ps, c) <= |ps| * hi
  {
    if ps != [] {
      var n := |ps| - 1;
      SumBounds(ps[..n], c, lo, hi);
      MulSucc(n, lo);
      MulSucc(n, hi);
      assert n * lo <= Sum(ps[..n], c) <= n * hi;
      assert lo <= Value(ps[n], c) <= hi;
    }
  }

  /** The centroid lies within the range its members span, channel by channel:
      truncation never carries it outside, whatever the signs. */
  lemma CentroidWithinBounds(ps: seq<Pixel>, c: Channel, lo: int, hi: int)
    requires ps != []
    requires forall i :: 0 <= i < |ps| ==> lo <= Value(ps[i], c) <= hi
    ensures lo <= Value(Centroid(ps), c) <= hi
  {
    SumBounds(ps, c, lo, hi);
    CentroidValue(ps, c);
    TruncDivWithin(Sum(ps, c), |ps|, lo, hi);
  }

  lemma TruncDivWithin(s: int, n: int, lo: int, hi: int)
    requires n > 0 && n * lo <= s <= n * hi
    ensures lo <= TruncDiv(s, n) <= hi
  {
    var q := TruncDiv(s, n);
    TruncDivBrackets(s, n);
    if q < lo {
      if s >= 0 {
        MulMonotone(q + 1, lo, n);   // (q + 1) * n <= lo * n <= s < q * n + n
        MulSucc(q, n);
      } else {
        MulMonotone(q, lo - 1, n);   // s <= q * n <= lo * n - n < lo * n <= s
        MulSucc(lo - 1, n);
      }
    }
    if q > hi {
      if s >= 0 {
        MulMonotone(hi + 1, q, n);   // hi * n + n <= q * n <= s <= hi * n
        MulSucc(hi, n);
      } else {
        MulMonotone(hi, q - 1, n);   // hi * n <= q * n - n < s <= hi * n
        MulSucc(q - 1, n);
      }
    }
  }

  lemma MulMonotone(x: int, y: int, n: nat)
    requires x <= y
    ensures x * n <= y * n
  {
  }

  lemma MulSucc(x: int, n: int)
    ensures (x + 1) * n == x * n + n
  {
  }

  /** A cluster whose members all share one colour has that colour as centroid. */
  lemma CentroidOfUniformColour(ps: seq<Pixel>, p: Pixel)
    requires ps != []
    requires forall i :: 0 <= i < |ps| ==> ps[i].r == p.r && ps[i].g == p.g && ps[i].b == p.b
    ensures Centroid(ps) == Pixel(p.r, p.g, p.b, 0)
  {
    forall c ensures Value(Centroid(ps), c) == Value(p, c) {
      CentroidWithinBounds(ps, c, Value(p, c), Value(p, c));
    }
    assert Value(Centroid(ps), Red) == p.r;
    assert Value(Centroid(ps), Green) == p.g;
    assert Value(Centroid(ps), Blue) == p.b;
  }

  lemma {:induction false} SumAppend(ps: seq<Pixel>, qs: seq<Pixel>, c: Channel)
    ensures Sum(ps + qs, c) == Sum(ps, c) + Sum(qs, c)
  {
    if qs != [] {
      assert (ps + qs)[..|ps + qs| - 1] == ps + qs[..|qs| - 1];
      SumAppend(ps, qs[..|qs| - 1], c);
    } else {
      assert ps + qs == ps;
    }
  }

  lemma TruncDivScaled(a: int, n: int)
    requires n > 0
    ensures TruncDiv(2 * a, 2 * n) == TruncDiv(a, n)
  {
    var q := TruncDiv(a, n);
    TruncDivBrackets(a, n);
    MulSucc(q, n);
    MulSucc(q - 1, n);
    Double(q, n);
    TruncDivUnique(2 * a, 2 * n, q);
  }

  /** Truncating division is determined by its bracketing of the dividend. */
  lemma TruncDivUnique(a: int, n: int, x: int)
    requires n > 0
    requires a >= 0 ==> x * n <= a < x * n + n
    requires a < 0 ==> x * n - n < a <= x * n
    ensures x == TruncDiv(a, n)
  {
    var q := TruncDiv(a, n);
    TruncDivBrackets(a, n);
    MulSucc(q, n);
    MulSucc(x, n);
    MulSucc(q - 1, n);
    MulSucc(x - 1, n);
    if x < q {
      MulMonotone(x + 1, q, n);
    } else if q < x {
      MulMonotone(q + 1, x, n);
    }
  }

  lemma Double(x: int, n: int)
    ensures (2 * n) * x == 2 * (x * n)
  {
  }

  /** Taking every member twice does not move the centroid: the mean of a list
      repeated is the mean of the list. */
  lemma CentroidOfRepeated(ps: seq<Pixel>)
    requires ps != []
    ensures Centroid(ps + ps) == Centroid(ps)
  {
    forall c ensures Sum(ps + ps, c) == 2 * Sum(ps, c) {
      SumAppend(ps, ps, c);
    }
    TruncDivScaled(Sum(ps, Red), |ps|);
    TruncDivScaled(Sum(ps, Green), |ps|);
    TruncDivScaled(Sum(ps, Blue), |ps|);
  }

  class Cluster {
    var barycentre: Pixel
    var pixels: seq<Pixel>

    /** `Cluster c; c.set_barycentre(seed);` as `Image::kmeans` seeds it. */
    constructor (seed: Pixel)
      ensures barycentre == seed && pixels == []
    {
      barycentre := seed;
      pixels := [];
    }

    method SetBarycentre(p: Pixel)
      modifies this`barycentre
      ensures barycentre == p
    {
      barycentre := p;
    }

    method AddPixel(p: Pixel)
      modifies this`pixels
      ensures pixels == old(pixels) + [p]
    {
      pixels := pixels + [p];
    }

    method ClearPixels()
      modifies this`pixels
      ensures pixels == []
    {
      pixels := [];
    }
  }

  /** `compute_barycentre`: on a non-empty cluster, accumulates the channel sums over
      the members and stores their truncated mean; on an empty one it throws and
      leaves the cluster as it was. */
  method ComputeBarycentre(c: Cluster) returns (r: Outcome)
    modifies c`barycentre
    ensures r == (if old(c.pixels) == [] then Failure(EmptyPixelSet) else Success)
    ensures c.barycentre == if c.pixels == [] then old(c.barycentre) else Centroid(c.pixels)
  {
    if c.pixels == [] {
      return Failure(EmptyPixelSet);
    }
    var ps := c.pixels;
    var red, green, blue := 0, 0, 0;
    var i := 0;
    while i < |ps|
      invariant 0 <= i <= |ps|
      invariant red == Sum(ps[..i], Red)
      invariant green == Sum(ps[..i], Green)
      invariant blue == Sum(ps[..i], Blue)
    {
      assert ps[..i + 1][..i] == ps[..i];
      red := red + ps[i].r;
      green := green + ps[i].g;
      blue := blue + ps[i].b;
      i := i + 1;
    }
    assert ps[..i] == ps;
    var size := |ps|;
    c.SetBarycentre(Pixel(TruncDiv(red, size), TruncDiv(green, size), TruncDiv(blue, size), 0));
    return Success;
  }
}
