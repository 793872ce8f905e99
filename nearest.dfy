/** The two nearest-centroid searches: `getNearestCluster` over the clusters of a
    clustering run and `getNearestBarycenter` over the finished palette. Both keep
    the first candidate at minimal distance, because they replace it only on a
    strictly smaller distance. */
module Nearest {
  import opened Pixels
  import opened Errors
  import opened Clusters

  /** The reference search: the index of the first centre at minimal distance from
      `p`, built the way a left-to-right scan builds it. */
  function FirstNearest(p: Pixel, centres: seq<Pixel>): (j: nat)
    requires centres != []
    ensures j < |centres|
  {
    if |centres| == 1 then 0
    else
      var j := FirstNearest(p, centres[..|centres| - 1]);
      if SqDistance(p, centres[|centres| - 1]) < SqDistance(p, centres[j]) then |centres| - 1 else j
  }

  /** `j` is at minimal distance from `p`, and every earlier centre is strictly
      farther away. */
  predicate IsFirstNearest(p: Pixel, centres: seq<Pixel>, j: int)
  {
    && 0 <= j < |centres|
    && (forall i :: 0 <= i < |centres| ==> SqDistance(p, centres[j]) <= SqDistance(p, centres[i]))
    && (forall i :: 0 <= i < j ==> SqDistance(p, centres[j]) < SqDistance(p, centres[i]))
  }

  lemma {:induction false} FirstNearestIsFirstMinimum(p: Pixel, centres: seq<Pixel>)
    requires centres != []
    ensures IsFirstNearest(p, centres, FirstNearest(p, centres))
  {
    if |centres| > 1 {
      var front := centres[..|centres| - 1];
      FirstNearestIsFirstMinimum(p, front);
      assert forall i :: 0 <= i < |front| ==> front[i] == centres[i];
    }
  }

  /** At most one index is the first nearest, so the characterisation pins the
      search result down. */
  lemma FirstNearestUnique(p: Pixel, centres: seq<Pixel>, j: int)
    requires IsFirstNearest(p, centres, j)
    ensures j == FirstNearest(p, centres)
  {
    FirstNearestIsFirstMinimum(p, centres);
  }

  /** A centre the pixel coincides with in colour is at distance zero, so the first
      such centre, if no earlier one is also at distance zero, is chosen. */
  lemma NearestOfExactMatch(p: Pixel, centres: seq<Pixel>, j: int)
    requires 0 <= j < |centres|
    requires centres[j].r == p.r && centres[j].g == p.g && centres[j].b == p.b
    requires forall i :: 0 <= i < j ==> SqDistance(p, centres[i]) > 0
    ensures FirstNearest(p, centres) == j
  {
    FirstNearestUnique(p, centres, j);
  }

  /** `getNearestCluster`: the index (the source returns a reference) of the first
      cluster whose barycentre is at minimal distance. The source reads `c[0]`
      before its loop, so it needs at least one cluster. */
  method NearestCluster(p: Pixel, clusters: seq<Cluster>) returns (closest: nat)
    requires clusters != []
    ensures closest < |clusters|
    ensures forall i :: 0 <= i < |clusters| ==>
              SqDistance(p, clusters[closest].barycentre) <= SqDistance(p, clusters[i].barycentre)
    ensures forall i :: 0 <= i < closest ==>
              SqDistance(p, clusters[closest].barycentre) < SqDistance(p, clusters[i].barycentre)
  {
    closest := 0;
    var minDistance := SqDistance(p, clusters[0].barycentre);
    var i := 1;
    while i < |clusters|
      invariant 1 <= i <= |clusters|
      invariant closest < i
      invariant minDistance == SqDistance(p, clusters[closest].barycentre)
      invariant forall m :: 0 <= m < i ==> minDistance <= SqDistance(p, clusters[m].barycentre)
      invariant forall m :: 0 <= m < closest ==> minDistance < SqDistance(p, clusters[m].barycentre)
    {
      var currentDistance := SqDistance(p, clusters[i].barycentre);
      if currentDistance < minDistance {
        minDistance := currentDistance;
        closest := i;
      }
      i := i + 1;
    }
  }

  /** `getNearestBarycenter`: the first palette entry at minimal distance; on an
      empty palette `k_redux.at(0)` throws. The source starts from a running minimum
      of `DBL_MAX`, which the first entry always beats, so the scan below starts
      from the first entry. */
  method NearestBarycenter(p: Pixel, palette: seq<Pixel>) returns (r: Result<Pixel>)
    ensures r.Err? <==> palette == []
    ensures r.Err? ==> r.error == PaletteAtOutOfRange
    ensures r.Ok? ==> r.value in palette && r.value == palette[FirstNearest(p, palette)]
  {
    if palette == [] {
      return Err(PaletteAtOutOfRange);
    }
    var nearest := palette[0];
    var minDistance := SqDistance(p, palette[0]);
    var i := 1;
    while i < |palette|
      invariant 1 <= i <= |palette|
      invariant nearest == palette[FirstNearest(p, palette[..i])]
      invariant minDistance == SqDistance(p, nearest)
    {
      assert palette[..i + 1][..i] == palette[..i];
      var currentDistance := SqDistance(p, palette[i]);
      if currentDistance < minDistance {
        minDistance := currentDistance;
        nearest := palette[i];
      }
      i := i + 1;
    }
    assert palette[..i] == palette;
    return Ok(nearest);
  }
}
