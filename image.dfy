/** The image: its dimensions, its row-major pixel buffer and the reduced palette
    (`k_redux`) that clustering runs append to, with the clustering run and the
    remap rule of the export. */
module Images {
  import opened Pixels
  import opened Errors
  import opened Clusters
  import opened Nearest
  import opened KMeansSpec
  import opened Exports

  /** What `Image::kmeans` comes to. The source has no cap on the number of passes;
      the model runs at most `maxPasses` of them and reports `Unsettled` when the
      source would still be looping. */
  datatype RunResult = Settled(passes: nat) | Unsettled

  /** The clusters `clusters` hold exactly the state `s`, in order. */
  ghost predicate Models(clusters: seq<Cluster>, s: Clustering)
    reads set c | c in clusters
  {
    && |clusters| == |s.centres| == |s.members|
    && forall m :: 0 <= m < |clusters| ==>
         clusters[m].barycentre == s.centres[m] && clusters[m].pixels == s.members[m]
  }

  ghost predicate Distinct(clusters: seq<Cluster>)
  {
    forall a, b :: 0 <= a < b < |clusters| ==> clusters[a] != clusters[b]
  }

  class Image {
    var width: int
    var height: int
    var data: seq<Pixel>
    /** The reduced palette: every clustering run appends its barycentres; nothing
        ever removes them. */
    var kRedux: seq<Pixel>

    ghost predicate Valid()
      reads this
    {
      0 <= width && 0 <= height && |data| == width * height
    }

    /** `Image(int w, int h)`: non-positive dimensions become 0, and the buffer
        holds `width * height` value-initialised, that is all-zero, pixels. */
    constructor (w: int, h: int)
      ensures Valid()
      ensures width == (if w > 0 then w else 0) && height == (if h > 0 then h else 0)
      ensures |data| == width * height && forall i :: 0 <= i < |data| ==> data[i] == Pixel(0, 0, 0, 0)
      ensures kRedux == []
    {
      width := if w > 0 then w else 0;
      height := if h > 0 then h else 0;
      new;
      data := seq(height * width, i => Pixel(0, 0, 0, 0));
      kRedux := [];
    }

    /** `Image::getPixel`: the pixel at `index`, or the out-of-bounds error. The
        source compares the `int` index with the buffer's `size_t` size, which
        converts the index to a 64-bit unsigned value first: a negative index
        becomes a huge one and is out of bounds too. The `int` range of the index
        and the `vector` size limit are the two requires. */
    function GetPixel(index: int): (r: Result<Pixel>)
      reads this
      requires -0x8000_0000 <= index < 0x8000_0000
      requires |data| < 0x8000_0000_0000_0000
      ensures r.Ok? <==> 0 <= index < |data|
      ensures r.Ok? ==> r.value == data[index]
      ensures r.Err? ==> r.error == OutOfBounds
    {
      var unsigned := if index < 0 then index + 0x1_0000_0000_0000_0000 else index;
      if unsigned < |data| then Ok(data[index]) else Err(OutOfBounds)
    }

    /** `Image::kmeans(k)`: seeds k clusters from the buffer, then repeats the
        assignment and update passes until a pass moves no barycentre, and appends
        the k barycentres to the palette in seed order. The buffer is not changed;
        on an empty buffer nothing happens but the error. */
    method KMeans(k: int, maxPasses: nat) returns (r: Result<RunResult>)
      requires k >= 1
      modifies this`kRedux
      ensures data == old(data)
      ensures r.Err? <==> data == []
      ensures r.Err? ==> r.error == EmptyDataSet && kRedux == old(kRedux)
      ensures r.Ok? && r.value.Settled? ==>
                && StopsAfter(data, k, r.value.passes)
                && r.value.passes <= maxPasses
                && kRedux == old(kRedux) + Run(data, k, r.value.passes).centres
      ensures r.Ok? && r.value.Unsettled? ==>
                && kRedux == old(kRedux)
                && MovesThroughout(data, k, maxPasses)
    {
      if data == [] {
        return Err(EmptyDataSet);
      }
      var clusters := SeedClusters(k);
      var passes, changement := Loop(clusters, k, maxPasses);
      if changement {
        return Ok(Unsettled);
      }
      AppendPalette(clusters, Run(data, k, passes).centres);
      return Ok(Settled(passes));
    }

    /** Appends the barycentres, in cluster order, to the palette. */
    method AppendPalette(clusters: seq<Cluster>, ghost palette: seq<Pixel>)
      requires |palette| == |clusters|
      requires forall m :: 0 <= m < |clusters| ==> clusters[m].barycentre == palette[m]
      modifies this`kRedux
      ensures kRedux == old(kRedux) + palette
    {
      var i := 0;
      while i < |clusters|
        invariant 0 <= i <= |clusters|
        invariant kRedux == old(kRedux) + palette[..i]
      {
        assert palette[..i + 1] == palette[..i] + [palette[i]];
        kRedux := kRedux + [clusters[i].barycentre];
        i := i + 1;
      }
      assert palette[..i] == palette;
    }

    /** The seeding: cluster i starts with the pixel at `i * N / k` as barycentre
        and no members. */
    method SeedClusters(k: int) returns (clusters: seq<Cluster>)
      requires data != [] && k >= 1
      ensures Distinct(clusters) && forall c :: c in clusters ==> fresh(c)
      ensures Models(clusters, Start(data, k))
    {
      var n := |data|;
      clusters := [];
      var i := 0;
      while i < k
        invariant 0 <= i <= k && |clusters| == i
        invariant Distinct(clusters) && forall c :: c in clusters ==> fresh(c)
        invariant forall m :: 0 <= m < i ==>
                    clusters[m].barycentre == Start(data, k).centres[m] && clusters[m].pixels == []
      {
        SeedIndexInRange(i, n, k);
        var tempIndex := i * n / k;
        var c := new Cluster(data[tempIndex]);
        clusters := clusters + [c];
        i := i + 1;
      }
    }

    /** The `while (changement)` loop, cut off after `maxPasses` passes. On return
        the clusters hold the state after `passes` passes, and `changement` tells
        whether the last of them moved a barycentre. */
    method Loop(clusters: seq<Cluster>, k: int, maxPasses: nat) returns (passes: nat, changement: bool)
      requires data != [] && k >= 1
      requires Distinct(clusters) && Models(clusters, Start(data, k))
      modifies set c | c in clusters
      ensures Models(clusters, Run(data, k, passes))
      ensures passes <= maxPasses
      ensures !changement ==> StopsAfter(data, k, passes)
      ensures changement ==> passes == maxPasses && MovesThroughout(data, k, maxPasses)
    {
      // The loop needs no definition: OnePass and the lemmas below supply every fact.
      hide *;
      changement := true;
      passes := 0;
      RunZero(data, k);
      while changement && passes < maxPasses
        invariant passes <= maxPasses
        invariant Models(clusters, Run(data, k, passes))
        invariant LoopAt(data, k, passes, changement)
        decreases maxPasses - passes
      {
        changement := OnePass(clusters, k, passes);
        passes := passes + 1;
      }
      if changement {
        LoopAtMoving(data, k, passes);
      } else {
        LoopAtStops(data, k, passes);
      }
    }

    /** One iteration of the loop, the pass after pass n: an assignment pass, then
        an update pass. */
    method OnePass(clusters: seq<Cluster>, k: int, ghost n: nat) returns (changement: bool)
      requires data != [] && k >= 1 && Distinct(clusters)
      requires Models(clusters, Run(data, k, n)) && LoopAt(data, k, n, true)
      modifies set c | c in clusters
      ensures Models(clusters, Run(data, k, n + 1))
      ensures LoopAt(data, k, n + 1, changement)
    {
      ghost var before := Run(data, k, n);
      changement := false;
      AssignmentPass(clusters, before);
      changement := UpdatePass(clusters, Assign(data, before));
      RunStep(data, k, n);
      LoopAtStep(data, k, n);
    }

    /** The assignment pass: every pixel of the buffer, in order, is appended to
        the cluster `getNearestCluster` returns. */
    method AssignmentPass(clusters: seq<Cluster>, ghost before: Clustering)
      requires WellFormed(before) && Models(clusters, before) && Distinct(clusters)
      modifies set c | c in clusters
      ensures Models(clusters, Assign(data, before))
    {
      var t := 0;
      while t < |data|
        invariant 0 <= t <= |data|
        invariant Models(clusters, Assign(data[..t], before))
      {
        AddToNearestCluster(clusters, Assign(data[..t], before), data[t]);
        assert data[..t + 1][..t] == data[..t];
        t := t + 1;
      }
      assert data[..t] == data;
    }

    /** One iteration of the assignment loop:
        `getNearestCluster(p, clusters).addPixel(p)`. */
    static method AddToNearestCluster(clusters: seq<Cluster>, ghost s: Clustering, p: Pixel)
      requires WellFormed(s) && Models(clusters, s) && Distinct(clusters)
      modifies set c | c in clusters
      ensures Models(clusters, AddToNearest(s, p))
    {
      var closest := NearestCluster(p, clusters);
      assert IsFirstNearest(p, s.centres, closest);
      FirstNearestUnique(p, s.centres, closest);
      clusters[closest].AddPixel(p);
    }

    /** The update pass: each cluster with members gets a recomputed barycentre and
        is cleared if that barycentre is not `==` to the previous one. Returns
        whether some cluster was cleared. */
    method UpdatePass(clusters: seq<Cluster>, ghost afterAssign: Clustering) returns (changement: bool)
      requires WellFormed(afterAssign) && Models(clusters, afterAssign) && Distinct(clusters)
      modifies set c | c in clusters
      ensures Models(clusters, Update(afterAssign))
      ensures changement == AnyMoved(afterAssign)
    {
      changement := false;
      var j := 0;
      while j < |clusters|
        invariant 0 <= j <= |clusters|
        invariant forall m :: 0 <= m < j ==>
                    clusters[m].barycentre == Update(afterAssign).centres[m] && clusters[m].pixels == Update(afterAssign).members[m]
        invariant forall m :: j <= m < |clusters| ==>
                    clusters[m].barycentre == afterAssign.centres[m] && clusters[m].pixels == afterAssign.members[m]
        invariant changement == MovedBelow(afterAssign, j)
      {
        var moved := UpdateCluster(clusters[j], afterAssign, j);
        changement := changement || moved;
        j := j + 1;
      }
    }

    /** One iteration of the update loop: recompute the barycentre of a cluster
        with members, and clear it if the barycentre moved. */
    static method UpdateCluster(curr: Cluster, ghost s: Clustering, ghost j: int) returns (moved: bool)
      requires WellFormed(s) && 0 <= j < |s.centres|
      requires curr.barycentre == s.centres[j] && curr.pixels == s.members[j]
      modifies curr
      ensures curr.barycentre == Update(s).centres[j] && curr.pixels == Update(s).members[j]
      ensures moved == Moved(s, j)
    {
      moved := false;
      if curr.pixels != [] {
        var temp := curr.barycentre;
        var outcome := ComputeBarycentre(curr);
        if !ApproxEqual(temp, curr.barycentre) {
          moved := true;
          curr.ClearPixels();
        }
      }
    }

    /** The remap and layout of `write_redux`: with a non-empty palette, each of the
        `width * height` pixels is written as its nearest palette entry followed by
        a newline at the end of each row and a space otherwise. */
    method WriteRedux(canOpen: bool) returns (r: Result<Export>)
      requires Valid()
      ensures kRedux == [] ==> r == Err(EmptyReduxSet)
      ensures kRedux != [] && !canOpen ==> r == Ok(NotWritten)
      ensures kRedux != [] && canOpen ==>
                r == Ok(Written(PpmHeader(width, height), ExportItems(data, kRedux, width)))
    {
      if kRedux == [] {
        return Err(EmptyReduxSet);
      }
      if !canOpen {
        return Ok(NotWritten);
      }
      assert width == 0 ==> height * width == 0;
      ghost var expected := ExportItems(data, kRedux, width);
      var items: seq<Emitted> := [];
      var index := 0;
      while index < height * width
        invariant 0 <= index <= |data|
        invariant items == expected[..index]
      {
        var current := data[index];
        var destination := NearestBarycenter(current, kRedux);
        var separator := if (index + 1) % width == 0 then Newline else Space;
        assert expected[..index + 1] == expected[..index] + [expected[index]];
        items := items + [Emitted(destination.value, separator)];
        index := index + 1;
      }
      assert expected[..index] == expected;
      return Ok(Written(PpmHeader(width, height), items));
    }
  }
}
