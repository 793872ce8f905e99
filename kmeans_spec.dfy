/** What one run of `Image::kmeans` computes, as functions on values: the state of
    the clusters (barycentres and member lists, in seed order) after the seeding
    and after each assignment-and-update pass of the `while (changement)` loop. */
module KMeansSpec {
  import opened Pixels
  import opened Clusters
  import opened Nearest

  /** The clusters of one run: `centres[j]` is cluster j's barycentre and
      `members[j]` the pixels it currently holds. */
  datatype Clustering = Clustering(centres: seq<Pixel>, members: seq<seq<Pixel>>)

  predicate WellFormed(s: Clustering)
  {
    |s.centres| == |s.members| && s.centres != []
  }

  lemma SeedIndexInRange(i: int, n: int, k: int)
    requires 0 <= i < k && n > 0
    ensures 0 <= i * n / k < n
  {
    assert 0 <= i * n;
    assert i * n < k * n by {
      assert k * n - i * n == (k - i) * n;
    }
    assert (i * n / k) * k <= i * n;
  }

  /** The pixel index cluster i is seeded from: `i * N / k`, spreading the k
      seeds evenly over the buffer; it always falls inside the buffer. */
  function SeedIndex(i: int, n: int, k: int): (t: nat)
    requires 0 <= i < k && n > 0
    ensures t < n
  {
    SeedIndexInRange(i, n, k);
    i * n / k
  }

  /** With no more clusters than pixels, the seed positions strictly increase, so
      the k clusters are seeded from k distinct pixels; the first seed is pixel 0. */
  lemma SeedsIncrease(n: int, k: int, i: int, j: int)
    requires 1 <= k <= n && 0 <= i < j < k
    ensures SeedIndex(0, n, k) == 0
    ensures SeedIndex(i, n, k) < SeedIndex(j, n, k)
  {
    assert i * n + k <= j * n by {
      assert j * n - i * n == (j - i) * n;
      MulAtLeast(j - i, n);
    }
    DivAtLeast(i * n, j * n, k);
  }

  lemma MulAtLeast(x: int, n: int)
    requires x >= 1 && n >= 0
    ensures x * n >= n
  {
  }

  /** Adding at least the divisor raises the floor quotient. */
  lemma DivAtLeast(a: nat, b: nat, k: int)
    requires k > 0 && a + k <= b
    ensures a / k < b / k
  {
    EuclideanBrackets(a, k);
    EuclideanBrackets(b, k);
    if b / k <= a / k {
      MulMonotone(b / k, a / k, k);
    }
  }

  /** The seeded clusters: k barycentres taken from the buffer, no members. */
  function Start(data: seq<Pixel>, k: int): (s: Clustering)
    requires data != [] && k >= 1
    ensures WellFormed(s) && |s.centres| == k
    ensures forall i :: 0 <= i < k ==> s.centres[i] == data[SeedIndex(i, |data|, k)] && s.members[i] == []
  {
    Clustering(seq(k, i requires 0 <= i < k => data[SeedIndex(i, |data|, k)]), seq(k, i => []))
  }

  /** `getNearestCluster(p, clusters).addPixel(p)`. */
  function AddToNearest(s: Clustering, p: Pixel): Clustering
    requires WellFormed(s)
  {
    var j := FirstNearest(p, s.centres);
    s.(members := s.members[j := s.members[j] + [p]])
  }

  /** The assignment pass: every pixel of `data`, in order, is appended to its
      nearest cluster. Members already held are kept; barycentres do not move. */
  function Assign(data: seq<Pixel>, s: Clustering): (r: Clustering)
    requires WellFormed(s)
    ensures WellFormed(r) && r.centres == s.centres
  {
    if data == [] then s else AddToNearest(Assign(data[..|data| - 1], s), data[|data| - 1])
  }

  /** The pixels of `data`, in order, whose first nearest centre is centre j. */
  function NearestTo(data: seq<Pixel>, centres: seq<Pixel>, j: int): seq<Pixel>
    requires centres != []
  {
    if data == [] then []
    else
      var last := data[|data| - 1];
      NearestTo(data[..|data| - 1], centres, j) + (if FirstNearest(last, centres) == j then [last] else [])
  }

  /** The assignment pass seen cluster by cluster: cluster j keeps what it held and
      receives exactly the pixels nearest to it, in buffer order. */
  lemma {:induction false} AssignMembers(data: seq<Pixel>, s: Clustering, j: int)
    requires WellFormed(s) && 0 <= j < |s.members|
    ensures Assign(data, s).members[j] == s.members[j] + NearestTo(data, s.centres, j)
  {
    if data != [] {
      AssignMembers(data[..|data| - 1], s, j);
    }
  }

  /** The number of pixels held over all clusters. */
  function TotalSize(ms: seq<seq<Pixel>>): nat
  {
    if ms == [] then 0 else TotalSize(ms[..|ms| - 1]) + |ms[|ms| - 1]|
  }

  lemma {:induction false} TotalSizeAppendAt(ms: seq<seq<Pixel>>, j: int, p: Pixel)
    requires 0 <= j < |ms|
    ensures TotalSize(ms[j := ms[j] + [p]]) == TotalSize(ms) + 1
  {
    var ms' := ms[j := ms[j] + [p]];
    assert ms'[..|ms'| - 1] == if j == |ms| - 1 then ms[..|ms| - 1] else ms[..|ms| - 1][j := ms[j] + [p]];
    if j < |ms| - 1 {
      TotalSizeAppendAt(ms[..|ms| - 1], j, p);
    }
  }

  /** Each assignment pass adds exactly one membership per pixel of the buffer. */
  lemma {:induction false} AssignAddsEveryPixelOnce(data: seq<Pixel>, s: Clustering)
    requires WellFormed(s)
    ensures TotalSize(Assign(data, s).members) == TotalSize(s.members) + |data|
  {
    if data != [] {
      var front := Assign(data[..|data| - 1], s);
      AssignAddsEveryPixelOnce(data[..|data| - 1], s);
      TotalSizeAppendAt(front.members, FirstNearest(data[|data| - 1], front.centres), data[|data| - 1]);
    }
  }

  /** Cluster j moves in the update pass: it has members and their centroid is not
      `==` (within tolerance 1 per channel) to its current barycentre. */
  predicate Moved(s: Clustering, j: int)
    requires WellFormed(s) && 0 <= j < |s.centres|
  {
    s.members[j] != [] && !ApproxEqual(s.centres[j], Centroid(s.members[j]))
  }

  /** Some cluster below index j moves. */
  predicate MovedBelow(s: Clustering, j: nat)
    requires WellFormed(s) && j <= |s.centres|
  {
    j > 0 && (MovedBelow(s, j - 1) || Moved(s, j - 1))
  }

  lemma {:induction false} MovedBelowIsExists(s: Clustering, j: nat)
    requires WellFormed(s) && j <= |s.centres|
    ensures MovedBelow(s, j) <==> exists m :: 0 <= m < j && Moved(s, m)
  {
    if j > 0 {
      MovedBelowIsExists(s, j - 1);
    }
  }

  /** Some cluster moves: the update pass sets `changement`. */
  predicate AnyMoved(s: Clustering)
    requires WellFormed(s)
  {
    MovedBelow(s, |s.centres|)
  }

  /** The update pass: a cluster with members gets the centroid of its members as
      barycentre, and loses its members only if that moved it; a cluster without
      members keeps its barycentre. */
  function Update(s: Clustering): (r: Clustering)
    requires WellFormed(s)
    ensures WellFormed(r) && |r.centres| == |s.centres|
    // a cluster with members takes the truncated mean of its members
    ensures forall j :: 0 <= j < |s.centres| && s.members[j] != [] ==> r.centres[j] == Centroid(s.members[j])
    // no cluster gains members, and a cluster with members is emptied exactly when
    // its new barycentre is not `==` to its old one, that is when it moved
    ensures forall j :: 0 <= j < |s.centres| ==> r.members[j] == [] || r.members[j] == s.members[j]
    ensures forall j :: 0 <= j < |s.centres| && s.members[j] != [] ==>
              (r.members[j] == [] <==> !ApproxEqual(s.centres[j], r.centres[j]))
    ensures forall j :: 0 <= j < |s.centres| ==> (Moved(s, j) <==> s.members[j] != [] && r.members[j] == [])
    // a cluster that keeps its members stayed within tolerance of its old barycentre
    ensures forall j :: 0 <= j < |s.centres| && r.members[j] != [] ==> ApproxEqual(s.centres[j], r.centres[j])
    // a cluster without members keeps its stale barycentre
    ensures forall j :: 0 <= j < |s.centres| && s.members[j] == [] ==> r.centres[j] == s.centres[j]
  {
    var k := |s.centres|;
    Clustering(
      seq(k, j requires 0 <= j < k => if s.members[j] == [] then s.centres[j] else Centroid(s.members[j])),
      seq(k, j requires 0 <= j < k => if Moved(s, j) then [] else s.members[j]))
  }

  /** One iteration of the `while (changement)` loop. */
  function Pass(data: seq<Pixel>, s: Clustering): (r: Clustering)
    requires WellFormed(s)
    ensures WellFormed(r) && |r.centres| == |s.centres|
  {
    Update(Assign(data, s))
  }

  /** `changement` after the pass that starts from `s`. */
  predicate PassMoves(data: seq<Pixel>, s: Clustering)
    requires WellFormed(s)
  {
    AnyMoved(Assign(data, s))
  }

  /** The clusters after n passes from the seeding. */
  function Run(data: seq<Pixel>, k: int, n: nat): (r: Clustering)
    requires data != [] && k >= 1
    ensures WellFormed(r) && |r.centres| == k
  {
    Iterate(data, Start(data, k), n)
  }

  /** n passes from the state `s`. */
  function Iterate(data: seq<Pixel>, s: Clustering, n: nat): (r: Clustering)
    requires WellFormed(s)
    ensures WellFormed(r) && |r.centres| == |s.centres|
    decreases n
  {
    if n == 0 then s else Iterate(data, Pass(data, s), n - 1)
  }

  lemma {:induction false} IterateStep(data: seq<Pixel>, s: Clustering, n: nat)
    requires WellFormed(s)
    ensures Iterate(data, s, n + 1) == Pass(data, Iterate(data, s, n))
    decreases n
  {
    if n > 0 {
      IterateStep(data, Pass(data, s), n - 1);
    }
  }

  /** Pass n + 1 starts from the state pass n left. */
  lemma RunStep(data: seq<Pixel>, k: int, n: nat)
    requires data != [] && k >= 1
    ensures Run(data, k, n + 1) == Pass(data, Run(data, k, n))
  {
    IterateStep(data, Start(data, k), n);
  }

  /** Each of the first n passes moved a barycentre: after them the loop is still
      running. */
  predicate MovesThroughout(data: seq<Pixel>, k: int, n: nat)
    requires data != [] && k >= 1
  {
    n == 0 || (MovesThroughout(data, k, n - 1) && PassMoves(data, Run(data, k, n - 1)))
  }

  /** The loop stops after pass n: every earlier pass moved a barycentre and pass
      n moved none. */
  predicate StopsAfter(data: seq<Pixel>, k: int, n: nat)
    requires data != [] && k >= 1
  {
    n >= 1 && MovesThroughout(data, k, n - 1) && !PassMoves(data, Run(data, k, n - 1))
  }

  /** Where the `while (changement)` loop stands after n passes with flag `ch`:
      before the first pass the flag is set; after pass n every earlier pass moved
      a barycentre and the flag tells whether pass n did. */
  predicate LoopAt(data: seq<Pixel>, k: int, n: nat, ch: bool)
    requires data != [] && k >= 1
  {
    if n == 0 then ch else LoopAt(data, k, n - 1, true) && ch == PassMoves(data, Run(data, k, n - 1))
  }

  lemma RunZero(data: seq<Pixel>, k: int)
    requires data != [] && k >= 1
    ensures Run(data, k, 0) == Start(data, k) && LoopAt(data, k, 0, true)
  {
  }

  lemma LoopAtStep(data: seq<Pixel>, k: int, n: nat)
    requires data != [] && k >= 1 && LoopAt(data, k, n, true)
    ensures LoopAt(data, k, n + 1, PassMoves(data, Run(data, k, n)))
  {
  }

  /** A loop whose flag is clear has stopped after its last pass. */
  lemma LoopAtStops(data: seq<Pixel>, k: int, n: nat)
    requires data != [] && k >= 1 && LoopAt(data, k, n, false)
    ensures StopsAfter(data, k, n)
  {
    hide Run, PassMoves;
    LoopAtMoving(data, k, n - 1);
  }

  /** A loop whose flag is still set has seen a move in every pass so far. */
  lemma {:induction false} LoopAtMoving(data: seq<Pixel>, k: int, n: nat)
    requires data != [] && k >= 1 && LoopAt(data, k, n, true)
    ensures MovesThroughout(data, k, n)
  {
    hide Run, PassMoves;
    if n > 0 {
      LoopAtMoving(data, k, n - 1);
    }
  }

  lemma {:induction false} MovesThroughoutPrefix(data: seq<Pixel>, k: int, n: nat, m: nat)
    requires data != [] && k >= 1 && m <= n && MovesThroughout(data, k, n)
    ensures MovesThroughout(data, k, m)
  {
    hide Run, PassMoves;
    if m < n {
      MovesThroughoutPrefix(data, k, n - 1, m);
    }
  }

  lemma MovesThroughoutLast(data: seq<Pixel>, k: int, n: nat)
    requires data != [] && k >= 1
    requires n >= 1 && MovesThroughout(data, k, n)
    ensures PassMoves(data, Run(data, k, n - 1))
  {
    hide Run, PassMoves;
  }

  /** The loop stops at most once: a run has a single length. */
  lemma StopsAfterUnique(data: seq<Pixel>, k: int, n1: nat, n2: nat)
    requires data != [] && k >= 1
    requires StopsAfter(data, k, n1) && StopsAfter(data, k, n2)
    ensures n1 == n2
  {
    hide Run, PassMoves;
    if n1 < n2 {
      MovesThroughoutPrefix(data, k, n2 - 1, n1);
      MovesThroughoutLast(data, k, n1);
    } else if n2 < n1 {
      MovesThroughoutPrefix(data, k, n1 - 1, n2);
      MovesThroughoutLast(data, k, n2);
    }
  }

  /** When a pass moves nothing, no cluster is cleared and every cluster with
      members keeps a barycentre within tolerance of the previous one. */
  lemma SettledPassIsStable(data: seq<Pixel>, s: Clustering)
    requires WellFormed(s) && !PassMoves(data, s)
    ensures Pass(data, s).members == Assign(data, s).members
    ensures forall j :: 0 <= j < |s.centres| && Assign(data, s).members[j] != [] ==>
              ApproxEqual(s.centres[j], Pass(data, s).centres[j])
  {
    var a := Assign(data, s);
    MovedBelowIsExists(a, |a.centres|);
    assert Pass(data, s).members == a.members;
  }

  predicate ChannelWithin(ps: seq<Pixel>, c: Channel, lo: int, hi: int)
  {
    forall i :: 0 <= i < |ps| ==> lo <= Value(ps[i], c) <= hi
  }

  /** Every barycentre and every member of `s` has channel c within [lo, hi]. */
  predicate Within(s: Clustering, c: Channel, lo: int, hi: int)
  {
    && ChannelWithin(s.centres, c, lo, hi)
    && forall j :: 0 <= j < |s.members| ==> ChannelWithin(s.members[j], c, lo, hi)
  }

  lemma {:induction false} AssignStaysWithin(data: seq<Pixel>, s: Clustering, c: Channel, lo: int, hi: int)
    requires WellFormed(s) && Within(s, c, lo, hi) && ChannelWithin(data, c, lo, hi)
    ensures Within(Assign(data, s), c, lo, hi)
  {
    if data != [] {
      var front, p := data[..|data| - 1], data[|data| - 1];
      AssignStaysWithin(front, s, c, lo, hi);
      var a := Assign(front, s);
      var j := FirstNearest(p, a.centres);
      assert ChannelWithin(a.members[j] + [p], c, lo, hi);
    }
  }

  lemma UpdateStaysWithin(s: Clustering, c: Channel, lo: int, hi: int)
    requires WellFormed(s) && Within(s, c, lo, hi)
    ensures Within(Update(s), c, lo, hi)
  {
    forall j | 0 <= j < |s.centres| && s.members[j] != []
      ensures lo <= Value(Centroid(s.members[j]), c) <= hi
    {
      CentroidWithinBounds(s.members[j], c, lo, hi);
    }
  }

  lemma {:induction false} RunStaysWithin(data: seq<Pixel>, k: int, n: nat, c: Channel, lo: int, hi: int)
    requires data != [] && k >= 1 && ChannelWithin(data, c, lo, hi)
    ensures Within(Run(data, k, n), c, lo, hi)
  {
    // Only the lemmas' contracts are needed, not the definitions.
    hide *;
    if n == 0 {
      RunZero(data, k);
      StartStaysWithin(data, k, c, lo, hi);
    } else {
      RunStaysWithin(data, k, n - 1, c, lo, hi);
      RunStep(data, k, n - 1);
      PassStaysWithin(data, Run(data, k, n - 1), c, lo, hi);
    }
  }

  lemma StartStaysWithin(data: seq<Pixel>, k: int, c: Channel, lo: int, hi: int)
    requires data != [] && k >= 1 && ChannelWithin(data, c, lo, hi)
    ensures Within(Start(data, k), c, lo, hi)
  {
  }

  lemma PassStaysWithin(data: seq<Pixel>, s: Clustering, c: Channel, lo: int, hi: int)
    requires WellFormed(s) && Within(s, c, lo, hi) && ChannelWithin(data, c, lo, hi)
    ensures Within(Pass(data, s), c, lo, hi)
  {
    AssignStaysWithin(data, s, c, lo, hi);
    UpdateStaysWithin(Assign(data, s), c, lo, hi);
  }

  /** Averaging never leaves the colour range of the image: if every pixel has
      channel c in [lo, hi] (say [0, 255]), so has every barycentre after any
      number of passes, and so has the palette the run appends. */
  lemma PaletteWithinImageRange(data: seq<Pixel>, k: int, n: nat, c: Channel, lo: int, hi: int)
    requires data != [] && k >= 1 && ChannelWithin(data, c, lo, hi)
    ensures ChannelWithin(Run(data, k, n).centres, c, lo, hi)
  {
    RunStaysWithin(data, k, n, c, lo, hi);
  }

  lemma {:induction false} NearestToOnlyCentre(data: seq<Pixel>, centres: seq<Pixel>)
    requires |centres| == 1
    ensures NearestTo(data, centres, 0) == data
  {
    if data != [] {
      NearestToOnlyCentre(data[..|data| - 1], centres);
    }
  }

  /** With one cluster, some barycentre moved exactly when that one did. */
  lemma OneClusterMoved(a: Clustering)
    requires WellFormed(a) && |a.centres| == 1
    ensures AnyMoved(a) <==> Moved(a, 0)
  {
    assert !MovedBelow(a, 0);
  }

  /** One pass over a single cluster: it receives the whole buffer. */
  lemma OneClusterPass(data: seq<Pixel>, s: Clustering)
    requires WellFormed(s) && |s.centres| == 1 && data != []
    ensures Assign(data, s).members[0] == s.members[0] + data
    ensures Pass(data, s).centres == [Centroid(s.members[0] + data)]
    ensures Pass(data, s).members[0] == if PassMoves(data, s) then [] else s.members[0] + data
    ensures PassMoves(data, s) <==> !ApproxEqual(s.centres[0], Centroid(s.members[0] + data))
  {
    var a := Assign(data, s);
    AssignMembers(data, s, 0);
    NearestToOnlyCentre(data, s.centres);
    OneClusterMoved(a);
  }

  lemma SingleClusterFirstPass(data: seq<Pixel>)
    requires data != []
    ensures Run(data, 1, 1).centres == [Centroid(data)]
    ensures Run(data, 1, 1).members[0] == [] || Run(data, 1, 1).members[0] == data
  {
    var s0 := Run(data, 1, 0);
    RunStep(data, 1, 0);
    assert s0.members[0] == [];
    OneClusterPass(data, s0);
    assert [] + data == data;
  }

  lemma SingleClusterSecondPass(data: seq<Pixel>)
    requires data != []
    ensures !PassMoves(data, Run(data, 1, 1))
    ensures Run(data, 1, 2).centres == [Centroid(data)]
  {
    SingleClusterFirstPass(data);
    var s1 := Run(data, 1, 1);
    RunStep(data, 1, 1);
    OneClusterPass(data, s1);
    if s1.members[0] != [] {
      assert s1.members[0] + data == data + data;
      CentroidOfRepeated(data);
    } else {
      assert s1.members[0] + data == data;
    }
    ApproxEqualReflexive(Centroid(data));
  }

  /** With a single cluster the run stops after the first or the second pass, and
      its palette is the truncated mean colour of the whole buffer. */
  lemma SingleClusterSettles(data: seq<Pixel>)
    requires data != []
    ensures StopsAfter(data, 1, 1) || StopsAfter(data, 1, 2)
    ensures Run(data, 1, 1).centres == [Centroid(data)]
    ensures Run(data, 1, 2).centres == [Centroid(data)]
  {
    SingleClusterFirstPass(data);
    SingleClusterSecondPass(data);
  }
}
