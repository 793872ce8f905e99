# ppm_redux palette reduction in Dafny

This project models the colour-reduction engine of `ppm_redux.cpp`. The program
reads a plain (P3) PPM image and runs k-means clustering on its pixels. It appends
the k barycentres to the image's reduced palette (`k_redux`) and writes the image
back with every pixel replaced by its nearest palette entry.

The model has seven modules:

- `Errors` (`errors.dfy`)
  - the error kinds the source throws as exceptions, and the `Result` and `Outcome` wrappers that carry them.
- `Pixels` (`pixel.dfy`)
  - pixels with integer channels;
  - the squared Euclidean distance;
  - the tolerance-1 `==`/`!=`;
  - C++ truncating division.
- `Clusters` (`cluster.dfy`)
  - the `Cluster` class: barycentre plus member list, updated in place;
  - the truncated-mean centroid;
  - `compute_barycentre` as a method with its accumulation loop.
- `Nearest` (`nearest.dfy`)
  - the first-minimum search as a reference function;
  - `getNearestCluster` and `getNearestBarycenter` as loops proved against it.
- `KMeansSpec` (`kmeans_spec.dfy`)
  - one clustering run as functions on values: the seeding, the assignment pass, the update pass, the state after n passes, and when the `while (changement)` loop stops;
  - the lemmas about them.
- `Exports` (`export.dfy`)
  - the header and the remap-and-layout rule of `write_redux`;
  - lemmas on nearest choice and row layout.
- `Images` (`image.dfy`)
  - the `Image` class with `width`, `height`, `data` and `kRedux`;
  - its constructor, `getPixel`, `kmeans` (seeding, assignment pass, update pass, palette append) and `write_redux`, each proved against the functions above.

Channels are `int`. The source stores them as `double`, but every value it stores
comes from an `int`: a decoded sample, or a mean truncated by `static_cast<int>`.
Nearest-centre searches compare squared distances. `sqrt` is strictly increasing, so
comparing the roots and comparing the squares pick the same entry.

## Model

| member | source | states |
|---|---|---|
| Pixels.SqDistance | ppm_redux.cpp:63-70 | the squared distance is zero exactly when the three channels agree (so a pixel is at distance zero from itself); the index is ignored |
| Pixels.SqDistanceSymmetric | ppm_redux.cpp:63-70 | the distance from p to q equals the distance from q to p |
| Pixels.ApproxEqual | ppm_redux.cpp:63-78 | pixels that are `==` (each channel within the tolerance 1) are within squared distance 3 |
| Pixels.ApproxEqualReflexive | ppm_redux.cpp:72-78 | every pixel is `==` to itself |
| Pixels.ApproxEqualSymmetric | ppm_redux.cpp:72-78 | `==` is symmetric |
| Pixels.ApproxEqualNotTransitive | ppm_redux.cpp:72-78 | `==` is not transitive: 0~1 and 1~2 but not 0~2 |
| Pixels.ApproxEqualIsNotDistanceBound | ppm_redux.cpp:63-78 | pixels at distance 2 can fail `==` |
| Pixels.Differs | ppm_redux.cpp:79-82 | `!=` holds iff some channel differs by more than 1, which is exactly the negation of `==` |
| Pixels.TruncDivBrackets | ppm_redux.cpp:221-223 | `static_cast<int>(a / n)` rounds toward zero: the remainder has the dividend's sign and is smaller than n |
| Clusters.CentroidChannel | ppm_redux.cpp:211-224 | with s a channel's sum over the n members and v that channel of the centroid: if s >= 0 then v >= 0 and n*v <= s < n*v + n; if s < 0 then v <= 0 and n*v - n < s <= n*v (the mean truncated toward zero) |
| Clusters.CentroidWithinBounds | ppm_redux.cpp:211-224 | the centroid lies within the range of its members, channel by channel, for any signs |
| Clusters.CentroidOfUniformColour | ppm_redux.cpp:211-224 | members of one colour have that colour as centroid |
| Clusters.CentroidOfRepeated | ppm_redux.cpp:211-224 | listing every member twice does not move the centroid |
| Clusters.Cluster.constructor | ppm_redux.cpp:246-249 | `Cluster c; c.set_barycentre(seed)`: the new cluster has the seed as barycentre and no members |
| Clusters.Cluster.SetBarycentre | ppm_redux.cpp:93 | `set_barycentre` replaces the barycentre and leaves the members alone |
| Clusters.Cluster.AddPixel | ppm_redux.cpp:98 | `addPixel` appends to the member list |
| Clusters.Cluster.ClearPixels | ppm_redux.cpp:97 | `clearPixels` empties the member list |
| Clusters.ComputeBarycentre | ppm_redux.cpp:206-230 | on members, the barycentre becomes their truncated mean; on none, the empty-pixel-set error and the barycentre is unchanged |
| Nearest.FirstNearestIsFirstMinimum | ppm_redux.cpp:175-189 | the reference search returns an index at minimal distance with every earlier index strictly farther, so the lowest index wins ties |
| Nearest.FirstNearestUnique | ppm_redux.cpp:175-189 | that property determines the index |
| Nearest.NearestOfExactMatch | ppm_redux.cpp:175-189 | a centre of the pixel's own colour is chosen unless an earlier centre is also at distance zero |
| Nearest.NearestCluster | ppm_redux.cpp:175-189 | `getNearestCluster` returns the first cluster whose barycentre is at minimal distance |
| Nearest.NearestBarycenter | ppm_redux.cpp:191-205 | `getNearestBarycenter` fails exactly on an empty palette; otherwise it returns a palette entry, the first one at minimal distance |
| KMeansSpec.SeedIndex | ppm_redux.cpp:244-248 | cluster i is seeded from pixel `i * N / k`, which always lies inside the buffer |
| KMeansSpec.SeedsIncrease | ppm_redux.cpp:244-249 | the first cluster is seeded from pixel 0, and when k <= N the seed positions `i * N / k` strictly increase with i, so the k clusters start from k distinct pixels |
| KMeansSpec.Assign | ppm_redux.cpp:258-262 | the assignment pass keeps the barycentres and the cluster count |
| KMeansSpec.AssignMembers | ppm_redux.cpp:258-262 | after the assignment pass, cluster j holds what it held before followed by exactly the pixels whose first nearest centre is j, in buffer order |
| KMeansSpec.AssignAddsEveryPixelOnce | ppm_redux.cpp:258-262 | the assignment pass raises the total member count by exactly N |
| KMeansSpec.MovedBelowIsExists | ppm_redux.cpp:264-278 | `changement` is set in the update pass iff some cluster with members has a recomputed barycentre not `==` to its old one |
| KMeansSpec.Update | ppm_redux.cpp:264-278 | the update pass gives a cluster with members the truncated mean of its members as barycentre; it gives no cluster new members; it empties a cluster with members exactly when its new barycentre is not `==` to its old one (the cluster moved); a cluster without members keeps its stale barycentre; every cluster that keeps members has a barycentre `==` to its old one |
| KMeansSpec.RunStep | ppm_redux.cpp:255-278 | the state after pass n + 1 is one assignment-and-update pass applied to the state after pass n |
| KMeansSpec.LoopAtStops | ppm_redux.cpp:255-278 | a loop whose flag is clear after pass n stopped there: every earlier pass moved a barycentre and pass n moved none |
| KMeansSpec.LoopAtMoving | ppm_redux.cpp:255-278 | a loop whose flag is still set after pass n saw a move in every pass so far |
| KMeansSpec.StopsAfterUnique | ppm_redux.cpp:255-278 | the loop stops after at most one pass count |
| KMeansSpec.SettledPassIsStable | ppm_redux.cpp:264-278 | after a pass that moves nothing, no cluster was cleared and each cluster with members kept a barycentre within tolerance of its previous one |
| KMeansSpec.PaletteWithinImageRange | ppm_redux.cpp:238-282 | if every pixel's channel lies in [lo, hi], so does every barycentre after any number of passes, hence every appended palette entry |
| KMeansSpec.OneClusterPass | ppm_redux.cpp:255-278 | with one cluster, a pass hands it the whole buffer after its old members and sets its barycentre to their centroid |
| KMeansSpec.SingleClusterSettles | ppm_redux.cpp:238-282 | with k = 1 the loop stops after the first or second pass, and the palette entry is the truncated mean colour of the whole image |
| Exports.ExportItems | ppm_redux.cpp:310-324 | one item is written per pixel, and every written colour is a palette entry |
| Exports.ExportPicksNearest | ppm_redux.cpp:312-314 | every written colour is at minimal distance, among the palette entries, from the pixel it replaces |
| Exports.ExportRowEnds | ppm_redux.cpp:316-323 | pixel i is followed by a newline iff it is the last pixel of its row (`i % width == width - 1`), otherwise by a space |
| Exports.ExportLineCount | ppm_redux.cpp:310-324 | a `width * height` buffer is written as exactly `height` newline-terminated rows |
| Images.Image.constructor | ppm_redux.cpp:110 | `Image(w, h)` clamps non-positive dimensions to 0 and holds exactly `width * height` all-zero pixels and an empty palette |
| Images.Image.GetPixel | ppm_redux.cpp:120-130 | `getPixel(i)` compares the index, converted to a 64-bit unsigned value, with the buffer size; this test is proved to accept exactly `0 <= i < N`, returning `data[i]`, and gives the out-of-bounds error otherwise, negative indices included |
| Images.Image.SeedClusters | ppm_redux.cpp:242-252 | creates k fresh, distinct clusters holding exactly the seeded state |
| Images.Image.AssignmentPass | ppm_redux.cpp:258-262 | the in-place loop over the buffer leaves the clusters holding exactly `Assign(data, state)` |
| Images.Image.AddToNearestCluster | ppm_redux.cpp:260-261 | adding one pixel to its nearest cluster leaves the clusters holding exactly `AddToNearest(state, p)` |
| Images.Image.UpdatePass | ppm_redux.cpp:264-278 | the in-place loop over the clusters leaves exactly `Update(state)` and returns whether some cluster was cleared |
| Images.Image.UpdateCluster | ppm_redux.cpp:266-276 | one cluster ends as `Update(state)` has it at that position, and the flag says whether it moved |
| Images.Image.OnePass | ppm_redux.cpp:255-278 | one loop iteration takes the clusters from the state after pass n to the state after pass n + 1, and its flag is that pass's `changement` |
| Images.Image.Loop | ppm_redux.cpp:253-278 | the `while (changement)` loop leaves the clusters in the state after its last pass, and either stopped there or hit the pass cap with every pass moving |
| Images.Image.AppendPalette | ppm_redux.cpp:279-282 | the barycentres are appended to `k_redux` in cluster order |
| Images.Image.KMeans | ppm_redux.cpp:238-288 | on an empty buffer, the empty-data-set error and nothing changes; otherwise `k_redux` grows by exactly the k barycentres of the run that stops, in seed order; earlier palette entries and the buffer are unchanged |
| Images.Image.WriteRedux | ppm_redux.cpp:295-333 | an empty palette is the empty-redux-set error; otherwise, if the output opens, the header (magic `P3`, width, height, maximum value 255) and, per pixel in buffer order, its nearest palette entry followed by the row separator |

## Left out

- File loading (`Image(string)`, ppm_redux.cpp:132-173) is not modelled. It is `ifstream` tokenising and stream failure states. The lemmas about a run take any non-empty buffer, which covers whatever a successful load leaves.
- Console output, file creation and number formatting are left out. `write_redux` is modelled as the header plus the sequence of written colours and separators. A file that fails to open is the `canOpen` parameter, and the result is then `NotWritten`. The trailing newline after the last row is not part of the item sequence.
- `main` (ppm_redux.cpp:336-351) is left out. It is fixed configuration and file-name handling.
- Floating point:
  - channels, sums and distances are exact integers;
  - `sqrt` is replaced by the squared distance, which orders candidates the same way;
  - a `double` quotient that rounds up to the next integer before `static_cast<int>` is not modelled. This needs sums far beyond image sizes.
- Images.Image.KMeans: the source loops until a pass moves nothing, with no pass cap. The model takes a pass cap `maxPasses`. When the cap is reached with the last pass still moving, it returns `Unsettled` and appends nothing. The source would go on looping.
- Termination of the loop and a decreasing clustering cost are not claimed. The source promises neither, and it keeps stale members in clusters that did not move.
- Behaviour for `k <= 0` is not modelled. `getNearestCluster` then reads `c[0]` of an empty vector, so `KMeans` requires `k >= 1`.
- The `Color` wrapper class (ppm_redux.cpp:18-28) is collapsed into `int`.
- Images.Image.GetPixel takes an index within the 32-bit `int` range and a buffer of fewer than 2^63 pixels. The source's parameter type and `vector`'s size limit guarantee both.
- Overflow is not modelled:
  - `int` overflow of `width * height`;
  - overflow of the unsigned seed index `i * N`.
- `Pixel(int, int, int)` leaves `index` uninitialised; the model sets the centroid's index to 0. Nothing reads the index of a barycentre.
- A k-means reader would expect each assignment pass to partition the buffer. The code does not: a cluster whose barycentre did not move keeps its members and receives them again in the next pass (ppm_redux.cpp:271-275). The model follows the code. `KMeansSpec.AssignMembers` states what a cluster holds after each pass.
