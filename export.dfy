/** The layout `write_redux` gives the output: a plain PPM header, then every
    pixel replaced by its nearest palette entry, rows of `width` pixels each
    closed by a newline. */
module Exports {
  import opened Pixels
  import opened Clusters
  import opened Nearest

  /** The header: magic `P3`, the dimensions, and the maximum channel value. */
  datatype Header = Header(magic: string, width: int, height: int, maxValue: int)

  /** What `write_redux` writes after each pixel's colour. */
  datatype Separator = Space | Newline

  datatype Emitted = Emitted(colour: Pixel, separator: Separator)

  /** `Written` carries the output file; `NotWritten` is the output file failing
      to open, which the source reports on the console only. */
  datatype Export = Written(header: Header, items: seq<Emitted>) | NotWritten

  function PpmHeader(width: int, height: int): Header
  {
    Header("P3", width, height, 255)
  }

  /** The remap rule: pixel i is replaced by its first nearest palette entry and
      followed by a newline when it closes a row of `width` pixels. */
  function ExportItems(data: seq<Pixel>, palette: seq<Pixel>, width: int): (items: seq<Emitted>)
    requires palette != [] && (width > 0 || data == [])
    ensures |items| == |data|
    ensures forall i :: 0 <= i < |items| ==> items[i].colour in palette
  {
    seq(|data|, i requires 0 <= i < |data| =>
      Emitted(palette[FirstNearest(data[i], palette)], if (i + 1) % width == 0 then Newline else Space))
  }

  /** Every output colour is at minimal distance, among the palette entries, from
      the pixel it replaces. */
  lemma ExportPicksNearest(data: seq<Pixel>, palette: seq<Pixel>, width: int, i: int)
    requires palette != [] && (width > 0 || data == [])
    requires 0 <= i < |data|
    ensures forall q :: q in palette ==>
              SqDistance(data[i], ExportItems(data, palette, width)[i].colour) <= SqDistance(data[i], q)
  {
    FirstNearestIsFirstMinimum(data[i], palette);
  }

  /** A pixel closes a row exactly when it is the last of its row. */
  lemma ExportRowEnds(data: seq<Pixel>, palette: seq<Pixel>, width: int, i: int)
    requires palette != [] && width > 0
    requires 0 <= i < |data|
    ensures ExportItems(data, palette, width)[i].separator == Newline <==> i % width == width - 1
  {
    DivStep(i, width);
  }

  /** How many items close a row. */
  function NewlineCount(items: seq<Emitted>): nat
  {
    if items == [] then 0
    else NewlineCount(items[..|items| - 1]) + (if items[|items| - 1].separator == Newline then 1 else 0)
  }

  /** A buffer of `height` rows of `width` pixels is written as `height` lines. */
  lemma ExportLineCount(data: seq<Pixel>, palette: seq<Pixel>, width: int, height: nat)
    requires palette != [] && width > 0 && |data| == width * height
    ensures NewlineCount(ExportItems(data, palette, width)) == height
  {
    var items := ExportItems(data, palette, width);
    NewlinesInPrefix(data, palette, width, |data|);
    assert items[..|data|] == items;
    DivExact(height, width);
  }

  lemma {:induction false} NewlinesInPrefix(data: seq<Pixel>, palette: seq<Pixel>, width: int, n: nat)
    requires palette != [] && width > 0 && n <= |data|
    ensures NewlineCount(ExportItems(data, palette, width)[..n]) == n / width
  {
    var items := ExportItems(data, palette, width);
    if n > 0 {
      NewlinesInPrefix(data, palette, width, n - 1);
      assert items[..n][..n - 1] == items[..n - 1];
      DivStep(n - 1, width);
    }
  }

  /** Stepping from `i` to `i + 1` raises the quotient by one exactly when `i + 1`
      is a multiple of `w`. */
  lemma DivStep(i: nat, w: int)
    requires w > 0
    ensures (i + 1) % w == 0 <==> i % w == w - 1
    ensures (i + 1) / w == i / w + (if (i + 1) % w == 0 then 1 else 0)
  {
    var q, r := i / w, i % w;
    assert i == q * w + r && 0 <= r < w;
    if r == w - 1 {
      assert i + 1 == (q + 1) * w;
      DivUnique(i + 1, w, q + 1, 0);
    } else {
      DivUnique(i + 1, w, q, r + 1);
    }
  }

  lemma DivUnique(n: int, w: int, q: int, r: int)
    requires w > 0 && n == q * w + r && 0 <= r < w
    ensures n / w == q && n % w == r
  {
    var q', r' := n / w, n % w;
    assert n == q' * w + r' && 0 <= r' < w;
    if q' < q {
      MulMonotone(q' + 1, q, w);
      MulSucc(q', w);
    } else if q < q' {
      MulMonotone(q + 1, q', w);
      MulSucc(q, w);
    }
  }

  lemma DivExact(h: int, w: int)
    requires w > 0
    ensures (w * h) / w == h
  {
    DivUnique(w * h, w, h, 0);
  }
}
