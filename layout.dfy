/** The geometry of a stitched image: decoded bitmaps are stacked top to
    bottom in list order on a canvas as wide as the widest bitmap and as tall
    as all of them together, each one centred horizontally. */
module Layout {

  /** One ARGB_8888 pixel. */
  type Pixel = bv32

  /** The colour of a freshly created ARGB_8888 bitmap. */
  const Transparent: Pixel := 0

  /** A decoded bitmap: `pixels[y][x]` for `0 <= y < height`, `0 <= x < width`. */
  datatype Bitmap = Bitmap(width: int, height: int, pixels: seq<seq<Pixel>>)

  predicate WellFormed(b: Bitmap)
  {
    b.width > 0 && b.height > 0 && |b.pixels| == b.height &&
    forall y | 0 <= y < |b.pixels| :: |b.pixels[y]| == b.width
  }

  /** What the platform decoder hands back: never an empty or ragged bitmap. */
  type Image = b: Bitmap | WellFormed(b) witness Bitmap(1, 1, [[Transparent]])

  /** Kotlin's `/` on Int, which truncates toward zero. */
  function KotlinDiv(a: int, b: int): (q: int)
    requires b > 0
    ensures a >= 0 ==> 0 <= a - q * b < b
    ensures a < 0 ==> -b < a - q * b <= 0
  {
    if a >= 0 then a / b else -((-a) / b)
  }

  /** `maxOf(maxWidth, bitmap.width)` folded over the list, starting at 0. */
  function MaxWidth(bs: seq<Image>): (m: nat)
    ensures m == 0 <==> bs == []
  {
    if bs == [] then 0
    else
      var m := MaxWidth(bs[..|bs| - 1]);
      var w := bs[|bs| - 1].width;
      if m >= w then m else w
  }

  /** `totalHeight += bitmap.height` folded over the list, starting at 0. */
  function TotalHeight(bs: seq<Image>): (h: nat)
    ensures h >= |bs|
  {
    if bs == [] then 0 else TotalHeight(bs[..|bs| - 1]) + bs[|bs| - 1].height
  }

  /** The top edge of image `i`: the height of everything painted before it. */
  function Top(bs: seq<Image>, i: nat): int
    requires i <= |bs|
  {
    TotalHeight(bs[..i])
  }

  /** The left edge of an image of width `w` on a canvas of width `canvasWidth`. */
  function Left(canvasWidth: int, w: int): (left: int)
    ensures 0 <= w <= canvasWidth ==> 0 <= left && left + w <= canvasWidth
  {
    KotlinDiv(canvasWidth - w, 2)
  }

  /** Whether pixel (y, x) of the canvas lies in the image of width `w` and
      height `h` whose top-left corner is at (top, left). */
  predicate Covers(top: int, left: int, w: int, h: int, y: int, x: int)
  {
    top <= y < top + h && left <= x < left + w
  }

  /** The canvas after painting `bs` in order onto a transparent canvas of
      width `canvasWidth`: a later image paints over an earlier one. */
  function CompositePixel(bs: seq<Image>, canvasWidth: int, y: int, x: int): Pixel
  {
    if bs == [] then Transparent
    else
      var b := bs[|bs| - 1];
      var top := TotalHeight(bs[..|bs| - 1]);
      var left := Left(canvasWidth, b.width);
      if Covers(top, left, b.width, b.height, y, x)
      then b.pixels[y - top][x - left]
      else CompositePixel(bs[..|bs| - 1], canvasWidth, y, x)
  }

  // ---------------------------------------------------------------------------
  // Canvas size
  // ---------------------------------------------------------------------------

  /** The canvas width bounds every image width and is the width of one of
      them; an empty list gives width 0. */
  lemma {:induction false} MaxWidthIsMaximum(bs: seq<Image>)
    ensures forall i | 0 <= i < |bs| :: bs[i].width <= MaxWidth(bs)
    ensures bs == [] <==> MaxWidth(bs) == 0
    ensures bs != [] ==> exists i :: 0 <= i < |bs| && bs[i].width == MaxWidth(bs)
  {
    if bs != [] {
      var p := bs[..|bs| - 1];
      MaxWidthIsMaximum(p);
      assert forall i | 0 <= i < |p| :: bs[i] == p[i];
      if MaxWidth(p) < bs[|bs| - 1].width {
        assert bs[|bs| - 1].width == MaxWidth(bs);
      } else {
        var i :| 0 <= i < |p| && p[i].width == MaxWidth(p);
        assert bs[i].width == MaxWidth(bs);
      }
    }
  }

  /** One more image updates both folds exactly as one more loop iteration does. */
  lemma FoldStep(bs: seq<Image>, b: Image)
    ensures MaxWidth(bs + [b]) == if MaxWidth(bs) >= b.width then MaxWidth(bs) else b.width
    ensures TotalHeight(bs + [b]) == TotalHeight(bs) + b.height
  {
    assert (bs + [b])[..|bs|] == bs;
  }

  /** The canvas height adds up over a split of the list. */
  lemma {:induction false} TotalHeightAppend(a: seq<Image>, b: seq<Image>)
    ensures TotalHeight(a + b) == TotalHeight(a) + TotalHeight(b)
    decreases |b|
  {
    if b == [] {
      assert a + b == a;
    } else {
      var b' := b[..|b| - 1];
      assert (a + b)[..|a + b| - 1] == a + b';
      TotalHeightAppend(a, b');
    }
  }

  /** Every image adds at least one row, so the canvas is at least as tall as
      the number of images and has height 0 only for an empty list. */
  lemma {:induction false} TotalHeightAtLeastCount(bs: seq<Image>)
    ensures TotalHeight(bs) >= |bs|
    ensures bs == [] <==> TotalHeight(bs) == 0
  {
    if bs != [] {
      TotalHeightAtLeastCount(bs[..|bs| - 1]);
    }
  }

  /** The canvas is non-degenerate exactly when there is something to stitch. */
  lemma CanvasIsEmptyIffNoImages(bs: seq<Image>)
    ensures (MaxWidth(bs) == 0 || TotalHeight(bs) == 0) <==> bs == []
  {
    MaxWidthIsMaximum(bs);
    TotalHeightAtLeastCount(bs);
  }

  // ---------------------------------------------------------------------------
  // Placement of each image
  // ---------------------------------------------------------------------------

  /** Adding image `i` moves the running top edge down by its height. */
  lemma TopStep(bs: seq<Image>, i: nat)
    requires i < |bs|
    ensures Top(bs, i + 1) == Top(bs, i) + bs[i].height
  {
    assert bs[..i + 1][..i] == bs[..i];
  }

  /** Top edges grow with the index: an earlier image ends no lower than where
      a later one starts. */
  lemma TopMonotone(bs: seq<Image>, i: nat, j: nat)
    requires i <= j <= |bs|
    ensures Top(bs, i) <= Top(bs, j)
  {
    assert bs[..j] == bs[..i] + bs[i..j];
    TotalHeightAppend(bs[..i], bs[i..j]);
    TotalHeightAtLeastCount(bs[i..j]);
  }

  /** The horizontal bands of two different images do not overlap, and image
      `i` lies above image `j` whenever `i < j`. */
  lemma BandsDisjoint(bs: seq<Image>, i: nat, j: nat)
    requires i < j < |bs|
    ensures Top(bs, i) + bs[i].height <= Top(bs, j)
  {
    TopStep(bs, i);
    TopMonotone(bs, i + 1, j);
  }

  /** Every band lies inside the canvas vertically. */
  lemma BandInCanvas(bs: seq<Image>, i: nat)
    requires i < |bs|
    ensures 0 <= Top(bs, i)
    ensures Top(bs, i) + bs[i].height <= TotalHeight(bs)
  {
    TopMonotone(bs, 0, i);
    TopStep(bs, i);
    TopMonotone(bs, i + 1, |bs|);
    assert bs[..|bs|] == bs;
  }

  /** An image no wider than the canvas is drawn wholly inside it, with the
      spare columns split evenly and the odd one, if any, on the right. */
  lemma CentredInCanvas(canvasWidth: int, w: int)
    requires 0 <= w <= canvasWidth
    ensures 0 <= Left(canvasWidth, w)
    ensures Left(canvasWidth, w) + w <= canvasWidth
    ensures var right := canvasWidth - Left(canvasWidth, w) - w;
      right == Left(canvasWidth, w) || right == Left(canvasWidth, w) + 1
  {
  }

  /** Every image of the list is drawn wholly inside the canvas. */
  lemma ImageInCanvas(bs: seq<Image>, i: nat)
    requires i < |bs|
    ensures 0 <= Left(MaxWidth(bs), bs[i].width)
    ensures Left(MaxWidth(bs), bs[i].width) + bs[i].width <= MaxWidth(bs)
    ensures 0 <= Top(bs, i) && Top(bs, i) + bs[i].height <= TotalHeight(bs)
  {
    MaxWidthIsMaximum(bs);
    CentredInCanvas(MaxWidth(bs), bs[i].width);
    BandInCanvas(bs, i);
  }

  // ---------------------------------------------------------------------------
  // What the finished canvas shows
  // ---------------------------------------------------------------------------

  /** Nothing is painted below the last image. */
  lemma {:induction false} CompositeBelowIsTransparent(bs: seq<Image>, canvasWidth: int, y: int, x: int)
    requires y >= TotalHeight(bs)
    ensures CompositePixel(bs, canvasWidth, y, x) == Transparent
  {
    if bs != [] {
      CompositeBelowIsTransparent(bs[..|bs| - 1], canvasWidth, y, x);
    }
  }

  /** In the band of image `k` the canvas shows image `k` and nothing else:
      its own pixel where it covers the column, transparency beside it. */
  lemma {:induction false} CompositeInBand(bs: seq<Image>, canvasWidth: int, k: nat, y: int, x: int)
    requires k < |bs|
    requires Top(bs, k) <= y < Top(bs, k) + bs[k].height
    ensures var left := Left(canvasWidth, bs[k].width);
      CompositePixel(bs, canvasWidth, y, x) ==
        if left <= x < left + bs[k].width then bs[k].pixels[y - Top(bs, k)][x - left]
        else Transparent
  {
    var n := |bs| - 1;
    var p := bs[..n];
    if k == n {
      if !(Left(canvasWidth, bs[k].width) <= x < Left(canvasWidth, bs[k].width) + bs[k].width) {
        CompositeBelowIsTransparent(p, canvasWidth, y, x);
      }
    } else {
      BandsDisjoint(bs, k, n);
      assert p[..k] == bs[..k];
      assert p[k] == bs[k];
      CompositeInBand(p, canvasWidth, k, y, x);
    }
  }
}
