# Image stitcher: selection list and vertical stitch

A Dafny model of the two pieces of logic in the Android image stitcher app.

- **The selection list.** The user picks images. The adapter shows them as a
  list. Dragging a row moves it (`moveItem`: remove, then insert). Each row's
  remove button deletes it. The adapter and the main screen share one
  `MutableList<Uri>`. So the model has one `UriList` object, and both
  `ImageAdapter` and `MainActivity` hold a reference to it.
- **The stitch.** The stitch button first checks that at least two images are
  selected. `stitchImages` then runs two loops:
  - The first loop decodes every URI in order. It keeps the bitmaps and tracks
    the widest width and the summed height. The first URI that fails ends the
    stitch before any canvas exists.
  - The second loop paints each bitmap on a transparent canvas of that size,
    one under the other in list order. Each bitmap is centred horizontally at
    `(maxWidth - width) / 2`.

  The canvas is then saved as `stitched_image_<timestamp>.png`. The selection
  is cleared only when the save succeeds.

Files:

- `selection.dfy` (module `Selection`). Value-level specifications of `removeAt`,
  `add(index, x)` and the move, with their lemmas. The `UriList` class stands
  for Kotlin's `MutableList`. The `ImageAdapter` class is the adapter.
- `layout.dfy` (module `Layout`). Bitmaps and the canvas geometry as functions:
  the folded `MaxWidth` and `TotalHeight`, the top edge `Top`, the centring
  offset `Left`, and `CompositePixel`, which gives what the painted canvas shows.
  The lemmas say that bands are disjoint, that every image lies inside the
  canvas, and that the canvas shows each image in its own band.
- `stitcher.dfy` (module `Stitcher`). The decoding pass as a specification
  `LoadAll` and as the loop `MeasureImages`. The painting pass as `DrawBitmap`
  and `PaintImages` on an `array2` canvas. The file name. The `MainActivity`
  class with the selection, the controls, the gallery and the stitch itself.

How the model stands in for the platform:

- **Decoding.** Decoding is a parameter `decode: Uri -> DecodeResult` with three
  results:
  - a bitmap;
  - null (the stream is null or cannot be decoded);
  - an exception from `openInputStream`. This one reaches the catch-all handler.
- **Gallery.** The MediaStore's answer is a parameter `store: Option<Uri>`.
  `None` stands for any `IOException` while inserting, writing or finishing the
  record. In that case the record is deleted again, so the gallery is unchanged.
- **Timestamp.** The timestamp is an opaque string parameter.
- **Painting.** `drawBitmap(bitmap, left, top, null)` is modelled as a clipped
  block copy. Painting with SRC_OVER onto a transparent pixel gives exactly the
  source pixel. The bands never overlap (see `Layout.BandsDisjoint`). So on
  this canvas the copy is exact.
- **Saving.** PNG at quality 100 is lossless, so the saved record holds the
  canvas pixels unchanged (`Snapshot`).
- **Disabled buttons.** A disabled button delivers no clicks. This is why
  `OnStitchClicked` requires `buttonsEnabled`.

The code decodes every image at full size, does not rescale, and centres
narrower images (`MainActivity.kt:185`). An empty list that reaches
`stitchImages` fails in `Bitmap.createBitmap(0, 0, …)`, and the catch-all
handler catches it (`Stitcher.EmptySelectionFails`). The `size < 2` guard keeps
this from happening through the UI.

A behaviour the model makes explicit: when a URI decodes to null, `stitchImages`
returns from the coroutine at `MainActivity.kt:173`. It never reaches the code
that hides the progress bar and re-enables the buttons. So after a null bitmap
both buttons stay disabled and the progress bar keeps showing
(`Stitcher.MainActivity.StitchImages`, outcome `LoadFailed`). No "always returns
to idle" property holds. An exception from `openInputStream` does restore the
controls, through the catch-all handler.

## Model

| member | source | states |
|---|---|---|
| `Selection.RemovedAt` | app/src/main/java/com/example/imagestitcherapp/ImageAdapter.kt:44-47 | after `removeAt(i)` the list is one shorter; slots before `i` are unchanged; slots from `i` on hold the next element, so the original order is kept |
| `Selection.RemovedMultiset` | app/src/main/java/com/example/imagestitcherapp/ImageAdapter.kt:46 | removal loses exactly one occurrence of the removed element and keeps every other one |
| `Selection.InsertedAt` | app/src/main/java/com/example/imagestitcherapp/ImageAdapter.kt:72 | `add(i, x)` makes the list one longer; `x` is at `i`; earlier slots are unchanged; later ones shift up by one |
| `Selection.MovedAt` | app/src/main/java/com/example/imagestitcherapp/ImageAdapter.kt:71-72 | after a valid move, slot `to` holds the element from `from`; every other slot in `[min(from, to), max(from, to)]` holds the element one step further from `from`, so those elements shift one step toward `from` and keep their relative order; slots outside are unchanged; the length is kept |
| `Selection.MovedIsPermutation` | app/src/main/java/com/example/imagestitcherapp/ImageAdapter.kt:71-72 | a valid move keeps the length and the multiset of elements, so the result is a permutation |
| `Selection.MovedToSelf` | app/src/main/java/com/example/imagestitcherapp/ImageAdapter.kt:71-72 | `moveItem(i, i)` is the identity |
| `Selection.MovedBack` | app/src/main/java/com/example/imagestitcherapp/ImageAdapter.kt:71-72 | `moveItem(a, b)` followed by `moveItem(b, a)` restores the original list |
| `Selection.UriList.constructor` | app/src/main/java/com/example/imagestitcherapp/MainActivity.kt:40 | the selection starts empty |
| `Selection.UriList.RemoveAt` | app/src/main/java/com/example/imagestitcherapp/ImageAdapter.kt:71 | `removeAt` returns the element that was at the index, and the list becomes `Removed` of the old list |
| `Selection.UriList.Add` | app/src/main/java/com/example/imagestitcherapp/ImageAdapter.kt:72 | `add(index, x)` makes the list `Inserted` of the old list |
| `Selection.UriList.Clear` | app/src/main/java/com/example/imagestitcherapp/MainActivity.kt:201 | after `clear()` the list is empty |
| `Selection.UriList.AddAll` | app/src/main/java/com/example/imagestitcherapp/MainActivity.kt:59 | `addAll(xs)` appends `xs` in order |
| `Selection.ImageAdapter.constructor` | app/src/main/java/com/example/imagestitcherapp/ImageAdapter.kt:13-16 | the adapter keeps a reference to the list it is given, not a copy |
| `Selection.ImageAdapter.GetItemCount` | app/src/main/java/com/example/imagestitcherapp/ImageAdapter.kt:57 | the number of rows is the current length of the shared list; `MoveItem` keeps it and a removal lowers it by one |
| `Selection.ImageAdapter.MoveItem` | app/src/main/java/com/example/imagestitcherapp/ImageAdapter.kt:64-74 | if either position is outside `[0, size)`, the list is unchanged; otherwise it becomes `Moved(old, from, to)`; either way the item count and the multiset of items are kept |
| `Selection.ImageAdapter.OnRemoveClicked` | app/src/main/java/com/example/imagestitcherapp/ImageAdapter.kt:43-49 | at `NO_POSITION` nothing happens; at a position in range that item is removed and the count drops by one; any other position makes `removeAt` throw an uncaught exception, reported as `IndexOutOfBounds` with the list unchanged |
| `Layout.KotlinDiv` | app/src/main/java/com/example/imagestitcherapp/MainActivity.kt:185 | Kotlin's Int division, truncating toward zero: the remainder lies in `[0, b)` for a non-negative dividend and in `(-b, 0]` for a negative one |
| `Layout.MaxWidth` | app/src/main/java/com/example/imagestitcherapp/MainActivity.kt:156-166 | `maxOf(maxWidth, width)` folded over the images from 0; it is 0 exactly for an empty list |
| `Layout.TotalHeight` | app/src/main/java/com/example/imagestitcherapp/MainActivity.kt:157-167 | `totalHeight += height` folded over the images from 0; at least one row per image |
| `Layout.Left` | app/src/main/java/com/example/imagestitcherapp/MainActivity.kt:185 | `left = (maxWidth - width) / 2`; for an image no wider than the canvas, `0 <= left` and `left + width <= maxWidth` |
| `Layout.MaxWidthIsMaximum` | app/src/main/java/com/example/imagestitcherapp/MainActivity.kt:155-175 | the folded `maxWidth` is at least every image's width and equals the width of one of them; it is 0 exactly for an empty list |
| `Layout.TotalHeightAppend` | app/src/main/java/com/example/imagestitcherapp/MainActivity.kt:157-167 | the folded `totalHeight` of a concatenation is the sum of the parts' heights |
| `Layout.TotalHeightAtLeastCount` | app/src/main/java/com/example/imagestitcherapp/MainActivity.kt:167 | every image adds at least one row, so `totalHeight` is at least the number of images and is 0 only for an empty list |
| `Layout.CanvasIsEmptyIffNoImages` | app/src/main/java/com/example/imagestitcherapp/MainActivity.kt:178 | the canvas has a zero dimension if and only if there are no images |
| `Layout.TopStep` | app/src/main/java/com/example/imagestitcherapp/MainActivity.kt:180-187 | after image `i` is painted, `currentY` has grown by exactly its height |
| `Layout.TopMonotone` | app/src/main/java/com/example/imagestitcherapp/MainActivity.kt:180-187 | the top edges never decrease along the list |
| `Layout.BandsDisjoint` | app/src/main/java/com/example/imagestitcherapp/MainActivity.kt:180-187 | for `i < j`, image `i`'s band ends at or above the start of image `j`'s band: bands are disjoint and in list order |
| `Layout.BandInCanvas` | app/src/main/java/com/example/imagestitcherapp/MainActivity.kt:178-187 | every band `[top_i, top_i + h_i)` lies within `[0, totalHeight)` |
| `Layout.CentredInCanvas` | app/src/main/java/com/example/imagestitcherapp/MainActivity.kt:185-186 | for an image no wider than the canvas, `left = (maxWidth - width) / 2` gives `0 <= left` and `left + width <= maxWidth`; the right margin equals the left one or exceeds it by one column |
| `Layout.ImageInCanvas` | app/src/main/java/com/example/imagestitcherapp/MainActivity.kt:178-186 | every image of the list lies inside the canvas, both horizontally and vertically |
| `Layout.CompositeBelowIsTransparent` | app/src/main/java/com/example/imagestitcherapp/MainActivity.kt:178-189 | no image is painted at or below row `totalHeight` |
| `Layout.CompositeInBand` | app/src/main/java/com/example/imagestitcherapp/MainActivity.kt:183-189 | within image `k`'s band the painted canvas shows image `k`'s own pixel where it covers the column, and transparency to either side; no other image shows there |
| `Stitcher.LoadAll` | app/src/main/java/com/example/imagestitcherapp/MainActivity.kt:160-175 | a successful pass has one bitmap per URI; a failed one names an index inside the list |
| `Stitcher.LoadAllCharacterised` | app/src/main/java/com/example/imagestitcherapp/MainActivity.kt:160-175 | the pass succeeds if and only if every URI decodes, and then bitmap `i` is URI `i`'s; a failure names the first URI that did not decode, with what it decoded to |
| `Stitcher.LoadAllFailureSticks` | app/src/main/java/com/example/imagestitcherapp/MainActivity.kt:164-174 | a failure on a prefix is the failure of the whole list: nothing after it is decoded and nothing is skipped |
| `Stitcher.MeasureImages` | app/src/main/java/com/example/imagestitcherapp/MainActivity.kt:155-175 | the first loop returns what `LoadAll` specifies; on success `maxWidth` and `totalHeight` are the folded maximum width and summed height of the bitmaps |
| `Stitcher.DrawBitmap` | app/src/main/java/com/example/imagestitcherapp/MainActivity.kt:186 | every canvas pixel the bitmap covers at `(left, top)` takes the bitmap's pixel; pixels outside the canvas are clipped; every other pixel keeps its colour |
| `Stitcher.PaintImages` | app/src/main/java/com/example/imagestitcherapp/MainActivity.kt:180-189 | after the second loop, `currentY` equals `totalHeight`, and every pixel of the canvas equals `CompositePixel`, the painting in list order at the centred offsets |
| `Stitcher.Snapshot` | app/src/main/java/com/example/imagestitcherapp/MainActivity.kt:252 | the stored PNG has the canvas's dimensions and exactly its pixels |
| `Stitcher.FileName` | app/src/main/java/com/example/imagestitcherapp/MainActivity.kt:225-226 | the name is the prefix `stitched_image_`, then the timestamp, then `.png` |
| `Stitcher.FileNameRoundTrip` | app/src/main/java/com/example/imagestitcherapp/MainActivity.kt:226 | the timestamp can be read back from the name, so different timestamps give different names |
| `Stitcher.TimestampOfInverts` | app/src/main/java/com/example/imagestitcherapp/MainActivity.kt:226 | every name from which a timestamp can be read is the name built from that timestamp |
| `Stitcher.StitchContainsEveryImage` | app/src/main/java/com/example/imagestitcherapp/MainActivity.kt:178-192 | the saved stitch holds every bitmap whole and unmodified: pixel `(r, c)` of image `k` is at row `top_k + r`, column `left_k + c`, inside the image |
| `Stitcher.StitchResult` | app/src/main/java/com/example/imagestitcherapp/MainActivity.kt:147-222 | the outcome of `stitchImages`: a null bitmap gives `LoadFailed` naming a selected URI; an exception or a zero-sized canvas gives `StitchFailed`; otherwise the gallery's answer gives `SaveFailed` or `Saved` at that URI with name `FileName(timestamp)`; never `TooFewImages` |
| `Stitcher.ClickResult` | app/src/main/java/com/example/imagestitcherapp/MainActivity.kt:76-82 | `TooFewImages` exactly when fewer than two images are selected; otherwise the outcome of `stitchImages` |
| `Stitcher.SavedOnlyIfAllDecoded` | app/src/main/java/com/example/imagestitcherapp/MainActivity.kt:160-174 | a stitch is saved only if every selected URI decoded; a load failure names the first URI that decoded to null |
| `Stitcher.ClickSavesWhenAllDecode` | app/src/main/java/com/example/imagestitcherapp/MainActivity.kt:76-81 | with at least two images, all of them decodable, the canvas is always created, and the gallery's answer alone decides between `Saved` and `SaveFailed` |
| `Stitcher.EmptySelectionFails` | app/src/main/java/com/example/imagestitcherapp/MainActivity.kt:178 | if `stitchImages` runs on an empty list, it ends in the catch-all failure when the canvas is created |
| `Stitcher.MainActivity.constructor` | app/src/main/java/com/example/imagestitcherapp/MainActivity.kt:85-88 | the adapter is built on the activity's own list; the list starts empty; the buttons start enabled and the gallery empty |
| `Stitcher.MainActivity.OnImagesPicked` | app/src/main/java/com/example/imagestitcherapp/MainActivity.kt:55-62 | a non-null pick replaces the selection with the picked URIs, in order; a null result leaves it unchanged |
| `Stitcher.MainActivity.SaveBitmapToGallery` | app/src/main/java/com/example/imagestitcherapp/MainActivity.kt:224-267 | on success one record is appended with name `FileName(timestamp)`, type `image/png`, the canvas size and its pixels; on failure the gallery is as before; the returned URI is the gallery's answer |
| `Stitcher.MainActivity.StitchImages` | app/src/main/java/com/example/imagestitcherapp/MainActivity.kt:147-222 | the outcome is `StitchResult` of the selection. On `Saved` the selection is empty and exactly one record is added, and that record holds the stitch of the decoded bitmaps. On any other outcome the selection and the gallery are unchanged. After a null bitmap the controls stay disabled with the progress bar showing; every other ending re-enables them |
| `Stitcher.MainActivity.OnStitchClicked` | app/src/main/java/com/example/imagestitcherapp/MainActivity.kt:76-82 | with fewer than two images nothing changes except the message; otherwise the stitch runs and its outcome and state changes are those of `StitchImages` |

## Left out

- Bitmap decoding, `Canvas.drawBitmap`'s pixel blending and `Bitmap.compress` are platform calls. Decoding is the `decode` parameter. Drawing is a block copy, which is exact for SRC_OVER onto a transparent canvas. Compression is a lossless snapshot.
- MediaStore plumbing at `MainActivity.kt:228-274`: content values, insert, output stream, pending flag, update, and delete-on-error. Its net effect is the `store` parameter: either a new record or no change.
- Coroutines and dispatchers: the stitch runs off the UI thread while the list stays reachable from the UI. The model runs each handler as one atomic step, so interleavings such as reordering during a stitch are not represented.
- `recycle()` of the source and stitched bitmaps, `notifyItemRemoved`, `notifyItemMoved` and `notifyDataSetChanged`: resource management and view refreshes with no effect on the modelled state.
- Toast messages and log lines: only the outcome they report is modelled.
- Permission requests (`MainActivity.kt:113-139`), Glide loading and view binding in the adapter, and the row-click callback `onItemClick`. `MainActivity` builds the adapter with one argument, although the adapter declares two.
- The drag callback `onMove` (`MainActivity.kt:94-103`) only forwards the holders' adapter positions to `moveItem`.
- The preview screen and its adapter.
- Date formatting of the timestamp: the timestamp is an opaque string.
- `Layout.MaxWidth`, `Layout.TotalHeight`: use unbounded naturals. The model does not reproduce the JVM Int overflow of `totalHeight` for canvases taller than 2^31 - 1 rows. It does not model `createBitmap` running out of memory on a very large canvas either.
- Exceptions other than a failing `openInputStream`, a zero-sized canvas, and the handled `IOException` while saving. An example is a `compress` failure that is not an `IOException`. These are not modelled.
- `Stitcher.MainActivity.SaveBitmapToGallery`: `MainActivity.kt:252` ignores the `Boolean` that `bitmap.compress` returns. A compress that fails without throwing still clears `IS_PENDING` and returns the URI, so the source reports success and clears the selection. The model's success branch always stores the exact canvas pixels.
- `Stitcher.PaintImages`: `MainActivity.kt:186` passes `left` and `currentY` as `Float`, which is inexact above 2^24. The model uses exact integer offsets.
