/** The main screen: the stitch button's guard, the two passes of the stitch
    (measure every image, then paint them top to bottom), saving the canvas
    under a timestamped name, and what happens to the selection and the
    controls afterwards. */
module Stitcher {
  import opened Selection
  import opened Layout

  datatype Option<T> = None | Some(value: T)

  /** What opening and decoding one URI yields. `DecodeNull` covers both a
      null input stream and a stream the decoder cannot read; `OpenThrew` is
      `openInputStream` throwing (for instance, the file is gone). */
  datatype DecodeResult = Decoded(bitmap: Image) | DecodeNull | OpenThrew

  /** The outcome of the measuring pass over the selection. */
  datatype LoadResult =
    | Loaded(bitmaps: seq<Image>)  // every URI decoded, in list order
    | NullBitmap(index: nat)       // the first failure is a null bitmap at `index`
    | OpenFailed(index: nat)       // the first failure is an exception at `index`

  /** Decoding the URIs in order, stopping at the first that fails. */
  function LoadAll(uris: seq<Uri>, decode: Uri -> DecodeResult): (r: LoadResult)
    ensures r.Loaded? ==> |r.bitmaps| == |uris|
    ensures !r.Loaded? ==> r.index < |uris|
  {
    if uris == [] then Loaded([])
    else
      var n := |uris| - 1;
      match LoadAll(uris[..n], decode)
      case Loaded(bs) =>
        (match decode(uris[n])
         case Decoded(b) => Loaded(bs + [b])
         case DecodeNull => NullBitmap(n)
         case OpenThrew => OpenFailed(n))
      case failure => failure
  }

  /** The measuring pass succeeds exactly when every URI decodes, and then it
      keeps every bitmap in list order; otherwise it reports the first URI
      that failed, and every URI before it decoded. */
  lemma {:induction false} LoadAllCharacterised(uris: seq<Uri>, decode: Uri -> DecodeResult)
    ensures LoadAll(uris, decode).Loaded? <==> forall i | 0 <= i < |uris| :: decode(uris[i]).Decoded?
    ensures LoadAll(uris, decode).Loaded? ==>
              |LoadAll(uris, decode).bitmaps| == |uris| &&
              forall i | 0 <= i < |uris| :: decode(uris[i]) == Decoded(LoadAll(uris, decode).bitmaps[i])
    ensures LoadAll(uris, decode).NullBitmap? ==>
              LoadAll(uris, decode).index < |uris| &&
              decode(uris[LoadAll(uris, decode).index]) == DecodeNull &&
              forall j | 0 <= j < LoadAll(uris, decode).index :: decode(uris[j]).Decoded?
    ensures LoadAll(uris, decode).OpenFailed? ==>
              LoadAll(uris, decode).index < |uris| &&
              decode(uris[LoadAll(uris, decode).index]) == OpenThrew &&
              forall j | 0 <= j < LoadAll(uris, decode).index :: decode(uris[j]).Decoded?
  {
    if uris != [] {
      var n := |uris| - 1;
      var p := uris[..n];
      LoadAllCharacterised(p, decode);
      assert forall i | 0 <= i < n :: uris[i] == p[i];
    }
  }

  /** Decoding one more URI after a successful prefix. */
  lemma LoadAllStep(uris: seq<Uri>, decode: Uri -> DecodeResult, i: nat)
    requires i < |uris| && LoadAll(uris[..i], decode).Loaded?
    ensures LoadAll(uris[..i + 1], decode) ==
              match decode(uris[i])
              case Decoded(b) => Loaded(LoadAll(uris[..i], decode).bitmaps + [b])
              case DecodeNull => NullBitmap(i)
              case OpenThrew => OpenFailed(i)
  {
    assert uris[..i + 1][..i] == uris[..i];
  }

  /** Once a prefix of the list fails, so does the whole list, at the same place. */
  lemma {:induction false} LoadAllFailureSticks(uris: seq<Uri>, decode: Uri -> DecodeResult, j: nat)
    requires j <= |uris|
    requires !LoadAll(uris[..j], decode).Loaded?
    ensures LoadAll(uris, decode) == LoadAll(uris[..j], decode)
    decreases |uris| - j
  {
    if j < |uris| {
      assert uris[..j + 1][..j] == uris[..j];
      LoadAllFailureSticks(uris, decode, j + 1);
    } else {
      assert uris[..j] == uris;
    }
  }

  /** The first loop of the stitch: decode each URI in order, keep the bitmap,
      and track the widest width and the summed height; stop at the first URI
      that fails. */
  method MeasureImages(uris: seq<Uri>, decode: Uri -> DecodeResult)
    returns (loaded: LoadResult, maxWidth: int, totalHeight: int)
    ensures loaded == LoadAll(uris, decode)
    ensures loaded.Loaded? ==>
              maxWidth == MaxWidth(loaded.bitmaps) && totalHeight == TotalHeight(loaded.bitmaps)
  {
    var bitmaps: seq<Image> := [];
    maxWidth, totalHeight := 0, 0;
    for i := 0 to |uris|
      invariant LoadAll(uris[..i], decode) == Loaded(bitmaps)
      invariant maxWidth == MaxWidth(bitmaps) && totalHeight == TotalHeight(bitmaps)
    {
      LoadAllStep(uris, decode, i);
      match decode(uris[i]) {
        case Decoded(bitmap) =>
          FoldStep(bitmaps, bitmap);
          bitmaps := bitmaps + [bitmap];
          maxWidth := if maxWidth >= bitmap.width then maxWidth else bitmap.width;
          totalHeight := totalHeight + bitmap.height;
        case DecodeNull =>
          LoadAllFailureSticks(uris, decode, i + 1);
          loaded := NullBitmap(i);
          return;
        case OpenThrew =>
          LoadAllFailureSticks(uris, decode, i + 1);
          loaded := OpenFailed(i);
          return;
      }
    }
    assert uris[..|uris|] == uris;
    loaded := Loaded(bitmaps);
  }

  /** `canvas.drawBitmap(bitmap, left, top, null)` onto pixels that are still
      transparent, as a block copy: every canvas pixel the bitmap covers takes
      the bitmap's pixel, the parts outside the canvas are clipped, and every
      other pixel keeps its colour. */
  method DrawBitmap(canvas: array2<Pixel>, bitmap: Image, left: int, top: int)
    modifies canvas
    ensures forall y, x | 0 <= y < canvas.Length0 && 0 <= x < canvas.Length1 ::
              canvas[y, x] ==
                if Covers(top, left, bitmap.width, bitmap.height, y, x)
                then bitmap.pixels[y - top][x - left]
                else old(canvas[y, x])
  {
    for r := 0 to bitmap.height
      invariant forall y, x | 0 <= y < canvas.Length0 && 0 <= x < canvas.Length1 ::
                  canvas[y, x] ==
                    if Covers(top, left, bitmap.width, r, y, x)
                    then bitmap.pixels[y - top][x - left]
                    else old(canvas[y, x])
    {
      for c := 0 to bitmap.width
        invariant forall y, x | 0 <= y < canvas.Length0 && 0 <= x < canvas.Length1 ::
                    canvas[y, x] ==
                      if Covers(top, left, bitmap.width, r, y, x) || (y == top + r && left <= x < left + c)
                      then bitmap.pixels[y - top][x - left]
                      else old(canvas[y, x])
      {
        var y, x := top + r, left + c;
        if 0 <= y < canvas.Length0 && 0 <= x < canvas.Length1 {
          canvas[y, x] := bitmap.pixels[r][c];
        }
      }
    }
  }

  /** The second loop of the stitch: paint each bitmap, centred, at the running
      height `currentY`, onto a transparent canvas. */
  method PaintImages(canvas: array2<Pixel>, bitmaps: seq<Image>, maxWidth: int)
    returns (currentY: int)
    requires forall y, x | 0 <= y < canvas.Length0 && 0 <= x < canvas.Length1 :: canvas[y, x] == Transparent
    modifies canvas
    ensures currentY == TotalHeight(bitmaps)
    ensures forall y, x | 0 <= y < canvas.Length0 && 0 <= x < canvas.Length1 ::
              canvas[y, x] == CompositePixel(bitmaps, maxWidth, y, x)
  {
    currentY := 0;
    for i := 0 to |bitmaps|
      invariant currentY == TotalHeight(bitmaps[..i])
      invariant forall y, x | 0 <= y < canvas.Length0 && 0 <= x < canvas.Length1 ::
                  canvas[y, x] == CompositePixel(bitmaps[..i], maxWidth, y, x)
    {
      var bitmap := bitmaps[i];
      var left := Left(maxWidth, bitmap.width);
      DrawBitmap(canvas, bitmap, left, currentY);
      assert bitmaps[..i + 1][..i] == bitmaps[..i];
      currentY := currentY + bitmap.height;
    }
    assert bitmaps[..|bitmaps|] == bitmaps;
  }

  /** The pixels a lossless PNG of the canvas stores. */
  function Snapshot(canvas: array2<Pixel>): (g: seq<seq<Pixel>>)
    reads canvas
    ensures |g| == canvas.Length0
    ensures forall y | 0 <= y < |g| :: |g[y]| == canvas.Length1
    ensures forall y, x | 0 <= y < canvas.Length0 && 0 <= x < canvas.Length1 :: g[y][x] == canvas[y, x]
  {
    seq(canvas.Length0, y reads canvas requires 0 <= y < canvas.Length0 =>
      seq(canvas.Length1, x reads canvas requires 0 <= x < canvas.Length1 => canvas[y, x]))
  }

  const FileNamePrefix: string := "stitched_image_"
  const FileNameSuffix: string := ".png"

  /** The display name of a saved stitch: prefix, timestamp, suffix. */
  function FileName(timestamp: string): (name: string)
    ensures |name| == |FileNamePrefix| + |timestamp| + |FileNameSuffix|
    ensures name[..|FileNamePrefix|] == FileNamePrefix
    ensures name[|FileNamePrefix|..|name| - |FileNameSuffix|] == timestamp
    ensures name[|name| - |FileNameSuffix|..] == FileNameSuffix
  {
    FileNamePrefix + timestamp + FileNameSuffix
  }

  /** Recovers the timestamp from a stitch's display name. */
  function TimestampOf(name: string): Option<string>
  {
    if |name| >= |FileNamePrefix| + |FileNameSuffix| &&
       name[..|FileNamePrefix|] == FileNamePrefix &&
       name[|name| - |FileNameSuffix|..] == FileNameSuffix
    then Some(name[|FileNamePrefix|..|name| - |FileNameSuffix|])
    else None
  }

  /** The timestamp can be read back from the name. */
  lemma FileNameRoundTrip(timestamp: string)
    ensures TimestampOf(FileName(timestamp)) == Some(timestamp)
  {
  }

  /** Exactly the names of the form prefix + timestamp + suffix are stitch names. */
  lemma TimestampOfInverts(name: string)
    ensures TimestampOf(name).Some? ==> FileName(TimestampOf(name).value) == name
  {
  }

  /** A record in the media gallery. */
  datatype SavedImage = SavedImage(displayName: string, mimeType: string, width: int, height: int,
                                   pixels: seq<seq<Pixel>>)

  /** The saved image is the stitch of `bitmaps`: named after the timestamp,
      a PNG as wide as the widest bitmap and as tall as all of them, showing
      the bitmaps painted in order. */
  predicate ShowsStitch(s: SavedImage, bitmaps: seq<Image>, timestamp: string)
  {
    s.displayName == FileName(timestamp) && s.mimeType == "image/png" &&
    s.width == MaxWidth(bitmaps) && s.height == TotalHeight(bitmaps) &&
    |s.pixels| == s.height &&
    (forall y | 0 <= y < s.height :: |s.pixels[y]| == s.width) &&
    forall y, x | 0 <= y < s.height && 0 <= x < s.width ::
      s.pixels[y][x] == CompositePixel(bitmaps, s.width, y, x)
  }

  /** A saved stitch holds every bitmap of the list, whole and unmodified,
      at its own band, centred horizontally. */
  lemma StitchContainsEveryImage(s: SavedImage, bitmaps: seq<Image>, timestamp: string,
                                 k: nat, r: int, c: int)
    requires ShowsStitch(s, bitmaps, timestamp)
    requires k < |bitmaps| && 0 <= r < bitmaps[k].height && 0 <= c < bitmaps[k].width
    ensures var y, x := Top(bitmaps, k) + r, Left(s.width, bitmaps[k].width) + c;
      0 <= y < s.height && 0 <= x < s.width && s.pixels[y][x] == bitmaps[k].pixels[r][c]
  {
    ImageInCanvas(bitmaps, k);
    CompositeInBand(bitmaps, s.width, k, Top(bitmaps, k) + r, Left(s.width, bitmaps[k].width) + c);
  }

  /** What one press of the stitch button ends in. */
  datatype StitchOutcome =
    | TooFewImages                          // fewer than two images selected
    | LoadFailed(uri: Uri)                  // a URI decoded to null
    | StitchFailed                          // an exception reached the catch-all handler
    | SaveFailed                            // the gallery refused the image
    | Saved(location: Uri, fileName: string)

  /** The outcome of `stitchImages` on a selection, as a function of what each
      URI decodes to and of the gallery's answer. */
  function StitchResult(uris: seq<Uri>, decode: Uri -> DecodeResult, timestamp: string,
                        store: Option<Uri>): (r: StitchOutcome)
    ensures r != TooFewImages
    ensures r.LoadFailed? ==> r.uri in uris
    ensures r.Saved? ==> store == Some(r.location) && r.fileName == FileName(timestamp)
    ensures r == SaveFailed ==> store.None?
  {
    match LoadAll(uris, decode)
    case NullBitmap(k) => LoadFailed(uris[k])
    case OpenFailed(_) => StitchFailed
    case Loaded(bs) =>
      if MaxWidth(bs) == 0 || TotalHeight(bs) == 0 then StitchFailed  // createBitmap rejects a 0 size
      else if store.None? then SaveFailed
      else Saved(store.value, FileName(timestamp))
  }

  /** The outcome of a press of the stitch button. */
  function ClickResult(uris: seq<Uri>, decode: Uri -> DecodeResult, timestamp: string,
                       store: Option<Uri>): (r: StitchOutcome)
    ensures r == TooFewImages <==> |uris| < 2
    ensures |uris| >= 2 ==> r == StitchResult(uris, decode, timestamp, store)
  {
    if |uris| < 2 then TooFewImages else StitchResult(uris, decode, timestamp, store)
  }

  /** All or nothing: an image is saved only when every selected URI decoded,
      and a null bitmap is reported for the first URI that failed. */
  lemma SavedOnlyIfAllDecoded(uris: seq<Uri>, decode: Uri -> DecodeResult, timestamp: string,
                              store: Option<Uri>)
    ensures StitchResult(uris, decode, timestamp, store).Saved? ==>
              forall i | 0 <= i < |uris| :: decode(uris[i]).Decoded?
    ensures StitchResult(uris, decode, timestamp, store).LoadFailed? ==>
              exists k :: 0 <= k < |uris| && uris[k] == StitchResult(uris, decode, timestamp, store).uri &&
                decode(uris[k]) == DecodeNull &&
                forall j | 0 <= j < k :: decode(uris[j]).Decoded?
  {
    LoadAllCharacterised(uris, decode);
  }

  /** With at least two images and every one decoded, only the gallery
      decides: the canvas can always be created. */
  lemma ClickSavesWhenAllDecode(uris: seq<Uri>, decode: Uri -> DecodeResult, timestamp: string,
                                store: Option<Uri>)
    requires |uris| >= 2
    requires forall i | 0 <= i < |uris| :: decode(uris[i]).Decoded?
    ensures ClickResult(uris, decode, timestamp, store) ==
              if store.Some? then Saved(store.value, FileName(timestamp)) else SaveFailed
  {
    LoadAllCharacterised(uris, decode);
    CanvasIsEmptyIffNoImages(LoadAll(uris, decode).bitmaps);
  }

  /** Called directly on an empty selection, the stitch fails when the empty
      canvas is created. */
  lemma EmptySelectionFails(decode: Uri -> DecodeResult, timestamp: string, store: Option<Uri>)
    ensures StitchResult([], decode, timestamp, store) == StitchFailed
  {
  }

  /** The main screen: the selection, the adapter sharing it, the two buttons
      (enabled and disabled together), the progress bar, and the gallery the
      stitches are saved to. */
  class MainActivity {
    const selectedImageUris: UriList
    const imageAdapter: ImageAdapter
    var buttonsEnabled: bool
    var progressVisible: bool
    var gallery: seq<SavedImage>

    /** The adapter shows the activity's own list object. */
    predicate Valid()
    {
      imageAdapter.imageUris == selectedImageUris
    }

    constructor ()
      ensures Valid() && fresh(selectedImageUris) && fresh(imageAdapter)
      ensures selectedImageUris.items == [] && imageAdapter.GetItemCount() == 0
      ensures buttonsEnabled && !progressVisible && gallery == []
    {
      var uris := new UriList();
      selectedImageUris := uris;
      imageAdapter := new ImageAdapter(uris);
      buttonsEnabled, progressVisible := true, false;
      gallery := [];
    }

    /** The image picker returned: a non-null result replaces the selection. */
    method OnImagesPicked(uris: Option<seq<Uri>>)
      requires Valid()
      modifies selectedImageUris
      ensures uris.Some? ==> selectedImageUris.items == uris.value
      ensures uris.None? ==> selectedImageUris.items == old(selectedImageUris.items)
    {
      if uris.Some? {
        selectedImageUris.Clear();
        selectedImageUris.AddAll(uris.value);
      }
    }

    /** `saveBitmapToGallery`: `store` is the gallery's answer to inserting the
        record, opening its stream and finishing it; on failure the record is
        deleted again, so the gallery is as before. */
    method SaveBitmapToGallery(bitmap: array2<Pixel>, timestamp: string, store: Option<Uri>)
      returns (savedUri: Option<Uri>)
      modifies this`gallery
      ensures savedUri == store
      ensures store.Some? ==>
                gallery == old(gallery) +
                  [SavedImage(FileName(timestamp), "image/png", bitmap.Length1, bitmap.Length0, Snapshot(bitmap))]
      ensures store.None? ==> gallery == old(gallery)
    {
      var fileName := FileName(timestamp);
      if store.Some? {
        gallery := gallery + [SavedImage(fileName, "image/png", bitmap.Length1, bitmap.Length0, Snapshot(bitmap))];
      }
      savedUri := store;
    }

    /** `stitchImages`: disable the controls, measure, create the canvas,
        paint, save; clear the selection only if the save succeeded. A null
        bitmap returns early and leaves the controls disabled and the progress
        bar showing; every other ending restores them. */
    method StitchImages(decode: Uri -> DecodeResult, timestamp: string, store: Option<Uri>)
      returns (outcome: StitchOutcome)
      requires Valid()
      modifies this, selectedImageUris
      ensures outcome == StitchResult(old(selectedImageUris.items), decode, timestamp, store)
      ensures outcome.Saved? ==>
                selectedImageUris.items == [] && imageAdapter.GetItemCount() == 0 &&
                |gallery| == |old(gallery)| + 1 && gallery[..|old(gallery)|] == old(gallery) &&
                ShowsStitch(gallery[|old(gallery)|],
                            LoadAll(old(selectedImageUris.items), decode).bitmaps, timestamp)
      ensures !outcome.Saved? ==>
                selectedImageUris.items == old(selectedImageUris.items) && gallery == old(gallery)
      ensures outcome.LoadFailed? ==> !buttonsEnabled && progressVisible
      ensures !outcome.LoadFailed? ==> buttonsEnabled && !progressVisible
    {
      progressVisible := true;
      buttonsEnabled := false;

      var loaded, maxWidth, totalHeight := MeasureImages(selectedImageUris.items, decode);
      match loaded {
        case NullBitmap(k) =>
          outcome := LoadFailed(selectedImageUris.items[k]);
          return;
        case OpenFailed(_) =>
          progressVisible := false;
          outcome := StitchFailed;
          buttonsEnabled := true;
          return;
        case Loaded(bitmaps) =>
          if maxWidth == 0 || totalHeight == 0 {
            progressVisible := false;
            outcome := StitchFailed;
            buttonsEnabled := true;
            return;
          }
          var stitchedBitmap := new Pixel[totalHeight, maxWidth]((y, x) => Transparent);
          var currentY := PaintImages(stitchedBitmap, bitmaps, maxWidth);
          var savedUri := SaveBitmapToGallery(stitchedBitmap, timestamp, store);
          progressVisible := false;
          if savedUri.Some? {
            selectedImageUris.Clear();
            outcome := Saved(savedUri.value, FileName(timestamp));
          } else {
            outcome := SaveFailed;
          }
          buttonsEnabled := true;
      }
    }

    /** The stitch button: fewer than two images only shows a message;
        otherwise the stitch runs. A disabled button delivers no clicks. */
    method OnStitchClicked(decode: Uri -> DecodeResult, timestamp: string, store: Option<Uri>)
      returns (outcome: StitchOutcome)
      requires Valid() && buttonsEnabled
      modifies this, selectedImageUris
      ensures outcome == ClickResult(old(selectedImageUris.items), decode, timestamp, store)
      ensures outcome == TooFewImages ==>
                selectedImageUris.items == old(selectedImageUris.items) && gallery == old(gallery) &&
                buttonsEnabled && progressVisible == old(progressVisible)
      ensures outcome.Saved? ==>
                selectedImageUris.items == [] &&
                |gallery| == |old(gallery)| + 1 && gallery[..|old(gallery)|] == old(gallery) &&
                ShowsStitch(gallery[|old(gallery)|],
                            LoadAll(old(selectedImageUris.items), decode).bitmaps, timestamp)
      ensures !outcome.Saved? ==>
                selectedImageUris.items == old(selectedImageUris.items) && gallery == old(gallery)
      ensures outcome.LoadFailed? ==> !buttonsEnabled && progressVisible
      ensures outcome != TooFewImages && !outcome.LoadFailed? ==> buttonsEnabled && !progressVisible
    {
      if |selectedImageUris.items| < 2 {
        outcome := TooFewImages;
        return;
      }
      outcome := StitchImages(decode, timestamp, store);
    }
  }
}
