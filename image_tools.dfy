/** The decision logic of the image tools: combining segmentation masks into the alpha channel
    of a background-free image, the crop bounds check, and the format converter's rules for
    quality and flattening onto white.  Pixels are opaque: an image is its size, a mask a grid
    of booleans already binarised and resized to the image. */
module ImageTools {
  import opened Wrappers
  import opened Strings
  import opened Paths
  import opened Base

  /** A boolean mask, row by row (`mask[y][x]`). */
  type Grid = seq<seq<bool>>

  /** A user-selected foreground point, `(x, y)` in pixels. */
  datatype Point = Point(x: int, y: int)

  /** `g` has `h` rows of `w` columns. */
  predicate IsGrid(g: Grid, h: nat, w: nat) {
    |g| == h && forall r :: 0 <= r < h ==> |g[r]| == w
  }

  /** The mask at row `r`, column `c`, false outside the mask. */
  predicate At(g: Grid, r: int, c: int) {
    0 <= r < |g| && 0 <= c < |g[r]| && g[r][c]
  }

  /** `np.zeros(img_shape, dtype=bool)`. */
  function Zeros(h: nat, w: nat): (g: Grid)
    ensures IsGrid(g, h, w)
    ensures forall r, c :: !At(g, r, c)
  {
    seq(h, r => seq(w, c => false))
  }

  /** `a | b` on two `h` by `w` masks. */
  function OrGrids(a: Grid, b: Grid, h: nat, w: nat): (g: Grid)
    ensures IsGrid(g, h, w)
    ensures forall r, c :: 0 <= r < h && 0 <= c < w ==> (At(g, r, c) <==> At(a, r, c) || At(b, r, c))
  {
    seq(h, r requires 0 <= r < h => seq(w, c requires 0 <= c < w => At(a, r, c) || At(b, r, c)))
  }

  // ---------------------------------------------------------------- mask combination

  /** `0 <= y < mask.shape[0] and 0 <= x < mask.shape[1] and mask[y, x]`: the point lies on the
      mask; a point outside the mask's bounds lies on nothing. */
  predicate Contains(mask: Grid, p: Point)
    ensures Contains(mask, p) ==> 0 <= p.x && 0 <= p.y
  {
    At(mask, p.y, p.x)
  }

  /** On an `h` by `w` mask a point lies on the mask exactly when its row `y` is below `h`, its
      column `x` below `w`, neither is negative, and the mask is set there. */
  lemma ContainsInShape(mask: Grid, h: nat, w: nat, p: Point)
    requires IsGrid(mask, h, w)
    ensures Contains(mask, p) <==> 0 <= p.y < h && 0 <= p.x < w && mask[p.y][p.x]
  {
  }

  /** Some user point lies on the mask. */
  predicate Selected(mask: Grid, points: seq<Point>) {
    exists k :: 0 <= k < |points| && Contains(mask, points[k])
  }

  /** The reference definition of the point-guided mask: a pixel is foreground exactly when
      some mask holding at least one user point covers it. */
  function GuidedMask(masks: seq<Grid>, points: seq<Point>, h: nat, w: nat): (g: Grid)
    ensures IsGrid(g, h, w)
  {
    seq(h, r => seq(w, c => exists m | 0 <= m < |masks| :: Selected(masks[m], points) && At(masks[m], r, c)))
  }

  /** `np.any(masks, axis=0)`: the union of all masks. */
  function UnionMask(masks: seq<Grid>, h: nat, w: nat): (g: Grid)
    ensures IsGrid(g, h, w)
  {
    seq(h, r => seq(w, c => exists m | 0 <= m < |masks| :: At(masks[m], r, c)))
  }

  /** Adding one more mask to the guided combination ORs it in exactly when a point selects it. */
  lemma GuidedMaskStep(masks: seq<Grid>, i: nat, points: seq<Point>, h: nat, w: nat)
    requires i < |masks|
    ensures GuidedMask(masks[..i + 1], points, h, w)
            == if Selected(masks[i], points)
               then OrGrids(GuidedMask(masks[..i], points, h, w), masks[i], h, w)
               else GuidedMask(masks[..i], points, h, w)
  {
    var prev := GuidedMask(masks[..i], points, h, w);
    var next := GuidedMask(masks[..i + 1], points, h, w);
    var expected := if Selected(masks[i], points) then OrGrids(prev, masks[i], h, w) else prev;
    forall r | 0 <= r < h
      ensures next[r] == expected[r]
    {
      forall c | 0 <= c < w
        ensures next[r][c] == expected[r][c]
      {
        assert masks[..i + 1][i] == masks[i];
        assert forall m :: 0 <= m < i ==> masks[..i + 1][m] == masks[..i][m];
      }
    }
  }

  /** With no masks nothing is foreground. */
  lemma NothingGuidedYet(points: seq<Point>, h: nat, w: nat)
    ensures GuidedMask([], points, h, w) == Zeros(h, w)
  {
    var g := GuidedMask([], points, h, w);
    forall r | 0 <= r < h
      ensures g[r] == Zeros(h, w)[r]
    {
    }
  }

  /** `_create_mask_from_points`: every mask that holds one of the points (the first hit ends
      the search through the points) is ORed into a mask that starts out empty. */
  method CreateMaskFromPoints(masks: seq<Grid>, points: seq<Point>, h: nat, w: nat) returns (combined: Grid)
    ensures combined == GuidedMask(masks, points, h, w)
  {
    combined := Zeros(h, w);
    NothingGuidedYet(points, h, w);
    for i := 0 to |masks|
      invariant combined == GuidedMask(masks[..i], points, h, w)
    {
      var mask := masks[i];
      ghost var before := combined;
      var j := 0;
      while j < |points|
        invariant 0 <= j <= |points|
        invariant combined == before
        invariant forall k :: 0 <= k < j ==> !Contains(mask, points[k])
      {
        var p := points[j];
        if 0 <= p.y < |mask| && 0 <= p.x < |mask[p.y]| && mask[p.y][p.x] {
          combined := OrGrids(combined, mask, h, w);
          assert Contains(mask, points[j]);
          break;
        }
        j := j + 1;
      }
      GuidedMaskStep(masks, i, points, h, w);
    }
    assert masks[..|masks|] == masks;
  }

  /** Pointwise, the guided mask is foreground exactly where a selected mask is. */
  lemma GuidedMaskAt(masks: seq<Grid>, points: seq<Point>, h: nat, w: nat, r: nat, c: nat)
    requires r < h && c < w
    ensures At(GuidedMask(masks, points, h, w), r, c)
            <==> exists m :: 0 <= m < |masks| && Selected(masks[m], points) && At(masks[m], r, c)
  {
  }

  /** The point-guided mask never exceeds the union of all masks. */
  lemma GuidedWithinUnion(masks: seq<Grid>, points: seq<Point>, h: nat, w: nat, r: int, c: int)
    requires At(GuidedMask(masks, points, h, w), r, c)
    ensures At(UnionMask(masks, h, w), r, c)
  {
    var m :| 0 <= m < |masks| && Selected(masks[m], points) && At(masks[m], r, c);
  }

  /** A mask that holds one of the points is kept whole. */
  lemma SelectedMaskKept(masks: seq<Grid>, points: seq<Point>, h: nat, w: nat, m: nat, k: nat, r: nat, c: nat)
    requires m < |masks| && k < |points| && Contains(masks[m], points[k])
    requires r < h && c < w && At(masks[m], r, c)
    ensures At(GuidedMask(masks, points, h, w), r, c)
  {
  }

  /** Points that lie on no mask (negative or too large coordinates among them) select nothing. */
  lemma StrayPointsSelectNothing(masks: seq<Grid>, points: seq<Point>, h: nat, w: nat)
    requires forall m, k :: 0 <= m < |masks| && 0 <= k < |points| ==> !Contains(masks[m], points[k])
    ensures GuidedMask(masks, points, h, w) == Zeros(h, w)
  {
    var g := GuidedMask(masks, points, h, w);
    var z := Zeros(h, w);
    forall r | 0 <= r < h
      ensures g[r] == z[r]
    {
      forall c | 0 <= c < w
        ensures g[r][c] == z[r][c]
      {
        forall m | 0 <= m < |masks|
          ensures !Selected(masks[m], points)
        {
        }
      }
    }
  }

  /** When every mask holds a point the guided mask is the union. */
  lemma AllSelectedIsUnion(masks: seq<Grid>, points: seq<Point>, h: nat, w: nat)
    requires forall m :: 0 <= m < |masks| ==> Selected(masks[m], points)
    ensures GuidedMask(masks, points, h, w) == UnionMask(masks, h, w)
  {
    var g := GuidedMask(masks, points, h, w);
    var u := UnionMask(masks, h, w);
    forall r | 0 <= r < h
      ensures g[r] == u[r]
    {
      forall c | 0 <= c < w
        ensures g[r][c] == u[r][c]
      {
      }
    }
  }

  // ---------------------------------------------------------------- alpha channel

  /** `combined_mask.astype(np.uint8) * 255`: the alpha channel written into the RGBA image. */
  function Alpha(mask: Grid): (a: seq<seq<int>>)
    ensures |a| == |mask| && forall r :: 0 <= r < |a| ==> |a[r]| == |mask[r]|
    ensures forall r, c :: 0 <= r < |a| && 0 <= c < |a[r]| ==> (a[r][c] == 255 <==> mask[r][c]) && (a[r][c] == 0 <==> !mask[r][c])
  {
    seq(|mask|, r requires 0 <= r < |mask| =>
      seq(|mask[r]|, c requires 0 <= c < |mask[r]| => if mask[r][c] then 255 else 0))
  }

  // ---------------------------------------------------------------- BackgroundRemover

  /** What `BackgroundRemover.process` returns and, when it got that far, the alpha channel of
      the RGBA image it built (written to the output path when there is one). */
  datatype RemovalRun = RemovalRun(result: ProcessingResult, alpha: Option<seq<seq<int>>>)

  function RemovalFailure(message: string): RemovalRun {
    RemovalRun(ProcessingResult(false, message), None)
  }

  /** The combined mask: guided by the points when any are given, else the union of all masks. */
  function CombinedMask(masks: seq<Grid>, points: Option<seq<Point>>, h: nat, w: nat): (g: Grid)
    ensures IsGrid(g, h, w)
    ensures forall r, c :: At(g, r, c) ==> At(UnionMask(masks, h, w), r, c)
    ensures points.Some? && points.value != [] ==> g == GuidedMask(masks, points.value, h, w)
    ensures points.None? || points.value == [] ==> g == UnionMask(masks, h, w)
  {
    if points.Some? && points.value != [] then
      GuidedWithinUnionEverywhere(masks, points.value, h, w);
      GuidedMask(masks, points.value, h, w)
    else UnionMask(masks, h, w)
  }

  lemma GuidedWithinUnionEverywhere(masks: seq<Grid>, points: seq<Point>, h: nat, w: nat)
    ensures forall r, c :: At(GuidedMask(masks, points, h, w), r, c) ==> At(UnionMask(masks, h, w), r, c)
  {
    forall r, c | At(GuidedMask(masks, points, h, w), r, c) ensures At(UnionMask(masks, h, w), r, c) {
      GuidedWithinUnion(masks, points, h, w, r, c);
    }
  }

  /** `BackgroundRemover.process`.  `failure` is the message of an exception raised while the
      segmentation model is loaded or run; `size` is the loaded image's `(height, width)`, None
      when it cannot be read; `detected` is the model's masks, binarised and resized to the
      image, None when the model reports no masks at all. */
  function RemoveBackground(outputPath: Option<string>, failure: Option<string>, size: Option<(nat, nat)>,
                            detected: Option<seq<Grid>>, points: Option<seq<Point>>,
                            urlFor: string -> string): (run: RemovalRun)
    ensures run.alpha.Some? <==> run.result.success
    ensures run.result.success ==> failure.None? && size.Some? && detected.Some? && detected.value != []
    ensures run.alpha.Some? ==> |run.alpha.value| == size.value.0
    ensures run.alpha.Some? ==> forall r :: 0 <= r < size.value.0 ==> |run.alpha.value[r]| == size.value.1
    ensures run.alpha.Some? ==> forall r, c :: 0 <= r < size.value.0 && 0 <= c < size.value.1 ==> run.alpha.value[r][c] in {0, 255}
    ensures run.alpha.Some? ==> run.alpha.value == Alpha(CombinedMask(detected.value, points, size.value.0, size.value.1))
  {
    if failure.Some? then RemovalFailure("Failed to remove background: " + failure.value)
    else if size.None? then RemovalFailure("Could not load image")
    else if detected.None? then RemovalFailure("No objects detected for segmentation")
    else if detected.value == [] then RemovalFailure("No valid masks produced by the model")
    else
      var masks := detected.value;
      var alpha := Alpha(CombinedMask(masks, points, size.value.0, size.value.1));
      if outputPath.Some? then
        var out := outputPath.value;
        RemovalRun(ProcessingResult(true, "Background removed successfully", Some(out), Some(OutputUrl(urlFor, out)),
                                    Some(map["segments_detected" := JInt(|masks|),
                                             "foreground_points_used" := JBool(points.Some? && points.value != [])])),
                   Some(alpha))
      else
        RemovalRun(ProcessingResult(true, "Background removed in memory",
                                    metadata := Some(map["segments_detected" := JInt(|masks|)])),
                   Some(alpha))
  }

  /** `BackgroundRemover.process`, combining guided masks with its nested loops. */
  method RemoveBackgroundImage(tool: ToolBase, failure: Option<string>, size: Option<(nat, nat)>,
                               detected: Option<seq<Grid>>, points: Option<seq<Point>>, urlFor: string -> string)
    returns (run: RemovalRun)
    ensures run == RemoveBackground(tool.outputPath, failure, size, detected, points, urlFor)
  {
    if failure.Some? {
      return RemovalFailure("Failed to remove background: " + failure.value);
    }
    if size.None? {
      return RemovalFailure("Could not load image");
    }
    if detected.None? {
      return RemovalFailure("No objects detected for segmentation");
    }
    var masks := detected.value;
    if masks == [] {
      return RemovalFailure("No valid masks produced by the model");
    }
    var (h, w) := size.value;
    var combined: Grid;
    if points.Some? && points.value != [] {
      combined := CreateMaskFromPoints(masks, points.value, h, w);
    } else {
      combined := UnionMask(masks, h, w);
    }
    var alpha := Alpha(combined);
    if tool.outputPath.Some? {
      var out := tool.outputPath.value;
      run := RemovalRun(ProcessingResult(true, "Background removed successfully", Some(out), Some(OutputUrl(urlFor, out)),
                                         Some(map["segments_detected" := JInt(|masks|),
                                                  "foreground_points_used" := JBool(points.Some? && points.value != [])])),
                        Some(alpha));
    } else {
      run := RemovalRun(ProcessingResult(true, "Background removed in memory",
                                         metadata := Some(map["segments_detected" := JInt(|masks|)])),
                        Some(alpha));
    }
  }

  /** Removal fails exactly when the model raises, the image cannot be read or no mask comes
      back; otherwise it reports how many masks the model produced. */
  lemma RemovalOutcome(outputPath: Option<string>, failure: Option<string>, size: Option<(nat, nat)>,
                       detected: Option<seq<Grid>>, points: Option<seq<Point>>, urlFor: string -> string)
    ensures var run := RemoveBackground(outputPath, failure, size, detected, points, urlFor);
            (run.result.success <==> failure.None? && size.Some? && detected.Some? && detected.value != []) &&
            (run.result.success ==> run.result.metadata.value["segments_detected"] == JInt(|detected.value|)) &&
            (!run.result.success ==> run.alpha.None? && run.result.outputPath.None?)
  {
    var run := RemoveBackground(outputPath, failure, size, detected, points, urlFor);
    if failure.Some? || size.None? || detected.None? || detected.value == [] {
      assert !run.result.success && run.alpha.None? && run.result.outputPath.None?;
    } else {
      assert run.result.success && run.result.metadata.value["segments_detected"] == JInt(|detected.value|);
    }
  }

  /** Without points every pixel some mask covers is opaque and every other pixel transparent;
      with points a pixel is opaque exactly when a mask holding one of the points covers it,
      which is a subset of that. */
  lemma RemovalAlpha(outputPath: Option<string>, masks: seq<Grid>, h: nat, w: nat,
                     points: Option<seq<Point>>, urlFor: string -> string, r: nat, c: nat)
    requires masks != [] && r < h && c < w
    ensures var run := RemoveBackground(outputPath, None, Some((h, w)), Some(masks), points, urlFor);
            var a := run.alpha.value;
            IsGrid(UnionMask(masks, h, w), h, w) &&
            |a| == h && |a[r]| == w &&
            (points.None? || points.value == [] ==> (a[r][c] == 255 <==> exists m :: 0 <= m < |masks| && At(masks[m], r, c))) &&
            (points.Some? && points.value != [] ==>
               (a[r][c] == 255 <==> exists m :: 0 <= m < |masks| && Selected(masks[m], points.value) && At(masks[m], r, c))) &&
            (a[r][c] == 255 ==> At(UnionMask(masks, h, w), r, c)) &&
            (a[r][c] == 255 || a[r][c] == 0)
  {
    var combined := CombinedMask(masks, points, h, w);
    if points.Some? && points.value != [] {
      GuidedMaskAt(masks, points.value, h, w, r, c);
      if combined[r][c] {
        GuidedWithinUnion(masks, points.value, h, w, r, c);
      }
    }
  }

  // ---------------------------------------------------------------- ImageCropper

  /** `img.crop((x, y, x + width, y + height))`: left, top, right, bottom. */
  datatype CropBox = CropBox(left: int, top: int, right: int, bottom: int)

  datatype CropRun = CropRun(result: ProcessingResult, box: Option<CropBox>)

  function CropArea(x: int, y: int, width: int, height: int): Json {
    JObject(map["x" := JInt(x), "y" := JInt(y), "width" := JInt(width), "height" := JInt(height)])
  }

  /** `ImageCropper.process`. `loaded` is the image's `(width, height)`, or the message of the
      exception raised while opening it. */
  function CropImage(outputPath: Option<string>, loaded: Result<(int, int), string>,
                     x: int, y: int, width: int, height: int, urlFor: string -> string): (run: CropRun)
    ensures run.box.Some? <==> run.result.success
    ensures run.box.Some? ==> loaded.Ok? && run.box.value.right <= loaded.value.0 && run.box.value.bottom <= loaded.value.1
    ensures run.box.Some? ==> run.box.value.right - run.box.value.left == width && run.box.value.bottom - run.box.value.top == height
  {
    match loaded
    case Err(e) => CropRun(ProcessingResult(false, "Failed to crop image: " + e), None)
    case Ok((imgWidth, imgHeight)) =>
      if x + width > imgWidth || y + height > imgHeight then
        CropRun(ProcessingResult(false, "Crop coordinates exceed image boundaries"), None)
      else
        var box := CropBox(x, y, x + width, y + height);
        if outputPath.Some? then
          var out := outputPath.value;
          CropRun(ProcessingResult(true, "Image cropped to " + IntToString(width) + "x" + IntToString(height),
                                   Some(out), Some(OutputUrl(urlFor, out)),
                                   Some(map["crop_area" := CropArea(x, y, width, height),
                                            "original_size" := IntList([imgWidth, imgHeight])])),
                  Some(box))
        else
          CropRun(ProcessingResult(true, "Image cropped in memory",
                                   metadata := Some(map["crop_area" := CropArea(x, y, width, height)])),
                  Some(box))
  }

  /** On an opened image the crop fails exactly when the rectangle runs past the right or the
      bottom edge; otherwise the box is the requested rectangle. */
  lemma CropBounds(outputPath: Option<string>, imgWidth: int, imgHeight: int,
                   x: int, y: int, width: int, height: int, urlFor: string -> string)
    ensures var run := CropImage(outputPath, Ok((imgWidth, imgHeight)), x, y, width, height, urlFor);
            (run.result.success <==> x + width <= imgWidth && y + height <= imgHeight) &&
            (run.result.success ==> run.box == Some(CropBox(x, y, x + width, y + height))) &&
            (!run.result.success ==> run.result.message == "Crop coordinates exceed image boundaries")
  {
  }

  /** With the origin and size the crop route admits (non-negative origin, positive size), an
      accepted box lies inside the image and is not empty. */
  lemma CropInsideImage(outputPath: Option<string>, imgWidth: int, imgHeight: int,
                        x: int, y: int, width: int, height: int, urlFor: string -> string)
    requires x >= 0 && y >= 0 && width > 0 && height > 0
    requires CropImage(outputPath, Ok((imgWidth, imgHeight)), x, y, width, height, urlFor).result.success
    ensures var b := CropImage(outputPath, Ok((imgWidth, imgHeight)), x, y, width, height, urlFor).box.value;
            0 <= b.left < b.right <= imgWidth && 0 <= b.top < b.bottom <= imgHeight &&
            b.right - b.left == width && b.bottom - b.top == height
  {
  }

  // ---------------------------------------------------------------- FormatConverter

  /** The formats saved with a `quality` setting. */
  const LossyFormats: set<string> := {"JPEG", "WEBP"}

  /** The image modes with an alpha channel that a JPEG cannot hold. */
  const AlphaModes: set<string> := {"RGBA", "LA"}

  /** How the image is prepared for saving: as is, or pasted onto a white RGB background,
      using its own alpha band as the paste mask or no mask at all. */
  datatype Preparation = AsIs | OntoWhite(alphaMask: bool)

  /** The transparency handling: only a JPEG target flattens, and only an RGBA or LA image;
      an RGBA image is pasted through its alpha band, an LA image without a mask. */
  function Prepare(target: string, mode: string): (p: Preparation)
    ensures p.OntoWhite? <==> Upper(target) == "JPEG" && mode in AlphaModes
    ensures p.OntoWhite? ==> (p.alphaMask <==> mode == "RGBA")
  {
    if Upper(target) == "JPEG" && mode in AlphaModes then OntoWhite(mode == "RGBA") else AsIs
  }

  /** The `quality` passed to `save` and recorded in the metadata: only for lossy targets. */
  function SaveQuality(target: string, quality: int): (q: Option<int>)
    ensures q.Some? <==> Upper(target) in LossyFormats
    ensures q.Some? ==> q.value == quality
  {
    if Upper(target) in LossyFormats then Some(quality) else None
  }

  /** What the converter saved: the prepared image, the format name and the quality setting. */
  datatype Saved = Saved(path: string, preparation: Preparation, format: string, quality: Option<int>)

  datatype FormatRun = FormatRun(result: ProcessingResult, saved: Option<Saved>)

  /** `FormatConverter.process`. `loaded` is the image's mode, or the message of the exception
      raised while opening or saving it. */
  function ConvertFormat(inputPath: string, outputPath: Option<string>, loaded: Result<string, string>,
                         target: string, quality: int, urlFor: string -> string): (run: FormatRun)
    ensures run.result.success <==> loaded.Ok?
    ensures run.saved.Some? <==> loaded.Ok? && outputPath.Some?
    ensures run.saved.Some? ==> run.saved.value.path == outputPath.value && run.saved.value.format == Upper(target)
  {
    match loaded
    case Err(e) => FormatRun(ProcessingResult(false, "Failed to convert image format: " + e), None)
    case Ok(mode) =>
      var format := Upper(target);
      if outputPath.Some? then
        var out := outputPath.value;
        var q := SaveQuality(target, quality);
        FormatRun(ProcessingResult(true, "Image converted to " + format, Some(out), Some(OutputUrl(urlFor, out)),
                                   Some(map["original_format" := JStr(StripStart(Upper(Suffix(inputPath)), IsDot)),
                                            "target_format" := JStr(format),
                                            "quality" := if q.Some? then JInt(q.value) else JNull])),
                  Some(Saved(out, Prepare(target, mode), format, q)))
      else
        FormatRun(ProcessingResult(true, "Image converted to " + format + " in memory",
                                   metadata := Some(map["target_format" := JStr(format)])),
                  None)
  }

  lemma UpperIdempotent(s: string)
    ensures Upper(Upper(s)) == Upper(s)
  {
  }

  /** The converter reads the target format through `upper()` only: any spelling of a format
      name behaves as its upper-case form. */
  lemma ConvertFormatIgnoresCase(inputPath: string, outputPath: Option<string>, loaded: Result<string, string>,
                                 target: string, quality: int, urlFor: string -> string)
    ensures ConvertFormat(inputPath, outputPath, loaded, Upper(target), quality, urlFor)
            == ConvertFormat(inputPath, outputPath, loaded, target, quality, urlFor)
  {
    UpperIdempotent(target);
  }

  /** A saved conversion records the quality exactly for JPEG and WEBP and `null` otherwise, and
      flattens onto white exactly for a JPEG target from an RGBA or LA image. */
  lemma ConvertFormatRules(inputPath: string, out: string, mode: string, target: string, quality: int,
                           urlFor: string -> string)
    ensures var run := ConvertFormat(inputPath, Some(out), Ok(mode), target, quality, urlFor);
            var s := run.saved.value;
            run.result.success && run.saved.Some? && s.format == Upper(target) &&
            (s.quality == Some(quality) <==> Upper(target) in LossyFormats) &&
            (s.quality.None? <==> Upper(target) !in LossyFormats) &&
            (run.result.metadata.value["quality"] == JNull <==> Upper(target) !in LossyFormats) &&
            (s.preparation.OntoWhite? <==> Upper(target) == "JPEG" && mode in AlphaModes)
  {
  }
}
